/** Boolean-mask row selection over an ordered table, as pandas does it with
    `frame[mask]`: a mask is a sequence of booleans as long as the table, and
    the selection keeps exactly the rows whose mask entry is true, in their
    original order. */
module Frame {

  /** `rows[mask]`: the rows whose mask entry is true, in table order.
      The number of rows kept is the number of true entries in the mask. */
  function Where<T>(rows: seq<T>, mask: seq<bool>): (kept: seq<T>)
    requires |mask| == |rows|
    ensures |kept| == multiset(mask)[true]
    decreases |rows|
  {
    if rows == [] then []
    else
      assert mask == [mask[0]] + mask[1..];
      (if mask[0] then [rows[0]] else []) + Where(rows[1..], mask[1..])
  }

  /** `sub` can be obtained from `s` by deleting elements: every element of
      `sub` is matched by an element of `s`, and the matches appear in the
      same relative order. */
  ghost predicate IsSubsequence<T>(sub: seq<T>, s: seq<T>)
    decreases |s|
  {
    if sub == [] then true
    else if s == [] then false
    else (sub[0] == s[0] && IsSubsequence(sub[1..], s[1..])) || IsSubsequence(sub, s[1..])
  }

  /** Skipping a leading element keeps a subsequence a subsequence. */
  lemma SubsequenceOfCons<T>(sub: seq<T>, x: T, s: seq<T>)
    requires IsSubsequence(sub, s)
    ensures IsSubsequence(sub, [x] + s)
  {
  }

  /** Putting the same element in front of both keeps a subsequence a
      subsequence. */
  lemma SubsequenceBothCons<T>(x: T, sub: seq<T>, s: seq<T>)
    requires IsSubsequence(sub, s)
    ensures IsSubsequence([x] + sub, [x] + s)
  {
  }

  /** A subsequence takes no element more often than the sequence holds it,
      so it is also no longer. */
  lemma {:induction false} SubsequenceMultiset<T>(sub: seq<T>, s: seq<T>)
    requires IsSubsequence(sub, s)
    ensures multiset(sub) <= multiset(s)
    ensures |sub| <= |s|
    ensures forall x :: x in sub ==> x in s
    decreases |s|
  {
    if sub != [] {
      assert s == [s[0]] + s[1..];
      if IsSubsequence(sub, s[1..]) {
        SubsequenceMultiset(sub, s[1..]);
      } else {
        SubsequenceMultiset(sub[1..], s[1..]);
        assert sub == [sub[0]] + sub[1..];
      }
    }
  }

  /** Deleting from a sequence obtained by deleting is still deleting. */
  lemma {:induction false} SubsequenceTransitive<T>(a: seq<T>, b: seq<T>, c: seq<T>)
    requires IsSubsequence(a, b) && IsSubsequence(b, c)
    ensures IsSubsequence(a, c)
    decreases |c|
  {
    if a != [] {
      if IsSubsequence(b, c[1..]) {
        SubsequenceTransitive(a, b, c[1..]);
      } else if a[0] == b[0] && IsSubsequence(a[1..], b[1..]) {
        SubsequenceTransitive(a[1..], b[1..], c[1..]);
      } else {
        SubsequenceTransitive(a, b[1..], c[1..]);
      }
    }
  }

  /** The selection is an order-preserving subsequence of the table. */
  lemma {:induction false} WhereIsSubsequence<T>(rows: seq<T>, mask: seq<bool>)
    requires |mask| == |rows|
    ensures IsSubsequence(Where(rows, mask), rows)
    decreases |rows|
  {
    if rows != [] {
      var rest := Where(rows[1..], mask[1..]);
      WhereIsSubsequence(rows[1..], mask[1..]);
      if mask[0] {
        assert ([rows[0]] + rest)[1..] == rest;
      } else {
        assert Where(rows, mask) == rest;
      }
    }
  }

  /** When the mask entry of every row is the value of one row test `keep`,
      the selection holds each row satisfying `keep` exactly as often as the
      table does, and no other row. */
  lemma {:induction false} WhereByRowTest<T>(rows: seq<T>, mask: seq<bool>, keep: T -> bool)
    requires |mask| == |rows|
    requires forall i :: 0 <= i < |rows| ==> mask[i] == keep(rows[i])
    ensures forall x :: multiset(Where(rows, mask))[x] == if keep(x) then multiset(rows)[x] else 0
    ensures forall x :: x in Where(rows, mask) <==> x in rows && keep(x)
    decreases |rows|
  {
    if rows != [] {
      WhereByRowTest(rows[1..], mask[1..], keep);
      assert rows == [rows[0]] + rows[1..];
      var rest := Where(rows[1..], mask[1..]);
      assert Where(rows, mask) == (if mask[0] then [rows[0]] else []) + rest;
      forall x
        ensures multiset(Where(rows, mask))[x] == if keep(x) then multiset(rows)[x] else 0
      {
        assert multiset(rows)[x] == multiset([rows[0]])[x] + multiset(rows[1..])[x];
      }
      forall x
        ensures x in Where(rows, mask) <==> x in rows && keep(x)
      {
        assert x in Where(rows, mask) <==> multiset(Where(rows, mask))[x] > 0;
      }
    }
  }

  /** The selection keeps every row exactly when the mask has no false entry,
      and keeps none exactly when it has no true entry. */
  lemma {:induction false} WhereSize<T>(rows: seq<T>, mask: seq<bool>)
    requires |mask| == |rows|
    ensures |Where(rows, mask)| <= |rows|
    ensures |Where(rows, mask)| == |rows| <==> forall i :: 0 <= i < |rows| ==> mask[i]
    ensures |Where(rows, mask)| == 0 <==> forall i :: 0 <= i < |rows| ==> !mask[i]
    decreases |rows|
  {
    if rows != [] {
      WhereSize(rows[1..], mask[1..]);
      assert |Where(rows, mask)| == |Where(rows[1..], mask[1..])| + if mask[0] then 1 else 0;
      assert forall i :: 1 <= i < |rows| ==> mask[i] == mask[1..][i - 1];
    }
  }

  /** A mask with no false entry keeps the whole table. */
  lemma {:induction false} WhereAllTrue<T>(rows: seq<T>, mask: seq<bool>)
    requires |mask| == |rows|
    requires forall i :: 0 <= i < |mask| ==> mask[i]
    ensures Where(rows, mask) == rows
    decreases |rows|
  {
    if rows != [] {
      WhereAllTrue(rows[1..], mask[1..]);
    }
  }

  /** A mask that is true in fewer places selects a subsequence of what the
      wider mask selects. */
  lemma {:induction false} WhereMonotone<T>(rows: seq<T>, wide: seq<bool>, narrow: seq<bool>)
    requires |wide| == |rows| && |narrow| == |rows|
    requires forall i :: 0 <= i < |rows| && narrow[i] ==> wide[i]
    ensures IsSubsequence(Where(rows, narrow), Where(rows, wide))
    decreases |rows|
  {
    if rows != [] {
      var n := Where(rows[1..], narrow[1..]);
      var w := Where(rows[1..], wide[1..]);
      assert forall i :: 0 <= i < |rows| - 1 && narrow[1..][i] ==> wide[1..][i] by {
        assert forall i :: 0 <= i < |rows| - 1 ==> narrow[1..][i] == narrow[i + 1] && wide[1..][i] == wide[i + 1];
      }
      WhereMonotone(rows[1..], wide[1..], narrow[1..]);
      if narrow[0] {
        assert Where(rows, narrow) == [rows[0]] + n;
        assert Where(rows, wide) == [rows[0]] + w;
        SubsequenceBothCons(rows[0], n, w);
      } else if wide[0] {
        assert Where(rows, narrow) == n;
        assert Where(rows, wide) == [rows[0]] + w;
        SubsequenceOfCons(n, rows[0], w);
      } else {
        assert Where(rows, narrow) == n;
        assert Where(rows, wide) == w;
      }
    }
  }
}
