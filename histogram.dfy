/** Counting rows per key, as pandas' `Series.value_counts()` and
    `DataFrame.groupby(key).size()` do it: one bin per distinct key present,
    holding the number of times that key occurs. Here the bins come in order
    of first appearance; pandas orders them differently (`value_counts` by
    descending count, `groupby().size()` by ascending key), and that order is
    not modelled. */
module Histogram {

  datatype Bin = Bin(key: string, count: nat)

  /** The keys that have a bin. */
  function Keys(h: seq<Bin>): set<string>
  {
    if h == [] then {} else {h[0].key} + Keys(h[1..])
  }

  /** No key has two bins. */
  ghost predicate DistinctKeys(h: seq<Bin>)
  {
    h == [] || (h[0].key !in Keys(h[1..]) && DistinctKeys(h[1..]))
  }

  /** Every bin counts at least one occurrence. */
  ghost predicate Positive(h: seq<Bin>)
  {
    forall b :: b in h ==> b.count >= 1
  }

  /** The count recorded for `k`, zero when `k` has no bin. */
  function CountOf(h: seq<Bin>, k: string): nat
  {
    if h == [] then 0 else if h[0].key == k then h[0].count else CountOf(h[1..], k)
  }

  /** The sum of all counts. */
  function Total(h: seq<Bin>): nat
  {
    if h == [] then 0 else h[0].count + Total(h[1..])
  }

  /** Records one more occurrence of `k`. */
  function Tally(h: seq<Bin>, k: string): (tallied: seq<Bin>)
    ensures Total(tallied) == Total(h) + 1
    decreases |h|
  {
    if h == [] then [Bin(k, 1)]
    else if h[0].key == k then [Bin(k, h[0].count + 1)] + h[1..]
    else [h[0]] + Tally(h[1..], k)
  }

  /** The histogram of a column of keys; its counts add up to the number of
      keys. */
  function CountBy(keys: seq<string>): (h: seq<Bin>)
    ensures Total(h) == |keys|
    decreases |keys|
  {
    if keys == [] then [] else Tally(CountBy(keys[..|keys| - 1]), keys[|keys| - 1])
  }

  /** Tallying one occurrence adds it to the count of its key and to the
      total, adds the key if it was absent, and keeps the bins distinct and
      positive. */
  lemma {:induction false} TallyCounts(h: seq<Bin>, k: string)
    requires DistinctKeys(h) && Positive(h)
    ensures DistinctKeys(Tally(h, k)) && Positive(Tally(h, k))
    ensures Keys(Tally(h, k)) == Keys(h) + {k}
    ensures Total(Tally(h, k)) == Total(h) + 1
    ensures forall x :: CountOf(Tally(h, k), x) == CountOf(h, x) + if x == k then 1 else 0
    decreases |h|
  {
    if h != [] && h[0].key != k {
      TallyCounts(h[1..], k);
      var t := Tally(h[1..], k);
      assert Tally(h, k) == [h[0]] + t;
      assert ([h[0]] + t)[1..] == t;
    } else if h != [] {
      assert (h[0].key == k);
      assert Tally(h, k)[1..] == h[1..];
      CountOfAbsent(h[1..], k);
    }
  }

  /** A key without a bin has count zero. */
  lemma {:induction false} CountOfAbsent(h: seq<Bin>, k: string)
    requires k !in Keys(h)
    ensures CountOf(h, k) == 0
    decreases |h|
  {
    if h != [] {
      CountOfAbsent(h[1..], k);
    }
  }

  /** The histogram of a column has one bin per distinct key of the column,
      every count is at least one and equals the number of occurrences of
      its key, and the counts add up to the length of the column. */
  lemma {:induction false} CountByCorrect(keys: seq<string>)
    ensures DistinctKeys(CountBy(keys)) && Positive(CountBy(keys))
    ensures Keys(CountBy(keys)) == set x | x in keys
    ensures forall x :: CountOf(CountBy(keys), x) == multiset(keys)[x]
    ensures Total(CountBy(keys)) == |keys|
    decreases |keys|
  {
    if keys != [] {
      var init, last := keys[..|keys| - 1], keys[|keys| - 1];
      assert keys == init + [last];
      CountByCorrect(init);
      TallyCounts(CountBy(init), last);
      assert (set x | x in keys) == (set x | x in init) + {last};
    }
  }
}
