/** The sensor table the dashboard works on, its columns, and the boolean
    masks built from them (the column-wise comparisons `isin`, `==`, `!=`,
    `>=`, `<=`, `>` and the element-wise `&` and `|` of pandas). */
module Table {
  import opened Frame

  /** One sensor reading of one machine. `date` is the calendar day as a day
      number and `hour` the hour of the day, both already derived from the
      reading's timestamp. `maintenanceRequired` is the raw text of the
      column ("Yes" or "No" in the data set). */
  datatype Record = Record(
    machine: string,
    machineStatus: string,
    failureType: string,
    maintenanceRequired: string,
    date: int,
    hour: int,
    temperature: real,
    vibration: real)

  /** The text columns, by their column names. */
  datatype TextColumn = Machine | MachineStatus | FailureType | MaintenanceRequired

  function Text(r: Record, col: TextColumn): string
  {
    match col
    case Machine => r.machine
    case MachineStatus => r.machineStatus
    case FailureType => r.failureType
    case MaintenanceRequired => r.maintenanceRequired
  }

  /** `rows[col]`: one text column of the table, in row order. */
  function Column(rows: seq<Record>, col: TextColumn): seq<string>
  {
    seq(|rows|, i requires 0 <= i < |rows| => Text(rows[i], col))
  }

  /** `rows[col].isin(selected)` */
  function IsIn(rows: seq<Record>, col: TextColumn, selected: set<string>): seq<bool>
  {
    seq(|rows|, i requires 0 <= i < |rows| => Text(rows[i], col) in selected)
  }

  /** `rows[col] == v` */
  function Equals(rows: seq<Record>, col: TextColumn, v: string): seq<bool>
  {
    seq(|rows|, i requires 0 <= i < |rows| => Text(rows[i], col) == v)
  }

  /** `rows[col] != v` */
  function NotEquals(rows: seq<Record>, col: TextColumn, v: string): seq<bool>
  {
    seq(|rows|, i requires 0 <= i < |rows| => Text(rows[i], col) != v)
  }

  /** `rows['date'] >= d` */
  function DateAtLeast(rows: seq<Record>, d: int): seq<bool>
  {
    seq(|rows|, i requires 0 <= i < |rows| => rows[i].date >= d)
  }

  /** `rows['date'] <= d` */
  function DateAtMost(rows: seq<Record>, d: int): seq<bool>
  {
    seq(|rows|, i requires 0 <= i < |rows| => rows[i].date <= d)
  }

  /** `rows['temperature'] > limit` */
  function TemperatureAbove(rows: seq<Record>, limit: int): seq<bool>
  {
    seq(|rows|, i requires 0 <= i < |rows| => rows[i].temperature > limit as real)
  }

  /** `rows['vibration'] > limit` */
  function VibrationAbove(rows: seq<Record>, limit: int): seq<bool>
  {
    seq(|rows|, i requires 0 <= i < |rows| => rows[i].vibration > limit as real)
  }

  /** Element-wise `a & b`. */
  function And(a: seq<bool>, b: seq<bool>): seq<bool>
    requires |a| == |b|
  {
    seq(|a|, i requires 0 <= i < |a| => a[i] && b[i])
  }

  /** Element-wise `a | b`. */
  function Or(a: seq<bool>, b: seq<bool>): seq<bool>
    requires |a| == |b|
  {
    seq(|a|, i requires 0 <= i < |a| => a[i] || b[i])
  }

  /** Taking a column of a selection is selecting from the column. */
  lemma {:induction false} ColumnOfWhere(rows: seq<Record>, mask: seq<bool>, col: TextColumn)
    requires |mask| == |rows|
    ensures Column(Where(rows, mask), col) == Where(Column(rows, col), mask)
    decreases |rows|
  {
    if rows != [] {
      ColumnOfWhere(rows[1..], mask[1..], col);
      assert Column(rows[1..], col) == Column(rows, col)[1..];
      var rest := Where(rows[1..], mask[1..]);
      if mask[0] {
        assert Column([rows[0]] + rest, col) == [Text(rows[0], col)] + Column(rest, col);
      } else {
        assert Where(rows, mask) == rest;
      }
    }
  }

  /** A key occurs in a text column exactly as often as there are rows whose
      entry in that column equals it. */
  lemma {:induction false} ColumnCount(rows: seq<Record>, col: TextColumn, k: string)
    ensures multiset(Column(rows, col))[k] == |Where(rows, Equals(rows, col, k))|
    decreases |rows|
  {
    if rows != [] {
      ColumnCount(rows[1..], col, k);
      var column, mask := Column(rows, col), Equals(rows, col, k);
      assert column == [column[0]] + Column(rows[1..], col);
      assert mask[1..] == Equals(rows[1..], col, k);
      var rest := Where(rows[1..], mask[1..]);
      assert |Where(rows, mask)| == |rest| + if mask[0] then 1 else 0;
      assert multiset(column)[k] == multiset(Column(rows[1..], col))[k] + if mask[0] then 1 else 0;
    }
  }

  /** A key is in a text column exactly when some row carries it there. */
  lemma ColumnKeys(rows: seq<Record>, col: TextColumn)
    ensures forall k :: k in Column(rows, col) <==> exists r :: r in rows && Text(r, col) == k
  {
    forall k | exists r :: r in rows && Text(r, col) == k
      ensures k in Column(rows, col)
    {
      var r :| r in rows && Text(r, col) == k;
      var i :| 0 <= i < |rows| && rows[i] == r;
      assert Column(rows, col)[i] == k;
    }
  }
}
