/** The record selection and counting behind the manufacturing dashboard:
    the day-part column derived at load time, the sidebar's faceted filter
    and maintenance choice, the anomaly view, and the counting summaries
    shown as metrics and charts. Every operation builds a new table from its
    input; nothing is updated in place. */
module Dashboard {
  import opened Binning
  import opened Frame
  import opened Histogram
  import opened Table

  // ---------------------------------------------------------------------
  // Day part of a reading (load time)
  // ---------------------------------------------------------------------

  /** The four labels of the day: night, morning, afternoon, evening. */
  datatype DayPart = Madrugada | Manha | Tarde | Noite

  /** The day part of an hour: right-open bins [0,6), [6,12), [12,18),
      [18,24); an hour outside [0,24) gets no day part. */
  function DayPartOf(hour: int): (part: Option<DayPart>)
    ensures part.Some? <==> 0 <= hour < 24
  {
    Cut(hour, [0, 6, 12, 18, 24], [Madrugada, Manha, Tarde, Noite])
  }

  /** Each day part is exactly its right-open interval of hours, so 6 is
      morning and 18 is evening; hours outside [0,24) have none. */
  lemma DayPartBuckets(hour: int)
    ensures DayPartOf(hour) == Some(Madrugada) <==> 0 <= hour < 6
    ensures DayPartOf(hour) == Some(Manha) <==> 6 <= hour < 12
    ensures DayPartOf(hour) == Some(Tarde) <==> 12 <= hour < 18
    ensures DayPartOf(hour) == Some(Noite) <==> 18 <= hour < 24
    ensures DayPartOf(hour) == None <==> hour < 0 || 24 <= hour
  {
  }

  // ---------------------------------------------------------------------
  // Sidebar filter
  // ---------------------------------------------------------------------

  /** The sidebar's selections: machines, an inclusive date range, machine
      statuses and failure types. */
  datatype Criteria = Criteria(
    machines: set<string>,
    firstDate: int,
    lastDate: int,
    statuses: set<string>,
    failureTypes: set<string>)

  /** The sidebar's maintenance radio button. */
  datatype MaintenanceChoice = Todas | ApenasComManutencao | SemManutencao

  /** A row passes the facets when each of its facets is selected and its
      date lies in the range, both ends included. */
  predicate PassesFacets(c: Criteria, r: Record)
  {
    && r.machine in c.machines
    && c.firstDate <= r.date <= c.lastDate
    && r.machineStatus in c.statuses
    && r.failureType in c.failureTypes
  }

  /** A row passes the maintenance choice: any value under 'Todas', only
      "Yes" under 'Apenas com manutenção', only "No" under 'Sem manutenção'. */
  predicate PassesMaintenance(choice: MaintenanceChoice, r: Record)
  {
    match choice
    case Todas => true
    case ApenasComManutencao => r.maintenanceRequired == "Yes"
    case SemManutencao => r.maintenanceRequired == "No"
  }

  /** The conjunction of the five column-wise comparisons. */
  function FacetMask(rows: seq<Record>, c: Criteria): seq<bool>
  {
    And(And(And(And(
      IsIn(rows, Machine, c.machines),
      DateAtLeast(rows, c.firstDate)),
      DateAtMost(rows, c.lastDate)),
      IsIn(rows, MachineStatus, c.statuses)),
      IsIn(rows, FailureType, c.failureTypes))
  }

  /** The rows passing the sidebar's four facets; no more rows than the table. */
  function FacetFilter(rows: seq<Record>, c: Criteria): (view: seq<Record>)
    ensures |view| <= |rows|
  {
    WhereSize(rows, FacetMask(rows, c));
    Where(rows, FacetMask(rows, c))
  }

  /** The maintenance choice applied to an already filtered view. */
  function ApplyMaintenance(view: seq<Record>, choice: MaintenanceChoice): (kept: seq<Record>)
    ensures |kept| <= |view|
  {
    match choice
    case Todas => view
    case ApenasComManutencao =>
      WhereSize(view, Equals(view, MaintenanceRequired, "Yes"));
      Where(view, Equals(view, MaintenanceRequired, "Yes"))
    case SemManutencao =>
      WhereSize(view, Equals(view, MaintenanceRequired, "No"));
      Where(view, Equals(view, MaintenanceRequired, "No"))
  }

  /** The view every tab of the dashboard works on. */
  function FilteredView(rows: seq<Record>, c: Criteria, choice: MaintenanceChoice): (view: seq<Record>)
    ensures |view| <= |rows|
  {
    ApplyMaintenance(FacetFilter(rows, c), choice)
  }

  /** The facet filter keeps, in order, exactly the rows that pass the facets,
      each as often as the table holds it. */
  lemma FacetFilterSelects(rows: seq<Record>, c: Criteria)
    ensures IsSubsequence(FacetFilter(rows, c), rows)
    ensures forall r :: r in FacetFilter(rows, c) <==> r in rows && PassesFacets(c, r)
    ensures forall r :: multiset(FacetFilter(rows, c))[r] ==
                        if PassesFacets(c, r) then multiset(rows)[r] else 0
  {
    WhereIsSubsequence(rows, FacetMask(rows, c));
    WhereByRowTest(rows, FacetMask(rows, c), r => PassesFacets(c, r));
  }

  /** 'Todas' leaves the view unchanged; the other two choices keep, in
      order, exactly the rows whose maintenance text is "Yes", resp. "No". */
  lemma MaintenanceFilterSelects(view: seq<Record>, choice: MaintenanceChoice)
    ensures choice == Todas ==> ApplyMaintenance(view, choice) == view
    ensures IsSubsequence(ApplyMaintenance(view, choice), view)
    ensures forall r :: r in ApplyMaintenance(view, choice) <==> r in view && PassesMaintenance(choice, r)
    ensures forall r :: multiset(ApplyMaintenance(view, choice))[r] ==
                        if PassesMaintenance(choice, r) then multiset(view)[r] else 0
  {
    match choice
    case Todas =>
      WhereIsSubsequence(view, seq(|view|, i => true));
      WhereAllTrue(view, seq(|view|, i => true));
    case ApenasComManutencao =>
      WhereIsSubsequence(view, Equals(view, MaintenanceRequired, "Yes"));
      WhereByRowTest(view, Equals(view, MaintenanceRequired, "Yes"), r => PassesMaintenance(choice, r));
    case SemManutencao =>
      WhereIsSubsequence(view, Equals(view, MaintenanceRequired, "No"));
      WhereByRowTest(view, Equals(view, MaintenanceRequired, "No"), r => PassesMaintenance(choice, r));
  }

  /** A row whose maintenance text is neither "Yes" nor "No" survives the
      maintenance choice only under 'Todas'. */
  lemma OtherMaintenanceOnlyUnderTodas(view: seq<Record>, choice: MaintenanceChoice, r: Record)
    requires r.maintenanceRequired != "Yes" && r.maintenanceRequired != "No"
    ensures r in ApplyMaintenance(view, choice) <==> choice == Todas && r in view
  {
    MaintenanceFilterSelects(view, choice);
  }

  /** The filtered view is an order-preserving subsequence of the table and
      holds exactly the rows that pass the facets and the maintenance choice,
      each as often as the table does. */
  lemma FilteredViewSelects(rows: seq<Record>, c: Criteria, choice: MaintenanceChoice)
    ensures IsSubsequence(FilteredView(rows, c, choice), rows)
    ensures forall r :: r in FilteredView(rows, c, choice) <==>
                        r in rows && PassesFacets(c, r) && PassesMaintenance(choice, r)
    ensures forall r :: multiset(FilteredView(rows, c, choice))[r] ==
                        if PassesFacets(c, r) && PassesMaintenance(choice, r) then multiset(rows)[r] else 0
  {
    var facets := FacetFilter(rows, c);
    FacetFilterSelects(rows, c);
    MaintenanceFilterSelects(facets, choice);
    SubsequenceTransitive(FilteredView(rows, c, choice), facets, rows);
  }

  /** An empty machine, status or failure-type selection empties the view,
      since membership in an empty selection fails for every row. */
  lemma EmptySelectionEmptiesView(rows: seq<Record>, c: Criteria, choice: MaintenanceChoice)
    requires c.machines == {} || c.statuses == {} || c.failureTypes == {}
    ensures FilteredView(rows, c, choice) == []
  {
  }

  /** Selecting every machine, status and failure type of the table, a date
      range covering every row, and 'Todas' keeps the whole table. */
  lemma FullSelectionKeepsAll(rows: seq<Record>, c: Criteria)
    requires forall r :: r in rows ==>
               && r.machine in c.machines
               && c.firstDate <= r.date <= c.lastDate
               && r.machineStatus in c.statuses
               && r.failureType in c.failureTypes
    ensures FilteredView(rows, c, Todas) == rows
  {
    var mask := FacetMask(rows, c);
    forall i | 0 <= i < |rows|
      ensures mask[i]
    {
      assert rows[i] in rows;
    }
    WhereAllTrue(rows, mask);
  }

  // ---------------------------------------------------------------------
  // Anomaly view
  // ---------------------------------------------------------------------

  /** A reading is anomalous when its temperature or its vibration strictly
      exceeds its limit. */
  predicate IsAnomalous(r: Record, tempLimit: int, vibLimit: int)
  {
    r.temperature > tempLimit as real || r.vibration > vibLimit as real
  }

  /** The anomalous readings of the view; no more rows than the view. */
  function Anomalies(view: seq<Record>, tempLimit: int, vibLimit: int): (anomalies: seq<Record>)
    ensures |anomalies| <= |view|
  {
    WhereSize(view, Or(TemperatureAbove(view, tempLimit), VibrationAbove(view, vibLimit)));
    Where(view, Or(TemperatureAbove(view, tempLimit), VibrationAbove(view, vibLimit)))
  }

  /** The anomalies are, in order, exactly the anomalous rows of the view;
      a reading equal to both limits is not one of them. */
  lemma AnomaliesSelect(view: seq<Record>, tempLimit: int, vibLimit: int)
    ensures IsSubsequence(Anomalies(view, tempLimit, vibLimit), view)
    ensures forall r :: r in Anomalies(view, tempLimit, vibLimit) <==>
                        r in view && IsAnomalous(r, tempLimit, vibLimit)
    ensures forall r :: multiset(Anomalies(view, tempLimit, vibLimit))[r] ==
                        if IsAnomalous(r, tempLimit, vibLimit) then multiset(view)[r] else 0
  {
    var mask := Or(TemperatureAbove(view, tempLimit), VibrationAbove(view, vibLimit));
    WhereIsSubsequence(view, mask);
    WhereByRowTest(view, mask, r => IsAnomalous(r, tempLimit, vibLimit));
  }

  /** The anomalies of the filtered view are a subsequence of the table too. */
  lemma FilteredAnomaliesInTable(rows: seq<Record>, c: Criteria, choice: MaintenanceChoice,
                                 tempLimit: int, vibLimit: int)
    ensures IsSubsequence(Anomalies(FilteredView(rows, c, choice), tempLimit, vibLimit), rows)
  {
    var view := FilteredView(rows, c, choice);
    AnomaliesSelect(view, tempLimit, vibLimit);
    FilteredViewSelects(rows, c, choice);
    SubsequenceTransitive(Anomalies(view, tempLimit, vibLimit), view, rows);
  }

  /** Raising either limit never adds a row: the anomalies under higher
      limits are a subsequence of those under lower ones. */
  lemma AnomaliesMonotone(view: seq<Record>, tempLow: int, vibLow: int, tempHigh: int, vibHigh: int)
    requires tempLow <= tempHigh && vibLow <= vibHigh
    ensures IsSubsequence(Anomalies(view, tempHigh, vibHigh), Anomalies(view, tempLow, vibLow))
    ensures |Anomalies(view, tempHigh, vibHigh)| <= |Anomalies(view, tempLow, vibLow)|
  {
    var wide := Or(TemperatureAbove(view, tempLow), VibrationAbove(view, vibLow));
    var narrow := Or(TemperatureAbove(view, tempHigh), VibrationAbove(view, vibHigh));
    WhereMonotone(view, wide, narrow);
    SubsequenceMultiset(Where(view, narrow), Where(view, wide));
  }

  /** Three readings at 02:00, 08:00 and 20:00 with limits 90 and 70: the
      first (temperature 95) and the second (vibration 80) are anomalous, the
      third is not; their day parts are night, morning and evening. */
  lemma AnomalyScenario()
    ensures
      var m1 := Record("M1", "Running", "Normal", "No", 0, 2, 95.0, 10.0);
      var m2 := Record("M2", "Running", "Normal", "No", 0, 8, 50.0, 80.0);
      var m3 := Record("M3", "Running", "Normal", "No", 0, 20, 40.0, 20.0);
      && Anomalies([m1, m2, m3], 90, 70) == [m1, m2]
      && DayPartOf(m1.hour) == Some(Madrugada)
      && DayPartOf(m2.hour) == Some(Manha)
      && DayPartOf(m3.hour) == Some(Noite)
  {
    var m1 := Record("M1", "Running", "Normal", "No", 0, 2, 95.0, 10.0);
    var m2 := Record("M2", "Running", "Normal", "No", 0, 8, 50.0, 80.0);
    var m3 := Record("M3", "Running", "Normal", "No", 0, 20, 40.0, 20.0);
    var view := [m1, m2, m3];
    var mask := Or(TemperatureAbove(view, 90), VibrationAbove(view, 70));
    assert mask == [true, true, false];
    assert Where([m3], [false]) == [];
    assert Where([m2, m3], [true, false]) == [m2];
    assert Where(view, mask) == [m1, m2];
    DayPartBuckets(2);
    DayPartBuckets(8);
    DayPartBuckets(20);
  }

  // ---------------------------------------------------------------------
  // Failure metrics
  // ---------------------------------------------------------------------

  /** The rows whose machine status is "Failure". */
  function Failures(view: seq<Record>): (failed: seq<Record>)
    ensures |failed| <= |view|
  {
    WhereSize(view, Equals(view, MachineStatus, "Failure"));
    Where(view, Equals(view, MachineStatus, "Failure"))
  }

  function FailureCount(view: seq<Record>): (n: nat)
    ensures n <= |view|
  {
    |Failures(view)|
  }

  /** The failure rate in percent; zero for an empty view. */
  function FailureRate(view: seq<Record>): (rate: real)
    ensures 0.0 <= rate <= 100.0
  {
    if |view| > 0 then
      PercentBounds(FailureCount(view) as real, |view| as real);
      FailureCount(view) as real / |view| as real * 100.0
    else 0.0
  }

  /** The failure count is the number of "Failure" entries of the status
      column; it is zero exactly when no row failed and equals the length of
      the view exactly when every row failed. */
  lemma FailureCountBounds(view: seq<Record>)
    ensures FailureCount(view) <= |view|
    ensures FailureCount(view) == multiset(Column(view, MachineStatus))["Failure"]
    ensures FailureCount(view) == 0 <==> forall r :: r in view ==> r.machineStatus != "Failure"
    ensures FailureCount(view) == |view| <==> forall r :: r in view ==> r.machineStatus == "Failure"
  {
    var mask := Equals(view, MachineStatus, "Failure");
    WhereSize(view, mask);
    ColumnCount(view, MachineStatus, "Failure");
    if forall i :: 0 <= i < |view| ==> mask[i] {
      forall r | r in view ensures r.machineStatus == "Failure" {
        var i :| 0 <= i < |view| && view[i] == r;
        assert mask[i];
      }
    }
    if forall i :: 0 <= i < |view| ==> !mask[i] {
      forall r | r in view ensures r.machineStatus != "Failure" {
        var i :| 0 <= i < |view| && view[i] == r;
        assert !mask[i];
      }
    }
  }

  /** The failure rate lies between 0 and 100; it is 0 exactly when no row
      failed, and, for a non-empty view, 100 exactly when every row failed. */
  lemma FailureRateBounds(view: seq<Record>)
    ensures 0.0 <= FailureRate(view) <= 100.0
    ensures FailureRate(view) == 0.0 <==> forall r :: r in view ==> r.machineStatus != "Failure"
    ensures |view| > 0 ==>
              (FailureRate(view) == 100.0 <==> forall r :: r in view ==> r.machineStatus == "Failure")
  {
    FailureCountBounds(view);
    if |view| > 0 {
      PercentBounds(FailureCount(view) as real, |view| as real);
    }
  }

  /** A part of a positive whole, in percent, lies between 0 and 100 and
      reaches either end only when the part is nothing or everything. */
  lemma PercentBounds(part: real, whole: real)
    requires 0.0 <= part <= whole && 0.0 < whole
    ensures 0.0 <= part / whole * 100.0 <= 100.0
    ensures part / whole * 100.0 == 0.0 <==> part == 0.0
    ensures part / whole * 100.0 == 100.0 <==> part == whole
  {
  }

  // ---------------------------------------------------------------------
  // Counting summaries
  // ---------------------------------------------------------------------

  /** `view['machine_status'].value_counts()` */
  function StatusCounts(view: seq<Record>): (h: seq<Bin>)
    ensures Total(h) == |view|
  {
    CountBy(Column(view, MachineStatus))
  }

  /** The rows whose failure type is not "Normal". */
  function NonNormalRows(view: seq<Record>): (faults: seq<Record>)
    ensures |faults| <= |view|
  {
    WhereSize(view, NotEquals(view, FailureType, "Normal"));
    Where(view, NotEquals(view, FailureType, "Normal"))
  }

  /** `NonNormalRows(view)['failure_type'].value_counts()` */
  function FailureTypeCounts(view: seq<Record>): (h: seq<Bin>)
    ensures Total(h) == |NonNormalRows(view)|
  {
    CountBy(Column(NonNormalRows(view), FailureType))
  }

  /** The rows whose maintenance text is "Yes". */
  function MaintenanceRows(view: seq<Record>): (due: seq<Record>)
    ensures |due| <= |view|
  {
    WhereSize(view, Equals(view, MaintenanceRequired, "Yes"));
    Where(view, Equals(view, MaintenanceRequired, "Yes"))
  }

  /** `MaintenanceRows(view).groupby('machine').size()` */
  function MaintenanceByMachine(view: seq<Record>): (h: seq<Bin>)
    ensures Total(h) == |MaintenanceRows(view)|
  {
    CountBy(Column(MaintenanceRows(view), Machine))
  }

  /** One bin per status present in the view, each counting that status's
      rows (at least one), and the counts add up to the view's length. */
  lemma StatusCountsSummary(view: seq<Record>)
    ensures DistinctKeys(StatusCounts(view)) && Positive(StatusCounts(view))
    ensures forall s :: s in Keys(StatusCounts(view)) <==> exists r :: r in view && r.machineStatus == s
    ensures forall s :: CountOf(StatusCounts(view), s) == |Where(view, Equals(view, MachineStatus, s))|
    ensures Total(StatusCounts(view)) == |view|
  {
    CountByCorrect(Column(view, MachineStatus));
    ColumnKeys(view, MachineStatus);
    forall s ensures CountOf(StatusCounts(view), s) == |Where(view, Equals(view, MachineStatus, s))| {
      ColumnCount(view, MachineStatus, s);
    }
  }

  /** One bin per failure type other than "Normal" present in the view, each
      counting that type's rows (at least one); "Normal" gets none, and the
      counts add up to the number of non-"Normal" rows. */
  lemma FailureTypeCountsSummary(view: seq<Record>)
    ensures DistinctKeys(FailureTypeCounts(view)) && Positive(FailureTypeCounts(view))
    ensures forall t :: t in Keys(FailureTypeCounts(view)) <==>
                        t != "Normal" && exists r :: r in view && r.failureType == t
    ensures forall t :: t != "Normal" ==>
                        CountOf(FailureTypeCounts(view), t) == |Where(view, Equals(view, FailureType, t))|
    ensures CountOf(FailureTypeCounts(view), "Normal") == 0
    ensures Total(FailureTypeCounts(view)) == |NonNormalRows(view)|
  {
    CountByCorrect(Column(NonNormalRows(view), FailureType));
    FailureTypeKeys(view);
    forall t
      ensures CountOf(FailureTypeCounts(view), t) ==
              if t == "Normal" then 0 else |Where(view, Equals(view, FailureType, t))|
    {
      FailureTypeOccurrences(view, t);
      ColumnCount(view, FailureType, t);
    }
  }

  /** The failure types among the non-"Normal" rows are the failure types of
      the view other than "Normal". */
  lemma FailureTypeKeys(view: seq<Record>)
    ensures forall t :: t in Column(NonNormalRows(view), FailureType) <==>
                        t != "Normal" && exists r :: r in view && r.failureType == t
  {
    var faults := NonNormalRows(view);
    ColumnKeys(faults, FailureType);
    WhereByRowTest(view, NotEquals(view, FailureType, "Normal"), (r: Record) => r.failureType != "Normal");
  }

  /** A failure type other than "Normal" occurs among the non-"Normal" rows
      as often as in the whole view; "Normal" does not occur there. */
  lemma FailureTypeOccurrences(view: seq<Record>, t: string)
    ensures multiset(Column(NonNormalRows(view), FailureType))[t] ==
            if t == "Normal" then 0 else multiset(Column(view, FailureType))[t]
  {
    var mask := NotEquals(view, FailureType, "Normal");
    ColumnOfWhere(view, mask, FailureType);
    WhereByRowTest(Column(view, FailureType), mask, (x: string) => x != "Normal");
  }

  /** One bin per machine that has a maintenance-required row in the view,
      each counting that machine's maintenance-required rows (at least one),
      and the counts add up to the number of maintenance-required rows. */
  lemma MaintenanceByMachineSummary(view: seq<Record>)
    ensures DistinctKeys(MaintenanceByMachine(view)) && Positive(MaintenanceByMachine(view))
    ensures forall m :: m in Keys(MaintenanceByMachine(view)) <==>
                        exists r :: r in view && r.maintenanceRequired == "Yes" && r.machine == m
    ensures forall m :: CountOf(MaintenanceByMachine(view), m) ==
                        |Where(MaintenanceRows(view), Equals(MaintenanceRows(view), Machine, m))|
    ensures Total(MaintenanceByMachine(view)) == |MaintenanceRows(view)|
  {
    var due := MaintenanceRows(view);
    CountByCorrect(Column(due, Machine));
    ColumnKeys(due, Machine);
    WhereByRowTest(view, Equals(view, MaintenanceRequired, "Yes"), (r: Record) => r.maintenanceRequired == "Yes");
    forall m ensures CountOf(MaintenanceByMachine(view), m) == |Where(due, Equals(due, Machine, m))| {
      ColumnCount(due, Machine, m);
    }
  }
}
