/**
 The statistics of one account over time: deliveries are counted and the monthly job runs, in any order
 that keeps to the calendar. The totals then are the sum of everything counted.
 */
module StatsRuns {
  import opened Options
  import opened StatsMetrics
  import opened Text
  import opened Seqs
  import opened StatsWriter
  import opened SnapshotJob

  datatype Event =
    | Count(month: string, day: string, metric: Metric, delta: int)
    | RunJob(previousMonth: string, currentMonth: string)

  /** The rows that the job reads. */
  function Recent(rows: seq<Row>, previousMonth: string): seq<Row> {
    RowsFrom(SortRows(rows), SnapshotSk(previousMonth))
  }

  /** What the job writes. */
  function NewSnapshot(rows: seq<Row>, previousMonth: string, currentMonth: string): Row {
    Row(SnapshotSk(currentMonth), map m | m in METRICS :: NewTotal(Recent(rows, previousMonth), currentMonth, m))
  }

  function Handle(rows: seq<Row>, e: Event): seq<Row> {
    match e
    case Count(month, day, metric, delta) => AddDelta(rows, DiffSk(month + "-" + day), metric, delta)
    case RunJob(previousMonth, currentMonth) =>
      if HasSnapshotOf(Recent(rows, previousMonth), currentMonth) then rows
      else rows + [NewSnapshot(rows, previousMonth, currentMonth)]
  }

  function Run(events: seq<Event>): seq<Row> {
    if events == [] then [] else Handle(Run(events[..|events| - 1]), events[|events| - 1])
  }

  /** Everything ever counted. */
  function Counted(events: seq<Event>, m: Metric): int {
    if events == [] then 0
    else
      var e := events[|events| - 1];
      Counted(events[..|events| - 1], m) + if e.Count? && e.metric == m then e.delta else 0
  }

  /** No snapshot yet covers the month. */
  ghost predicate NotCovered(rows: seq<Row>, month: string) {
    forall i :: 0 <= i < |rows| && IsSnapshot(rows[i]) ==> !Below(month, Month(rows[i]))
  }

  /**
   A day is counted before a snapshot covers it; the job runs when the month before has its snapshot, or is
   the first.
   */
  ghost predicate Timely(rows: seq<Row>, e: Event) {
    match e
    case Count(month, day, _, _) => IsMonth(month) && IsDay(day) && NotCovered(rows, month)
    case RunJob(previousMonth, currentMonth) =>
      && IsMonth(previousMonth) && IsMonth(currentMonth) && Below(previousMonth, currentMonth)
      && (|| HasSnapshotOf(rows, currentMonth)
          || (&& JobTime(rows, previousMonth, currentMonth)
              && (HasSnapshotOf(rows, previousMonth) || NothingBefore(rows, previousMonth))))
  }

  ghost predicate AllTimely(events: seq<Event>) {
    events == [] ||
    (AllTimely(events[..|events| - 1]) && Timely(Run(events[..|events| - 1]), events[|events| - 1]))
  }

  ghost predicate Sound(rows: seq<Row>) {
    Truthful(rows) && AllWellFormed(rows) && DistinctKeys(rows)
  }

  // ---------------------------------------------------------------------------
  // Counting
  // ---------------------------------------------------------------------------

  ghost predicate HasKey(rows: seq<Row>, sk: string) {
    exists i :: 0 <= i < |rows| && rows[i].sk == sk
  }

  /** Counting keeps the keys, or adds the one that was missing. */
  lemma {:induction false} AddDeltaKeys(rows: seq<Row>, sk: string, metric: Metric, delta: int)
    ensures var r := AddDelta(rows, sk, metric, delta);
            if HasKey(rows, sk) then |r| == |rows| && forall i :: 0 <= i < |rows| ==> r[i].sk == rows[i].sk
            else r == rows + [Row(sk, map[metric := delta])]
  {
    if rows != [] && rows[0].sk != sk {
      AddDeltaKeys(rows[1..], sk, metric, delta);
      var r, t := AddDelta(rows, sk, metric, delta), AddDelta(rows[1..], sk, metric, delta);
      assert r == [rows[0]] + t;
      if HasKey(rows, sk) {
        forall i | 0 < i < |rows| ensures r[i].sk == rows[i].sk {
          assert r[i] == t[i - 1] && rows[i] == rows[1..][i - 1];
        }
      } else {
        assert rows == [rows[0]] + rows[1..];
      }
    }
  }

  lemma {:induction false} SumAllCons(row: Row, rows: seq<Row>, m: Metric)
    ensures SumAll([row] + rows, m) == DiffValue(row, m) + SumAll(rows, m)
  {
    SumsJoin([row], rows, m, "");
  }

  lemma {:induction false} AddDeltaSumAll(rows: seq<Row>, sk: string, metric: Metric, delta: int, m: Metric)
    requires !IsSnapshot(Row(sk, map[]))
    ensures SumAll(AddDelta(rows, sk, metric, delta), m) == SumAll(rows, m) + if m == metric then delta else 0
  {
    if rows == [] {
    } else if rows[0].sk == sk {
      AddToFirstSum(rows[0], rows[1..], sk, metric, delta, m);
      assert rows == [rows[0]] + rows[1..];
    } else {
      AddDeltaSumAll(rows[1..], sk, metric, delta, m);
      SumAllCons(rows[0], rows[1..], m);
      SumAllCons(rows[0], AddDelta(rows[1..], sk, metric, delta), m);
      assert rows == [rows[0]] + rows[1..];
    }
  }

  lemma {:induction false} AddToFirstSum(first: Row, rest: seq<Row>, sk: string, metric: Metric, delta: int, m: Metric)
    requires !IsSnapshot(Row(sk, map[])) && first.sk == sk
    ensures SumAll(AddDelta([first] + rest, sk, metric, delta), m)
         == SumAll([first] + rest, m) + if m == metric then delta else 0
  {
    var grown := Row(sk, first.metrics[metric := Value(first.metrics, metric) + delta]);
    SumAllCons(first, rest, m);
    SumAllCons(grown, rest, m);
    GrownValue(first, grown, metric, delta, m);
  }

  lemma {:induction false} GrownValue(first: Row, grown: Row, metric: Metric, delta: int, m: Metric)
    requires !IsSnapshot(Row(first.sk, map[]))
    requires grown == Row(first.sk, first.metrics[metric := Value(first.metrics, metric) + delta])
    ensures DiffValue(grown, m) == DiffValue(first, m) + if m == metric then delta else 0
  {
    SameMonth(first, first.sk, grown);
  }

  lemma {:induction false} CountKeeps(rows: seq<Row>, e: Event)
    requires Sound(rows) && e.Count? && Timely(rows, e)
    ensures Sound(Handle(rows, e))
    ensures forall m :: SumAll(Handle(rows, e), m) == SumAll(rows, m) + if m == e.metric then e.delta else 0
  {
    var sk := DiffSk(e.month + "-" + e.day);
    DiffKey(e.month, e.day, map[]);
    CountingTruthfulIff(rows, sk, e.metric, e.delta);
    CountKeepsKeys(rows, sk, e.metric, e.delta);
    forall m ensures SumAll(Handle(rows, e), m) == SumAll(rows, m) + if m == e.metric then e.delta else 0 {
      AddDeltaSumAll(rows, sk, e.metric, e.delta, m);
    }
  }

  lemma {:induction false} CountKeepsKeys(rows: seq<Row>, sk: string, metric: Metric, delta: int)
    requires AllWellFormed(rows) && DistinctKeys(rows) && WellFormed(Row(sk, map[]))
    ensures AllWellFormed(AddDelta(rows, sk, metric, delta)) && DistinctKeys(AddDelta(rows, sk, metric, delta))
  {
    var r := AddDelta(rows, sk, metric, delta);
    AddDeltaKeys(rows, sk, metric, delta);
    forall i | 0 <= i < |r| ensures WellFormed(r[i]) {
    }
  }

  // ---------------------------------------------------------------------------
  // The job
  // ---------------------------------------------------------------------------

  lemma {:induction false} FromKeeps(sorted: seq<Row>, fromSk: string)
    ensures forall r :: r in RowsFrom(sorted, fromSk) <==> r in sorted && !Below(r.sk, fromSk)
  {
    if sorted != [] {
      var k := |sorted| - 1;
      FromKeeps(sorted[..k], fromSk);
      assert sorted == sorted[..k] + [sorted[k]];
    }
  }

  /** The job sees a snapshot of the current month wherever it is. */
  lemma {:induction false} JobSeesSnapshot(rows: seq<Row>, previousMonth: string, currentMonth: string)
    requires IsMonth(previousMonth) && IsMonth(currentMonth) && Below(previousMonth, currentMonth)
    ensures HasSnapshotOf(Recent(rows, previousMonth), currentMonth) <==> HasSnapshotOf(rows, currentMonth)
  {
    var s, recent := SortRows(rows), Recent(rows, previousMonth);
    SortRowsSorted(rows);
    FromKeeps(s, SnapshotSk(previousMonth));
    BelowSnapshots(previousMonth, currentMonth);
    BelowTotal(SnapshotSk(previousMonth), SnapshotSk(currentMonth));
    if HasSnapshotOf(recent, currentMonth) {
      var i :| 0 <= i < |recent| && IsSnapshotOf(recent[i], currentMonth);
      var j :| 0 <= j < |s| && s[j] == recent[i];
      var x := FindIn(s, j, rows);
    }
    if HasSnapshotOf(rows, currentMonth) {
      var i :| 0 <= i < |rows| && IsSnapshotOf(rows[i], currentMonth);
      var j := FindIn(rows, i, s);
      assert s[j] in recent;
      var x :| 0 <= x < |recent| && recent[x] == s[j];
    }
  }

  lemma {:induction false} JobKeeps(rows: seq<Row>, e: Event)
    requires Sound(rows) && e.RunJob? && Timely(rows, e)
    ensures Sound(Handle(rows, e)) && forall m :: SumAll(Handle(rows, e), m) == SumAll(rows, m)
  {
    JobSeesSnapshot(rows, e.previousMonth, e.currentMonth);
    if !HasSnapshotOf(rows, e.currentMonth) {
      var written := NewSnapshot(rows, e.previousMonth, e.currentMonth);
      forall m ensures Value(written.metrics, m) == NewTotal(Recent(rows, e.previousMonth), e.currentMonth, m) {
        EveryMetricListed(m);
      }
      JobTruthfulIff(rows, e.previousMonth, e.currentMonth, written);
      SnapshotKey(e.currentMonth, written.metrics);
    }
  }

  // ---------------------------------------------------------------------------
  // Runs
  // ---------------------------------------------------------------------------

  lemma {:induction false} RunKeeps(events: seq<Event>)
    requires AllTimely(events)
    ensures Sound(Run(events)) && forall m :: SumAll(Run(events), m) == Counted(events, m)
  {
    if events != [] {
      var k := |events| - 1;
      RunKeeps(events[..k]);
      if events[k].Count? {
        CountKeeps(Run(events[..k]), events[k]);
      } else {
        JobKeeps(Run(events[..k]), events[k]);
      }
    }
  }

  /** Over every timely run the snapshots stay truthful, and the totals are the sum of everything counted. */
  lemma {:induction false} TotalsAreEverythingCounted(events: seq<Event>, m: Metric)
    requires AllTimely(events)
    ensures Truthful(Run(events))
    ensures Total(SortRows(Run(events)), m) == Counted(events, m)
  {
    RunKeeps(events);
    TotalsAreSums(Run(events), m);
  }

  /** And so are those of the API, exactly when the window holds a snapshot or cuts off nothing that counts. */
  lemma {:induction false} ApiShowsEverythingCountedIff(events: seq<Event>, m: Metric)
    requires AllTimely(events)
    ensures Total(SortRows(GetStats(Run(events))), m) == Counted(events, m)
       <==> LatestSnapshot(GetStats(Run(events))).Some? || SumAll(Dropped(Run(events)), m) == 0
  {
    RunKeeps(events);
    ApiTotalsIff(Run(events), m);
  }
}
