/**
 The writers that the snapshot cache depends on: the daily job that writes a month's snapshot
 (`ensureStatsSnapshot` in `domain-health-job.ts`) and the counter that adds to a day's diff row.
 Each keeps every snapshot truthful exactly under a condition on the rows it starts from.
 */
module SnapshotJob {
  import opened Options
  import opened StatsMetrics
  import opened Text
  import opened StatsWriter

  // ---------------------------------------------------------------------------
  // The job
  // ---------------------------------------------------------------------------

  /** `getStats(accountId, fromSk)`: the rows from a key on, ascending. */
  function RowsFrom(sorted: seq<Row>, fromSk: string): seq<Row> {
    if sorted == [] then []
    else
      var last := sorted[|sorted| - 1];
      RowsFrom(sorted[..|sorted| - 1], fromSk) + if Below(last.sk, fromSk) then [] else [last]
  }

  /** The diffs the job has collected: of months before the current one, not before the snapshot seen so far. */
  function Collected(rows: seq<Row>, currentMonth: string): seq<Metrics> {
    if rows == [] then []
    else
      var before, last := rows[..|rows| - 1], rows[|rows| - 1];
      var seen := LatestSnapshot(before);
      Collected(before, currentMonth) +
      if !IsSnapshot(last) && Below(Month(last), currentMonth)
         && (seen.None? || Month(seen.value) == "" || !Below(Month(last), Month(seen.value)))
      then [last.metrics] else []
  }

  /** `ensureStatsSnapshot`: `None` when the current month's snapshot is already there. */
  method EnsureStatsSnapshot(rows: seq<Row>, previousMonth: string, currentMonth: string) returns (written: Option<Row>)
    ensures var recent := RowsFrom(SortRows(rows), SnapshotSk(previousMonth));
            if HasSnapshotOf(recent, currentMonth) then written == None
            else
              && written.Some? && written.value.sk == SnapshotSk(currentMonth)
              && forall m :: Value(written.value.metrics, m) == NewTotal(recent, currentMonth, m)
  {
    var recent := RowsFrom(SortRows(rows), SnapshotSk(previousMonth));
    if HasSnapshotOf(recent, currentMonth) {
      return None;
    }
    var latestSnapshot, snapshotMonth, diffs := None, "", [];
    for i := 0 to |recent|
      invariant latestSnapshot == LatestSnapshot(recent[..i])
      invariant snapshotMonth == if latestSnapshot.Some? then Month(latestSnapshot.value) else ""
      invariant diffs == Collected(recent[..i], currentMonth)
    {
      assert recent[..i + 1][..i] == recent[..i];
      var row := recent[i];
      if IsSnapshot(row) {
        latestSnapshot, snapshotMonth := Some(row), Month(row);
      } else {
        if Below(Month(row), currentMonth) {
          if snapshotMonth == "" || !Below(Month(row), snapshotMonth) {
            diffs := diffs + [row.metrics];
          }
        }
      }
    }
    assert recent[..|recent|] == recent;
    var metrics := ComputeSnapshot(if latestSnapshot.Some? then Some(latestSnapshot.value.metrics) else None, diffs);
    written := Some(Row(SnapshotSk(currentMonth), metrics));
  }

  function NewTotal(recent: seq<Row>, currentMonth: string, m: Metric): int {
    var seen := LatestSnapshot(recent);
    (if seen.Some? then Value(seen.value.metrics, m) else 0) + SumMaps(Collected(recent, currentMonth), m)
  }

  /** The snapshot of the previous month. */
  predicate IsSnapshotOf(row: Row, month: string) {
    row.sk == SnapshotSk(month)
  }

  predicate HasSnapshotOf(rows: seq<Row>, month: string) {
    exists i :: 0 <= i < |rows| && IsSnapshotOf(rows[i], month)
  }

  /** When the job runs: no snapshot is later than the previous month. */
  ghost predicate JobTime(rows: seq<Row>, previousMonth: string, currentMonth: string) {
    && IsMonth(previousMonth) && IsMonth(currentMonth) && Below(previousMonth, currentMonth)
    && forall i :: 0 <= i < |rows| && IsSnapshot(rows[i]) ==> !Below(previousMonth, Month(rows[i]))
  }

  /** A well-formed row's key against a snapshot's key is its month against the snapshot's month. */
  lemma {:induction false} KeyAgainstSnapshot(row: Row, month: string)
    requires WellFormed(row) && IsMonth(month)
    ensures Below(row.sk, SnapshotSk(month)) <==> Below(Month(row), month)
  {
    var snapshot := Row(SnapshotSk(month), map[]);
    SnapshotKey(month, map[]);
    KeyShapes(row);
    BelowTotal(row.sk, snapshot.sk);
    BelowTotal(Month(row), month);
    if IsSnapshot(row) {
      BelowSnapshots(Month(row), month);
      BelowSnapshots(month, Month(row));
      BelowIrreflexive(row.sk);
    } else if !Below(Month(row), month) {
      SnapshotBeforeItsMonth(snapshot, row);
    } else {
      var day :| IsDay(day) && row.sk == DiffSk(Month(row) + "-" + day);
      EarlierDiff(Month(row), day, month);
    }
  }

  lemma {:induction false} EarlierDiff(month: string, day: string, later: string)
    requires |month| == |later| && Below(month, later)
    ensures Below(DiffSk(month + "-" + day), SnapshotSk(later))
  {
    BelowWide(month, later, "-" + day, "-00-SNAPSHOT");
    BelowAfter("STATS#", month + ("-" + day), later + "-00-SNAPSHOT");
    assert DiffSk(month + "-" + day) == "STATS#" + (month + ("-" + day));
    assert SnapshotSk(later) == "STATS#" + (later + "-00-SNAPSHOT");
  }

  lemma {:induction false} BelowSnapshots(a: string, b: string)
    requires IsMonth(a) && IsMonth(b)
    ensures Below(a, b) ==> Below(SnapshotSk(a), SnapshotSk(b))
  {
    if Below(a, b) {
      BelowAfter("STATS#", a + "-00-SNAPSHOT", b + "-00-SNAPSHOT");
      BelowWide(a, b, "-00-SNAPSHOT", "-00-SNAPSHOT");
      assert SnapshotSk(a) == "STATS#" + (a + "-00-SNAPSHOT") && SnapshotSk(b) == "STATS#" + (b + "-00-SNAPSHOT");
    }
  }

  /** What the job collects: the diffs from the previous month up to the current one. */
  ghost predicate CollectsBetween(sorted: seq<Row>, previousMonth: string, currentMonth: string, m: Metric) {
    var recent := RowsFrom(sorted, SnapshotSk(previousMonth));
    && SumMaps(Collected(recent, currentMonth), m)
       == SumBefore(sorted, m, currentMonth) - SumBefore(sorted, m, previousMonth)
    && (LatestSnapshot(recent).Some? ==>
          IsSnapshotOf(LatestSnapshot(recent).value, previousMonth) && LatestSnapshot(recent).value in sorted)
    && (HasSnapshotOf(sorted, previousMonth) ==> LatestSnapshot(recent).Some?)
  }

  lemma {:induction false} CollectedSum(sorted: seq<Row>, previousMonth: string, currentMonth: string, m: Metric)
    requires AllWellFormed(sorted) && JobTime(sorted, previousMonth, currentMonth)
    ensures CollectsBetween(sorted, previousMonth, currentMonth, m)
  {
    if sorted != [] {
      var k := |sorted| - 1;
      CollectedSum(sorted[..k], previousMonth, currentMonth, m);
      SnapshotOfFirst(sorted, previousMonth);
      KeyAgainstSnapshot(sorted[k], previousMonth);
      if Below(Month(sorted[k]), previousMonth) {
        SkipEarlier(sorted, previousMonth, currentMonth, m);
      } else {
        CollectOne(RowsFrom(sorted[..k], SnapshotSk(previousMonth)), sorted[k], previousMonth, currentMonth, m);
      }
    }
  }

  lemma {:induction false} SkipEarlier(sorted: seq<Row>, previousMonth: string, currentMonth: string, m: Metric)
    requires sorted != [] && IsMonth(previousMonth)
    requires Below(Month(sorted[|sorted| - 1]), previousMonth) && Below(previousMonth, currentMonth)
    requires Below(sorted[|sorted| - 1].sk, SnapshotSk(previousMonth))
    requires CollectsBetween(sorted[..|sorted| - 1], previousMonth, currentMonth, m)
    ensures CollectsBetween(sorted, previousMonth, currentMonth, m)
  {
    var last := sorted[|sorted| - 1];
    var r := RowsFrom(sorted[..|sorted| - 1], SnapshotSk(previousMonth));
    BelowTransitive(Month(last), previousMonth, currentMonth);
    BelowIrreflexive(SnapshotSk(previousMonth));
    SnapshotOfFirst(sorted, previousMonth);
    assert r + [] == r;
  }

  lemma {:induction false} SnapshotOfFirst(sorted: seq<Row>, month: string)
    requires sorted != []
    ensures HasSnapshotOf(sorted, month) <==>
        HasSnapshotOf(sorted[..|sorted| - 1], month) || IsSnapshotOf(sorted[|sorted| - 1], month)
  {
    if HasSnapshotOf(sorted[..|sorted| - 1], month) {
      var i :| 0 <= i < |sorted| - 1 && IsSnapshotOf(sorted[..|sorted| - 1][i], month);
      assert IsSnapshotOf(sorted[i], month);
    }
    if HasSnapshotOf(sorted, month) {
      var i :| 0 <= i < |sorted| && IsSnapshotOf(sorted[i], month);
      assert i < |sorted| - 1 ==> IsSnapshotOf(sorted[..|sorted| - 1][i], month);
    }
  }

  /** One more row of the previous month or later. */
  lemma {:induction false} CollectOne(r: seq<Row>, last: Row, previousMonth: string, currentMonth: string, m: Metric)
    requires WellFormed(last) && IsMonth(previousMonth) && !Below(Month(last), previousMonth)
    requires IsSnapshot(last) ==> !Below(previousMonth, Month(last))
    requires LatestSnapshot(r).Some? ==> IsSnapshotOf(LatestSnapshot(r).value, previousMonth)
    ensures SumMaps(Collected(r + [last], currentMonth), m)
         == SumMaps(Collected(r, currentMonth), m) + if Below(Month(last), currentMonth) then DiffValue(last, m) else 0
    ensures LatestSnapshot(r + [last]) == if IsSnapshot(last) then Some(last) else LatestSnapshot(r)
    ensures IsSnapshot(last) ==> IsSnapshotOf(last, previousMonth)
    ensures IsSnapshotOf(last, previousMonth) ==> IsSnapshot(last)
  {
    assert (r + [last])[..|r|] == r;
    BelowTotal(Month(last), previousMonth);
    KeyShapes(last);
    SnapshotKey(previousMonth, last.metrics);
    var c := Collected(r, currentMonth);
    assert (c + [last.metrics])[..|c|] == c && c + [] == c;
    var seen := LatestSnapshot(r);
    if seen.Some? {
      SnapshotKey(previousMonth, seen.value.metrics);
    }
  }

  /** Nothing was counted before the month. */
  ghost predicate NothingBefore(rows: seq<Row>, month: string) {
    forall m :: SumBefore(rows, m, month) == 0
  }

  /** What the written snapshot holds. */
  lemma {:induction false} WrittenIs(rows: seq<Row>, previousMonth: string, currentMonth: string, m: Metric)
    requires Truthful(rows) && AllWellFormed(rows) && JobTime(rows, previousMonth, currentMonth)
    ensures NewTotal(RowsFrom(SortRows(rows), SnapshotSk(previousMonth)), currentMonth, m)
         == SumBefore(rows, m, currentMonth) - if HasSnapshotOf(rows, previousMonth) then 0
             else SumBefore(rows, m, previousMonth)
  {
    var s := SortRows(rows);
    SortRowsSorted(rows);
    TruthfulPermute(rows, s);
    SortedJob(rows, s, previousMonth, currentMonth);
    NewTotalIs(rows, s, previousMonth, currentMonth, m);
  }

  /**
   The job writes a truthful snapshot exactly when the previous month has its own snapshot, or nothing
   was counted before the previous month. A month in which the job did not run loses what came before.
   */
  lemma {:induction false} JobTruthfulIff(rows: seq<Row>, previousMonth: string, currentMonth: string, written: Row)
    requires Truthful(rows) && AllWellFormed(rows) && JobTime(rows, previousMonth, currentMonth)
    requires written.sk == SnapshotSk(currentMonth)
    requires forall m :: Value(written.metrics, m)
                      == NewTotal(RowsFrom(SortRows(rows), SnapshotSk(previousMonth)), currentMonth, m)
    ensures TruthfulRow(written, rows)
       <==> HasSnapshotOf(rows, previousMonth) || NothingBefore(rows, previousMonth)
  {
    SnapshotKey(currentMonth, written.metrics);
    assert Month(written) == currentMonth;
    if TruthfulRow(written, rows) && !HasSnapshotOf(rows, previousMonth) {
      forall m ensures SumBefore(rows, m, previousMonth) == 0 {
        WrittenIs(rows, previousMonth, currentMonth, m);
        assert Value(written.metrics, m) == SumBefore(rows, m, Month(written));
      }
    }
    if HasSnapshotOf(rows, previousMonth) || NothingBefore(rows, previousMonth) {
      forall m ensures Value(written.metrics, m) == SumBefore(rows, m, Month(written)) {
        WrittenIs(rows, previousMonth, currentMonth, m);
        assert NothingBefore(rows, previousMonth) ==> SumBefore(rows, m, previousMonth) == 0;
      }
    }
  }

  lemma {:induction false} SortedJob(rows: seq<Row>, s: seq<Row>, previousMonth: string, currentMonth: string)
    requires multiset(rows) == multiset(s) && JobTime(rows, previousMonth, currentMonth)
    ensures JobTime(s, previousMonth, currentMonth)
    ensures HasSnapshotOf(s, previousMonth) <==> HasSnapshotOf(rows, previousMonth)
  {
    forall i | 0 <= i < |s| && IsSnapshot(s[i]) ensures !Below(previousMonth, Month(s[i])) {
      assert s[i] in multiset(rows);
      var x :| 0 <= x < |rows| && rows[x] == s[i];
    }
    if HasSnapshotOf(s, previousMonth) {
      var i :| 0 <= i < |s| && IsSnapshotOf(s[i], previousMonth);
      assert s[i] in multiset(rows);
      var x :| 0 <= x < |rows| && rows[x] == s[i];
    }
    if HasSnapshotOf(rows, previousMonth) {
      var i :| 0 <= i < |rows| && IsSnapshotOf(rows[i], previousMonth);
      assert rows[i] in multiset(s);
      var x :| 0 <= x < |s| && s[x] == rows[i];
    }
  }

  lemma {:induction false} NewTotalIs(rows: seq<Row>, s: seq<Row>, previousMonth: string, currentMonth: string,
                                      m: Metric)
    requires multiset(rows) == multiset(s) && Truthful(s) && AllWellFormed(s) && JobTime(s, previousMonth, currentMonth)
    requires HasSnapshotOf(s, previousMonth) <==> HasSnapshotOf(rows, previousMonth)
    ensures NewTotal(RowsFrom(s, SnapshotSk(previousMonth)), currentMonth, m)
         == SumBefore(rows, m, currentMonth) - if HasSnapshotOf(rows, previousMonth) then 0
             else SumBefore(rows, m, previousMonth)
  {
    var recent := RowsFrom(s, SnapshotSk(previousMonth));
    CollectedSum(s, previousMonth, currentMonth, m);
    SumsPermute(rows, s, m, currentMonth);
    SumsPermute(rows, s, m, previousMonth);
    if LatestSnapshot(recent).Some? {
      var r := LatestSnapshot(recent).value;
      var i :| 0 <= i < |s| && s[i] == r;
      assert TruthfulRow(s[i], s) && IsSnapshotOf(s[i], previousMonth);
      SnapshotKey(previousMonth, r.metrics);
    }
  }

  // ---------------------------------------------------------------------------
  // The counter
  // ---------------------------------------------------------------------------

  /** The counter's effect on the day's row: create it, or add to it. */
  function AddDelta(rows: seq<Row>, sk: string, metric: Metric, delta: int): seq<Row> {
    if rows == [] then [Row(sk, map[metric := delta])]
    else if rows[0].sk == sk then
      [Row(sk, rows[0].metrics[metric := Value(rows[0].metrics, metric) + delta])] + rows[1..]
    else [rows[0]] + AddDelta(rows[1..], sk, metric, delta)
  }

  lemma {:induction false} AddDeltaSum(rows: seq<Row>, sk: string, metric: Metric, delta: int, m: Metric, month: string)
    requires !IsSnapshot(Row(sk, map[]))
    ensures SumBefore(AddDelta(rows, sk, metric, delta), m, month)
         == SumBefore(rows, m, month) + if m == metric && Below(Month(Row(sk, map[])), month) then delta else 0
  {
    if rows == [] {
    } else if rows[0].sk == sk {
      AddToFirst(rows, sk, metric, delta, m, month);
    } else {
      AddDeltaSum(rows[1..], sk, metric, delta, m, month);
      SumBeforeCons(rows[0], rows[1..], m, month);
      SumBeforeCons(rows[0], AddDelta(rows[1..], sk, metric, delta), m, month);
      assert [rows[0]] + rows[1..] == rows;
    }
  }

  lemma {:induction false} AddToFirst(rows: seq<Row>, sk: string, metric: Metric, delta: int, m: Metric, month: string)
    requires !IsSnapshot(Row(sk, map[])) && rows != [] && rows[0].sk == sk
    ensures SumBefore(AddDelta(rows, sk, metric, delta), m, month)
         == SumBefore(rows, m, month) + if m == metric && Below(Month(Row(sk, map[])), month) then delta else 0
  {
    var grown := Row(sk, rows[0].metrics[metric := Value(rows[0].metrics, metric) + delta]);
    SumBeforeCons(rows[0], rows[1..], m, month);
    SumBeforeCons(grown, rows[1..], m, month);
    SameMonth(rows[0], sk, grown);
    assert [rows[0]] + rows[1..] == rows;
  }

  lemma {:induction false} SameMonth(first: Row, sk: string, grown: Row)
    requires first.sk == sk == grown.sk
    ensures Month(first) == Month(Row(sk, map[])) == Month(grown)
    ensures IsSnapshot(first) == IsSnapshot(Row(sk, map[])) == IsSnapshot(grown)
  {
  }

  lemma {:induction false} SumBeforeCons(row: Row, rows: seq<Row>, m: Metric, month: string)
    ensures SumBefore([row] + rows, m, month)
         == SumBefore(rows, m, month) + if Below(Month(row), month) then DiffValue(row, m) else 0
  {
    SumsJoin([row], rows, m, month);
  }

  lemma {:induction false} AddDeltaKeepsSnapshots(rows: seq<Row>, sk: string, metric: Metric, delta: int)
    requires !IsSnapshot(Row(sk, map[]))
    ensures var r := AddDelta(rows, sk, metric, delta);
            && |rows| <= |r|
            && (forall i :: 0 <= i < |r| && IsSnapshot(r[i]) ==> i < |rows| && r[i] == rows[i])
            && (forall i :: 0 <= i < |rows| && IsSnapshot(rows[i]) ==> r[i] == rows[i])
  {
    if rows != [] && rows[0].sk != sk {
      AddDeltaKeepsSnapshots(rows[1..], sk, metric, delta);
      var r, t := AddDelta(rows, sk, metric, delta), AddDelta(rows[1..], sk, metric, delta);
      assert forall i :: 0 < i < |r| ==> r[i] == t[i - 1];
      assert forall i :: 0 < i < |rows| ==> rows[i] == rows[1..][i - 1];
    }
  }

  /** Counting keeps the snapshots truthful exactly when none of them already covers the day, or nothing is added. */
  lemma {:induction false} CountingTruthfulIff(rows: seq<Row>, sk: string, metric: Metric, delta: int)
    requires Truthful(rows) && !IsSnapshot(Row(sk, map[]))
    ensures Truthful(AddDelta(rows, sk, metric, delta))
       <==> delta == 0 || forall i :: 0 <= i < |rows| && IsSnapshot(rows[i]) ==>
           !Below(Month(Row(sk, map[])), Month(rows[i]))
  {
    var r, day := AddDelta(rows, sk, metric, delta), Month(Row(sk, map[]));
    AddDeltaKeepsSnapshots(rows, sk, metric, delta);
    forall i, m | 0 <= i < |rows| && IsSnapshot(rows[i])
      ensures Value(rows[i].metrics, m)
           == SumBefore(r, m, Month(rows[i])) - if m == metric && Below(day, Month(rows[i])) then delta else 0
    {
      assert TruthfulRow(rows[i], rows);
      AddDeltaSum(rows, sk, metric, delta, m, Month(rows[i]));
    }
    if Truthful(r) {
      forall i | 0 <= i < |rows| && IsSnapshot(rows[i]) && Below(day, Month(rows[i])) ensures delta == 0 {
        assert r[i] == rows[i] && TruthfulRow(r[i], r);
        assert Value(rows[i].metrics, metric) == SumBefore(r, metric, Month(rows[i]));
      }
    }
  }

  // ---------------------------------------------------------------------------
  // Inputs on which the cache goes wrong
  // ---------------------------------------------------------------------------

  lemma {:induction false} FirstMonths(january: string, february: string, march: string)
    requires january == "2026-01" && february == "2026-02" && march == "2026-03"
    ensures IsMonth(january) && IsMonth(february) && IsMonth(march)
    ensures Below(january, february) && Below(february, march)
  {
    assert january == "2026-0" + "1" && february == "2026-0" + "2" && march == "2026-0" + "3";
    BelowAfter("2026-0", "1", "2");
    BelowAfter("2026-0", "2", "3");
  }

  /** One delivery on 15 January and no run in February: the run in March writes a snapshot without it. */
  lemma {:induction false} MissedMonthLosesCounts(january: string, february: string, march: string, rows: seq<Row>,
                                                  written: Row)
    requires january == "2026-01" && february == "2026-02" && march == "2026-03" && rows == [DayRow(january, "15")]
    requires written.sk == SnapshotSk(march)
    requires forall m :: Value(written.metrics, m) == NewTotal(RowsFrom(SortRows(rows), SnapshotSk(february)), march, m)
    ensures Truthful(rows) && AllWellFormed(rows) && JobTime(rows, february, march)
    ensures !TruthfulRow(written, rows)
  {
    FirstMonths(january, february, march);
    OneDay(january, "15");
    assert SumBefore(rows, Allowed, february) == 1;
    JobTruthfulIff(rows, february, march, written);
  }

  /** A delivery of 31 January that is counted when February's snapshot is there is missing from it. */
  lemma {:induction false} LateCountIsMissing(january: string, february: string, rows: seq<Row>)
    requires january == "2026-01" && february == "2026-02" && rows == [Row(SnapshotSk(february), map[])]
    ensures Truthful(rows) && AllWellFormed(rows)
    ensures !Truthful(AddDelta(rows, DiffSk(january + "-" + "31"), Allowed, 1))
  {
    FirstMonths(january, february, "2026-03");
    SnapshotKey(february, map[]);
    DiffKey(january, "31", map[]);
    forall m ensures SumBefore(rows, m, february) == 0 {
    }
    CountingTruthfulIff(rows, DiffSk(january + "-" + "31"), Allowed, 1);
  }
}
