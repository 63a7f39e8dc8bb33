/**
 Snapshot-plus-diffs statistics: `stats-writer.ts`, the 400-row window of `getStats`, and the job that
 writes the monthly snapshot. A snapshot is a cache: it must agree with summing every diff before it.
 */
module StatsWriter {
  import opened Options
  import opened StatsMetrics
  import opened Text
  import opened Seqs

  datatype Row = Row(sk: string, metrics: Metrics)

  const WINDOW := 400

  // ---------------------------------------------------------------------------
  // Sort keys
  // ---------------------------------------------------------------------------

  function DiffSk(date: string): string {
    "STATS#" + date
  }

  function SnapshotSk(month: string): string {
    "STATS#" + month + "-00-SNAPSHOT"
  }

  predicate IsSnapshot(row: Row) {
    EndsWith(row.sk, "-SNAPSHOT")
  }

  /** `s.slice(from, to)` */
  function Slice(s: string, from: nat, to: nat): string
    requires from <= to
  {
    if |s| <= from then "" else if |s| <= to then s[from..] else s[from..to]
  }

  /** `sk.slice(6)` of a diff row. */
  function Date(row: Row): string {
    if |row.sk| <= 6 then "" else row.sk[6..]
  }

  /** The month of a row of either kind. */
  function Month(row: Row): string {
    Slice(row.sk, 6, 13)
  }

  predicate IsMonth(s: string) {
    |s| == 7 && s[4] == '-' && forall i :: 0 <= i < 7 && i != 4 ==> IsDigit(s[i])
  }

  predicate IsDay(s: string) {
    |s| == 2 && IsDigit(s[0]) && IsDigit(s[1]) && s != "00"
  }

  /** The keys the writers build: `STATS#YYYY-MM-DD`, and `STATS#YYYY-MM-00-SNAPSHOT`. */
  ghost predicate WellFormed(row: Row) {
    || (exists day :: IsDay(day) && row.sk == DiffSk(Month(row) + "-" + day) && IsMonth(Month(row)))
    || (row.sk == SnapshotSk(Month(row)) && IsMonth(Month(row)))
  }

  lemma {:induction false} DiffKey(month: string, day: string, metrics: Metrics)
    requires IsMonth(month) && IsDay(day)
    ensures var row := Row(DiffSk(month + "-" + day), metrics);
            WellFormed(row) && !IsSnapshot(row) && Month(row) == month
  {
    var row := Row(DiffSk(month + "-" + day), metrics);
    assert row.sk[6..13] == month;
    assert row.sk[|row.sk| - 1] == day[1];
    assert |row.sk| == 16;
    assert row.sk[|row.sk| - 9..][8] == day[1];
    assert "-SNAPSHOT"[8] == 'T';
  }

  lemma {:induction false} SnapshotKey(month: string, metrics: Metrics)
    requires IsMonth(month)
    ensures var row := Row(SnapshotSk(month), metrics);
            WellFormed(row) && IsSnapshot(row) && Month(row) == month
  {
    var row := Row(SnapshotSk(month), metrics);
    assert row.sk[6..13] == month;
    assert row.sk[|row.sk| - 9..] == "-SNAPSHOT";
  }

  // ---------------------------------------------------------------------------
  // Sums
  // ---------------------------------------------------------------------------

  function DiffValue(row: Row, m: Metric): int {
    if IsSnapshot(row) then 0 else Value(row.metrics, m)
  }

  /** The sum of all diffs. */
  function SumAll(rows: seq<Row>, m: Metric): int {
    if rows == [] then 0 else SumAll(rows[..|rows| - 1], m) + DiffValue(rows[|rows| - 1], m)
  }

  /** The sum of the diffs before a month. */
  function SumBefore(rows: seq<Row>, m: Metric, month: string): int {
    if rows == [] then 0
    else
      var last := rows[|rows| - 1];
      SumBefore(rows[..|rows| - 1], m, month) + if Below(Month(last), month) then DiffValue(last, m) else 0
  }

  /** The sum of the diffs of a month and later ones. */
  function SumFrom(rows: seq<Row>, m: Metric, month: string): int {
    SumAll(rows, m) - SumBefore(rows, m, month)
  }

  lemma {:induction false} SumsJoin(a: seq<Row>, b: seq<Row>, m: Metric, month: string)
    ensures SumAll(a + b, m) == SumAll(a, m) + SumAll(b, m)
    ensures SumBefore(a + b, m, month) == SumBefore(a, m, month) + SumBefore(b, m, month)
  {
    if b == [] {
      assert a + b == a;
    } else {
      var k := |b| - 1;
      assert (a + b)[..|a + b| - 1] == a + b[..k];
      SumsJoin(a, b[..k], m, month);
    }
  }

  /** Sums do not depend on the order of the rows. */
  lemma {:induction false} SumsPermute(a: seq<Row>, b: seq<Row>, m: Metric, month: string)
    requires multiset(a) == multiset(b)
    ensures SumAll(a, m) == SumAll(b, m) && SumBefore(a, m, month) == SumBefore(b, m, month)
    decreases |a|
  {
    SameEmpty(a, b);
    if a != [] {
      var k := |a| - 1;
      var i := FindIn(a, k, b);
      RemoveSame(a, b, k, i);
      SumsPermute(a[..k] + a[k + 1..], b[..i] + b[i + 1..], m, month);
      SumsWithout(a, k, m, month);
      SumsWithout(b, i, m, month);
    }
  }

  lemma {:induction false} SumsWithout(b: seq<Row>, i: nat, m: Metric, month: string)
    requires i < |b|
    ensures SumAll(b, m) == SumAll(b[..i] + b[i + 1..], m) + DiffValue(b[i], m)
    ensures SumBefore(b, m, month)
         == SumBefore(b[..i] + b[i + 1..], m, month) + if Below(Month(b[i]), month) then DiffValue(b[i], m) else 0
  {
    assert b == b[..i] + ([b[i]] + b[i + 1..]);
    SumsJoin(b[..i], [b[i]] + b[i + 1..], m, month);
    SumsJoin([b[i]], b[i + 1..], m, month);
    SumsJoin(b[..i], b[i + 1..], m, month);
  }

  // ---------------------------------------------------------------------------
  // Snapshot computation
  // ---------------------------------------------------------------------------

  function SumMaps(diffs: seq<Metrics>, m: Metric): int {
    if diffs == [] then 0 else SumMaps(diffs[..|diffs| - 1], m) + Value(diffs[|diffs| - 1], m)
  }

  /** `computeSnapshot`: the base (or zeros) plus every diff, with every metric present. */
  method ComputeSnapshot(base: Option<Metrics>, diffs: seq<Metrics>) returns (result: Metrics)
    ensures forall m :: m in result
    ensures forall m :: result[m] == (if base.Some? then Value(base.value, m) else 0) + SumMaps(diffs, m)
  {
    result := if base.Some? then base.value else map[];
    ghost var start := result;
    for i := 0 to |METRICS|
      invariant forall k :: 0 <= k < i ==> METRICS[k] in result
      invariant forall m :: Value(result, m) == Value(start, m)
    {
      if METRICS[i] !in result {
        result := result[METRICS[i] := 0];
      }
    }
    forall m ensures m in result {
      EveryMetricListed(m);
    }
    for d := 0 to |diffs|
      invariant forall m :: m in result && result[m] == Value(start, m) + SumMaps(diffs[..d], m)
    {
      result := AddDiff(result, diffs[d]);
      assert diffs[..d + 1][..d] == diffs[..d];
    }
    assert diffs[..|diffs|] == diffs;
  }

  /** The inner loop of `computeSnapshot`. */
  method AddDiff(base: Metrics, diff: Metrics) returns (result: Metrics)
    requires forall m :: m in base
    ensures forall m :: m in result && result[m] == base[m] + Value(diff, m)
  {
    result := base;
    for i := 0 to |METRICS|
      invariant forall m :: m in result
      invariant forall m :: result[m] == base[m] + if m in METRICS[..i] then Value(diff, m) else 0
    {
      var m := METRICS[i];
      assert forall k :: k in METRICS[..i + 1] <==> k in METRICS[..i] || k == m;
      assert m !in METRICS[..i];
      if m in diff {
        result := result[m := result[m] + diff[m]];
      }
    }
    forall m ensures m in METRICS[..|METRICS|] {
      EveryMetricListed(m);
    }
  }

  // ---------------------------------------------------------------------------
  // Sorting by key
  // ---------------------------------------------------------------------------

  function InsertRow(row: Row, rows: seq<Row>): seq<Row> {
    if rows == [] || Below(row.sk, rows[0].sk) then [row] + rows else [rows[0]] + InsertRow(row, rows[1..])
  }

  function SortRows(rows: seq<Row>): seq<Row> {
    if rows == [] then [] else InsertRow(rows[|rows| - 1], SortRows(rows[..|rows| - 1]))
  }

  ghost predicate Ascending(rows: seq<Row>) {
    forall i, j :: 0 <= i < j < |rows| ==> AtMost(rows[i].sk, rows[j].sk)
  }

  ghost predicate DistinctKeys(rows: seq<Row>) {
    forall i, j :: 0 <= i < j < |rows| ==> rows[i].sk != rows[j].sk
  }

  /** A key identifies its row. */
  ghost predicate KeysIdentify(rows: seq<Row>) {
    forall i, j :: 0 <= i < |rows| && 0 <= j < |rows| && rows[i].sk == rows[j].sk ==> rows[i] == rows[j]
  }

  lemma {:induction false} InsertRowFirst(row: Row, rows: seq<Row>)
    requires Ascending(rows) && rows != [] && AtMost(row.sk, rows[0].sk)
    ensures Ascending([row] + rows)
  {
    forall j | 0 <= j < |rows| ensures AtMost(row.sk, rows[j].sk) {
      if row.sk != rows[0].sk && rows[0].sk != rows[j].sk {
        BelowTransitive(row.sk, rows[0].sk, rows[j].sk);
      }
    }
  }

  lemma {:induction false} InsertRowSorted(row: Row, rows: seq<Row>)
    requires Ascending(rows)
    ensures Ascending(InsertRow(row, rows))
    ensures multiset(InsertRow(row, rows)) == multiset(rows) + multiset{row}
  {
    if rows != [] {
      if Below(row.sk, rows[0].sk) {
        InsertRowFirst(row, rows);
      } else {
        InsertRowSorted(row, rows[1..]);
        var t := InsertRow(row, rows[1..]);
        assert rows == [rows[0]] + rows[1..];
        BelowTotal(row.sk, rows[0].sk);
        assert t != [] && t[0] in multiset(rows[1..]) + multiset{row};
        InsertRowFirst(rows[0], t);
      }
    }
  }

  lemma {:induction false} SortRowsSorted(rows: seq<Row>)
    ensures Ascending(SortRows(rows)) && multiset(SortRows(rows)) == multiset(rows)
  {
    if rows != [] {
      var k := |rows| - 1;
      SortRowsSorted(rows[..k]);
      InsertRowSorted(rows[k], SortRows(rows[..k]));
      assert rows == rows[..k] + [rows[k]];
    }
  }

  /** Sorted rows are determined by their contents. */
  lemma {:induction false} SortedUnique(a: seq<Row>, b: seq<Row>)
    requires multiset(a) == multiset(b) && Ascending(a) && Ascending(b) && KeysIdentify(a)
    ensures a == b
  {
    SameEmpty(a, b);
    if a != [] {
      FirstsAgree(a, b);
      RemoveFirst(a, b);
      SortedUnique(a[1..], b[1..]);
      assert a == [a[0]] + a[1..] && b == [b[0]] + b[1..];
    }
  }

  lemma {:induction false} FirstsAgree(a: seq<Row>, b: seq<Row>)
    requires a != [] && b != []
    requires multiset(a) == multiset(b) && Ascending(a) && Ascending(b) && KeysIdentify(a)
    ensures a[0] == b[0]
  {
    var i := FindIn(a, 0, b);
    var j := FindIn(b, 0, a);
    BelowTotal(a[0].sk, b[0].sk);
  }

  lemma {:induction false} SortRowsUnique(a: seq<Row>, b: seq<Row>)
    requires multiset(a) == multiset(b) && KeysIdentify(a)
    ensures SortRows(a) == SortRows(b)
  {
    SortRowsSorted(a);
    SortRowsSorted(b);
    KeysPermute(a, SortRows(a));
    SortedUnique(SortRows(a), SortRows(b));
  }

  lemma {:induction false} KeysPermute(a: seq<Row>, b: seq<Row>)
    requires multiset(a) == multiset(b) && KeysIdentify(a)
    ensures KeysIdentify(b)
  {
    forall i, j | 0 <= i < |b| && 0 <= j < |b| && b[i].sk == b[j].sk ensures b[i] == b[j] {
      var x := FindIn(b, i, a);
      var y := FindIn(b, j, a);
    }
  }

  // ---------------------------------------------------------------------------
  // Totals
  // ---------------------------------------------------------------------------

  function LatestSnapshot(sorted: seq<Row>): (r: Option<Row>)
    ensures r.Some? ==> r.value in sorted && IsSnapshot(r.value)
    ensures r.None? ==> forall i :: 0 <= i < |sorted| ==> !IsSnapshot(sorted[i])
  {
    if sorted == [] then None
    else if IsSnapshot(sorted[|sorted| - 1]) then Some(sorted[|sorted| - 1])
    else LatestSnapshot(sorted[..|sorted| - 1])
  }

  /** The latest snapshot, plus the diffs of its month and later ones. */
  function Total(sorted: seq<Row>, m: Metric): int {
    match LatestSnapshot(sorted)
    case None => SumAll(sorted, m)
    case Some(r) => Value(r.metrics, m) + SumFrom(sorted, m, Month(r))
  }

  /** Every snapshot holds the sum of the diffs before its month. */
  ghost predicate Truthful(rows: seq<Row>) {
    forall i :: 0 <= i < |rows| && IsSnapshot(rows[i]) ==> TruthfulRow(rows[i], rows)
  }

  ghost predicate TruthfulRow(snapshot: Row, rows: seq<Row>) {
    forall m :: Value(snapshot.metrics, m) == SumBefore(rows, m, Month(snapshot))
  }

  /** The cache agrees with summing everything. */
  lemma {:induction false} TotalsAreSums(rows: seq<Row>, m: Metric)
    requires Truthful(rows)
    ensures Total(SortRows(rows), m) == SumAll(rows, m)
  {
    var s := SortRows(rows);
    SortRowsSorted(rows);
    match LatestSnapshot(s)
    case None => SumsPermute(rows, s, m, "");
    case Some(r) =>
      assert r in multiset(rows);
      assert TruthfulRow(r, rows);
      SumsPermute(rows, s, m, Month(r));
  }

  /** A snapshot's key comes before the keys of the diffs it does not contain. */
  lemma {:induction false} SnapshotBeforeItsMonth(snapshot: Row, diff: Row)
    requires WellFormed(snapshot) && WellFormed(diff) && IsSnapshot(snapshot) && !IsSnapshot(diff)
    requires !Below(Month(diff), Month(snapshot))
    ensures Below(snapshot.sk, diff.sk)
  {
    KeyShapes(snapshot);
    KeyShapes(diff);
    var day :| IsDay(day) && diff.sk == DiffSk(Month(diff) + "-" + day);
    KeyOrder(Month(snapshot), Month(diff), day);
  }

  lemma {:induction false} KeyOrder(a: string, b: string, day: string)
    requires IsMonth(a) && IsMonth(b) && IsDay(day) && !Below(b, a)
    ensures Below(SnapshotSk(a), DiffSk(b + "-" + day))
  {
    BelowTotal(a, b);
    if a == b {
      ZeroZeroBelowDay(day);
      BelowAfter("STATS#" + a + "-", "00-SNAPSHOT", day);
      assert SnapshotSk(a) == "STATS#" + a + "-" + "00-SNAPSHOT" && DiffSk(b + "-" + day) == "STATS#" + a + "-" + day;
    } else {
      BelowWide(a, b, "-00-SNAPSHOT", "-" + day);
      BelowAfter("STATS#", a + "-00-SNAPSHOT", b + ("-" + day));
      assert SnapshotSk(a) == "STATS#" + (a + "-00-SNAPSHOT") && DiffSk(b + "-" + day) == "STATS#" + (b + ("-" + day));
    }
  }

  lemma {:induction false} ZeroZeroBelowDay(day: string)
    requires IsDay(day)
    ensures Below("00-SNAPSHOT", day)
  {
    assert day == [day[0], day[1]];
    assert "00-SNAPSHOT"[1..][0] == '0' && day[1..][0] == day[1];
  }

  /** Which of the two shapes a well-formed row has. */
  lemma {:induction false} KeyShapes(row: Row)
    requires WellFormed(row)
    ensures IsSnapshot(row) ==> row.sk == SnapshotSk(Month(row)) && IsMonth(Month(row))
    ensures !IsSnapshot(row) ==>
        IsMonth(Month(row)) && exists day :: IsDay(day) && row.sk == DiffSk(Month(row) + "-" + day)
  {
    if row.sk == SnapshotSk(Month(row)) && IsMonth(Month(row)) {
      SnapshotKey(Month(row), row.metrics);
    } else {
      var day :| IsDay(day) && row.sk == DiffSk(Month(row) + "-" + day) && IsMonth(Month(row));
      DiffKey(Month(row), day, row.metrics);
    }
  }

  ghost predicate AllWellFormed(rows: seq<Row>) {
    forall i :: 0 <= i < |rows| ==> WellFormed(rows[i])
  }

  /** Rows that sort before a snapshot hold only diffs of earlier months. */
  lemma {:induction false} OldRowsAreBefore(rows: seq<Row>, snapshot: Row, m: Metric)
    requires AllWellFormed(rows) && WellFormed(snapshot) && IsSnapshot(snapshot)
    requires forall i :: 0 <= i < |rows| ==> AtMost(rows[i].sk, snapshot.sk)
    ensures SumAll(rows, m) == SumBefore(rows, m, Month(snapshot))
  {
    if rows != [] {
      var last := rows[|rows| - 1];
      OldRowsAreBefore(rows[..|rows| - 1], snapshot, m);
      if !IsSnapshot(last) && !Below(Month(last), Month(snapshot)) {
        SnapshotBeforeItsMonth(snapshot, last);
        BelowTotal(last.sk, snapshot.sk);
      }
    }
  }

  lemma {:induction false} TruthfulPermute(a: seq<Row>, b: seq<Row>)
    requires multiset(a) == multiset(b)
    ensures Truthful(a) ==> Truthful(b)
    ensures AllWellFormed(a) ==> AllWellFormed(b)
  {
    forall i | 0 <= i < |b| && Truthful(a) && IsSnapshot(b[i]) ensures TruthfulRow(b[i], b) {
      var x := FindIn(b, i, a);
      assert TruthfulRow(a[x], a);
      forall m ensures Value(b[i].metrics, m) == SumBefore(b, m, Month(b[i])) {
        SumsPermute(a, b, m, Month(b[i]));
      }
    }
    forall i | 0 <= i < |b| && AllWellFormed(a) ensures WellFormed(b[i]) {
      var x := FindIn(b, i, a);
    }
  }

  /** A kept snapshot holds everything that was dropped. */
  lemma {:induction false} KeptSnapshotCovers(dropped: seq<Row>, w: seq<Row>, p: nat, m: Metric)
    requires Ascending(dropped + w) && AllWellFormed(dropped + w) && p < |w| && IsSnapshot(w[p])
    ensures SumAll(dropped, m) == SumBefore(dropped, m, Month(w[p]))
  {
    var s, k := dropped + w, |dropped|;
    assert s[k + p] == w[p];
    forall i | 0 <= i < k ensures AtMost(dropped[i].sk, w[p].sk) && WellFormed(dropped[i]) {
      assert AtMost(s[i].sk, s[k + p].sk) && WellFormed(s[i]);
    }
    OldRowsAreBefore(dropped, w[p], m);
  }

  lemma {:induction false} UncoveredTotal(dropped: seq<Row>, w: seq<Row>, m: Metric)
    requires LatestSnapshot(w) == None
    ensures SumAll(dropped + w, m) == SumAll(dropped, m) + Total(w, m)
  {
    SumsJoin(dropped, w, m, "");
  }

  /** The totals of a window whose snapshot covers what was dropped. */
  lemma {:induction false} CoveredTotal(dropped: seq<Row>, w: seq<Row>, r: Row, m: Metric)
    requires LatestSnapshot(w) == Some(r)
    requires Value(r.metrics, m) == SumBefore(dropped + w, m, Month(r))
    requires SumAll(dropped, m) == SumBefore(dropped, m, Month(r))
    ensures Total(w, m) == SumAll(dropped + w, m)
  {
    SumsJoin(dropped, w, m, Month(r));
  }

  lemma {:induction false} KeptSnapshotTotal(dropped: seq<Row>, w: seq<Row>, m: Metric)
    requires Truthful(dropped + w) && AllWellFormed(dropped + w) && Ascending(dropped + w)
    requires LatestSnapshot(w).Some?
    ensures Total(w, m) == SumAll(dropped + w, m)
  {
    var r := LatestSnapshot(w).value;
    var p :| 0 <= p < |w| && w[p] == r;
    assert TruthfulRow((dropped + w)[|dropped| + p], dropped + w);
    KeptSnapshotCovers(dropped, w, p, m);
    CoveredTotal(dropped, w, r, m);
  }

  /**
   Dropping old rows leaves the totals unchanged exactly when a snapshot is kept, or what was dropped
   adds up to nothing.
   */
  lemma {:induction false} DroppingOldRowsIff(dropped: seq<Row>, kept: seq<Row>, m: Metric)
    requires Truthful(dropped + kept) && AllWellFormed(dropped + kept) && Ascending(dropped + kept)
    ensures Total(kept, m) == SumAll(dropped + kept, m) <==> LatestSnapshot(kept).Some? || SumAll(dropped, m) == 0
  {
    if LatestSnapshot(kept).Some? {
      KeptSnapshotTotal(dropped, kept, m);
    } else {
      UncoveredTotal(dropped, kept, m);
    }
  }

  /** `getStats` without a start key: the 400 latest rows, oldest first. */
  function GetStats(rows: seq<Row>): seq<Row> {
    var s := SortRows(rows);
    if |s| <= WINDOW then s else s[|s| - WINDOW..]
  }

  /** The rows that the limit cuts off. */
  function Dropped(rows: seq<Row>): seq<Row> {
    var s := SortRows(rows);
    if |s| <= WINDOW then [] else s[..|s| - WINDOW]
  }

  lemma {:induction false} SortedRows(rows: seq<Row>)
    requires Truthful(rows) && AllWellFormed(rows) && KeysIdentify(rows)
    ensures var s := SortRows(rows);
            Truthful(s) && AllWellFormed(s) && KeysIdentify(s) && Ascending(s)
                && forall m :: SumAll(s, m) == SumAll(rows, m)
  {
    SortRowsSorted(rows);
    KeysPermute(rows, SortRows(rows));
    TruthfulPermute(rows, SortRows(rows));
    forall m ensures SumAll(SortRows(rows), m) == SumAll(rows, m) {
      SumsPermute(rows, SortRows(rows), m, "");
    }
  }

  /** What the API shows as totals is the sum of every diff ever written, within the stated window. */
  lemma {:induction false} ApiTotalsIff(rows: seq<Row>, m: Metric)
    requires Truthful(rows) && AllWellFormed(rows) && KeysIdentify(rows)
    ensures Total(SortRows(GetStats(rows)), m) == SumAll(rows, m)
       <==> LatestSnapshot(GetStats(rows)).Some? || SumAll(Dropped(rows), m) == 0
  {
    var s := SortRows(rows);
    var k := if |s| <= WINDOW then 0 else |s| - WINDOW;
    SortedRows(rows);
    assert s[..k] == Dropped(rows) && s[k..] == GetStats(rows);
    SortedTotalsIff(s, k, m);
  }

  /** The digits of a number below 100. */
  function TwoDigits(n: nat): (s: string)
    requires n < 100
    ensures |s| == 2 && IsDigit(s[0]) && IsDigit(s[1]) && (n > 0 ==> s != "00")
    ensures s[0] as int - '0' as int == n / 10 && s[1] as int - '0' as int == n % 10
  {
    [('0' as int + n / 10) as char, ('0' as int + n % 10) as char]
  }

  /** One delivery on each of `n` days from 2025 on, days 1 to 28 of each month. */
  function OneADay(n: nat): (rows: seq<Row>)
    requires n < 2000
    ensures |rows| == n
  {
    seq(n, i requires 0 <= i < n => DayRow(YearMonth(i / 28), TwoDigits(1 + i % 28)))
  }

  function DayRow(month: string, day: string): Row {
    Row(DiffSk(month + "-" + day), map[Allowed := 1])
  }

  function YearMonth(k: nat): (s: string)
    requires k < 100
    ensures IsMonth(s)
  {
    "20" + TwoDigits(25 + k / 12) + "-" + TwoDigits(1 + k % 12)
  }

  lemma {:induction false} YearMonthTells(j: nat, k: nat)
    requires j < 100 && k < 100 && YearMonth(j) == YearMonth(k)
    ensures j == k
  {
    var s, t := YearMonth(j), YearMonth(k);
    assert s[2] == TwoDigits(25 + j / 12)[0] && s[3] == TwoDigits(25 + j / 12)[1];
    assert t[2] == TwoDigits(25 + k / 12)[0] && t[3] == TwoDigits(25 + k / 12)[1];
    assert s[5] == TwoDigits(1 + j % 12)[0] && s[6] == TwoDigits(1 + j % 12)[1];
    assert t[5] == TwoDigits(1 + k % 12)[0] && t[6] == TwoDigits(1 + k % 12)[1];
    assert 25 + j / 12 == 25 + k / 12 && 1 + j % 12 == 1 + k % 12;
  }

  lemma {:induction false} OneDay(month: string, day: string)
    requires IsMonth(month) && IsDay(day)
    ensures var row := DayRow(month, day);
            WellFormed(row) && !IsSnapshot(row) && DiffValue(row, Allowed) == 1 && Month(row) == month
                && row.sk[14..] == day
  {
    DiffKey(month, day, map[Allowed := 1]);
    assert DiffSk(month + "-" + day)[14..] == day;
  }

  lemma {:induction false} DaysTell(n: nat, i: nat, j: nat)
    requires i < n < 2000 && j < n && OneADay(n)[i].sk == OneADay(n)[j].sk
    ensures i == j
  {
    OneDay(YearMonth(i / 28), TwoDigits(1 + i % 28));
    OneDay(YearMonth(j / 28), TwoDigits(1 + j % 28));
    YearMonthTells(i / 28, j / 28);
    assert 1 + i % 28 == 1 + j % 28;
  }

  /** Rows that each add one. */
  lemma {:induction false} SumOfOnes(rows: seq<Row>)
    requires forall i :: 0 <= i < |rows| ==> DiffValue(rows[i], Allowed) == 1
    ensures SumAll(rows, Allowed) == |rows|
  {
    if rows != [] {
      SumOfOnes(rows[..|rows| - 1]);
    }
  }

  /** 401 days without a snapshot: distinct keys, truthful rows, and a total that is one short. */
  lemma {:induction false} WindowWithoutSnapshotLosesCounts(rows: seq<Row>)
    requires rows == OneADay(WINDOW + 1)
    ensures Truthful(rows) && AllWellFormed(rows) && forall i, j :: 0 <= i < j < |rows| ==> rows[i].sk != rows[j].sk
    ensures SumAll(rows, Allowed) == 401 && Total(SortRows(GetStats(rows)), Allowed) != 401
  {
    forall i | 0 <= i < |rows| ensures WellFormed(rows[i]) && !IsSnapshot(rows[i]) && DiffValue(rows[i], Allowed) == 1 {
      OneDay(YearMonth(i / 28), TwoDigits(1 + i % 28));
    }
    forall i, j | 0 <= i < j < |rows| ensures rows[i].sk != rows[j].sk {
      if rows[i].sk == rows[j].sk {
        DaysTell(WINDOW + 1, i, j);
      }
    }
    SumOfOnes(rows);
    DroppedOnes(rows);
    ApiTotalsIff(rows, Allowed);
  }

  lemma {:induction false} DroppedOnes(rows: seq<Row>)
    requires |rows| == WINDOW + 1
    requires forall i :: 0 <= i < |rows| ==> !IsSnapshot(rows[i]) && DiffValue(rows[i], Allowed) == 1
    ensures LatestSnapshot(GetStats(rows)).None? && SumAll(Dropped(rows), Allowed) == 1
  {
    var s := SortRows(rows);
    SortRowsSorted(rows);
    assert |multiset(s)| == |s| && |multiset(rows)| == |rows|;
    forall i | 0 <= i < |s| ensures !IsSnapshot(s[i]) && DiffValue(s[i], Allowed) == 1 {
      var x := FindIn(s, i, rows);
    }
    SumOfOnes(Dropped(rows));
  }

  lemma {:induction false} SortedTotalsIff(s: seq<Row>, k: nat, m: Metric)
    requires Truthful(s) && AllWellFormed(s) && KeysIdentify(s) && Ascending(s) && k <= |s|
    ensures Total(SortRows(s[k..]), m) == SumAll(s, m) <==> LatestSnapshot(s[k..]).Some? || SumAll(s[..k], m) == 0
  {
    assert s[..k] + s[k..] == s;
    KeptIsSorted(s, k);
    DroppingOldRowsIff(s[..k], s[k..], m);
  }

  lemma {:induction false} KeptIsSorted(s: seq<Row>, k: nat)
    requires Ascending(s) && KeysIdentify(s) && k <= |s|
    ensures SortRows(s[k..]) == s[k..]
  {
    var w := s[k..];
    SortRowsSorted(w);
    forall i, j | 0 <= i < j < |w| ensures AtMost(w[i].sk, w[j].sk) {
      assert AtMost(s[k + i].sk, s[k + j].sk);
    }
    forall i, j | 0 <= i < |w| && 0 <= j < |w| && w[i].sk == w[j].sk ensures w[i] == w[j] {
      assert s[k + i] == s[k + j];
    }
    SortedUnique(w, SortRows(w));
  }
}
