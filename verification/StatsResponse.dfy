/** The response of the statistics API, `aggregateStatsRows` of `stats-writer.ts`: totals, days and months. */
module StatsResponse {
  import opened Options
  import opened StatsMetrics
  import opened Text
  import opened Seqs
  import opened StatsWriter

  // ---------------------------------------------------------------------------
  // Buckets
  // ---------------------------------------------------------------------------

  datatype Totals = Totals(allowed: int, quarantined: int, blocked: int, aliases: int)

  datatype Bucket = Bucket(date: string, allowed: int, quarantined: int, blocked: int, aliases: int)

  function Shown(b: Bucket, m: Metric): int {
    match m
    case Allowed => b.allowed
    case Quarantined => b.quarantined
    case Blocked => b.blocked
    case TotalAliases => b.aliases
    case Reported => 0
  }

  function ToBucket(row: Row): Bucket {
    Bucket(Date(row), Value(row.metrics, Allowed), Value(row.metrics, Quarantined),
           Value(row.metrics, Blocked), Value(row.metrics, TotalAliases))
  }

  function Days(diffs: seq<Row>): seq<Bucket> {
    seq(|diffs|, i requires 0 <= i < |diffs| => ToBucket(diffs[i]))
  }

  function MonthOf(b: Bucket): string {
    Slice(b.date, 0, 7)
  }

  function BucketTotal(bs: seq<Bucket>, m: Metric): int {
    if bs == [] then 0 else BucketTotal(bs[..|bs| - 1], m) + Shown(bs[|bs| - 1], m)
  }

  /** The sum of the daily buckets of one month. */
  function MonthTotal(bs: seq<Bucket>, month: string, m: Metric): int {
    if bs == [] then 0
    else MonthTotal(bs[..|bs| - 1], month, m) + if MonthOf(bs[|bs| - 1]) == month then Shown(bs[|bs| - 1], m) else 0
  }

  function InsertBucket(b: Bucket, bs: seq<Bucket>): seq<Bucket> {
    if bs == [] || Below(bs[0].date, b.date) then [b] + bs else [bs[0]] + InsertBucket(b, bs[1..])
  }

  /** `sort((a, b) => b.date.localeCompare(a.date))` */
  function NewestFirst(bs: seq<Bucket>): seq<Bucket> {
    if bs == [] then [] else InsertBucket(bs[|bs| - 1], NewestFirst(bs[..|bs| - 1]))
  }

  ghost predicate Descending(bs: seq<Bucket>) {
    forall i, j :: 0 <= i < j < |bs| ==> AtMost(bs[j].date, bs[i].date)
  }

  lemma {:induction false} InsertBucketFirst(b: Bucket, bs: seq<Bucket>)
    requires Descending(bs) && bs != [] && AtMost(bs[0].date, b.date)
    ensures Descending([b] + bs)
  {
    forall j | 0 <= j < |bs| ensures AtMost(bs[j].date, b.date) {
      if b.date != bs[0].date && bs[0].date != bs[j].date {
        BelowTransitive(bs[j].date, bs[0].date, b.date);
      }
    }
  }

  lemma {:induction false} InsertBucketSorted(b: Bucket, bs: seq<Bucket>)
    requires Descending(bs)
    ensures Descending(InsertBucket(b, bs))
    ensures multiset(InsertBucket(b, bs)) == multiset(bs) + multiset{b}
  {
    if bs != [] {
      if Below(bs[0].date, b.date) {
        InsertBucketFirst(b, bs);
      } else {
        InsertBucketSorted(b, bs[1..]);
        var t := InsertBucket(b, bs[1..]);
        assert bs == [bs[0]] + bs[1..];
        BelowTotal(b.date, bs[0].date);
        assert t != [] && t[0] in multiset(bs[1..]) + multiset{b};
        InsertBucketFirst(bs[0], t);
      }
    }
  }

  lemma {:induction false} NewestFirstSorted(bs: seq<Bucket>)
    ensures Descending(NewestFirst(bs)) && multiset(NewestFirst(bs)) == multiset(bs)
  {
    if bs != [] {
      var k := |bs| - 1;
      NewestFirstSorted(bs[..k]);
      InsertBucketSorted(bs[k], NewestFirst(bs[..k]));
      assert bs == bs[..k] + [bs[k]];
    }
  }

  /** One bucket per month, each holding the sum of the month's days. */
  ghost predicate RollsUp(monthly: seq<Bucket>, daily: seq<Bucket>) {
    && DistinctDates(monthly)
    && (forall i, m :: 0 <= i < |monthly| ==> Shown(monthly[i], m) == MonthTotal(daily, monthly[i].date, m))
    && (forall i :: 0 <= i < |daily| ==> HasBucket(monthly, MonthOf(daily[i])))
  }

  ghost predicate HasBucket(bs: seq<Bucket>, date: string) {
    exists i :: 0 <= i < |bs| && bs[i].date == date
  }

  ghost predicate HasDay(daily: seq<Bucket>, month: string) {
    exists d :: 0 <= d < |daily| && MonthOf(daily[d]) == month
  }

  /** No month is listed without a day. */
  ghost predicate EachHasDay(monthly: seq<Bucket>, daily: seq<Bucket>) {
    forall i :: 0 <= i < |monthly| ==> HasDay(daily, monthly[i].date)
  }

  function FindBucket(bs: seq<Bucket>, date: string): (i: nat)
    ensures i <= |bs| && (i < |bs| ==> bs[i].date == date)
    ensures forall j :: 0 <= j < i ==> bs[j].date != date
  {
    if bs == [] || bs[0].date == date then 0 else 1 + FindBucket(bs[1..], date)
  }

  /** `monthlyMap.get(month) ?? zeros`, add, `monthlyMap.set`. */
  function AddDay(monthly: seq<Bucket>, day: Bucket): seq<Bucket> {
    var i := FindBucket(monthly, MonthOf(day));
    var known := if i < |monthly| then monthly[i] else Bucket(MonthOf(day), 0, 0, 0, 0);
    var sum := Bucket(known.date, known.allowed + day.allowed, known.quarantined + day.quarantined,
                      known.blocked + day.blocked, known.aliases + day.aliases);
    if i < |monthly| then monthly[i := sum] else monthly + [sum]
  }

  lemma {:induction false} AddDayRollsUp(monthly: seq<Bucket>, daily: seq<Bucket>, day: Bucket)
    requires RollsUp(monthly, daily)
    ensures RollsUp(AddDay(monthly, day), daily + [day])
  {
    var r, all, i := AddDay(monthly, day), daily + [day], FindBucket(monthly, MonthOf(day));
    assert all[..|daily|] == daily;
    forall d | 0 <= d < |all| ensures HasBucket(r, MonthOf(all[d])) {
      if d < |daily| {
        assert HasBucket(monthly, MonthOf(daily[d]));
        var j :| 0 <= j < |monthly| && monthly[j].date == MonthOf(daily[d]);
        assert r[j].date == MonthOf(daily[d]);
      } else {
        assert r[i].date == MonthOf(day);
      }
    }
    forall k, m | 0 <= k < |r| ensures Shown(r[k], m) == MonthTotal(all, r[k].date, m) {
      if k == |monthly| {
        NoDays(daily, MonthOf(day), m, monthly);
      }
    }
  }

  /** A month without a bucket has no days yet. */
  lemma {:induction false} NoDays(daily: seq<Bucket>, month: string, m: Metric, monthly: seq<Bucket>)
    requires forall i :: 0 <= i < |daily| ==> HasBucket(monthly, MonthOf(daily[i]))
    requires !HasBucket(monthly, month)
    ensures MonthTotal(daily, month, m) == 0
  {
    if daily != [] {
      NoDays(daily[..|daily| - 1], month, m, monthly);
      assert HasBucket(monthly, MonthOf(daily[|daily| - 1]));
    }
  }

  lemma {:induction false} RollsUpPermute(monthly: seq<Bucket>, sorted: seq<Bucket>, daily: seq<Bucket>)
    requires RollsUp(monthly, daily) && multiset(monthly) == multiset(sorted)
    requires DistinctDates(sorted)
    ensures RollsUp(sorted, daily)
  {
    forall i, m | 0 <= i < |sorted| ensures Shown(sorted[i], m) == MonthTotal(daily, sorted[i].date, m) {
      var x := FindIn(sorted, i, monthly);
    }
    forall d | 0 <= d < |daily| ensures HasBucket(sorted, MonthOf(daily[d])) {
      assert HasBucket(monthly, MonthOf(daily[d]));
      var j :| 0 <= j < |monthly| && monthly[j].date == MonthOf(daily[d]);
      var x := FindIn(monthly, j, sorted);
    }
  }

  ghost predicate DistinctDates(bs: seq<Bucket>) {
    forall i, j :: 0 <= i < j < |bs| ==> bs[i].date != bs[j].date
  }

  lemma {:induction false} InsertBucketDistinct(b: Bucket, bs: seq<Bucket>)
    requires DistinctDates(bs) && !HasBucket(bs, b.date)
    ensures DistinctDates(InsertBucket(b, bs))
    ensures forall d :: HasBucket(InsertBucket(b, bs), d) <==> HasBucket(bs, d) || d == b.date
  {
    HasBucketFirst(InsertBucket(b, bs));
    if bs != [] {
      HasBucketFirst(bs);
      if !Below(bs[0].date, b.date) {
        InsertBucketDistinct(b, bs[1..]);
        assert InsertBucket(b, bs)[1..] == InsertBucket(b, bs[1..]);
      } else {
        assert InsertBucket(b, bs)[1..] == bs;
      }
    } else {
      assert InsertBucket(b, bs)[1..] == [];
    }
  }

  lemma {:induction false} HasBucketFirst(bs: seq<Bucket>)
    requires bs != []
    ensures forall d :: HasBucket(bs, d) <==> bs[0].date == d || HasBucket(bs[1..], d)
    ensures DistinctDates(bs) <==> DistinctDates(bs[1..]) && !HasBucket(bs[1..], bs[0].date)
  {
    forall d ensures HasBucket(bs, d) <==> bs[0].date == d || HasBucket(bs[1..], d) {
      if HasBucket(bs[1..], d) {
        var i :| 0 <= i < |bs[1..]| && bs[1..][i].date == d;
        assert bs[i + 1].date == d;
      }
      if HasBucket(bs, d) {
        var i :| 0 <= i < |bs| && bs[i].date == d;
        assert i > 0 ==> bs[1..][i - 1].date == d;
      }
    }
    if DistinctDates(bs[1..]) && !HasBucket(bs[1..], bs[0].date) {
      forall i, j | 0 <= i < j < |bs| ensures bs[i].date != bs[j].date {
        assert bs[j] == bs[1..][j - 1];
        assert i > 0 ==> bs[i] == bs[1..][i - 1];
      }
    }
    if DistinctDates(bs) {
      forall i, j | 0 <= i < j < |bs[1..]| ensures bs[1..][i].date != bs[1..][j].date {
        assert bs[i + 1].date != bs[j + 1].date;
      }
    }
  }

  lemma {:induction false} NewestFirstDistinct(bs: seq<Bucket>)
    requires DistinctDates(bs)
    ensures DistinctDates(NewestFirst(bs))
    ensures forall d :: HasBucket(NewestFirst(bs), d) ==> HasBucket(bs, d)
  {
    if bs != [] {
      var k := |bs| - 1;
      NewestFirstDistinct(bs[..k]);
      InsertBucketDistinct(bs[k], NewestFirst(bs[..k]));
      forall d | HasBucket(bs[..k], d) ensures HasBucket(bs, d) {
        var i :| 0 <= i < k && bs[..k][i].date == d;
        assert bs[i].date == d;
      }
      assert bs[k].date == bs[k].date;
    }
  }

  function FilterFrom(diffs: seq<Row>, month: string): seq<Metrics> {
    if diffs == [] then []
    else
      var last := diffs[|diffs| - 1];
      FilterFrom(diffs[..|diffs| - 1], month) + if Below(Month(last), month) then [] else [last.metrics]
  }

  function DiffsOf(sorted: seq<Row>): seq<Row> {
    if sorted == [] then []
    else DiffsOf(sorted[..|sorted| - 1]) + if IsSnapshot(sorted[|sorted| - 1]) then [] else [sorted[|sorted| - 1]]
  }

  lemma {:induction false} FilterLast(d: seq<Row>, e: Row, month: string, m: Metric)
    ensures SumMaps(FilterFrom(d + [e], month), m)
         == SumMaps(FilterFrom(d, month), m) + if Below(Month(e), month) then 0 else Value(e.metrics, m)
  {
    assert (d + [e])[..|d|] == d;
    var f := FilterFrom(d, month);
    assert (f + [e.metrics])[..|f|] == f;
    assert f + [] == f;
  }

  lemma {:induction false} FilteredSum(sorted: seq<Row>, month: string, m: Metric)
    ensures SumMaps(FilterFrom(DiffsOf(sorted), month), m) == SumFrom(sorted, m, month)
  {
    if sorted != [] {
      var k := |sorted| - 1;
      FilteredSum(sorted[..k], month, m);
      var d, e := DiffsOf(sorted[..k]), sorted[k];
      if IsSnapshot(e) {
        assert d + [] == d;
      } else {
        FilterLast(d, e, month, m);
      }
    }
  }

  lemma {:induction false} NothingBelowEmpty(rows: seq<Row>, m: Metric)
    ensures SumBefore(rows, m, "") == 0
  {
    if rows != [] {
      NothingBelowEmpty(rows[..|rows| - 1], m);
    }
  }

  // ---------------------------------------------------------------------------
  // What the buckets hold
  // ---------------------------------------------------------------------------

  /** The bucket of one diff row. */
  ghost predicate ShowsDay(b: Bucket, row: Row) {
    && row.sk == "STATS#" + b.date
    && b.allowed == Value(row.metrics, Allowed) && b.quarantined == Value(row.metrics, Quarantined)
    && b.blocked == Value(row.metrics, Blocked) && b.aliases == Value(row.metrics, TotalAliases)
  }

  /** Every diff row has its bucket, and every bucket its diff row. */
  ghost predicate ShowsDiffs(daily: seq<Bucket>, rows: seq<Row>) {
    && (forall row :: row in rows && !IsSnapshot(row) ==> exists b :: b in daily && ShowsDay(b, row))
    && (forall b :: b in daily ==> exists row :: row in rows && !IsSnapshot(row) && ShowsDay(b, row))
  }

  /** Column by column, under a date of its own. */
  function SumOf(bs: seq<Bucket>, date: string): Bucket {
    if bs == [] then Bucket(date, 0, 0, 0, 0)
    else
      var (before, last) := (SumOf(bs[..|bs| - 1], date), bs[|bs| - 1]);
      Bucket(date, before.allowed + last.allowed, before.quarantined + last.quarantined,
             before.blocked + last.blocked, before.aliases + last.aliases)
  }

  /** The days that begin with the text of a month. */
  function DaysIn(bs: seq<Bucket>, month: string): seq<Bucket> {
    if bs == [] then []
    else
      var last := bs[|bs| - 1];
      DaysIn(bs[..|bs| - 1], month) + if StartsWith(last.date, month) then [last] else []
  }

  lemma {:induction false} SumOfTotals(bs: seq<Bucket>, date: string)
    ensures SumOf(bs, date) == Bucket(date, BucketTotal(bs, Allowed), BucketTotal(bs, Quarantined),
                                      BucketTotal(bs, Blocked), BucketTotal(bs, TotalAliases))
  {
    if bs != [] {
      SumOfTotals(bs[..|bs| - 1], date);
    }
  }

  lemma {:induction false} SumOfMonth(bs: seq<Bucket>, month: string)
    requires |month| == 7 && forall i :: 0 <= i < |bs| ==> |bs[i].date| >= 7
    ensures SumOf(DaysIn(bs, month), month)
         == Bucket(month, MonthTotal(bs, month, Allowed), MonthTotal(bs, month, Quarantined),
                   MonthTotal(bs, month, Blocked), MonthTotal(bs, month, TotalAliases))
  {
    if bs != [] {
      var k := |bs| - 1;
      var before := DaysIn(bs[..k], month);
      SumOfMonth(bs[..k], month);
      assert (before + [bs[k]])[..|before|] == before && before + [] == before;
    }
  }

  lemma {:induction false} DaysTotal(sorted: seq<Row>, m: Metric)
    requires m != Reported
    ensures BucketTotal(Days(DiffsOf(sorted)), m) == SumAll(sorted, m)
  {
    if sorted != [] {
      var k := |sorted| - 1;
      DaysTotal(sorted[..k], m);
      var d := DiffsOf(sorted[..k]);
      assert d + [] == d;
      if !IsSnapshot(sorted[k]) {
        DaysTotalLast(d, sorted[k], m);
      }
    }
  }

  lemma {:induction false} DaysTotalLast(d: seq<Row>, row: Row, m: Metric)
    requires m != Reported
    ensures BucketTotal(Days(d + [row]), m) == BucketTotal(Days(d), m) + Value(row.metrics, m)
  {
    assert Days(d + [row])[..|d|] == Days(d);
  }

  lemma {:induction false} DiffsMembers(sorted: seq<Row>)
    ensures forall row :: row in DiffsOf(sorted) <==> row in sorted && !IsSnapshot(row)
  {
    if sorted != [] {
      var k := |sorted| - 1;
      DiffsMembers(sorted[..k]);
      assert sorted == sorted[..k] + [sorted[k]];
    }
  }

  /** A well-formed key is the prefix and the date. */
  lemma {:induction false} DateOfRow(row: Row)
    requires WellFormed(row)
    ensures row.sk == "STATS#" + Date(row) && |Date(row)| >= 7
  {
    KeyShapes(row);
    assert "STATS#"[..6] == "STATS#";
    if IsSnapshot(row) {
      assert row.sk[6..] == Month(row) + "-00-SNAPSHOT";
    } else {
      var day :| IsDay(day) && row.sk == DiffSk(Month(row) + "-" + day);
      assert row.sk[6..] == Month(row) + "-" + day;
    }
  }

  lemma {:induction false} BucketShows(row: Row)
    requires WellFormed(row)
    ensures ShowsDay(ToBucket(row), row) && |ToBucket(row).date| >= 7
  {
    DateOfRow(row);
  }

  /** The diffs are the rows that are no snapshots. */
  lemma {:induction false} DiffsAreRows(rows: seq<Row>)
    ensures forall row :: row in DiffsOf(SortRows(rows)) <==> row in rows && !IsSnapshot(row)
  {
    var s := SortRows(rows);
    SortRowsSorted(rows);
    DiffsMembers(s);
    forall row ensures row in s <==> row in rows {
      assert row in s <==> row in multiset(s);
      assert row in rows <==> row in multiset(rows);
    }
  }

  lemma {:induction false} DayOfRow(diffs: seq<Row>, daily: seq<Bucket>, row: Row) returns (b: Bucket)
    requires multiset(daily) == multiset(Days(diffs)) && row in diffs && WellFormed(row)
    ensures b in daily && ShowsDay(b, row)
  {
    var i :| 0 <= i < |diffs| && diffs[i] == row;
    BucketShows(row);
    var x := FindIn(Days(diffs), i, daily);
    b := daily[x];
  }

  lemma {:induction false} RowOfDay(diffs: seq<Row>, daily: seq<Bucket>, b: Bucket) returns (row: Row)
    requires multiset(daily) == multiset(Days(diffs)) && b in daily
    requires forall row :: row in diffs ==> WellFormed(row)
    ensures row in diffs && ShowsDay(b, row) && |b.date| >= 7
  {
    var y :| 0 <= y < |daily| && daily[y] == b;
    var i := FindIn(daily, y, Days(diffs));
    row := diffs[i];
    BucketShows(row);
  }

  lemma {:induction false} DailyShows(rows: seq<Row>, diffs: seq<Row>, daily: seq<Bucket>)
    requires AllWellFormed(rows) && multiset(daily) == multiset(Days(diffs))
    requires forall row :: row in diffs <==> row in rows && !IsSnapshot(row)
    ensures ShowsDiffs(daily, rows) && forall b :: b in daily ==> |b.date| >= 7
  {
    forall row | row in rows && !IsSnapshot(row) ensures exists b :: b in daily && ShowsDay(b, row) {
      var b := DayOfRow(diffs, daily, row);
    }
    forall b | b in daily
      ensures |b.date| >= 7 && exists row :: row in rows && !IsSnapshot(row) && ShowsDay(b, row)
    {
      var row := RowOfDay(diffs, daily, b);
    }
  }

  lemma {:induction false} DailyDistinct(diffs: seq<Row>)
    requires DistinctKeys(diffs) && forall row :: row in diffs ==> WellFormed(row)
    ensures DistinctDates(NewestFirst(Days(diffs)))
  {
    forall i, j | 0 <= i < j < |diffs| ensures Days(diffs)[i].date != Days(diffs)[j].date {
      DateOfRow(diffs[i]);
      DateOfRow(diffs[j]);
    }
    NewestFirstDistinct(Days(diffs));
  }

  lemma {:induction false} DiffKeysDistinct(rows: seq<Row>)
    requires DistinctKeys(rows)
    ensures DistinctKeys(DiffsOf(SortRows(rows)))
  {
    SortRowsSorted(rows);
    KeysPermuteDistinct(rows, SortRows(rows));
    DiffsDistinct(SortRows(rows));
  }

  lemma {:induction false} KeysPermuteDistinct(a: seq<Row>, b: seq<Row>)
    requires multiset(a) == multiset(b) && DistinctKeys(a)
    ensures DistinctKeys(b)
    decreases |a|
  {
    SameEmpty(a, b);
    if a != [] {
      var k := |a| - 1;
      var i := FindIn(a, k, b);
      RemoveSame(a, b, k, i);
      var c := b[..i] + b[i + 1..];
      assert a[..k] + a[k + 1..] == a[..k];
      KeysPermuteDistinct(a[..k], c);
      forall j | 0 <= j < |b| && j != i ensures b[j].sk != b[i].sk {
        var at := if j < i then j else j - 1;
        assert c[at] == b[j];
        var x := FindIn(c, at, a[..k]);
        assert a[x].sk != a[k].sk;
      }
      forall x, y | 0 <= x < y < |b| ensures b[x].sk != b[y].sk {
        if x != i && y != i {
          var (u, v) := (if x < i then x else x - 1, if y < i then y else y - 1);
          assert c[u] == b[x] && c[v] == b[y];
        }
      }
    }
  }

  lemma {:induction false} DiffsDistinct(sorted: seq<Row>)
    requires DistinctKeys(sorted)
    ensures DistinctKeys(DiffsOf(sorted))
  {
    if sorted != [] {
      var k := |sorted| - 1;
      DiffsDistinct(sorted[..k]);
      DiffsMembers(sorted[..k]);
      forall row | row in sorted[..k] ensures row.sk != sorted[k].sk {
        var i :| 0 <= i < k && sorted[i] == row;
      }
    }
  }

  lemma {:induction false} MonthsShow(daily: seq<Bucket>, monthly: seq<Bucket>)
    requires RollsUp(monthly, daily) && EachHasDay(monthly, daily)
    requires forall b :: b in daily ==> |b.date| >= 7
    ensures forall i :: 0 <= i < |monthly| ==>
              monthly[i] == SumOf(DaysIn(daily, monthly[i].date), monthly[i].date)
  {
    forall i | 0 <= i < |monthly| ensures monthly[i] == SumOf(DaysIn(daily, monthly[i].date), monthly[i].date) {
      var b := monthly[i];
      assert HasDay(daily, b.date);
      var d :| 0 <= d < |daily| && MonthOf(daily[d]) == b.date;
      assert daily[d] in daily;
      SumOfMonth(daily, b.date);
      assert forall m :: Shown(b, m) == MonthTotal(daily, b.date, m);
      assert b.allowed == Shown(b, Allowed) && b.quarantined == Shown(b, Quarantined);
      assert b.blocked == Shown(b, Blocked) && b.aliases == Shown(b, TotalAliases);
    }
  }

  lemma {:induction false} DailySums(rows: seq<Row>, daily: seq<Bucket>)
    requires multiset(daily) == multiset(Days(DiffsOf(SortRows(rows))))
    ensures SumOf(daily, "") == Bucket("", SumAll(rows, Allowed), SumAll(rows, Quarantined),
                                       SumAll(rows, Blocked), SumAll(rows, TotalAliases))
  {
    SumOfTotals(daily, "");
    forall m | m != Reported ensures BucketTotal(daily, m) == SumAll(rows, m) {
      DailySum(rows, daily, m);
    }
  }

  lemma {:induction false} DailySum(rows: seq<Row>, daily: seq<Bucket>, m: Metric)
    requires multiset(daily) == multiset(Days(DiffsOf(SortRows(rows)))) && m != Reported
    ensures BucketTotal(daily, m) == SumAll(rows, m)
  {
    SortRowsSorted(rows);
    BucketSumsPermute(daily, Days(DiffsOf(SortRows(rows))), "", m);
    DaysTotal(SortRows(rows), m);
    SumsPermute(rows, SortRows(rows), m, "");
  }

  // ---------------------------------------------------------------------------
  // The response
  // ---------------------------------------------------------------------------

  /**
   `aggregateStatsRows`: the totals; one day per diff row, newest first, with its four columns; and one month
   per month that has a day, newest first, each column the sum of its days.
   */
  method AggregateStatsRows(rows: seq<Row>) returns (totals: Totals, daily: seq<Bucket>, monthly: seq<Bucket>)
    ensures var sorted := SortRows(rows);
            totals == Totals(Total(sorted, Allowed), Total(sorted, Quarantined),
                             Total(sorted, Blocked), Total(sorted, TotalAliases))
    ensures Descending(daily) && Descending(monthly) && DistinctDates(monthly)
    ensures AllWellFormed(rows) ==> ShowsDiffs(daily, rows)
    ensures AllWellFormed(rows) && DistinctKeys(rows) ==> DistinctDates(daily)
    ensures SumOf(daily, "") == Bucket("", SumAll(rows, Allowed), SumAll(rows, Quarantined),
                                       SumAll(rows, Blocked), SumAll(rows, TotalAliases))
    ensures RollsUp(monthly, daily) && EachHasDay(monthly, daily)
    ensures AllWellFormed(rows) ==>
              forall i :: 0 <= i < |monthly| ==>
                monthly[i] == SumOf(DaysIn(daily, monthly[i].date), monthly[i].date)
  {
    var sorted := SortRows(rows);
    var latestSnapshot, snapshotMonth, diffs := ScanRows(sorted);
    var sums := ComputeSnapshot(if latestSnapshot.Some? then Some(latestSnapshot.value.metrics) else None,
                                FilterFrom(diffs, snapshotMonth));
    forall m ensures sums[m] == Total(sorted, m) {
      FilteredSum(sorted, snapshotMonth, m);
      NothingBelowEmpty(sorted, m);
    }
    totals := Totals(sums[Allowed], sums[Quarantined], sums[Blocked], sums[TotalAliases]);
    daily, monthly := Buckets(diffs);
    DailySums(rows, daily);
    if AllWellFormed(rows) {
      DiffsAreRows(rows);
      DailyShows(rows, diffs, daily);
      MonthsShow(daily, monthly);
      if DistinctKeys(rows) {
        DiffKeysDistinct(rows);
        DailyDistinct(diffs);
      }
    }
  }

  /** The loop that finds the latest snapshot and keeps the diffs. */
  method ScanRows(sorted: seq<Row>) returns (latestSnapshot: Option<Row>, snapshotMonth: string, diffs: seq<Row>)
    ensures latestSnapshot == LatestSnapshot(sorted) && diffs == DiffsOf(sorted)
    ensures snapshotMonth == if latestSnapshot.Some? then Month(latestSnapshot.value) else ""
  {
    latestSnapshot, snapshotMonth, diffs := None, "", [];
    for i := 0 to |sorted|
      invariant diffs == DiffsOf(sorted[..i])
      invariant latestSnapshot == LatestSnapshot(sorted[..i])
      invariant snapshotMonth == if latestSnapshot.Some? then Month(latestSnapshot.value) else ""
    {
      assert sorted[..i + 1][..i] == sorted[..i];
      if IsSnapshot(sorted[i]) {
        latestSnapshot, snapshotMonth := Some(sorted[i]), Month(sorted[i]);
      } else {
        diffs := diffs + [sorted[i]];
      }
    }
    assert sorted[..|sorted|] == sorted;
  }

  /** The daily and monthly breakdowns of the diffs. */
  method Buckets(diffs: seq<Row>) returns (daily: seq<Bucket>, monthly: seq<Bucket>)
    ensures daily == NewestFirst(Days(diffs))
    ensures Descending(daily) && multiset(daily) == multiset(Days(diffs))
    ensures Descending(monthly) && RollsUp(monthly, daily) && EachHasDay(monthly, daily)
  {
    var days := Days(diffs);
    var months := RollUp(days);
    daily, monthly := NewestFirst(days), NewestFirst(months);
    NewestFirstSorted(days);
    NewestFirstSorted(months);
    NewestFirstDistinct(months);
    RollsUpPermute(months, monthly, days);
    RollsUpReorder(monthly, days, daily);
    EachHasDayPermute(months, days, monthly, daily);
  }

  /** The loop that fills the map of months. */
  method RollUp(days: seq<Bucket>) returns (monthly: seq<Bucket>)
    ensures RollsUp(monthly, days) && EachHasDay(monthly, days)
  {
    monthly := [];
    for i := 0 to |days|
      invariant RollsUp(monthly, days[..i]) && EachHasDay(monthly, days[..i])
    {
      AddDayRollsUp(monthly, days[..i], days[i]);
      AddDayHasDay(monthly, days[..i], days[i]);
      assert days[..i + 1] == days[..i] + [days[i]];
      monthly := AddDay(monthly, days[i]);
    }
    assert days[..|days|] == days;
  }

  lemma {:induction false} AddDayHasDay(monthly: seq<Bucket>, daily: seq<Bucket>, day: Bucket)
    requires EachHasDay(monthly, daily)
    ensures EachHasDay(AddDay(monthly, day), daily + [day])
  {
    var r, all := AddDay(monthly, day), daily + [day];
    assert MonthOf(all[|daily|]) == MonthOf(day);
    forall i | 0 <= i < |r| ensures HasDay(all, r[i].date) {
      if i < |monthly| {
        assert HasDay(daily, monthly[i].date);
        var d :| 0 <= d < |daily| && MonthOf(daily[d]) == monthly[i].date;
        assert MonthOf(all[d]) == r[i].date;
      }
    }
  }

  lemma {:induction false} EachHasDayPermute(monthly: seq<Bucket>, daily: seq<Bucket>, sorted: seq<Bucket>,
                                             days: seq<Bucket>)
    requires EachHasDay(monthly, daily) && multiset(monthly) == multiset(sorted) && multiset(daily) == multiset(days)
    ensures EachHasDay(sorted, days)
  {
    forall i | 0 <= i < |sorted| ensures HasDay(days, sorted[i].date) {
      var x := FindIn(sorted, i, monthly);
      assert HasDay(daily, monthly[x].date);
      var d :| 0 <= d < |daily| && MonthOf(daily[d]) == monthly[x].date;
      var y := FindIn(daily, d, days);
    }
  }

  lemma {:induction false} RollsUpReorder(monthly: seq<Bucket>, a: seq<Bucket>, b: seq<Bucket>)
    requires RollsUp(monthly, a) && multiset(a) == multiset(b)
    ensures RollsUp(monthly, b)
  {
    forall i, m | 0 <= i < |monthly| ensures Shown(monthly[i], m) == MonthTotal(b, monthly[i].date, m) {
      BucketSumsPermute(a, b, monthly[i].date, m);
    }
    forall d | 0 <= d < |b| ensures HasBucket(monthly, MonthOf(b[d])) {
      var x := FindIn(b, d, a);
    }
  }

  lemma {:induction false} BucketSumsJoin(a: seq<Bucket>, b: seq<Bucket>, month: string, m: Metric)
    ensures MonthTotal(a + b, month, m) == MonthTotal(a, month, m) + MonthTotal(b, month, m)
    ensures BucketTotal(a + b, m) == BucketTotal(a, m) + BucketTotal(b, m)
  {
    if b == [] {
      assert a + b == a;
    } else {
      var k := |b| - 1;
      assert (a + b)[..|a + b| - 1] == a + b[..k];
      BucketSumsJoin(a, b[..k], month, m);
    }
  }

  lemma {:induction false} BucketWithout(b: seq<Bucket>, i: nat, month: string, m: Metric)
    requires i < |b|
    ensures BucketTotal(b, m) == BucketTotal(b[..i] + b[i + 1..], m) + Shown(b[i], m)
    ensures MonthTotal(b, month, m)
         == MonthTotal(b[..i] + b[i + 1..], month, m) + if MonthOf(b[i]) == month then Shown(b[i], m) else 0
  {
    assert b == b[..i] + ([b[i]] + b[i + 1..]);
    BucketSumsJoin(b[..i], [b[i]] + b[i + 1..], month, m);
    BucketSumsJoin([b[i]], b[i + 1..], month, m);
    BucketSumsJoin(b[..i], b[i + 1..], month, m);
    assert [b[i]][..0] == [];
  }

  lemma {:induction false} BucketSumsPermute(a: seq<Bucket>, b: seq<Bucket>, month: string, m: Metric)
    requires multiset(a) == multiset(b)
    ensures MonthTotal(a, month, m) == MonthTotal(b, month, m) && BucketTotal(a, m) == BucketTotal(b, m)
    decreases |a|
  {
    SameEmpty(a, b);
    if a != [] {
      var i := FindIn(a, 0, b);
      RemoveSame(a, b, 0, i);
      BucketSumsPermute(a[..0] + a[1..], b[..i] + b[i + 1..], month, m);
      BucketWithout(a, 0, month, m);
      BucketWithout(b, i, month, m);
    }
  }

  lemma {:induction false} TakeDayOut(monthly: seq<Bucket>, less: seq<Bucket>, daily: seq<Bucket>, i: nat)
    requires RollsUp(monthly, daily) && daily != [] && i < |monthly| == |less|
    requires monthly[i].date == MonthOf(daily[|daily| - 1]) == less[i].date
    requires less == monthly[i := less[i]]
    requires forall m :: Shown(less[i], m) == Shown(monthly[i], m) - Shown(daily[|daily| - 1], m)
    ensures RollsUp(less, daily[..|daily| - 1])
  {
    var rest := daily[..|daily| - 1];
    assert forall j :: 0 <= j < |less| ==> less[j].date == monthly[j].date;
    forall j, m | 0 <= j < |less| ensures Shown(less[j], m) == MonthTotal(rest, less[j].date, m) {
      assert Shown(monthly[j], m) == MonthTotal(daily, monthly[j].date, m);
    }
    forall d | 0 <= d < |rest| ensures HasBucket(less, MonthOf(rest[d])) {
      assert HasBucket(monthly, MonthOf(daily[d]));
      var j :| 0 <= j < |monthly| && monthly[j].date == MonthOf(daily[d]);
      assert less[j].date == MonthOf(daily[d]);
    }
  }

  /** The months add up to the days. */
  lemma {:induction false} MonthsSumToDays(monthly: seq<Bucket>, daily: seq<Bucket>, m: Metric)
    requires RollsUp(monthly, daily)
    ensures BucketTotal(monthly, m) == BucketTotal(daily, m)
    decreases |daily|
  {
    if daily == [] {
      EmptyMonths(monthly, m);
    } else {
      var k := |daily| - 1;
      var day := daily[k];
      assert HasBucket(monthly, MonthOf(day));
      var i :| 0 <= i < |monthly| && monthly[i].date == MonthOf(day);
      var less := monthly[i := Bucket(MonthOf(day), monthly[i].allowed - day.allowed,
          monthly[i].quarantined - day.quarantined,
                                      monthly[i].blocked - day.blocked, monthly[i].aliases - day.aliases)];
      TakeDayOut(monthly, less, daily, i);
      MonthsSumToDays(less, daily[..k], m);
      BucketWithout(monthly, i, "", m);
      BucketWithout(less, i, "", m);
      assert monthly[..i] + monthly[i + 1..] == less[..i] + less[i + 1..];
    }
  }

  lemma {:induction false} EmptyMonths(monthly: seq<Bucket>, m: Metric)
    requires forall i, m :: 0 <= i < |monthly| ==> Shown(monthly[i], m) == MonthTotal([], monthly[i].date, m)
    ensures BucketTotal(monthly, m) == 0
  {
    if monthly != [] {
      EmptyMonths(monthly[..|monthly| - 1], m);
      assert Shown(monthly[|monthly| - 1], m) == MonthTotal([], monthly[|monthly| - 1].date, m);
    }
  }
}
