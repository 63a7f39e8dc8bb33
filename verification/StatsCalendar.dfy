/**
 When a run of the statistics is timely, said in calendar terms: time does not go back, the job is given the
 month before the current one, and no month between the first and the last goes without a run of it.
 */
module StatsCalendar {
  import opened StatsMetrics
  import opened Text
  import opened Seqs
  import opened StatsWriter
  import opened SnapshotJob
  import opened StatsRuns

  // ---------------------------------------------------------------------------
  // Months by number
  // ---------------------------------------------------------------------------

  /** Months are counted from January of the year 0. */
  const MONTHS := 120000

  function Padded(v: nat, width: nat): (s: string)
    ensures |s| == width && forall i :: 0 <= i < width ==> IsDigit(s[i])
  {
    if width == 0 then "" else Padded(v / 10, width - 1) + [DigitChar(v % 10)]
  }

  function DigitChar(d: nat): (c: char)
    requires d < 10
    ensures IsDigit(c)
  {
    '0' + d as char
  }

  /** `toFormat("yyyy-MM")` */
  function MonthText(n: nat): (s: string)
    ensures IsMonth(s)
  {
    Padded(n / 12, 4) + "-" + Padded(n % 12 + 1, 2)
  }

  function Power(width: nat): nat {
    if width == 0 then 1 else 10 * Power(width - 1)
  }

  lemma {:induction false} PaddedOrder(a: nat, b: nat, width: nat)
    requires a < b < Power(width)
    ensures Below(Padded(a, width), Padded(b, width))
  {
    var k := width - 1;
    if a / 10 < b / 10 {
      PaddedOrder(a / 10, b / 10, k);
      BelowWide(Padded(a / 10, k), Padded(b / 10, k), [DigitChar(a % 10)], [DigitChar(b % 10)]);
    } else {
      BelowAfter(Padded(a / 10, k), [DigitChar(a % 10)], [DigitChar(b % 10)]);
    }
  }

  /** The order of the texts is that of the months. */
  lemma {:induction false} MonthOrder(a: nat, b: nat)
    requires a < MONTHS && b < MONTHS
    ensures Below(MonthText(a), MonthText(b)) <==> a < b
  {
    if a < b {
      EarlierMonth(a, b);
    } else if b < a {
      EarlierMonth(b, a);
      BelowTotal(MonthText(a), MonthText(b));
    } else {
      BelowIrreflexive(MonthText(a));
    }
  }

  lemma {:induction false} EarlierMonth(a: nat, b: nat)
    requires a < b < MONTHS
    ensures Below(MonthText(a), MonthText(b))
  {
    var ya, yb := Padded(a / 12, 4), Padded(b / 12, 4);
    var ma, mb := Padded(a % 12 + 1, 2), Padded(b % 12 + 1, 2);
    assert MonthText(a) == ya + ("-" + ma) && MonthText(b) == yb + ("-" + mb);
    assert Power(2) == 100 && Power(4) == 10000;
    if a / 12 < b / 12 {
      PaddedOrder(a / 12, b / 12, 4);
      BelowWide(ya, yb, "-" + ma, "-" + mb);
    } else {
      PaddedOrder(a % 12 + 1, b % 12 + 1, 2);
      BelowAfter("-", ma, mb);
      BelowAfter(ya, "-" + ma, "-" + mb);
    }
  }

  /** Consecutive months, in the order of their names. */
  ghost predicate IsCalendar(names: seq<string>) {
    && (forall i :: 0 <= i < |names| ==> IsMonth(names[i]))
    && forall i, j :: 0 <= i < |names| && 0 <= j < |names| ==> (Below(names[i], names[j]) <==> i < j)
  }

  /** Every month of the years 0 to 9999. */
  function AllMonths(): (names: seq<string>)
    ensures |names| == MONTHS && forall i :: 0 <= i < MONTHS ==> names[i] == MonthText(i)
  {
    seq(MONTHS, i requires 0 <= i => MonthText(i))
  }

  lemma {:induction false} AllMonthsInOrder()
    ensures IsCalendar(AllMonths())
  {
    forall i, j | 0 <= i < MONTHS && 0 <= j < MONTHS
      ensures Below(AllMonths()[i], AllMonths()[j]) <==> i < j
    {
      MonthOrder(i, j);
    }
  }

  // ---------------------------------------------------------------------------
  // Runs that keep to a calendar
  // ---------------------------------------------------------------------------

  /** What happens in a month names it, and the job the month before. */
  predicate Falls(names: seq<string>, e: Event, month: nat) {
    1 <= month < |names| &&
    match e
    case Count(m, day, _, _) => m == names[month] && IsDay(day)
    case RunJob(previousMonth, currentMonth) => previousMonth == names[month - 1] && currentMonth == names[month]
  }

  ghost predicate AllFall(names: seq<string>, events: seq<Event>, months: seq<nat>) {
    |events| == |months| && forall i :: 0 <= i < |events| ==> Falls(names, events[i], months[i])
  }

  ghost predicate Ascending(months: seq<nat>) {
    forall i, j :: 0 <= i < j < |months| ==> months[i] <= months[j]
  }

  ghost predicate RunsIn(events: seq<Event>, months: seq<nat>, month: nat) {
    exists i :: 0 <= i < |events| && i < |months| && events[i].RunJob? && months[i] == month
  }

  ghost predicate MonthsRun(events: seq<Event>, months: seq<nat>) {
    months != [] ==> forall month :: months[0] < month < months[|months| - 1] ==> RunsIn(events, months, month)
  }

  /**
   The event at `i` falls in the month `months[i]`; time does not go back, and between the first month and the
   last none goes without a run of the job.
   */
  ghost predicate InCalendar(names: seq<string>, events: seq<Event>, months: seq<nat>) {
    && IsCalendar(names) && AllFall(names, events, months) && Ascending(months)
    && MonthsRun(events, months)
  }

  lemma {:induction false} Earlier(names: seq<string>, events: seq<Event>, months: seq<nat>, k: nat)
    requires InCalendar(names, events, months) && k <= |events|
    ensures InCalendar(names, events[..k], months[..k])
  {
    if k > 0 {
      forall month | months[0] < month < months[k - 1] ensures RunsIn(events[..k], months[..k], month) {
        assert months[k - 1] <= months[|months| - 1];
        assert RunsIn(events, months, month);
        var i :| 0 <= i < |events| && events[i].RunJob? && months[i] == month;
        assert i < k;
        assert events[..k][i] == events[i] && months[..k][i] == months[i];
      }
    }
  }

  // ---------------------------------------------------------------------------
  // The keys of a run
  // ---------------------------------------------------------------------------

  function KeyOf(e: Event): string {
    match e
    case Count(month, day, _, _) => DiffSk(month + "-" + day)
    case RunJob(_, currentMonth) => SnapshotSk(currentMonth)
  }

  lemma {:induction false} HandleKeys(rows: seq<Row>, e: Event, sk: string)
    requires e.RunJob? ==>
      IsMonth(e.previousMonth) && IsMonth(e.currentMonth) && Below(e.previousMonth, e.currentMonth)
    ensures HasKey(Handle(rows, e), sk) <==> HasKey(rows, sk) || sk == KeyOf(e)
  {
    if e.Count? {
      CountKeys(rows, KeyOf(e), e.metric, e.delta, sk);
    } else {
      JobSeesSnapshot(rows, e.previousMonth, e.currentMonth);
      JobKeys(rows, e, sk);
    }
  }

  lemma {:induction false} CountKeys(rows: seq<Row>, key: string, metric: Metric, delta: int, sk: string)
    ensures HasKey(AddDelta(rows, key, metric, delta), sk) <==> HasKey(rows, sk) || sk == key
  {
    AddDeltaKeys(rows, key, metric, delta);
    var r := AddDelta(rows, key, metric, delta);
    if HasKey(rows, key) {
      if i :| 0 <= i < |rows| && rows[i].sk == sk {
        assert r[i].sk == sk;
      }
      if i :| 0 <= i < |r| && r[i].sk == sk {
        assert rows[i].sk == sk;
      }
    } else {
      SnocKeys(rows, Row(key, map[metric := delta]), sk);
    }
  }

  lemma {:induction false} SnocKeys(rows: seq<Row>, row: Row, sk: string)
    ensures HasKey(rows + [row], sk) <==> HasKey(rows, sk) || sk == row.sk
  {
    var r := rows + [row];
    assert r[|rows|] == row;
    if i :| 0 <= i < |rows| && rows[i].sk == sk {
      assert r[i].sk == sk;
    }
  }

  lemma {:induction false} JobKeys(rows: seq<Row>, e: Event, sk: string)
    requires e.RunJob?
    requires HasSnapshotOf(Recent(rows, e.previousMonth), e.currentMonth) <==> HasSnapshotOf(rows, e.currentMonth)
    ensures HasKey(Handle(rows, e), sk) <==> HasKey(rows, sk) || sk == KeyOf(e)
  {
    if HasSnapshotOf(rows, e.currentMonth) {
      var i :| 0 <= i < |rows| && IsSnapshotOf(rows[i], e.currentMonth);
    } else {
      SnocKeys(rows, NewSnapshot(rows, e.previousMonth, e.currentMonth), sk);
    }
  }

  /** Some event writes the key. */
  predicate Writes(events: seq<Event>, sk: string) {
    events != [] && (KeyOf(events[|events| - 1]) == sk || Writes(events[..|events| - 1], sk))
  }

  lemma {:induction false} Writer(events: seq<Event>, sk: string) returns (i: nat)
    requires Writes(events, sk)
    ensures i < |events| && KeyOf(events[i]) == sk
  {
    i := |events| - 1;
    if KeyOf(events[i]) != sk {
      i := Writer(events[..i], sk);
    }
  }

  lemma {:induction false} Written(events: seq<Event>, i: nat, sk: string)
    requires i < |events| && KeyOf(events[i]) == sk
    ensures Writes(events, sk)
  {
    if i < |events| - 1 {
      Written(events[..|events| - 1], i, sk);
    }
  }

  lemma {:induction false} FallsInOrder(names: seq<string>, e: Event, month: nat)
    requires IsCalendar(names) && Falls(names, e, month)
    ensures if e.Count? then IsMonth(e.month)
            else IsMonth(e.previousMonth) && IsMonth(e.currentMonth) && Below(e.previousMonth, e.currentMonth)
  {
  }

  /** The table holds exactly the keys that the events write. */
  lemma {:induction false} RunKeys(names: seq<string>, events: seq<Event>, months: seq<nat>, sk: string)
    requires IsCalendar(names) && AllFall(names, events, months)
    ensures HasKey(Run(events), sk) <==> Writes(events, sk)
  {
    if events != [] {
      var k := |events| - 1;
      assert AllFall(names, events[..k], months[..k]);
      RunKeys(names, events[..k], months[..k], sk);
      FallsInOrder(names, events[k], months[k]);
      HandleKeys(Run(events[..k]), events[k], sk);
    }
  }

  lemma {:induction false} KeyMonth(names: seq<string>, e: Event, month: nat, row: Row)
    requires IsCalendar(names) && Falls(names, e, month) && row.sk == KeyOf(e)
    ensures Month(row) == names[month] && (IsSnapshot(row) <==> e.RunJob?)
    ensures IsSnapshot(row) ==> IsSnapshotOf(row, names[month])
  {
    FallsInOrder(names, e, month);
    if e.Count? {
      DiffKey(e.month, e.day, row.metrics);
    } else {
      SnapshotKey(e.currentMonth, row.metrics);
    }
  }

  // ---------------------------------------------------------------------------
  // The calendar makes runs timely
  // ---------------------------------------------------------------------------

  ghost predicate Next(names: seq<string>, events: seq<Event>, months: seq<nat>, k: nat) {
    k < |events| && InCalendar(names, events, months)
  }

  /** A row was written in a month that is not past. */
  lemma {:induction false} RowMonth(names: seq<string>, events: seq<Event>, months: seq<nat>, k: nat, row: Row)
    returns (month: nat)
    requires Next(names, events, months, k) && row in Run(events[..k])
    ensures months[0] <= month <= months[k] < |names| && Month(row) == names[month]
    ensures IsSnapshot(row) ==> IsSnapshotOf(row, names[month])
  {
    var before := events[..k];
    assert AllFall(names, before, months[..k]);
    RunKeys(names, before, months[..k], row.sk);
    var i := Writer(before, row.sk);
    month := months[i];
    assert Falls(names, events[k], months[k]) && Falls(names, events[i], month);
    KeyMonth(names, events[i], month, row);
  }

  lemma {:induction false} CountInTime(names: seq<string>, events: seq<Event>, months: seq<nat>, k: nat)
    requires Next(names, events, months, k) && months[k] < |names|
    ensures NotCovered(Run(events[..k]), names[months[k]])
  {
    var rows := Run(events[..k]);
    forall r | 0 <= r < |rows| && IsSnapshot(rows[r]) ensures !Below(names[months[k]], Month(rows[r])) {
      var n := RowMonth(names, events, months, k, rows[r]);
    }
  }

  lemma {:induction false} JobInTime(names: seq<string>, events: seq<Event>, months: seq<nat>, k: nat)
    requires Next(names, events, months, k) && 1 <= months[k] < |names|
    requires !HasSnapshotOf(Run(events[..k]), names[months[k]])
    ensures JobTime(Run(events[..k]), names[months[k] - 1], names[months[k]])
  {
    var rows := Run(events[..k]);
    forall r | 0 <= r < |rows| && IsSnapshot(rows[r]) ensures !Below(names[months[k] - 1], Month(rows[r])) {
      assert !IsSnapshotOf(rows[r], names[months[k]]);
      var n := RowMonth(names, events, months, k, rows[r]);
    }
  }

  lemma {:induction false} HadRun(names: seq<string>, events: seq<Event>, months: seq<nat>, k: nat, month: nat)
    requires Next(names, events, months, k) && months[0] < month < months[k] < |names|
    ensures HasSnapshotOf(Run(events[..k]), names[month])
  {
    assert months[k] <= months[|months| - 1];
    assert RunsIn(events, months, month);
    var i :| 0 <= i < |events| && events[i].RunJob? && months[i] == month;
    var before, sk := events[..k], SnapshotSk(names[month]);
    assert Falls(names, events[i], month) && i < k;
    Written(before, i, sk);
    assert AllFall(names, before, months[..k]);
    RunKeys(names, before, months[..k], sk);
    KeyIsSnapshot(Run(before), names[month]);
  }

  lemma {:induction false} KeyIsSnapshot(rows: seq<Row>, month: string)
    requires HasKey(rows, SnapshotSk(month))
    ensures HasSnapshotOf(rows, month)
  {
    var i :| 0 <= i < |rows| && rows[i].sk == SnapshotSk(month);
    assert IsSnapshotOf(rows[i], month);
  }

  lemma {:induction false} BeforeKept(names: seq<string>, events: seq<Event>, months: seq<nat>, k: nat)
    requires Next(names, events, months, k) && 1 <= months[k] < |names|
    ensures var rows, before := Run(events[..k]), names[months[k] - 1];
            HasSnapshotOf(rows, before) || NothingBefore(rows, before)
  {
    var rows, before := Run(events[..k]), names[months[k] - 1];
    if months[0] < months[k] - 1 {
      HadRun(names, events, months, k, months[k] - 1);
    } else {
      forall row | row in rows ensures !Below(Month(row), before) {
        var n := RowMonth(names, events, months, k, row);
      }
      forall m ensures SumBefore(rows, m, before) == 0 {
        NoneBefore(rows, m, before);
      }
    }
  }

  lemma {:induction false} NoneBefore(rows: seq<Row>, m: Metric, month: string)
    requires forall row :: row in rows ==> !Below(Month(row), month)
    ensures SumBefore(rows, m, month) == 0
  {
    if rows != [] {
      NoneBefore(rows[..|rows| - 1], m, month);
    }
  }

  lemma {:induction false} EventInTime(names: seq<string>, events: seq<Event>, months: seq<nat>, k: nat)
    requires Next(names, events, months, k)
    ensures Timely(Run(events[..k]), events[k])
  {
    assert Falls(names, events[k], months[k]);
    FallsInOrder(names, events[k], months[k]);
    if events[k].Count? {
      CountInTime(names, events, months, k);
    } else if !HasSnapshotOf(Run(events[..k]), names[months[k]]) {
      JobInTime(names, events, months, k);
      BeforeKept(names, events, months, k);
    }
  }

  /** A run that keeps to the calendar is timely. */
  lemma {:induction false} CalendarIsTimely(names: seq<string>, events: seq<Event>, months: seq<nat>)
    requires InCalendar(names, events, months)
    ensures AllTimely(events)
  {
    if events != [] {
      var k := |events| - 1;
      Earlier(names, events, months, k);
      CalendarIsTimely(names, events[..k], months[..k]);
      EventInTime(names, events, months, k);
    }
  }

  /** So its totals are the sum of everything counted, and those of the API exactly as far as the window reaches. */
  lemma {:induction false} CalendarTotals(events: seq<Event>, months: seq<nat>, m: Metric)
    requires AllFall(AllMonths(), events, months) && Ascending(months) && MonthsRun(events, months)
    ensures Truthful(Run(events)) && Total(SortRows(Run(events)), m) == Counted(events, m)
    ensures Total(SortRows(GetStats(Run(events))), m) == Counted(events, m)
       <==> LatestSnapshot(GetStats(Run(events))).Some? || SumAll(Dropped(Run(events)), m) == 0
  {
    AllMonthsInOrder();
    CalendarIsTimely(AllMonths(), events, months);
    TotalsAreEverythingCounted(events, m);
    ApiShowsEverythingCountedIff(events, m);
  }
}
