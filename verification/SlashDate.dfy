/**
 Slash dates, with the clock time that may stand beside them, and dates without a year,
 `coerce-workflow-data.ts`. Dates are Gregorian, in UTC.
 */
module SlashDate {
  import opened Options
  import opened Text

  // ---------------------------------------------------------------------------
  // The calendar
  // ---------------------------------------------------------------------------

  datatype Date = Date(year: int, month: int, day: int)

  predicate IsLeap(year: int) {
    year % 4 == 0 && (year % 100 != 0 || year % 400 == 0)
  }

  function DaysInMonth(year: int, month: int): int
    requires 1 <= month <= 12
  {
    if month == 2 then (if IsLeap(year) then 29 else 28) else if month in {4, 6, 9, 11} then 30 else 31
  }

  predicate IsValid(d: Date) {
    1 <= d.month <= 12 && 1 <= d.day <= DaysInMonth(d.year, d.month)
  }

  /** `DateTime.fromObject`, `None` when the result is not valid. */
  function FromObject(year: int, month: int, day: int): Option<Date> {
    if IsValid(Date(year, month, day)) then Some(Date(year, month, day)) else None
  }

  predicate Before(a: Date, b: Date) {
    a.year < b.year || (a.year == b.year && (a.month < b.month || (a.month == b.month && a.day < b.day)))
  }

  function NextDay(d: Date): Date
    requires IsValid(d)
  {
    if d.day < DaysInMonth(d.year, d.month) then d.(day := d.day + 1)
    else if d.month < 12 then Date(d.year, d.month + 1, 1)
    else Date(d.year + 1, 1, 1)
  }

  /** The next day is real, later, and no real date lies between. */
  lemma {:induction false} NextDayIsNext(d: Date, e: Date)
    requires IsValid(d) && IsValid(e)
    ensures IsValid(NextDay(d)) && Before(d, NextDay(d))
    ensures Before(d, e) ==> e == NextDay(d) || Before(NextDay(d), e)
  {
  }

  function AddDays(d: Date, days: nat): (r: Date)
    requires IsValid(d)
    ensures IsValid(r) && (if days == 0 then r == d else Before(d, r))
    decreases days
  {
    if days == 0 then d
    else
      NextDayIsNext(d, d);
      AddDays(NextDay(d), days - 1)
  }

  datatype Clock = Clock(hour: nat, minute: nat)

  /** A date, and the time of day if one was found. */
  datatype Stamp = Stamp(date: Date, clock: Option<Clock>)

  /** A time that `DateTime.fromObject` accepts: up to 24:00, which is the next midnight. */
  predicate IsTime(c: Clock) {
    (c.hour <= 23 && c.minute <= 59) || c == Clock(24, 0)
  }

  /** The date at a clock time; minutes and hours past their range run on into the days that follow, as `set` has it. */
  function AtClock(d: Date, clock: Option<Clock>): Stamp
    requires IsValid(d)
  {
    match clock
    case None => Stamp(d, None)
    case Some(c) =>
      var minutes := c.hour * 60 + c.minute;
      Stamp(AddDays(d, minutes / 1440), Some(Clock(minutes % 1440 / 60, minutes % 60)))
  }

  /** A moment: a date and the milliseconds since its midnight. */
  datatype Moment = Moment(date: Date, millis: nat)

  predicate Earlier(a: Moment, b: Moment) {
    Before(a.date, b.date) || (a.date == b.date && a.millis < b.millis)
  }

  /** The midnight that begins `d` is strictly after `m`. */
  predicate StartsAfter(d: Date, m: Moment) {
    Earlier(m, Moment(d, 0))
  }

  /** `resolveYearFree`; comparing an invalid date is false. */
  function ResolveYearFree(month: int, day: int, receivedAt: Moment): Option<Date> {
    var candidate := FromObject(receivedAt.date.year, month, day);
    if candidate.Some? && StartsAfter(candidate.value, receivedAt) then candidate
    else FromObject(receivedAt.date.year + 1, month, day)
  }

  /** A real date with that month and day, strictly after the moment. */
  ghost predicate Upcoming(d: Date, month: int, day: int, receivedAt: Moment) {
    IsValid(d) && d.month == month && d.day == day && StartsAfter(d, receivedAt)
  }

  /**
   A resolved date is the earliest upcoming one, leap days included. Nothing is resolved exactly when no
   upcoming date falls in this year or the next.
   */
  lemma {:induction false} ResolvesToEarliest(month: int, day: int, receivedAt: Moment)
    ensures var r := ResolveYearFree(month, day, receivedAt);
            && (r.Some? ==> Upcoming(r.value, month, day, receivedAt))
            && (r.Some? ==> forall d :: Upcoming(d, month, day, receivedAt) ==> d == r.value || Before(r.value, d))
            && (r.None? <==> forall d :: Upcoming(d, month, day, receivedAt) ==> d.year > receivedAt.date.year + 1)
  {
    var r := ResolveYearFree(month, day, receivedAt);
    if r.Some? {
      assert Upcoming(r.value, month, day, receivedAt);
      forall d | Upcoming(d, month, day, receivedAt) ensures d == r.value || Before(r.value, d) {
        assert d == Date(d.year, month, day) && r.value == Date(r.value.year, month, day);
      }
    }
  }

  /** Only a leap day can be missed: any other month and day that exists at all resolves. */
  lemma {:induction false} OnlyLeapDaysAreMissed(d: Date, receivedAt: Moment)
    requires IsValid(d)
    ensures ResolveYearFree(d.month, d.day, receivedAt).None? <==>
              && d.month == 2 && d.day == 29
              && !(IsLeap(receivedAt.date.year) && StartsAfter(Date(receivedAt.date.year, 2, 29), receivedAt))
              && !IsLeap(receivedAt.date.year + 1)
  {
  }

  /** 29 February, received on 1 March 2028, is not resolved, though 29 February 2032 is to come. */
  lemma {:induction false} MissedLeapDay()
    ensures var received := Moment(Date(2028, 3, 1), 0);
            && ResolveYearFree(2, 29, received) == None
            && Upcoming(Date(2032, 2, 29), 2, 29, received)
  {
  }

  function Millis(c: Clock): nat {
    (c.hour * 60 + c.minute) * 60000
  }

  /** A time within the day stays on its day. */
  lemma {:induction false} TimeOfDayStays(d: Date, c: Clock)
    requires IsValid(d) && IsTime(c) && c.hour < 24
    ensures AtClock(d, Some(c)) == Stamp(d, Some(c))
  {
    assert (c.hour * 60 + c.minute) / 60 == c.hour && (c.hour * 60 + c.minute) % 60 == c.minute;
  }

  /** A real date with that month and day at a clock time, strictly after the moment. */
  ghost predicate UpcomingAt(d: Date, clock: Clock, month: int, day: int, receivedAt: Moment) {
    && IsValid(d) && d.month == month && d.day == day
    && Earlier(receivedAt, Moment(AtClock(d, Some(clock)).date, Millis(AtClock(d, Some(clock)).clock.value)))
  }

  /** `d` is the first of them. */
  ghost predicate IsNextAt(d: Date, clock: Clock, receivedAt: Moment) {
    && UpcomingAt(d, clock, d.month, d.day, receivedAt)
    && forall e :: UpcomingAt(e, clock, d.month, d.day, receivedAt) ==> e == d || Before(d, e)
  }

  lemma {:induction false} UpcomingOnDay(d: Date, clock: Clock, receivedAt: Moment)
    requires IsValid(d) && IsTime(clock) && clock.hour < 24
    ensures UpcomingAt(d, clock, d.month, d.day, receivedAt) <==> Earlier(receivedAt, Moment(d, Millis(clock)))
  {
    TimeOfDayStays(d, clock);
  }

  /**
   With a time of day, the resolved date is the next occurrence exactly unless the mail came in on that very
   day, before that time.
   */
  lemma {:induction false} NextOccurrenceIff(month: int, day: int, clock: Clock, receivedAt: Moment)
    requires IsValid(receivedAt.date) && IsTime(clock) && clock.hour < 24
    requires ResolveYearFree(month, day, receivedAt).Some?
    ensures IsNextAt(ResolveYearFree(month, day, receivedAt).value, clock, receivedAt)
       <==> !(receivedAt.date.month == month && receivedAt.date.day == day && receivedAt.millis < Millis(clock))
  {
    var d, today := ResolveYearFree(month, day, receivedAt).value, receivedAt.date;
    UpcomingOnDay(d, clock, receivedAt);
    UpcomingOnDay(today, clock, receivedAt);
    if !(today.month == month && today.day == day && receivedAt.millis < Millis(clock)) {
      forall e | UpcomingAt(e, clock, month, day, receivedAt) ensures e == d || Before(d, e) {
        UpcomingOnDay(e, clock, receivedAt);
        assert e == Date(e.year, month, day) && d == Date(d.year, month, day);
      }
    }
  }

  // ---------------------------------------------------------------------------
  // Finding the numbers
  // ---------------------------------------------------------------------------

  predicate DigitAt(s: string, i: nat) {
    i < |s| && IsDigit(s[i])
  }

  predicate SlashAt(s: string, i: nat) {
    i < |s| && s[i] == '/'
  }

  /** The number of digits from `i` on, up to `max`. */
  function Run(s: string, i: nat, max: nat): (n: nat)
    ensures n <= max && (n > 0 ==> i + n <= |s|) && forall j :: i <= j < i + n ==> DigitAt(s, j)
    ensures n < max ==> !DigitAt(s, i + n)
    decreases max
  {
    if max == 0 || !DigitAt(s, i) then 0 else 1 + Run(s, i + 1, max - 1)
  }

  function Number(digits: string): nat {
    if digits == "" then 0
    else 10 * Number(digits[..|digits| - 1]) + Digit(digits[|digits| - 1])
  }

  function Digit(c: char): nat {
    if IsDigit(c) then c as nat - '0' as nat else 0
  }

  datatype Components = Components(first: string, second: string, year: Option<string>)

  /** A match of `SLASH_DATE_COMPONENTS` at `i`. */
  function MatchAt(s: string, i: nat): (m: Option<Components>)
    ensures m.Some? ==> 1 <= |m.value.first| <= 2 && 1 <= |m.value.second| <= 2
    ensures m.Some? && m.value.year.Some? ==> 2 <= |m.value.year.value| <= 4
  {
    var n := Run(s, i, 2);
    var second := i + n + 1;
    var n2 := Run(s, second, 2);
    if n == 0 || !SlashAt(s, i + n) || n2 == 0 then None
    else
      var end := second + n2;
      var year := Run(s, end + 1, 4);
      Some(Components(s[i..i + n], s[second..end],
                      if SlashAt(s, end) && year >= 2 then Some(s[end + 1..end + 1 + year]) else None))
  }

  /** The leftmost match from `i` on. */
  function FirstMatch(s: string, i: nat): Option<Components>
    decreases |s| - i
  {
    if i >= |s| then None else if MatchAt(s, i).Some? then MatchAt(s, i) else FirstMatch(s, i + 1)
  }

  /** `SLASH_DATE_PATTERN`: a slash between digits. */
  ghost predicate HasSlashDate(s: string) {
    exists i: nat :: SlashBetween(s, i)
  }

  ghost predicate SlashBetween(s: string, i: nat) {
    DigitAt(s, i) && SlashAt(s, i + 1) && DigitAt(s, i + 2)
  }

  /** What the guard finds, the parser takes apart; so its "no match" branch is never taken after the guard. */
  lemma {:induction false} GuardMeansMatch(s: string)
    ensures HasSlashDate(s) <==> FirstMatch(s, 0).Some?
  {
    if i: nat :| SlashBetween(s, i) {
      assert Run(s, i, 2) == 1;
      MatchFound(s, 0, i);
    }
    if FirstMatch(s, 0).Some? {
      var i := MatchPlace(s, 0);
      var n := Run(s, i, 2);
      assert DigitAt(s, i + n - 1) && DigitAt(s, i + n + 1);
      assert SlashBetween(s, i + n - 1);
    }
  }

  lemma {:induction false} MatchFound(s: string, from: nat, i: nat)
    requires from <= i < |s| && MatchAt(s, i).Some?
    ensures FirstMatch(s, from).Some?
    decreases i - from
  {
    if MatchAt(s, from).None? {
      MatchFound(s, from + 1, i);
    }
  }

  lemma {:induction false} MatchPlace(s: string, from: nat) returns (i: nat)
    requires FirstMatch(s, from).Some?
    ensures from <= i < |s| && MatchAt(s, i) == FirstMatch(s, from)
    ensures forall j :: from <= j < i ==> MatchAt(s, j).None?
    decreases |s| - from
  {
    if MatchAt(s, from).Some? {
      i := from;
    } else {
      i := MatchPlace(s, from + 1);
    }
  }

  // What the components pattern means, without a search

  /** `n` digits at `i`, as many as there are but no more than `max`. */
  ghost predicate DigitsText(s: string, i: nat, n: nat, max: nat) {
    n <= max && (forall k :: i <= k < i + n ==> DigitAt(s, k)) && (n < max ==> !DigitAt(s, i + n))
  }

  /** `\d{1,2}/\d` at `i`, with `n` digits before the slash. */
  ghost predicate DateText(s: string, i: nat, n: nat) {
    1 <= n <= 2 && (forall k :: i <= k < i + n ==> DigitAt(s, k)) && SlashAt(s, i + n) && DigitAt(s, i + n + 1)
  }

  lemma {:induction false} RunIs(s: string, i: nat, n: nat, max: nat)
    requires DigitsText(s, i, n, max)
    ensures Run(s, i, max) == n
    decreases n
  {
    if n > 0 {
      assert DigitAt(s, i);
      RunIs(s, i + 1, n - 1, max - 1);
    }
  }

  lemma {:induction false} MatchIsText(s: string, i: nat)
    ensures MatchAt(s, i).Some? <==> exists n: nat :: DateText(s, i, n)
  {
    if MatchAt(s, i).Some? {
      var n := Run(s, i, 2);
      assert DigitAt(s, i + n + 1);
      assert DateText(s, i, n);
    }
    if n: nat :| DateText(s, i, n) {
      DateRun(s, i, n);
    }
  }

  lemma {:induction false} DateRun(s: string, i: nat, n: nat)
    requires DateText(s, i, n)
    ensures Run(s, i, 2) == n && Run(s, i + n + 1, 2) > 0
  {
    RunIs(s, i, n, 2);
  }

  /** A slash and at least two digits. */
  ghost predicate YearText(s: string, i: nat) {
    SlashAt(s, i) && DigitAt(s, i + 1) && DigitAt(s, i + 2)
  }

  /**
   The components are those of the first date text: the digits before the slash, up to two after it, and, when a
   second slash and two digits follow, up to four for the year.
   */
  lemma {:induction false} ComponentsOfFirst(s: string, i: nat, n: nat, m: nat, y: nat)
    requires DateText(s, i, n) && forall j: nat, k: nat :: j < i ==> !DateText(s, j, k)
    requires DigitsText(s, i + n + 1, m, 2) && DigitsText(s, i + n + m + 2, y, 4)
    ensures var end := i + n + 1 + m;
            && end <= |s|
            && (YearText(s, end) ==> end + 1 + y <= |s|)
            && FirstMatch(s, 0) == Some(Components(s[i..i + n], s[i + n + 1..end],
                                                   if YearText(s, end) then Some(s[end + 1..end + 1 + y]) else None))
  {
    var end := i + n + 1 + m;
    DateRun(s, i, n);
    RunIs(s, i + n + 1, m, 2);
    RunIs(s, end + 1, y, 4);
    YearRun(s, end, y);
    FirstDate(s, i, n);
    MatchParts(s, i, n, end, y);
  }

  lemma {:induction false} MatchParts(s: string, i: nat, n: nat, end: nat, y: nat)
    requires Run(s, i, 2) == n > 0 && SlashAt(s, i + n) && end > i + n + 1 && Run(s, i + n + 1, 2) == end - (i + n + 1)
    requires Run(s, end + 1, 4) == y
    ensures end <= |s| && (SlashAt(s, end) && y >= 2 ==> end + 1 + y <= |s|)
    ensures MatchAt(s, i)
         == Some(Components(s[i..i + n], s[i + n + 1..end],
                            if SlashAt(s, end) && y >= 2 then Some(s[end + 1..end + 1 + y]) else None))
  {
  }

  lemma {:induction false} YearRun(s: string, end: nat, y: nat)
    requires Run(s, end + 1, 4) == y
    ensures YearText(s, end) <==> SlashAt(s, end) && y >= 2
  {
    if YearText(s, end) {
      assert Run(s, end + 1, 4) == 1 + Run(s, end + 2, 3);
    }
    if y >= 2 {
      assert DigitAt(s, end + 1) && DigitAt(s, end + 2);
    }
  }

  lemma {:induction false} FirstDate(s: string, i: nat, n: nat)
    requires DateText(s, i, n) && forall j: nat, k: nat :: j < i ==> !DateText(s, j, k)
    ensures FirstMatch(s, 0) == MatchAt(s, i)
  {
    MatchIsText(s, i);
    MatchFound(s, 0, i);
    var p := MatchPlace(s, 0);
    MatchIsText(s, p);
  }

  // ---------------------------------------------------------------------------
  // Finding the time
  // ---------------------------------------------------------------------------

  /** How many characters a match of `SLASH_DATE_TIME_24H` at `i` takes, or 0. */
  function TimeLength(s: string, i: nat): (n: nat)
    ensures n > 0 ==> n >= 4 && i + n <= |s|
  {
    var n := Run(s, i, 2);
    if n > 0 && i + n < |s| && s[i + n] == ':' && Run(s, i + n + 1, 2) == 2 then n + 3 else 0
  }

  /** The hour and minute of that match. */
  function TimeAt(s: string, i: nat): Clock
    requires TimeLength(s, i) > 0
  {
    var n := TimeLength(s, i) - 3;
    Clock(Number(s[i..i + n]), Number(s[i + n + 1..i + n + 3]))
  }

  function SkipSpace(s: string, i: nat): (j: nat)
    ensures i <= j && Spaces(s, i, j) && (j < |s| ==> !IsSpace(s[j]))
    decreases |s| - i
  {
    if i < |s| && IsSpace(s[i]) then SkipSpace(s, i + 1) else i
  }

  /** White space from `i` to `j`. */
  ghost predicate Spaces(s: string, i: nat, j: nat) {
    i <= j && (i == j || j <= |s|) && forall k :: i <= k < j ==> IsSpace(s[k])
  }

  predicate IsA(c: char) {
    c == 'a' || c == 'A'
  }

  predicate IsP(c: char) {
    c == 'p' || c == 'P'
  }

  predicate IsM(c: char) {
    c == 'm' || c == 'M'
  }

  /** Whether a match of `SLASH_DATE_TIME` at `i` says a.m. (`Some(false)`) or p.m. (`Some(true)`). */
  function MeridiemAt(s: string, i: nat): Option<bool> {
    var letter := SkipSpace(s, i + TimeLength(s, i));
    var dot := if letter + 1 < |s| && s[letter + 1] == '.' then 1 else 0;
    var m := SkipSpace(s, letter + 1 + dot);
    if TimeLength(s, i) == 0 || letter >= |s| || !(IsA(s[letter]) || IsP(s[letter])) || m >= |s| || !IsM(s[m])
    then None
    else Some(IsP(s[letter]))
  }

  predicate IsMatch(s: string, i: nat, meridiem: bool) {
    TimeLength(s, i) > 0 && (meridiem ==> MeridiemAt(s, i).Some?)
  }

  /** The leftmost match of either pattern from `i` on. */
  function FirstTime(s: string, i: nat, meridiem: bool): (k: Option<nat>)
    ensures k.Some? ==> i <= k.value && IsMatch(s, k.value, meridiem)
    ensures forall j :: i <= j && IsMatch(s, j, meridiem) ==> k.Some? && k.value <= j
    decreases |s| - i
  {
    if i >= |s| then None
    else if IsMatch(s, i, meridiem) then Some(i)
    else FirstTime(s, i + 1, meridiem)
  }

  /** A time of day with the hour read modulo 12, before noon or from noon on as the letter says. */
  ghost predicate OnHalfDay(c: Clock, read: Clock, isPm: bool) {
    c.hour < 24 && c.hour % 12 == read.hour % 12 && (c.hour >= 12 <==> isPm) && c.minute == read.minute
  }

  function HalfDay(read: Clock, isPm: bool): (c: Clock)
    ensures OnHalfDay(c, read, isPm)
  {
    Clock(read.hour % 12 + (if isPm then 12 else 0), read.minute)
  }

  /** The clock time of a string: the one with a meridiem if there is one, else the first. */
  function ClockOf(s: string): Option<Clock> {
    var twelve, bare := FirstTime(s, 0, true), FirstTime(s, 0, false);
    if twelve.Some? then Some(HalfDay(TimeAt(s, twelve.value), MeridiemAt(s, twelve.value).value))
    else if bare.Some? then Some(TimeAt(s, bare.value))
    else None
  }

  // What the two patterns mean, without a search

  /** `\d{1,2}:\d{2}` at `i`, with `h` digits before the colon. */
  ghost predicate TimeText(s: string, i: nat, h: nat) {
    && 1 <= h <= 2 && i + h + 3 <= |s| && (forall k :: i <= k < i + h ==> IsDigit(s[k]))
    && s[i + h] == ':' && IsDigit(s[i + h + 1]) && IsDigit(s[i + h + 2])
  }

  /** `\s*([ap])\.?\s*m` from `i`: the letter at `p`, `d` dots, and the m at `m`. */
  ghost predicate MeridiemText(s: string, i: nat, p: nat, d: nat, m: nat, isPm: bool) {
    && Spaces(s, i, p) && p < |s| && (if isPm then IsP(s[p]) else IsA(s[p]))
    && d <= 1 && (d == 1 ==> p + 1 < |s| && s[p + 1] == '.')
    && Spaces(s, p + 1 + d, m) && m < |s| && IsM(s[m])
  }

  ghost predicate SaysHalf(s: string, i: nat, isPm: bool) {
    exists p: nat, d: nat, m: nat :: MeridiemText(s, i, p, d, m, isPm)
  }

  /** A time at `i` that says a.m. or p.m. */
  ghost predicate HalfDayText(s: string, i: nat, h: nat, isPm: bool) {
    TimeText(s, i, h) && SaysHalf(s, i + h + 3, isPm)
  }

  lemma {:induction false} TimeTextIff(s: string, i: nat, h: nat)
    ensures TimeText(s, i, h) <==> TimeLength(s, i) == h + 3
  {
    var n := Run(s, i, 2);
    if TimeText(s, i, h) {
      assert DigitAt(s, i) && !IsDigit(s[i + h]);
      assert n == h;
      assert DigitAt(s, i + h + 1) && DigitAt(s, i + h + 2);
    }
    if TimeLength(s, i) == h + 3 {
      assert DigitAt(s, i + h + 1) && DigitAt(s, i + h + 2);
    }
  }

  lemma {:induction false} SpacesEnd(s: string, i: nat, j: nat)
    requires Spaces(s, i, j) && (j < |s| ==> !IsSpace(s[j]))
    ensures SkipSpace(s, i) == j
    decreases j - i
  {
    if i < j {
      SpacesEnd(s, i + 1, j);
    }
  }

  lemma {:induction false} LettersNotSpace(c: char)
    requires IsA(c) || IsP(c) || IsM(c) || c == '.'
    ensures !IsSpace(c)
  {
  }

  /** The pattern can be matched in one way. */
  lemma {:induction false} MeridiemPlaces(s: string, i: nat, p: nat, d: nat, m: nat, isPm: bool)
    requires MeridiemText(s, i, p, d, m, isPm)
    ensures SkipSpace(s, i) == p && SkipSpace(s, p + 1 + d) == m
    ensures d == if p + 1 < |s| && s[p + 1] == '.' then 1 else 0
  {
    LettersNotSpace(s[p]);
    LettersNotSpace(s[m]);
    LettersNotSpace('.');
    SpacesEnd(s, i, p);
    SpacesEnd(s, p + 1 + d, m);
  }

  lemma {:induction false} HalfDayIff(s: string, i: nat, h: nat, isPm: bool)
    requires TimeText(s, i, h)
    ensures HalfDayText(s, i, h, isPm) <==> MeridiemAt(s, i) == Some(isPm)
  {
    TimeTextIff(s, i, h);
    HalfIff(s, i, i + h + 3, isPm);
  }

  lemma {:induction false} HalfIff(s: string, i: nat, end: nat, isPm: bool)
    requires TimeLength(s, i) > 0 && end == i + TimeLength(s, i)
    ensures SaysHalf(s, end, isPm) <==> MeridiemAt(s, i) == Some(isPm)
  {
    if MeridiemAt(s, i) == Some(isPm) {
      SaysFound(s, i, end, isPm);
    }
    if SaysHalf(s, end, isPm) {
      var p: nat, d: nat, m: nat :| MeridiemText(s, end, p, d, m, isPm);
      FoundSaid(s, i, end, p, d, m, isPm);
    }
  }

  lemma {:induction false} SaysFound(s: string, i: nat, end: nat, isPm: bool)
    requires TimeLength(s, i) > 0 && end == i + TimeLength(s, i) && MeridiemAt(s, i) == Some(isPm)
    ensures SaysHalf(s, end, isPm)
  {
    var p := SkipSpace(s, end);
    var d := if p + 1 < |s| && s[p + 1] == '.' then 1 else 0;
    var m := SkipSpace(s, p + 1 + d);
    assert MeridiemText(s, end, p, d, m, isPm);
  }

  lemma {:induction false} FoundSaid(s: string, i: nat, end: nat, p: nat, d: nat, m: nat, isPm: bool)
    requires TimeLength(s, i) > 0 && end == i + TimeLength(s, i) && MeridiemText(s, end, p, d, m, isPm)
    ensures MeridiemAt(s, i) == Some(isPm)
  {
    MeridiemPlaces(s, end, p, d, m, isPm);
  }

  /** The digits read, on the 24-hour clock. */
  function Digits(s: string, i: nat, h: nat): Clock
    requires i + h + 3 <= |s|
  {
    Clock(Number(s[i..i + h]), Number(s[i + h + 1..i + h + 3]))
  }

  ghost predicate NoTimeBefore(s: string, n: nat) {
    forall i: nat, h: nat :: i < n ==> !TimeText(s, i, h)
  }

  ghost predicate NoHalfDayBefore(s: string, n: nat) {
    forall i: nat, h: nat, isPm :: i < n ==> !HalfDayText(s, i, h, isPm)
  }

  lemma {:induction false} TimeMatches(s: string, i: nat)
    ensures IsMatch(s, i, false) <==> exists h: nat :: TimeText(s, i, h)
  {
    if IsMatch(s, i, false) {
      TimeTextIff(s, i, TimeLength(s, i) - 3);
    }
    if h: nat :| TimeText(s, i, h) {
      TimeTextIff(s, i, h);
    }
  }

  lemma {:induction false} HalfDayMatches(s: string, i: nat)
    ensures IsMatch(s, i, true) <==> exists h: nat, isPm :: HalfDayText(s, i, h, isPm)
  {
    if IsMatch(s, i, true) {
      var h, isPm := TimeLength(s, i) - 3, MeridiemAt(s, i).value;
      TimeTextIff(s, i, h);
      HalfDayIff(s, i, h, isPm);
    }
    if h: nat, isPm :| HalfDayText(s, i, h, isPm) {
      TimeTextIff(s, i, h);
      HalfDayIff(s, i, h, isPm);
    }
  }

  lemma {:induction false} FirstIs(s: string, i: nat, meridiem: bool)
    requires IsMatch(s, i, meridiem) && forall j: nat :: j < i ==> !IsMatch(s, j, meridiem)
    ensures FirstTime(s, 0, meridiem) == Some(i)
  {
    var k := FirstTime(s, 0, meridiem);
    assert k.Some? && k.value <= i && IsMatch(s, k.value, meridiem);
  }

  lemma {:induction false} FirstHalfDay(s: string, i: nat, h: nat, isPm: bool)
    requires HalfDayText(s, i, h, isPm) && NoHalfDayBefore(s, i)
    ensures FirstTime(s, 0, true) == Some(i)
  {
    HalfDayMatches(s, i);
    forall j: nat | j < i ensures !IsMatch(s, j, true) {
      HalfDayMatches(s, j);
    }
    FirstIs(s, i, true);
  }

  lemma {:induction false} NoHalfDay(s: string)
    requires NoHalfDayBefore(s, |s|)
    ensures FirstTime(s, 0, true).None?
  {
    var k := FirstTime(s, 0, true);
    if k.Some? {
      HalfDayMatches(s, k.value);
    }
  }

  lemma {:induction false} FirstBare(s: string, i: nat, h: nat)
    requires TimeText(s, i, h) && NoTimeBefore(s, i)
    ensures FirstTime(s, 0, false) == Some(i)
  {
    TimeMatches(s, i);
    forall j: nat | j < i ensures !IsMatch(s, j, false) {
      TimeMatches(s, j);
    }
    FirstIs(s, i, false);
  }

  lemma {:induction false} NoClockIff(s: string)
    ensures ClockOf(s).None? <==> NoTimeBefore(s, |s|)
  {
    if ClockOf(s).Some? {
      var j := if FirstTime(s, 0, true).Some? then FirstTime(s, 0, true).value else FirstTime(s, 0, false).value;
      assert IsMatch(s, j, false);
      TimeMatches(s, j);
      var h: nat :| TimeText(s, j, h);
      assert j < |s|;
    } else {
      forall i: nat, h: nat ensures !TimeText(s, i, h) {
        TimeMatches(s, i);
      }
    }
  }

  lemma {:induction false} DigitsRead(s: string, i: nat, h: nat)
    requires TimeLength(s, i) == h + 3
    ensures TimeAt(s, i) == Digits(s, i, h)
  {
  }

  lemma {:induction false} TwelveHours(s: string, i: nat, h: nat, isPm: bool)
    requires FirstTime(s, 0, true) == Some(i) && TimeLength(s, i) == h + 3 && MeridiemAt(s, i) == Some(isPm)
    ensures ClockOf(s) == Some(HalfDay(Digits(s, i, h), isPm))
  {
    DigitsRead(s, i, h);
  }

  /**
   The first time that says a.m. or p.m. decides, on the 24-hour clock; without any, the first time as it
   stands; and there is none exactly when no time stands anywhere.
   */
  lemma {:induction false} ClockIsFirst(s: string, i: nat, h: nat, isPm: bool)
    ensures HalfDayText(s, i, h, isPm) && NoHalfDayBefore(s, i) ==>
              ClockOf(s).Some? && OnHalfDay(ClockOf(s).value, Digits(s, i, h), isPm)
    ensures TimeText(s, i, h) && NoTimeBefore(s, i) && NoHalfDayBefore(s, |s|) ==> ClockOf(s) == Some(Digits(s, i, h))
    ensures ClockOf(s).None? <==> NoTimeBefore(s, |s|)
  {
    NoClockIff(s);
    if HalfDayText(s, i, h, isPm) && NoHalfDayBefore(s, i) {
      HalfDayDecides(s, i, h, isPm);
    }
    if TimeText(s, i, h) && NoTimeBefore(s, i) && NoHalfDayBefore(s, |s|) {
      TimeDecides(s, i, h);
    }
  }

  lemma {:induction false} HalfDayDecides(s: string, i: nat, h: nat, isPm: bool)
    requires HalfDayText(s, i, h, isPm) && NoHalfDayBefore(s, i)
    ensures ClockOf(s).Some? && OnHalfDay(ClockOf(s).value, Digits(s, i, h), isPm)
  {
    TimeTextIff(s, i, h);
    FirstHalfDay(s, i, h, isPm);
    HalfDayIff(s, i, h, isPm);
    TwelveHours(s, i, h, isPm);
  }

  lemma {:induction false} TimeDecides(s: string, i: nat, h: nat)
    requires TimeText(s, i, h) && NoTimeBefore(s, i) && NoHalfDayBefore(s, |s|)
    ensures ClockOf(s) == Some(Digits(s, i, h))
  {
    TimeTextIff(s, i, h);
    NoHalfDay(s);
    FirstBare(s, i, h);
    DigitsRead(s, i, h);
  }

  // ---------------------------------------------------------------------------
  // Reading the numbers
  // ---------------------------------------------------------------------------

  datatype Setting = MonthThenDay | DayThenMonth | Skip

  function YearOf(digits: string): int {
    if |digits| == 2 then 2000 + Number(digits) else Number(digits)
  }

  predicate IsAmbiguous(c: Components) {
    1 <= Number(c.first) <= 12 && 1 <= Number(c.second) <= 12
  }

  /** `isAmbiguousSlashSkip` on a string. */
  predicate IsAmbiguousSlashSkip(value: string, setting: Setting) {
    var found := FirstMatch(Trim(value), 0);
    setting == Skip && found.Some? && IsAmbiguous(found.value)
  }

  /** `coerceSlashDate`, `None` for its null. */
  method CoerceSlashDate(input: string, receivedAt: Moment, setting: Setting) returns (stamp: Option<Stamp>)
    ensures stamp == Coerced(input, receivedAt, setting)
  {
    var dateMatch := FirstMatch(input, 0);
    if dateMatch.None? {
      return None;
    }
    var first, second := Number(dateMatch.value.first), Number(dateMatch.value.second);
    var month, day;
    if first > 12 && second <= 12 {
      day, month := first, second;
    } else if second > 12 && first <= 12 {
      month, day := first, second;
    } else if first > 12 && second > 12 {
      return None;
    } else {
      if setting == Skip {
        return None;
      }
      if setting == MonthThenDay {
        month, day := first, second;
      } else {
        day, month := first, second;
      }
    }
    assert IsRead(first, second, setting, month, day);
    if month < 1 || month > 12 || day < 1 || day > 31 {
      return None;
    }
    var clock := FindClock(input);
    stamp := Build(dateMatch.value, month, day, receivedAt, clock);
  }

  /** The order in which the numbers are read, unless they are skipped. */
  predicate IsRead(first: nat, second: nat, setting: Setting, month: int, day: int) {
    && !(first <= 12 && second <= 12 && setting == Skip)
    && (if MonthFirst(first, second, setting) then month == first && day == second else month == second && day == first)
  }

  /** Its last part: the date at the time found, if that is valid. */
  method Build(c: Components, month: int, day: int, receivedAt: Moment, clock: Option<Clock>)
    returns (stamp: Option<Stamp>)
    ensures stamp == Placed(c, OnDay(c, month, day, receivedAt), clock)
  {
    if c.year.Some? {
      var date := FromObject(YearOf(c.year.value), month, day);
      if date.None? || (clock.Some? && !IsTime(clock.value)) {
        return None;
      }
      stamp := Some(AtClock(date.value, clock));
    } else {
      var resolved := ResolveYearFree(month, day, receivedAt);
      if resolved.None? {
        return None;
      }
      stamp := Some(AtClock(resolved.value, clock));
    }
  }

  /** The part of it that looks for a clock time. */
  method FindClock(input: string) returns (clock: Option<Clock>)
    ensures clock == ClockOf(input)
    ensures clock.None? <==> NoTimeBefore(input, |input|)
  {
    NoClockIff(input);
    var meridiem, bare := FirstTime(input, 0, true), FirstTime(input, 0, false);
    clock := None;
    if meridiem.Some? {
      var c := TimeAt(input, meridiem.value);
      var hour := c.hour % 12;
      if MeridiemAt(input, meridiem.value) == Some(true) {
        hour := hour + 12;
      }
      clock := Some(Clock(hour, c.minute));
    } else if bare.Some? {
      clock := Some(TimeAt(input, bare.value));
    }
  }

  /** Which number is the month: the one that can be, else what the setting says. */
  function MonthFirst(first: nat, second: nat, setting: Setting): bool {
    if (first > 12) != (second > 12) then second > 12 else setting == MonthThenDay
  }

  /** The real date in the year given, or the next one to come. */
  function OnDay(c: Components, month: int, day: int, receivedAt: Moment): (d: Option<Date>)
    ensures d.Some? ==> IsValid(d.value) && d.value.month == month && d.value.day == day
  {
    if c.year.Some? then FromObject(YearOf(c.year.value), month, day) else ResolveYearFree(month, day, receivedAt)
  }

  /** Of a year given, two digits are of this century, and any other number is the year itself. */
  lemma {:induction false} YearGiven(c: Components, month: int, day: int, receivedAt: Moment)
    requires c.year.Some? && OnDay(c, month, day, receivedAt).Some?
    ensures var (y, year) := (c.year.value, OnDay(c, month, day, receivedAt).value.year);
            if |y| == 2 then year == 2000 + 10 * Digit(y[0]) + Digit(y[1]) else year == Number(y)
  {
    if |c.year.value| == 2 {
      TwoDigits(c.year.value);
    }
  }

  /** An impossible time spoils a date whose year is given; it moves one without a year. */
  predicate Fits(c: Components, clock: Option<Clock>) {
    c.year.None? || clock.None? || IsTime(clock.value)
  }

  function Coerced(input: string, receivedAt: Moment, setting: Setting): Option<Stamp> {
    var m, clock := FirstMatch(input, 0), ClockOf(input);
    if m.None? then None
    else
      var first, second := Number(m.value.first), Number(m.value.second);
      var d := if MonthFirst(first, second, setting) then OnDay(m.value, first, second, receivedAt)
               else OnDay(m.value, second, first, receivedAt);
      if first <= 12 && second <= 12 && setting == Skip then None else Placed(m.value, d, clock)
  }

  /** A date at the time found. */
  function Placed(c: Components, d: Option<Date>, clock: Option<Clock>): Option<Stamp>
    requires d.Some? ==> IsValid(d.value)
  {
    if d.None? || !Fits(c, clock) then None else Some(AtClock(d.value, clock))
  }

  /** The date carries the two numbers, in either order, in the year given or as the next occurrence. */
  ghost predicate Reads(c: Components, receivedAt: Moment, d: Date) {
    && IsValid(d)
    && ((d.month == Number(c.first) && d.day == Number(c.second))
        || (d.month == Number(c.second) && d.day == Number(c.first)))
    && OnDay(c, d.month, d.day, receivedAt) == Some(d)
  }

  /**
   Unless both numbers can be a month, the result is the one real date that reads so, at the time found,
   under every setting; there is none exactly when no date reads so or the time spoils it.
   */
  lemma {:induction false} UnambiguousIgnoresSetting(input: string, receivedAt: Moment, setting: Setting, d: Date)
    requires FirstMatch(input, 0).Some? && !IsAmbiguous(FirstMatch(input, 0).value)
    ensures var c, clock, r := FirstMatch(input, 0).value, ClockOf(input), Coerced(input, receivedAt, setting);
            && (Reads(c, receivedAt, d) && Fits(c, clock) ==> r == Some(AtClock(d, clock)))
            && (r.Some? ==> Fits(c, clock) && exists e :: Reads(c, receivedAt, e) && r == Some(AtClock(e, clock)))
  {
    var c, r := FirstMatch(input, 0).value, Coerced(input, receivedAt, setting);
    if r.Some? {
      var first, second := Number(c.first), Number(c.second);
      var e := if MonthFirst(first, second, setting) then OnDay(c, first, second, receivedAt)
               else OnDay(c, second, first, receivedAt);
      assert Reads(c, receivedAt, e.value);
    }
  }

  /**
   Two numbers that can both be a month give a date in the order that the setting says, at the time found,
   exactly unless the time spoils it.
   */
  lemma {:induction false} AmbiguousFollowsSetting(input: string, receivedAt: Moment)
    requires FirstMatch(input, 0).Some? && IsAmbiguous(FirstMatch(input, 0).value)
    ensures var c, clock := FirstMatch(input, 0).value, ClockOf(input);
            var first, second := Number(c.first), Number(c.second);
            var monthFirst, dayFirst := OnDay(c, first, second, receivedAt), OnDay(c, second, first, receivedAt);
            && monthFirst.Some? && dayFirst.Some?
            && Coerced(input, receivedAt, Skip).None?
            && Coerced(input, receivedAt, MonthThenDay)
               == (if Fits(c, clock) then Some(AtClock(monthFirst.value, clock)) else None)
            && Coerced(input, receivedAt, DayThenMonth)
               == (if Fits(c, clock) then Some(AtClock(dayFirst.value, clock)) else None)
  {
    SmallNumbersAreDates(FirstMatch(input, 0).value, receivedAt);
  }

  lemma {:induction false} SmallNumbersAreDates(c: Components, receivedAt: Moment)
    requires IsAmbiguous(c)
    ensures OnDay(c, Number(c.first), Number(c.second), receivedAt).Some?
    ensures OnDay(c, Number(c.second), Number(c.first), receivedAt).Some?
  {
  }

  /**
   A value that is reported as skipped is coerced to null. The report is right, in that either order would
   have given a date, exactly when the time does not spoil it; and every date lost to the setting is reported.
   */
  lemma {:induction false} SkippedIff(value: string, receivedAt: Moment)
    ensures forall setting :: IsAmbiguousSlashSkip(value, setting) ==> Coerced(Trim(value), receivedAt, setting).None?
    ensures IsAmbiguousSlashSkip(value, Skip) && Fits(FirstMatch(Trim(value), 0).value, ClockOf(Trim(value))) <==>
              && Coerced(Trim(value), receivedAt, Skip).None?
              && Coerced(Trim(value), receivedAt, MonthThenDay).Some?
              && Coerced(Trim(value), receivedAt, DayThenMonth).Some?
    ensures IsAmbiguousSlashSkip(value, Skip) && !Fits(FirstMatch(Trim(value), 0).value, ClockOf(Trim(value))) ==>
              forall setting :: Coerced(Trim(value), receivedAt, setting).None?
  {
    var m := FirstMatch(Trim(value), 0);
    if m.Some? && IsAmbiguous(m.value) {
      AmbiguousFollowsSetting(Trim(value), receivedAt);
    }
  }

  // The next occurrence, at a time of day

  /**
   So the date and time read from a text without a year are the next occurrence exactly unless the mail came
   in on that very day, before that time.
   */
  lemma {:induction false} YearFreeIsNextIff(input: string, receivedAt: Moment, setting: Setting, clock: Clock)
    requires IsValid(receivedAt.date) && ClockOf(input) == Some(clock) && IsTime(clock) && clock.hour < 24
    requires FirstMatch(input, 0).Some? && FirstMatch(input, 0).value.year.None?
    requires Coerced(input, receivedAt, setting).Some?
    ensures var stamp := Coerced(input, receivedAt, setting).value;
            && stamp.clock == Some(clock)
            && (IsNextAt(stamp.date, clock, receivedAt)
                <==> !(receivedAt.date.month == stamp.date.month && receivedAt.date.day == stamp.date.day
                       && receivedAt.millis < Millis(clock)))
  {
    var c := FirstMatch(input, 0).value;
    var first, second := Number(c.first), Number(c.second);
    var d := if MonthFirst(first, second, setting) then OnDay(c, first, second, receivedAt)
             else OnDay(c, second, first, receivedAt);
    TimeOfDayStays(d.value, clock);
    NextOccurrenceIff(d.value.month, d.value.day, clock, receivedAt);
  }

  // Inputs on which a promise fails

  lemma {:induction false} TwoDigits(s: string)
    requires |s| == 2
    ensures Number(s) == 10 * Digit(s[0]) + Digit(s[1])
  {
    var t := s[..1];
    assert t[..0] == "" && t[0] == s[0];
    assert Number(t) == Digit(s[0]);
  }

  /** A string that ends with a time of four digits and has no other colon. */
  ghost predicate EndsWithTime(s: string) {
    && |s| >= 5 && s[|s| - 3] == ':'
    && IsDigit(s[|s| - 5]) && IsDigit(s[|s| - 4]) && IsDigit(s[|s| - 2]) && IsDigit(s[|s| - 1])
    && forall i :: 0 <= i < |s| && s[i] == ':' ==> i == |s| - 3
  }

  lemma {:induction false} EndTime(s: string)
    requires EndsWithTime(s)
    ensures ClockOf(s) == Some(Digits(s, |s| - 5, 2))
  {
    var n := |s| - 5;
    assert TimeText(s, n, 2);
    TimeDecides(s, n, 2);
  }

  /** On `03/02/2027 27:99` the report is wrong: no setting gives a date. */
  lemma {:induction false} ParseFailureReportedAsSkip(value: string, receivedAt: Moment, setting: Setting)
    requires value == "03/02/2027 27:99"
    ensures IsAmbiguousSlashSkip(value, Skip) && Coerced(value, receivedAt, setting).None?
  {
    Characters(value);
    NumbersAndTime(value);
    SpoiledSkip(value, receivedAt, setting);
  }

  lemma {:induction false} SpoiledSkip(value: string, receivedAt: Moment, setting: Setting)
    requires Trimmed(value) && FirstMatch(value, 0).Some? && IsAmbiguous(FirstMatch(value, 0).value)
    requires !Fits(FirstMatch(value, 0).value, ClockOf(value))
    ensures IsAmbiguousSlashSkip(value, Skip) && Coerced(value, receivedAt, setting).None?
  {
    TrimAround("", value, "");
    AmbiguousFollowsSetting(value, receivedAt);
  }

  lemma {:induction false} NumbersAndTime(value: string)
    requires |value| == 16 && EndsWithTime(value)
    requires value[0] == '0' && value[1] == '3' && value[2] == '/' && value[3] == '0' && value[4] == '2'
        && value[5] == '/'
    requires forall i :: 6 <= i < 10 ==> IsDigit(value[i])
    requires value[11] == '2' && value[12] == '7' && value[14] == '9' && value[15] == '9'
    ensures var m := FirstMatch(value, 0);
            m.Some? && Number(m.value.first) == 3 && Number(m.value.second) == 2 && m.value.year.Some?
    ensures ClockOf(value) == Some(Clock(27, 99))
  {
    EndTime(value);
    TwoDigits(value[0..2]);
    TwoDigits(value[3..5]);
    TwoDigits(value[11..13]);
    TwoDigits(value[14..16]);
  }

  lemma {:induction false} Characters(value: string)
    requires value == "03/02/2027 27:99"
    ensures |value| == 16 && EndsWithTime(value) && Trimmed(value)
    ensures value[0] == '0' && value[1] == '3' && value[2] == '/' && value[3] == '0' && value[4] == '2'
        && value[5] == '/'
    ensures forall i :: 6 <= i < 10 ==> IsDigit(value[i])
    ensures value[11] == '2' && value[12] == '7' && value[14] == '9' && value[15] == '9'
  {
    assert value[6] == '2' && value[7] == '0' && value[8] == '2' && value[9] == '7' && value[10] == ' '
        && value[13] == ':';
  }

  /** `7/13 18:00`, received on 13 July 2027 at 10:00, is taken for 13 July 2028, though that hour is to come. */
  lemma {:induction false} LaterTodayIsMissed(value: string, setting: Setting)
    requires value == "7/13 18:00"
    ensures var received := Moment(Date(2027, 7, 13), Millis(Clock(10, 0)));
            && Coerced(value, received, setting) == Some(Stamp(Date(2028, 7, 13), Some(Clock(18, 0))))
            && UpcomingAt(Date(2027, 7, 13), Clock(18, 0), 7, 13, received)
  {
    DayAndTimeCharacters(value);
    NumbersOfDay(value);
    TimeOfDay(value);
    LaterToday(value, setting);
  }

  lemma {:induction false} LaterToday(value: string, setting: Setting)
    requires ClockOf(value) == Some(Clock(18, 0))
    requires var m := FirstMatch(value, 0);
             m.Some? && Number(m.value.first) == 7 && Number(m.value.second) == 13 && m.value.year.None?
    ensures var received := Moment(Date(2027, 7, 13), Millis(Clock(10, 0)));
            && Coerced(value, received, setting) == Some(Stamp(Date(2028, 7, 13), Some(Clock(18, 0))))
            && UpcomingAt(Date(2027, 7, 13), Clock(18, 0), 7, 13, received)
  {
    var today := Date(2027, 7, 13);
    var received := Moment(today, Millis(Clock(10, 0)));
    assert OnDay(FirstMatch(value, 0).value, 7, 13, received) == Some(Date(2028, 7, 13));
    TimeOfDayStays(Date(2028, 7, 13), Clock(18, 0));
    UpcomingOnDay(today, Clock(18, 0), received);
  }

  lemma {:induction false} NumbersOfDay(value: string)
    requires |value| == 10
    requires value[0] == '7' && value[1] == '/' && value[2] == '1' && value[3] == '3' && value[4] == ' '
    ensures var m := FirstMatch(value, 0);
            m.Some? && Number(m.value.first) == 7 && Number(m.value.second) == 13 && m.value.year.None?
  {
    assert Run(value, 0, 2) == 1 && Run(value, 2, 2) == 2;
    assert FirstMatch(value, 0) == Some(Components(value[0..1], value[2..4], None));
    OneDigit(value[0..1]);
    TwoDigits(value[2..4]);
  }

  lemma {:induction false} TimeOfDay(value: string)
    requires |value| == 10 && EndsWithTime(value)
    requires value[5] == '1' && value[6] == '8' && value[8] == '0' && value[9] == '0'
    ensures ClockOf(value) == Some(Clock(18, 0))
  {
    EndTime(value);
    TwoDigits(value[5..7]);
    TwoDigits(value[8..10]);
  }

  lemma {:induction false} DayAndTimeCharacters(value: string)
    requires value == "7/13 18:00"
    ensures |value| == 10 && EndsWithTime(value)
    ensures value[0] == '7' && value[1] == '/' && value[2] == '1' && value[3] == '3' && value[4] == ' '
    ensures value[5] == '1' && value[6] == '8' && value[8] == '0' && value[9] == '0'
  {
    assert value[7] == ':';
  }

  lemma {:induction false} OneDigit(s: string)
    requires |s| == 1
    ensures Number(s) == Digit(s[0])
  {
    assert s[..0] == "";
  }
}
