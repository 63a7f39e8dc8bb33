/**
 The exactly-once daily counter: `writeDiffMetric` and `trimHistory`.

 Many workers share one stored row. Every DynamoDB call is one atomic step; between two calls of a
 worker any other worker may act. A call may be refused before it lands, and its reply may be lost
 after it landed. A history variable, `log`, records each delta that landed.
 */
module DailyCounter {
  import opened Options
  import opened StatsMetrics

  type Key = string

  const HISTORY_LIMIT := 100
  const TRIM_COUNT := 10

  datatype DiffRow = DiffRow(metrics: Metrics, history: seq<Key>)

  datatype Call = Call(id: nat, key: Key, metric: Metric, delta: int)

  /** Where a worker stands: the next DynamoDB call it will send. */
  datatype Pc =
    | Idle
    | Update        // step 1: conditional ADD
    | Disambiguate  // step 2: read the history
    | RetryUpdate   // step 2: the row is there, the key is not
    | Create        // step 3: conditional put
    | RaceUpdate    // step 3: another worker created the row
    | TrimRead
    | TrimWrite
    | Done(ok: bool)

  datatype Worker = Worker(pc: Pc, call: Call)

  datatype Entry = Entry(call: Call)

  datatype Reply = Delivered | Refused | Lost

  datatype Action =
    | Begin(w: nat, key: Key, metric: Metric, delta: int)
    | Send(w: nat, reply: Reply)

  datatype System = System(row: Option<DiffRow>, log: seq<Entry>, workers: seq<Worker>, calls: nat)

  // ---------------------------------------------------------------------------
  // The protocol
  // ---------------------------------------------------------------------------

  predicate AtRest(pc: Pc) {
    pc.Idle? || pc.Done?
  }

  /** The condition `attribute_exists(pk) AND NOT contains(history, :key)`. */
  predicate CanUpdate(row: Option<DiffRow>, key: Key) {
    row.Some? && key !in row.value.history
  }

  function ApplyUpdate(r: DiffRow, c: Call): DiffRow {
    DiffRow(r.metrics[c.metric := Value(r.metrics, c.metric) + c.delta], r.history + [c.key])
  }

  function FreshRow(c: Call): DiffRow {
    DiffRow(map[c.metric := c.delta], [c.key])
  }

  /** `REMOVE history[0], …, history[9]`: indices past the end are ignored. */
  function DropOldest(r: DiffRow): DiffRow {
    r.(history := if |r.history| <= TRIM_COUNT then [] else r.history[TRIM_COUNT..])
  }

  function Goto(s: System, w: nat, pc: Pc): System
    requires w < |s.workers|
  {
    s.(workers := s.workers[w := s.workers[w].(pc := pc)])
  }

  function Land(s: System, w: nat, row: DiffRow): System
    requires w < |s.workers|
  {
    s.(row := Some(row), log := s.log + [Entry(s.workers[w].call)])
  }

  /** A conditional ADD; `onConflict` is where a failed condition leads. */
  function SendUpdate(s: System, w: nat, reply: Reply, onConflict: Pc): System
    requires w < |s.workers|
  {
    var c := s.workers[w].call;
    if reply.Refused? then Goto(s, w, Done(false))
    else if CanUpdate(s.row, c.key) then
      Goto(Land(s, w, ApplyUpdate(s.row.value, c)), w, if reply.Delivered? then TrimRead else Done(false))
    else Goto(s, w, if reply.Delivered? then onConflict else Done(false))
  }

  function SendCreate(s: System, w: nat, reply: Reply): System
    requires w < |s.workers|
  {
    if reply.Refused? then Goto(s, w, Done(false))
    else if s.row.None? then Goto(Land(s, w, FreshRow(s.workers[w].call)), w, Done(reply.Delivered?))
    else Goto(s, w, if reply.Delivered? then RaceUpdate else Done(false))
  }

  function SendRead(s: System, w: nat, reply: Reply): System
    requires w < |s.workers|
  {
    if !reply.Delivered? then Goto(s, w, Done(false))
    else if s.row.None? then Goto(s, w, Create)
    else if s.workers[w].call.key in s.row.value.history then Goto(s, w, Done(true))
    else Goto(s, w, RetryUpdate)
  }

  /** A failed trim is logged and swallowed: the call still returns ok. */
  function SendTrimRead(s: System, w: nat, reply: Reply): System
    requires w < |s.workers|
  {
    if reply.Delivered? && s.row.Some? && |s.row.value.history| > HISTORY_LIMIT then Goto(s, w, TrimWrite)
    else Goto(s, w, Done(true))
  }

  function SendTrimWrite(s: System, w: nat, reply: Reply): System
    requires w < |s.workers|
  {
    if reply.Refused? || s.row.None? then Goto(s, w, Done(true))
    else Goto(s.(row := Some(DropOldest(s.row.value))), w, Done(true))
  }

  function Step(s: System, a: Action): System {
    if a.w >= |s.workers| then s
    else match a
      case Begin(w, key, metric, delta) =>
        if !AtRest(s.workers[w].pc) then s
        else s.(workers := s.workers[w := Worker(Update, Call(s.calls, key, metric, delta))], calls := s.calls + 1)
      case Send(w, reply) =>
        match s.workers[w].pc
        case Update => SendUpdate(s, w, reply, Disambiguate)
        case Disambiguate => SendRead(s, w, reply)
        case RetryUpdate => SendUpdate(s, w, reply, Done(true))
        case Create => SendCreate(s, w, reply)
        case RaceUpdate => SendUpdate(s, w, reply, Done(true))
        case TrimRead => SendTrimRead(s, w, reply)
        case TrimWrite => SendTrimWrite(s, w, reply)
        case _ => s
  }

  function Run(s: System, actions: seq<Action>): System
    decreases |actions|
  {
    if actions == [] then s else Run(Step(s, actions[0]), actions[1..])
  }

  /** No row yet and every worker idle. */
  function Init(workers: nat): System {
    System(None, [], seq(workers, _ => Worker(Idle, Call(0, "", Allowed, 0))), 0)
  }

  // ---------------------------------------------------------------------------
  // What is claimed of a state
  // ---------------------------------------------------------------------------

  function Keys(log: seq<Entry>): seq<Key> {
    seq(|log|, i requires 0 <= i < |log| => log[i].call.key)
  }

  function Total(log: seq<Entry>, m: Metric): int {
    if log == [] then 0
    else Total(log[..|log| - 1], m) + if log[|log| - 1].call.metric == m then log[|log| - 1].call.delta else 0
  }

  function History(s: System): seq<Key> {
    if s.row.None? then [] else s.row.value.history
  }

  function Stored(s: System, m: Metric): int {
    if s.row.None? then 0 else Value(s.row.value.metrics, m)
  }

  /** How many of the most recent keys are guaranteed to be remembered. */
  function Window(workers: nat): int {
    HISTORY_LIMIT + 1 - TRIM_COUNT * workers
  }

  predicate Trimming(w: Worker) { w.pc.TrimWrite? }

  /** Between its update and the end of its trim. */
  predicate Cleaning(w: Worker) { w.pc.TrimRead? || w.pc.TrimWrite? }

  function Count(workers: seq<Worker>, p: Worker -> bool): (n: nat)
    ensures n <= |workers|
  {
    if workers == [] then 0
    else Count(workers[..|workers| - 1], p) + if p(workers[|workers| - 1]) then 1 else 0
  }

  /** Trims that have read a long history and are still to land. */
  function Pending(workers: seq<Worker>): nat {
    Count(workers, Trimming)
  }

  ghost predicate HistoryIsSuffix(s: System) {
    && (s.row.None? ==> s.log == [])
    && |History(s)| <= |s.log|
    && forall i :: 0 <= i < |History(s)| ==> History(s)[i] == s.log[|s.log| - |History(s)| + i].call.key
  }

  ghost predicate MetricsAddUp(s: System) {
    forall m :: Stored(s, m) == Total(s.log, m)
  }

  /** The inductive form of the window: a trim that is still to land has already paid for itself. */
  ghost predicate WindowHolds(s: System) {
    || (Pending(s.workers) == 0 && |History(s)| == |s.log|)
    || |History(s)| >= Window(|s.workers|) + TRIM_COUNT * Pending(s.workers)
  }

  /** Two entries with one key lie further apart than the window. */
  ghost predicate RepeatsFarApart(s: System) {
    forall i, j :: 0 <= i < j < |s.log| && s.log[i].call.key == s.log[j].call.key ==> j - i > Window(|s.workers|)
  }

  /** The call may still land. */
  predicate Unlanded(pc: Pc) {
    pc.Update? || pc.Disambiguate? || pc.RetryUpdate? || pc.Create? || pc.RaceUpdate?
  }

  ghost predicate AtMostOnce(s: System) {
    && (forall i, j :: 0 <= i < j < |s.log| ==> s.log[i].call.id != s.log[j].call.id)
    && (forall i :: 0 <= i < |s.log| ==> s.log[i].call.id < s.calls)
    && (forall w :: 0 <= w < |s.workers| && !s.workers[w].pc.Idle? ==> s.workers[w].call.id < s.calls)
    && (forall v, w :: 0 <= v < w < |s.workers| && !s.workers[v].pc.Idle? && !s.workers[w].pc.Idle? ==>
                         s.workers[v].call.id != s.workers[w].call.id)
    && (forall w, i :: 0 <= w < |s.workers| && Unlanded(s.workers[w].pc) && 0 <= i < |s.log| ==>
                         s.log[i].call.id != s.workers[w].call.id)
  }

  /** The worker can no longer fail, or has answered ok. */
  predicate Committed(pc: Pc) {
    pc.TrimRead? || pc.TrimWrite? || pc == Done(true)
  }

  ghost predicate OkMeansLogged(s: System) {
    && (forall w :: 0 <= w < |s.workers| && Committed(s.workers[w].pc) ==> s.workers[w].call.key in Keys(s.log))
    && (forall w :: 0 <= w < |s.workers| && (s.workers[w].pc.RetryUpdate? || s.workers[w].pc.RaceUpdate?) ==>
        s.row.Some?)
  }

  ghost predicate Inv(s: System) {
    && HistoryIsSuffix(s)
    && MetricsAddUp(s)
    && WindowHolds(s)
    && RepeatsFarApart(s)
    && AtMostOnce(s)
    && OkMeansLogged(s)
  }

  /** The call itself landed, or another call with its key did. */
  ghost predicate Counted(log: seq<Entry>, c: Call) {
    Entry(c) in log || LoggedByAnother(log, c)
  }

  ghost predicate LoggedByAnother(log: seq<Entry>, c: Call) {
    exists i :: 0 <= i < |log| && log[i].call.key == c.key && log[i].call.id != c.id
  }

  /** A key that a call finds in the history before it has landed is there by another call. */
  lemma {:induction false} HistoryIsByAnother(s: System, w: nat)
    requires Inv(s) && w < |s.workers| && Unlanded(s.workers[w].pc) && s.workers[w].call.key in History(s)
    ensures LoggedByAnother(s.log, s.workers[w].call)
  {
    var h, n := History(s), |s.log|;
    var i :| 0 <= i < |h| && h[i] == s.workers[w].call.key;
    assert s.log[n - |h| + i].call.key == h[i];
  }

  // ---------------------------------------------------------------------------
  // Every step keeps the invariant
  // ---------------------------------------------------------------------------

  lemma {:induction false} CountUpdate(ws: seq<Worker>, p: Worker -> bool, w: nat, x: Worker)
    requires w < |ws|
    ensures Count(ws[w := x], p) == Count(ws, p) - (if p(ws[w]) then 1 else 0) + if p(x) then 1 else 0
  {
    var n := |ws| - 1;
    if w == n {
      assert ws[w := x][..n] == ws[..n];
    } else {
      CountUpdate(ws[..n], p, w, x);
      assert ws[w := x][..n] == ws[..n][w := x];
    }
  }

  lemma {:induction false} CountZero(ws: seq<Worker>, p: Worker -> bool)
    requires forall w :: 0 <= w < |ws| ==> !p(ws[w])
    ensures Count(ws, p) == 0
  {
    if ws != [] {
      CountZero(ws[..|ws| - 1], p);
    }
  }

  lemma {:induction false} PendingPositive(ws: seq<Worker>, w: nat)
    requires w < |ws| && Trimming(ws[w])
    ensures Pending(ws) > 0
  {
    CountUpdate(ws, Trimming, w, ws[w].(pc := Idle));
  }

  lemma {:induction false} PendingBelow(ws: seq<Worker>, w: nat)
    requires w < |ws| && !Trimming(ws[w])
    ensures Pending(ws) < |ws|
  {
    CountUpdate(ws, Trimming, w, ws[w].(pc := TrimWrite));
    assert Count(ws[w := ws[w].(pc := TrimWrite)], Trimming) <= |ws[w := ws[w].(pc := TrimWrite)]|;
  }

  lemma {:induction false} KeysAppend(log: seq<Entry>, e: Entry)
    ensures Keys(log + [e]) == Keys(log) + [e.call.key]
  {
  }

  lemma {:induction false} TotalAppend(log: seq<Entry>, e: Entry, m: Metric)
    ensures Total(log + [e], m) == Total(log, m) + if e.call.metric == m then e.call.delta else 0
  {
    assert (log + [e])[..|log|] == log;
  }

  /** The worker's delta reaches the row and the log. */
  ghost predicate Lands(s: System, w: nat, t: System)
    requires w < |s.workers| == |t.workers|
  {
    && Unlanded(s.workers[w].pc) && !Unlanded(t.workers[w].pc) && !Trimming(t.workers[w])
    && t.row.Some?
    && (s.row.Some? ==>
        CanUpdate(s.row, s.workers[w].call.key) && t.row.value == ApplyUpdate(s.row.value, s.workers[w].call))
    && (s.row.None? ==> t.row.value == FreshRow(s.workers[w].call))
    && t.log == s.log + [Entry(s.workers[w].call)]
  }

  /** The worker's trim drops the oldest keys. */
  ghost predicate Trims(s: System, w: nat, t: System)
    requires w < |s.workers| == |t.workers|
  {
    && Trimming(s.workers[w]) && t.workers[w].pc == Done(true)
    && s.row.Some? && t.row == Some(DropOldest(s.row.value)) && t.log == s.log
  }

  ghost predicate Starts(s: System, w: nat, t: System)
    requires w < |s.workers| == |t.workers|
  {
    && AtRest(s.workers[w].pc) && t.workers[w].pc.Update? && t.workers[w].call.id == s.calls
    && t.calls == s.calls + 1 && t.row == s.row && t.log == s.log
  }

  /** The worker moves on without touching row or log. */
  ghost predicate Passes(s: System, w: nat, t: System)
    requires w < |s.workers| == |t.workers|
  {
    var u, v := s.workers[w], t.workers[w];
    && t.row == s.row && t.log == s.log
    && (Unlanded(v.pc) ==> Unlanded(u.pc))
    && (v.pc.RetryUpdate? || v.pc.RaceUpdate? ==> s.row.Some?)
    && (Committed(v.pc) && !Committed(u.pc) ==> s.row.Some? && u.call.key in History(s))
    && (Trimming(v) && v != u ==> u.pc.TrimRead? && |History(s)| > HISTORY_LIMIT)
  }

  /** One worker moves, and it does one of four things. */
  ghost predicate Moves(s: System, w: nat, t: System) {
    && w < |s.workers| == |t.workers|
    && t.workers == s.workers[w := t.workers[w]]
    && (Starts(s, w, t)
        || (&& t.calls == s.calls && t.workers[w].call == s.workers[w].call
            && (t.workers[w].pc.Idle? ==> s.workers[w].pc.Idle?)
            && (s.workers[w].pc.Idle? ==> t.workers[w].pc.Idle?)
            && (Lands(s, w, t) || Trims(s, w, t) || Passes(s, w, t))))
  }

  /** After a retry or a race the row is known to be there, so a failed condition means the key is. */
  lemma {:induction false} StepMoves(s: System, a: Action)
    requires a.w < |s.workers|
    requires OkMeansLogged(s)
    ensures Moves(s, a.w, Step(s, a))
  {
  }

  lemma {:induction false} OthersUntouched(s: System, a: Action, w: nat)
    requires w < |s.workers| && a.w != w
    ensures |Step(s, a).workers| == |s.workers| && Step(s, a).workers[w] == s.workers[w]
  {
  }

  lemma {:induction false} LandedState(s: System, w: nat, t: System)
    requires w < |s.workers| == |t.workers| && Lands(s, w, t) && HistoryIsSuffix(s)
    ensures HistoryIsSuffix(t)
    ensures History(t) == History(s) + [s.workers[w].call.key]
    ensures forall m :: Stored(t, m) == Stored(s, m) + if s.workers[w].call.metric == m
        then s.workers[w].call.delta else 0
  {
    KeysAppend(s.log, Entry(s.workers[w].call));
  }

  lemma {:induction false} SuffixStep(s: System, w: nat, t: System)
    requires Moves(s, w, t) && HistoryIsSuffix(s)
    ensures HistoryIsSuffix(t)
  {
    if Lands(s, w, t) {
      LandedState(s, w, t);
    }
  }

  lemma {:induction false} MetricsStep(s: System, w: nat, t: System)
    requires Moves(s, w, t) && HistoryIsSuffix(s) && MetricsAddUp(s)
    ensures MetricsAddUp(t)
  {
    if Lands(s, w, t) {
      LandedState(s, w, t);
      forall m ensures Stored(t, m) == Total(t.log, m) {
        TotalAppend(s.log, Entry(s.workers[w].call), m);
      }
    }
  }

  lemma {:induction false} WindowStep(s: System, w: nat, t: System)
    requires Moves(s, w, t) && HistoryIsSuffix(s) && WindowHolds(s)
    ensures WindowHolds(t)
  {
    CountUpdate(s.workers, Trimming, w, t.workers[w]);
    if Lands(s, w, t) {
      LandedState(s, w, t);
    } else if Trims(s, w, t) {
      PendingPositive(s.workers, w);
    } else if !Trimming(s.workers[w]) && Trimming(t.workers[w]) {
      PendingBelow(s.workers, w);
    }
  }

  lemma {:induction false} RepeatsStep(s: System, w: nat, t: System)
    requires Moves(s, w, t) && HistoryIsSuffix(s) && WindowHolds(s) && RepeatsFarApart(s)
    ensures RepeatsFarApart(t)
  {
    if Lands(s, w, t) {
      var key, n, h := s.workers[w].call.key, |s.log|, |History(s)|;
      forall i | 0 <= i < n && s.log[i].call.key == key ensures n - i > Window(|s.workers|) {
        RememberedKey(s, i);
      }
    }
  }

  /** A logged key outside the stored history is old. */
  lemma {:induction false} RememberedKey(s: System, i: nat)
    requires HistoryIsSuffix(s) && i < |s.log|
    ensures i >= |s.log| - |History(s)| ==> s.log[i].call.key in History(s)
  {
    if i >= |s.log| - |History(s)| {
      assert History(s)[i - (|s.log| - |History(s)|)] == s.log[i].call.key;
    }
  }

  lemma {:induction false} OnceStep(s: System, w: nat, t: System)
    requires Moves(s, w, t) && AtMostOnce(s)
    ensures AtMostOnce(t)
  {
  }

  lemma {:induction false} OkStep(s: System, w: nat, t: System)
    requires Moves(s, w, t) && HistoryIsSuffix(s) && OkMeansLogged(s)
    ensures OkMeansLogged(t)
  {
    if Lands(s, w, t) {
      KeysAppend(s.log, Entry(s.workers[w].call));
      assert Keys(t.log)[|s.log|] == s.workers[w].call.key;
    }
    forall k | k in Keys(s.log) ensures k in Keys(t.log) {
      assert Lands(s, w, t) ==> Keys(t.log) == Keys(s.log) + [s.workers[w].call.key];
    }
    forall k | k in History(s) ensures k in Keys(s.log) {
      var i :| 0 <= i < |History(s)| && History(s)[i] == k;
      assert Keys(s.log)[|s.log| - |History(s)| + i] == k;
    }
  }

  lemma {:induction false} InitInv(workers: nat)
    ensures Inv(Init(workers))
  {
    var s := Init(workers);
    CountZero(s.workers, Trimming);
    assert Keys(s.log) == [];
    assert AtMostOnce(s) && OkMeansLogged(s) && RepeatsFarApart(s);
  }

  lemma {:induction false} StepInv(s: System, a: Action)
    requires Inv(s)
    ensures Inv(Step(s, a)) && |Step(s, a).workers| == |s.workers|
  {
    if a.w < |s.workers| {
      var t := Step(s, a);
      StepMoves(s, a);
      SuffixStep(s, a.w, t);
      MetricsStep(s, a.w, t);
      WindowStep(s, a.w, t);
      RepeatsStep(s, a.w, t);
      OnceStep(s, a.w, t);
      OkStep(s, a.w, t);
    }
  }

  lemma {:induction false} RunInv(s: System, actions: seq<Action>)
    requires Inv(s)
    ensures Inv(Run(s, actions)) && |Run(s, actions).workers| == |s.workers|
    decreases |actions|
  {
    if actions != [] {
      StepInv(s, actions[0]);
      RunInv(Step(s, actions[0]), actions[1..]);
    }
  }

  // ---------------------------------------------------------------------------
  // Main results
  // ---------------------------------------------------------------------------

  /** The deduplication window: in every interleaving the last `Window(workers)` keys cannot land again. */
  lemma {:induction false} DeduplicationWindow(workers: nat, actions: seq<Action>)
    ensures var s := Run(Init(workers), actions);
            && |s.workers| == workers
            && HistoryIsSuffix(s)
            && (|History(s)| == |s.log| || |History(s)| >= Window(workers))
            && RepeatsFarApart(s)
  {
    InitInv(workers);
    RunInv(Init(workers), actions);
  }

  /** Every metric is the sum of what landed, no call lands twice, and ok means the key landed. */
  lemma {:induction false} ExactlyOnceAccounting(workers: nat, actions: seq<Action>)
    ensures var s := Run(Init(workers), actions);
            && MetricsAddUp(s)
            && (forall i, j :: 0 <= i < j < |s.log| ==> s.log[i].call.id != s.log[j].call.id)
            && (forall w :: 0 <= w < |s.workers| && s.workers[w].pc == Done(true) ==>
                s.workers[w].call.key in Keys(s.log))
  {
    InitInv(workers);
    RunInv(Init(workers), actions);
  }

  // ---------------------------------------------------------------------------
  // The history stays short while trims work
  // ---------------------------------------------------------------------------

  /** No update loses its reply (it would skip its trim) and no trim call fails. */
  predicate TrimWorks(s: System, a: Action) {
    a.Send? && a.w < |s.workers| ==>
      && (Unlanded(s.workers[a.w].pc) ==> !a.reply.Lost?)
      && (Cleaning(s.workers[a.w]) ==> a.reply.Delivered?)
  }

  predicate TrimsWork(s: System, actions: seq<Action>)
    decreases |actions|
  {
    actions == [] || (TrimWorks(s, actions[0]) && TrimsWork(Step(s, actions[0]), actions[1..]))
  }

  ghost predicate Bounded(s: System) {
    |History(s)| <= HISTORY_LIMIT + Count(s.workers, Cleaning)
  }

  lemma {:induction false} BoundedStep(s: System, a: Action)
    requires Bounded(s) && TrimWorks(s, a)
    ensures Bounded(Step(s, a))
  {
    if a.w < |s.workers| {
      var t := Step(s, a);
      HistoryGrowth(s, a);
      CountUpdate(s.workers, Cleaning, a.w, t.workers[a.w]);
    }
  }

  /** While trims work, the history grows only with a call that will clean up, or a short history. */
  lemma {:induction false} HistoryGrowth(s: System, a: Action)
    requires a.w < |s.workers| && TrimWorks(s, a)
    ensures var t, u, v := Step(s, a), s.workers[a.w], Step(s, a).workers[a.w];
            && t.workers == s.workers[a.w := v]
            && (|| |History(t)| <= HISTORY_LIMIT
                || (History(t) == History(s) && (Cleaning(u) ==> Cleaning(v)))
                || (|History(t)| == |History(s)| + 1 && !Cleaning(u) && Cleaning(v))
                || |History(t)| < |History(s)|)
  {
  }

  lemma {:induction false} BoundedRun(s: System, actions: seq<Action>)
    requires Bounded(s) && TrimsWork(s, actions)
    ensures Bounded(Run(s, actions))
    decreases |actions|
  {
    if actions != [] {
      BoundedStep(s, actions[0]);
      BoundedRun(Step(s, actions[0]), actions[1..]);
    }
  }

  /** With working trims the history exceeds the limit only by the calls still cleaning up. */
  lemma {:induction false} HistoryStaysShort(workers: nat, actions: seq<Action>)
    requires TrimsWork(Init(workers), actions)
    ensures var s := Run(Init(workers), actions);
            && |History(s)| <= HISTORY_LIMIT + Count(s.workers, Cleaning)
            && ((forall w :: 0 <= w < |s.workers| ==> AtRest(s.workers[w].pc)) ==> |History(s)| <= HISTORY_LIMIT)
  {
    BoundedRun(Init(workers), actions);
    var s := Run(Init(workers), actions);
    if forall w :: 0 <= w < |s.workers| ==> AtRest(s.workers[w].pc) {
      CountZero(s.workers, Cleaning);
    }
  }

  // ---------------------------------------------------------------------------
  // Every call ends, whatever the others do
  // ---------------------------------------------------------------------------

  function CallsLeft(pc: Pc): nat {
    match pc
    case Update => 6
    case Disambiguate => 5
    case Create => 4
    case RetryUpdate => 3
    case RaceUpdate => 3
    case TrimRead => 2
    case TrimWrite => 1
    case _ => 0
  }

  function Sends(actions: seq<Action>, w: nat): nat {
    if actions == [] then 0
    else (if actions[0].Send? && actions[0].w == w then 1 else 0) + Sends(actions[1..], w)
  }

  lemma {:induction false} RankStep(s: System, w: nat, a: Action)
    requires w < |s.workers| && (a.w == w ==> a.Send?)
    ensures var before, after := s.workers[w].pc, Step(s, a).workers[w].pc;
            && |Step(s, a).workers| == |s.workers|
            && (AtRest(before) ==> AtRest(after))
            && (if a.w == w && !AtRest(before) then CallsLeft(after) < CallsLeft(before) else after == before)
  {
  }

  /** Wait-freedom: no interleaving can make a call send more than six DynamoDB calls. */
  lemma {:induction false} WaitFree(s: System, w: nat, actions: seq<Action>)
    requires w < |s.workers|
    requires forall a :: a in actions && a.w == w ==> a.Send?
    ensures |Run(s, actions).workers| == |s.workers|
    ensures Sends(actions, w) >= CallsLeft(s.workers[w].pc) ==> AtRest(Run(s, actions).workers[w].pc)
    decreases |actions|
  {
    if actions != [] {
      var a := actions[0];
      assert a in actions;
      RankStep(s, w, a);
      WaitFree(Step(s, a), w, actions[1..]);
    }
  }

  // ---------------------------------------------------------------------------
  // The window cannot be widened
  // ---------------------------------------------------------------------------

  lemma {:induction false} RunAppend(s: System, a: seq<Action>, b: seq<Action>)
    ensures Run(s, a + b) == Run(Run(s, a), b)
    decreases |a|
  {
    if a == [] {
      assert a + b == b;
    } else {
      assert (a + b)[1..] == a[1..] + b;
      RunAppend(Step(s, a[0]), a[1..], b);
    }
  }

  /** No step forgets what landed. */
  lemma {:induction false} LogGrows(s: System, a: Action)
    ensures s.log <= Step(s, a).log
  {
  }

  lemma {:induction false} RunFirst(s: System, actions: seq<Action>)
    requires actions != []
    ensures Run(s, actions) == Run(Step(s, actions[0]), actions[1..])
    ensures |actions| == 1 ==> Run(s, actions) == Step(s, actions[0])
    ensures |actions| > 1 ==> Run(s, actions) == Run(Step(s, actions[0]), [actions[1]] + actions[2..])
  {
    if |actions| > 1 {
      assert actions[1..] == [actions[1]] + actions[2..];
    }
  }

  /** A key longer than every remembered one. */
  function Unused(history: seq<Key>): (k: Key)
    ensures forall i :: 0 <= i < |history| ==> |history[i]| < |k|
  {
    if history == [] then "k"
    else Unused(history[..|history| - 1]) + history[|history| - 1] + "k"
  }

  /** Nothing has been trimmed yet. */
  predicate Untrimmed(s: System) {
    s.row.Some? && |History(s)| == |s.log|
  }

  /** One more key lands through the fast path and waits for its trim. */
  lemma {:induction false} LandOne(s: System, w: nat) returns (actions: seq<Action>)
    requires w < |s.workers| && AtRest(s.workers[w].pc) && Untrimmed(s)
    ensures var t := Run(s, actions);
            && Untrimmed(t) && |t.log| == |s.log| + 1
            && |t.workers| == |s.workers| && t.workers[w].pc.TrimRead?
            && t.workers == s.workers[w := t.workers[w]]
  {
    var begin, send := Begin(w, Unused(History(s)), Allowed, 1), Send(w, Delivered);
    actions := [begin, send];
    RunFirst(s, actions);
    RunFirst(Step(s, begin), [send]);
    assert Unused(History(s)) !in History(s);
  }

  /** Worker 0 alone brings the log to `n` entries. */
  lemma {:induction false} Fill(workers: nat, n: nat) returns (actions: seq<Action>)
    requires workers > 0 && 1 <= n <= HISTORY_LIMIT
    ensures var s := Run(Init(workers), actions);
            && Untrimmed(s) && |s.log| == n && |s.workers| == workers
            && forall v :: 0 <= v < workers ==> AtRest(s.workers[v].pc)
    decreases n
  {
    if n == 1 {
      var begin, send := Begin(0, "k", Allowed, 1), Send(0, Delivered);
      actions := [begin, send, send, send];
      var s := Step(Init(workers), begin);
      RunFirst(Init(workers), actions);
      RunFirst(s, [send, send, send]);
      RunFirst(Step(s, send), [send, send]);
      RunFirst(Step(Step(s, send), send), [send]);
    } else {
      var before := Fill(workers, n - 1);
      var s := Run(Init(workers), before);
      var one := LandOne(s, 0);
      var trim := [Send(0, Delivered)];
      RunAppend(Init(workers), before, one);
      RunAppend(Init(workers), before + one, trim);
      RunFirst(Run(s, one), trim);
      actions := before + one + trim;
    }
  }

  /** Workers `w..` each land one key and stop before their trim. */
  lemma {:induction false} LoadAll(s: System, w: nat) returns (actions: seq<Action>)
    requires w <= |s.workers| && Untrimmed(s)
    requires forall v :: w <= v < |s.workers| ==> AtRest(s.workers[v].pc)
    requires forall v :: 0 <= v < w ==> s.workers[v].pc.TrimRead?
    ensures var t := Run(s, actions);
            && Untrimmed(t) && |t.log| == |s.log| + |s.workers| - w && |t.workers| == |s.workers|
            && forall v :: 0 <= v < |t.workers| ==> t.workers[v].pc.TrimRead?
    decreases |s.workers| - w
  {
    if w == |s.workers| {
      actions := [];
    } else {
      var one := LandOne(s, w);
      var rest := LoadAll(Run(s, one), w + 1);
      RunAppend(s, one, rest);
      actions := one + rest;
    }
  }

  /** Workers `w..` all read the long history before anyone trims it. */
  lemma {:induction false} ReadAll(s: System, w: nat) returns (actions: seq<Action>)
    requires w <= |s.workers| && |History(s)| > HISTORY_LIMIT
    requires forall v :: 0 <= v < |s.workers| ==> s.workers[v].pc == if v < w then TrimWrite else TrimRead
    ensures var t := Run(s, actions);
            && t.row == s.row && t.log == s.log && |t.workers| == |s.workers|
            && forall v :: 0 <= v < |t.workers| ==> t.workers[v].pc.TrimWrite?
    decreases |s.workers| - w
  {
    if w == |s.workers| {
      actions := [];
    } else {
      var rest := ReadAll(Step(s, Send(w, Delivered)), w + 1);
      actions := [Send(w, Delivered)] + rest;
    }
  }

  /** Then workers `w..` all trim. */
  lemma {:induction false} TrimAll(s: System, w: nat) returns (actions: seq<Action>)
    requires w <= |s.workers| && |History(s)| >= TRIM_COUNT * (|s.workers| - w)
    requires forall v :: w <= v < |s.workers| ==> s.workers[v].pc.TrimWrite?
    ensures var t := Run(s, actions);
            && t.log == s.log && |History(t)| == |History(s)| - TRIM_COUNT * (|s.workers| - w)
    decreases |s.workers| - w
  {
    if w == |s.workers| {
      actions := [];
    } else {
      var rest := TrimAll(Step(s, Send(w, Delivered)), w + 1);
      actions := [Send(w, Delivered)] + rest;
    }
  }

  /** Some interleaving shrinks the remembered keys to exactly the window. */
  lemma {:induction false} WindowIsTight(workers: nat) returns (actions: seq<Action>)
    requires 1 <= workers <= 10
    ensures var s := Run(Init(workers), actions);
            |s.log| == HISTORY_LIMIT + 1 && |History(s)| == Window(workers)
  {
    var fill := Fill(workers, HISTORY_LIMIT + 1 - workers);
    var s := Run(Init(workers), fill);
    var load := LoadAll(s, 0);
    var t := Run(s, load);
    var read := ReadAll(t, 0);
    var u := Run(t, read);
    var trim := TrimAll(u, 0);
    RunAppend(Init(workers), fill, load);
    RunAppend(Init(workers), fill + load, read);
    RunAppend(Init(workers), fill + load + read, trim);
    actions := fill + load + read + trim;
  }
}
