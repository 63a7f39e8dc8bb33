/**
 The RSVP protocol on one calendar_event row: `saveCalendarEventSignal` (read, then a put guarded by
 the RSVP that was read, at most three times) against `setCalendarEventRsvp` (one conditional update).
 Any number of savers and RSVP writers interleave; a DynamoDB call may be refused, or its reply lost.
 */
module CalendarRsvp {
  import opened Options

  const MAX_ATTEMPTS := 3

  datatype Rsvp = Rsvp(decision: string, respondedAt: string)

  /** `event` is the snapshot without its RSVP; `relay` is what `sentRsvp` leaves on the row. */
  datatype EventRow = EventRow(event: string, rsvp: Option<Rsvp>, relay: Option<string>)

  datatype Reply = Delivered | Refused | Lost

  datatype Outcome = Saved | GaveUp | Failed

  /** `startedAt` and `readAt` count the RSVPs recorded when the call, and its last read, happened. */
  datatype Saver =
    | Idle
    | Reading(event: string, attempt: nat, startedAt: nat)
    | Writing(event: string, attempt: nat, startedAt: nat, prior: Option<Rsvp>, readAt: nat)
    | Finished(event: string, outcome: Outcome, startedAt: nat)

  datatype Action =
    | BeginSave(w: nat, event: string)
    | Send(w: nat, reply: Reply)
    | Respond(rsvp: Rsvp, relay: Option<string>, reply: Reply)

  /** `rsvps` and `events` record, in order, what landed on the row. */
  datatype System = System(row: Option<EventRow>, rsvps: seq<Rsvp>, events: seq<string>, savers: seq<Saver>)

  function Recorded(row: Option<EventRow>): Option<Rsvp> {
    if row.None? then None else row.value.rsvp
  }

  function Latest<T>(s: seq<T>): Option<T> {
    if s == [] then None else Some(s[|s| - 1])
  }

  // ---------------------------------------------------------------------------
  // The protocol
  // ---------------------------------------------------------------------------

  /** The condition of the guarded put. */
  predicate GuardHolds(row: Option<EventRow>, prior: Option<Rsvp>) {
    match prior
    case Some(r) => Recorded(row).Some? && Recorded(row).value.respondedAt == r.respondedAt
    case None => Recorded(row).None?
  }

  function Retry(saver: Saver): Saver
    requires saver.Writing?
  {
    if saver.attempt + 1 < MAX_ATTEMPTS then Reading(saver.event, saver.attempt + 1, saver.startedAt)
    else Finished(saver.event, GaveUp, saver.startedAt)
  }

  function SendRead(s: System, w: nat, reply: Reply): System
    requires w < |s.savers| && s.savers[w].Reading?
  {
    var v := s.savers[w];
    s.(savers := s.savers[w :=
      if reply.Delivered? then Writing(v.event, v.attempt, v.startedAt, Recorded(s.row), |s.rsvps|)
      else Finished(v.event, Failed, v.startedAt)])
  }

  function SendPut(s: System, w: nat, reply: Reply): System
    requires w < |s.savers| && s.savers[w].Writing?
  {
    var v := s.savers[w];
    var lands := !reply.Refused? && GuardHolds(s.row, v.prior);
    var next := if !reply.Delivered? then Finished(v.event, Failed, v.startedAt)
                else if lands then Finished(v.event, Saved, v.startedAt)
                else Retry(v);
    if lands then
      s.(row := Some(EventRow(v.event, v.prior, None)), events := s.events + [v.event], savers := s.savers[w := next])
    else s.(savers := s.savers[w := next])
  }

  function SendRsvp(s: System, rsvp: Rsvp, relay: Option<string>, reply: Reply): System {
    if reply.Refused? || s.row.None? then s
    else s.(row := Some(EventRow(s.row.value.event, Some(rsvp), if relay.Some? then relay else s.row.value.relay)),
            rsvps := s.rsvps + [rsvp])
  }

  function Step(s: System, a: Action): System {
    match a
    case Respond(rsvp, relay, reply) => SendRsvp(s, rsvp, relay, reply)
    case BeginSave(w, event) =>
      if w < |s.savers| && (s.savers[w].Idle? || s.savers[w].Finished?)
      then s.(savers := s.savers[w := Reading(event, 0, |s.rsvps|)])
      else s
    case Send(w, reply) =>
      if w >= |s.savers| then s
      else match s.savers[w]
        case Reading(_, _, _) => SendRead(s, w, reply)
        case Writing(_, _, _, _, _) => SendPut(s, w, reply)
        case _ => s
  }

  function Run(s: System, actions: seq<Action>): System
    decreases |actions|
  {
    if actions == [] then s else Run(Step(s, actions[0]), actions[1..])
  }

  function Init(row: Option<EventRow>, savers: nat): System {
    System(row,
           if Recorded(row).Some? then [Recorded(row).value] else [],
           if row.Some? then [row.value.event] else [],
           seq(savers, _ => Idle))
  }

  // ---------------------------------------------------------------------------
  // The invariant
  // ---------------------------------------------------------------------------

  /** `respondedAt` identifies a response: `answer` tells which. */
  ghost predicate Identifies(answer: string -> Rsvp, r: Rsvp) {
    answer(r.respondedAt) == r
  }

  ghost predicate ActionIdentified(answer: string -> Rsvp, a: Action) {
    a.Respond? ==> Identifies(answer, a.rsvp)
  }

  ghost predicate AllIdentified(answer: string -> Rsvp, actions: seq<Action>) {
    forall i :: 0 <= i < |actions| ==> ActionIdentified(answer, actions[i])
  }

  ghost predicate SaverInv(s: System, v: Saver) {
    match v
    case Idle => true
    case Reading(_, attempt, startedAt) =>
      attempt < MAX_ATTEMPTS && startedAt + attempt <= |s.rsvps|
    case Writing(_, attempt, startedAt, prior, readAt) =>
      attempt < MAX_ATTEMPTS && startedAt + attempt <= readAt <= |s.rsvps| && prior == Latest(s.rsvps[..readAt])
    case Finished(_, outcome, startedAt) =>
      outcome == GaveUp ==> startedAt + MAX_ATTEMPTS <= |s.rsvps|
  }

  ghost predicate RowInv(s: System) {
    && Recorded(s.row) == Latest(s.rsvps)
    && (s.row.Some? <==> s.events != [])
    && (s.row.Some? ==> Some(s.row.value.event) == Latest(s.events))
  }

  ghost predicate Inv(s: System, answer: string -> Rsvp) {
    && RowInv(s)
    && (forall i :: 0 <= i < |s.rsvps| ==> Identifies(answer, s.rsvps[i]))
    && (forall w :: 0 <= w < |s.savers| ==> SaverInv(s, s.savers[w]))
  }

  /** One more RSVP disturbs no other saver. */
  lemma {:induction false} SaverKept(s: System, t: System, v: Saver)
    requires SaverInv(s, v) && |s.rsvps| <= |t.rsvps| && t.rsvps[..|s.rsvps|] == s.rsvps
    ensures SaverInv(t, v)
  {
    if v.Writing? {
      assert t.rsvps[..v.readAt] == s.rsvps[..v.readAt];
    }
  }

  /** Under the guard the put writes back the RSVP the row already has. */
  lemma {:induction false} GuardedPutKeeps(s: System, answer: string -> Rsvp, w: nat)
    requires Inv(s, answer) && w < |s.savers| && s.savers[w].Writing? && GuardHolds(s.row, s.savers[w].prior)
    ensures s.savers[w].prior == Recorded(s.row)
  {
    var v := s.savers[w];
    assert SaverInv(s, v);
    if v.prior.Some? {
      var k, n := v.readAt - 1, |s.rsvps| - 1;
      assert s.rsvps[..v.readAt][k] == s.rsvps[k];
      assert Identifies(answer, s.rsvps[k]) && Identifies(answer, s.rsvps[n]);
    }
  }

  /** A failed guard means another RSVP landed since the read. */
  lemma {:induction false} FailedGuardMeansRsvp(s: System, answer: string -> Rsvp, w: nat)
    requires Inv(s, answer) && w < |s.savers| && s.savers[w].Writing? && !GuardHolds(s.row, s.savers[w].prior)
    ensures s.savers[w].readAt < |s.rsvps|
  {
    var v := s.savers[w];
    assert SaverInv(s, v);
    assert s.rsvps[..|s.rsvps|] == s.rsvps;
  }

  lemma {:induction false} StepInv(s: System, answer: string -> Rsvp, a: Action)
    requires Inv(s, answer) && ActionIdentified(answer, a)
    ensures Inv(Step(s, a), answer) && |Step(s, a).savers| == |s.savers|
    ensures s.rsvps <= Step(s, a).rsvps
  {
    var t := Step(s, a);
    if a.Send? && a.w < |s.savers| && s.savers[a.w].Writing? {
      if GuardHolds(s.row, s.savers[a.w].prior) {
        GuardedPutKeeps(s, answer, a.w);
      } else {
        FailedGuardMeansRsvp(s, answer, a.w);
      }
    }
    assert s.rsvps[..|s.rsvps|] == s.rsvps;
    forall w | 0 <= w < |t.savers| ensures SaverInv(t, t.savers[w]) {
      assert SaverInv(s, s.savers[w]);
      SaverKept(s, t, s.savers[w]);
    }
  }

  lemma {:induction false} RunInv(s: System, answer: string -> Rsvp, actions: seq<Action>)
    requires Inv(s, answer) && AllIdentified(answer, actions)
    ensures Inv(Run(s, actions), answer) && |Run(s, actions).savers| == |s.savers|
    ensures s.rsvps <= Run(s, actions).rsvps
    decreases |actions|
  {
    if actions != [] {
      assert ActionIdentified(answer, actions[0]);
      StepInv(s, answer, actions[0]);
      RunInv(Step(s, actions[0]), answer, actions[1..]);
    }
  }

  // ---------------------------------------------------------------------------
  // Main results
  // ---------------------------------------------------------------------------

  /** No RSVP is lost or rolled back, and the row shows the event saved last. */
  lemma {:induction false} NoRsvpLost(row: Option<EventRow>, savers: nat, answer: string -> Rsvp, actions: seq<Action>)
    requires Recorded(row).Some? ==> Identifies(answer, Recorded(row).value)
    requires AllIdentified(answer, actions)
    ensures var s := Run(Init(row, savers), actions);
            && Recorded(s.row) == Latest(s.rsvps)
            && Init(row, savers).rsvps <= s.rsvps
            && (s.row.Some? ==> Some(s.row.value.event) == Latest(s.events))
  {
    RunInv(Init(row, savers), answer, actions);
  }

  // The relay ids

  /** The action at `k` saved an event. */
  ghost predicate Saves(s: System, actions: seq<Action>, k: nat)
    requires k < |actions|
  {
    |Run(s, actions[..k + 1]).events| > |Run(s, actions[..k]).events|
  }

  /** The action at `k` recorded an RSVP that carried relay ids. */
  ghost predicate Relays(s: System, actions: seq<Action>, k: nat)
    requires k < |actions|
  {
    && actions[k].Respond? && actions[k].relay.Some?
    && |Run(s, actions[..k + 1]).rsvps| > |Run(s, actions[..k]).rsvps|
  }

  /** From `k` on no action saved an event or carried relay ids. */
  ghost predicate QuietFrom(s: System, actions: seq<Action>, k: nat) {
    forall j :: k <= j < |actions| ==> !Saves(s, actions, j) && !Relays(s, actions, j)
  }

  function RelayOf(row: Option<EventRow>): Option<string> {
    if row.None? then None else row.value.relay
  }

  lemma {:induction false} RunLast(s: System, actions: seq<Action>)
    requires actions != []
    ensures var k := |actions| - 1; Run(s, actions) == Step(Run(s, actions[..k]), actions[k])
    decreases |actions|
  {
    if |actions| > 1 {
      var k := |actions| - 1;
      assert actions[..k][1..] == actions[1..][..k - 1];
      RunLast(Step(s, actions[0]), actions[1..]);
    }
  }

  /** One step changes the relay ids only by a save or by an RSVP that carries some. */
  lemma {:induction false} StepRelay(s: System, a: Action)
    ensures var t := Step(s, a);
            && (|t.events| > |s.events| ==> RelayOf(t.row) == None)
            && (a.Respond? && a.relay.Some? && |t.rsvps| > |s.rsvps| ==> RelayOf(t.row) == a.relay)
            && (|t.events| <= |s.events| && !(a.Respond? && a.relay.Some? && |t.rsvps| > |s.rsvps|) ==>
                RelayOf(t.row) == RelayOf(s.row))
  {
  }

  /**
   The relay ids on the row are those of the last RSVP that carried some since the last save, else none;
   before any save or such RSVP, those that the row began with.
   */
  lemma {:induction false} RelayIsLast(s: System, actions: seq<Action>)
    ensures forall k :: 0 <= k < |actions| && QuietFrom(s, actions, k + 1) ==>
              && (Saves(s, actions, k) ==> RelayOf(Run(s, actions).row) == None)
              && (Relays(s, actions, k) ==> RelayOf(Run(s, actions).row) == actions[k].relay)
    ensures QuietFrom(s, actions, 0) ==> RelayOf(Run(s, actions).row) == RelayOf(s.row)
    decreases |actions|
  {
    if actions != [] {
      var n := |actions| - 1;
      RelayIsLast(s, actions[..n]);
      LastRelay(s, actions);
      forall k | 0 <= k < n && QuietFrom(s, actions, k + 1)
        ensures Saves(s, actions, k) ==> RelayOf(Run(s, actions).row) == None
        ensures Relays(s, actions, k) ==> RelayOf(Run(s, actions).row) == actions[k].relay
      {
        QuietBefore(s, actions, k + 1);
        SameAction(s, actions, k);
      }
      if QuietFrom(s, actions, 0) {
        QuietBefore(s, actions, 0);
      }
    }
  }

  lemma {:induction false} SameAction(s: System, actions: seq<Action>, k: nat)
    requires k < |actions| - 1
    ensures var before := actions[..|actions| - 1];
            && before[k] == actions[k]
            && (Saves(s, before, k) <==> Saves(s, actions, k)) && (Relays(s, before, k) <==> Relays(s, actions, k))
  {
    var before := actions[..|actions| - 1];
    assert before[..k] == actions[..k] && before[..k + 1] == actions[..k + 1];
  }

  lemma {:induction false} QuietBefore(s: System, actions: seq<Action>, k: nat)
    requires k < |actions| && QuietFrom(s, actions, k)
    ensures QuietFrom(s, actions[..|actions| - 1], k)
    ensures !Saves(s, actions, |actions| - 1) && !Relays(s, actions, |actions| - 1)
  {
    var n := |actions| - 1;
    forall j | k <= j < n ensures !Saves(s, actions[..n], j) && !Relays(s, actions[..n], j) {
      assert !Saves(s, actions, j) && !Relays(s, actions, j);
      SameAction(s, actions, j);
    }
  }

  lemma {:induction false} LastRelay(s: System, actions: seq<Action>)
    requires actions != []
    ensures var n := |actions| - 1;
            && (Saves(s, actions, n) ==> RelayOf(Run(s, actions).row) == None)
            && (Relays(s, actions, n) ==> RelayOf(Run(s, actions).row) == actions[n].relay)
            && (!Saves(s, actions, n) && !Relays(s, actions, n) ==>
                RelayOf(Run(s, actions).row) == RelayOf(Run(s, actions[..n]).row))
  {
    var n := |actions| - 1;
    assert actions[..n + 1] == actions;
    RunLast(s, actions);
    StepRelay(Run(s, actions[..n]), actions[n]);
  }

  /** Giving up means at least three RSVPs landed while the call ran. */
  lemma {:induction false} GivingUpIsEarned(row: Option<EventRow>, savers: nat, answer: string -> Rsvp,
                                            actions: seq<Action>, w: nat)
    requires Recorded(row).Some? ==> Identifies(answer, Recorded(row).value)
    requires AllIdentified(answer, actions) && w < savers
    ensures var s := Run(Init(row, savers), actions);
            && |s.savers| == savers
            && (s.savers[w].Finished? && s.savers[w].outcome.GaveUp? ==>
                s.savers[w].startedAt + MAX_ATTEMPTS <= |s.rsvps|)
  {
    RunInv(Init(row, savers), answer, actions);
    var s := Run(Init(row, savers), actions);
    assert SaverInv(s, s.savers[w]);
  }

  /**
   Exactly when one put rolls an RSVP back: the response it read and the one on the row differ but
   carry the same time. This is the assumption of `NoRsvpLost`, met from the other side.
   */
  lemma {:induction false} PutRollsBackIff(s: System, w: nat)
    requires w < |s.savers| && s.savers[w].Writing?
    ensures var t := Step(s, Send(w, Delivered));
            var now, prior := Recorded(s.row), s.savers[w].prior;
            Recorded(t.row) != now <==>
                now.Some? && prior.Some? && now != prior && now.value.respondedAt == prior.value.respondedAt
  {
  }

  /** Two different answers given at the same instant: the save puts the first one back. */
  lemma {:induction false} SameInstantLosesRsvp()
    ensures var first, second := Rsvp("accepted", "09:00"), Rsvp("declined", "09:00");
            var s := Run(Init(Some(EventRow("invite", Some(first), None)), 1),
                         [BeginSave(0, "update"), Send(0, Delivered), Respond(second, None, Delivered),
                             Send(0, Delivered)]);
            Latest(s.rsvps) == Some(second) && Recorded(s.row) == Some(first)
  {
    var first, second := Rsvp("accepted", "09:00"), Rsvp("declined", "09:00");
    var s := Init(Some(EventRow("invite", Some(first), None)), 1);
    var a, b, c := BeginSave(0, "update"), Send(0, Delivered), Respond(second, None, Delivered);
    RunFirst(s, [a, b, c, b]);
    RunFirst(Step(s, a), [b, c, b]);
    RunFirst(Step(Step(s, a), b), [c, b]);
    RunFirst(Step(Step(Step(s, a), b), c), [b]);
  }

  lemma {:induction false} RunFirst(s: System, actions: seq<Action>)
    requires actions != []
    ensures Run(s, actions) == Run(Step(s, actions[0]), actions[1..])
    ensures |actions| == 1 ==> Run(s, actions) == Step(s, actions[0])
    ensures |actions| > 1 ==> Run(s, actions) == Run(Step(s, actions[0]), [actions[1]] + actions[2..])
  {
    if |actions| > 1 {
      assert actions[1..] == [actions[1]] + actions[2..];
    }
  }
}

/** The two operations as the code is written, each DynamoDB call one step of the protocol. */
module CalendarTables {
  import opened Options
  import opened CalendarRsvp

  datatype Seen = Succeeded | ConditionFailed | Threw

  function AfterAttempt(saver: Saver, seen: Seen): Saver
    requires saver.Reading?
  {
    match seen
    case Succeeded => Finished(saver.event, Saved, saver.startedAt)
    case Threw => Finished(saver.event, Failed, saver.startedAt)
    case ConditionFailed =>
      if saver.attempt + 1 < MAX_ATTEMPTS then Reading(saver.event, saver.attempt + 1, saver.startedAt)
      else Finished(saver.event, GaveUp, saver.startedAt)
  }

  class CalendarTable {
    var row: Option<EventRow>
    var rsvps: seq<Rsvp>
    var events: seq<string>
    var savers: seq<Saver>
    /** What each `respondedAt` stands for. */
    ghost const answer: string -> Rsvp

    function State(): System
      reads this
    {
      System(row, rsvps, events, savers)
    }

    ghost predicate Valid()
      reads this
    {
      Inv(State(), answer)
    }

    constructor (row: Option<EventRow>, count: nat, ghost answer: string -> Rsvp)
      requires Recorded(row).Some? ==> Identifies(answer, Recorded(row).value)
      ensures Valid() && State() == Init(row, count) && this.answer == answer
    {
      this.row := row;
      rsvps := if Recorded(row).Some? then [Recorded(row).value] else [];
      events := if row.Some? then [row.value.event] else [];
      savers := seq(count, _ => Idle);
      this.answer := answer;
    }

    ghost predicate NoRsvp(actions: seq<Action>) {
      forall i :: 0 <= i < |actions| ==> !actions[i].Respond?
    }

    /** The other savers and writers act while `w` waits. */
    method Interfere(w: nat, actions: seq<Action>)
      requires w < |savers| && Valid()
      requires AllIdentified(answer, actions)
      requires forall a :: a in actions ==> a.Respond? || a.w != w
      modifies this
      ensures Valid() && old(rsvps) <= rsvps
      ensures |savers| == old(|savers|) && savers[w] == old(savers[w])
      ensures NoRsvp(actions) ==> rsvps == old(rsvps)
    {
      for i := 0 to |actions|
        invariant Valid() && old(rsvps) <= rsvps
        invariant NoRsvp(actions) ==> rsvps == old(rsvps)
        invariant |savers| == old(|savers|) && savers[w] == old(savers[w])
      {
        assert ActionIdentified(answer, actions[i]);
        StepInv(State(), answer, actions[i]);
        var next := Step(State(), actions[i]);
        row, rsvps, events, savers := next.row, next.rsvps, next.events, next.savers;
      }
    }

    /** The read of one attempt. */
    method GetItem(w: nat, reply: Reply) returns (prior: Option<Option<Rsvp>>)
      requires w < |savers| && Valid() && savers[w].Reading?
      modifies this
      ensures State() == Step(old(State()), Send(w, reply))
      ensures Valid()
      ensures prior == if reply.Delivered? then Some(Recorded(row)) else None
      ensures row == old(row) && rsvps == old(rsvps)
    {
      StepInv(State(), answer, Send(w, reply));
      var v := savers[w];
      if reply.Delivered? {
        prior := Some(if row.None? then None else row.value.rsvp);
        savers := savers[w := Writing(v.event, v.attempt, v.startedAt, prior.value, |rsvps|)];
      } else {
        prior := None;
        savers := savers[w := Finished(v.event, Failed, v.startedAt)];
      }
    }

    /** The guarded put of one attempt. */
    method PutItem(w: nat, event: string, prior: Option<Rsvp>, reply: Reply) returns (seen: Seen)
      requires w < |savers| && Valid() && savers[w].Writing?
      requires savers[w].prior == prior && savers[w].event == event
      modifies this
      ensures State() == Step(old(State()), Send(w, reply))
      ensures Valid()
      ensures seen == if !reply.Delivered? then Threw else if GuardHolds(old(row), prior) then Succeeded
          else ConditionFailed
      ensures seen == Succeeded ==> row == Some(EventRow(event, prior, None))
      ensures rsvps == old(rsvps)
    {
      StepInv(State(), answer, Send(w, reply));
      var v := savers[w];
      var holds := match prior
        case Some(r) => row.Some? && row.value.rsvp.Some? && row.value.rsvp.value.respondedAt == r.respondedAt
        case None => row.None? || row.value.rsvp.None?;
      if holds && !reply.Refused? {
        row := Some(EventRow(event, prior, None));
        events := events + [event];
      }
      seen := if !reply.Delivered? then Threw else if holds then Succeeded else ConditionFailed;
      savers := savers[w := match seen
        case Threw => Finished(event, Failed, v.startedAt)
        case Succeeded => Finished(event, Saved, v.startedAt)
        case ConditionFailed => Retry(v)];
    }

    ghost predicate ByOthers(others: nat -> seq<Action>, w: nat) {
      forall j :: AllIdentified(answer, others(j)) && forall a :: a in others(j) ==> a.Respond? || a.w != w
    }

    /** One turn of the retry loop: read, then put under the guard. */
    method Attempt(w: nat, event: string, others: nat -> seq<Action>, reply: nat -> Reply, i: nat) returns (seen: Seen)
      requires w < |savers| && Valid() && savers[w].Reading? && savers[w].event == event
      requires ByOthers(others, w)
      modifies this
      ensures Valid() && old(rsvps) <= rsvps
      ensures |savers| == old(|savers|)
      ensures savers[w] == AfterAttempt(old(savers[w]), seen)
      ensures seen == Succeeded ==> row == Some(EventRow(event, Latest(rsvps), None))
      ensures reply(i).Delivered? && reply(i + 1).Delivered? ==> seen != Threw
      ensures (forall j :: NoRsvp(others(j))) ==> rsvps == old(rsvps)
    {
      Interfere(w, others(i));
      var prior := GetItem(w, reply(i));
      if prior.None? {
        return Threw;
      }
      Interfere(w, others(i + 1));
      seen := PutItem(w, event, prior.value, reply(i + 1));
    }

    /** `saveCalendarEventSignal`. */
    method SaveCalendarEventSignal(w: nat, event: string, others: nat -> seq<Action>, reply: nat -> Reply)
      returns (outcome: Outcome)
      requires w < |savers| && Valid() && (savers[w].Idle? || savers[w].Finished?)
      requires ByOthers(others, w)
      modifies this
      ensures Valid() && old(rsvps) <= rsvps
      ensures |savers| == old(|savers|) && savers[w] == Finished(event, outcome, old(|rsvps|))
      ensures Recorded(row) == Latest(rsvps)
      ensures outcome == Saved ==> row == Some(EventRow(event, Latest(rsvps), None))
      ensures outcome == GaveUp ==> |rsvps| >= old(|rsvps|) + 3
      ensures (forall j :: 0 <= j < 6 ==> reply(j).Delivered?) ==> outcome != Failed
      ensures (forall j :: NoRsvp(others(j))) ==> rsvps == old(rsvps)
    {
      savers := savers[w := Reading(event, 0, |rsvps|)];
      assert Valid() by {
        StepInv(old(State()), answer, BeginSave(w, event));
      }
      var attempt := 0;
      while attempt < MAX_ATTEMPTS
        invariant 0 <= attempt <= MAX_ATTEMPTS
        invariant Valid() && old(rsvps) <= rsvps && |savers| == old(|savers|)
        invariant (forall j :: NoRsvp(others(j))) ==> rsvps == old(rsvps)
        invariant savers[w] == if attempt < MAX_ATTEMPTS then Reading(event, attempt, old(|rsvps|))
                               else Finished(event, GaveUp, old(|rsvps|))
      {
        var seen := Attempt(w, event, others, reply, 2 * attempt);
        if seen == Succeeded {
          return Saved;
        }
        if seen == Threw {
          return Failed;
        }
        attempt := attempt + 1;
      }
      assert SaverInv(State(), savers[w]);
      return GaveUp;
    }

    /** `setCalendarEventRsvp`: `Some(false)` when there is no row, `None` when the call failed. */
    method SetCalendarEventRsvp(rsvp: Rsvp, relay: Option<string>, reply: Reply) returns (recorded: Option<bool>)
      requires Valid() && Identifies(answer, rsvp)
      modifies this
      ensures Valid() && savers == old(savers) && events == old(events)
      ensures recorded == if reply.Delivered? then Some(old(row).Some?) else None
      ensures rsvps == old(rsvps) + (if old(row).Some? && !reply.Refused? then [rsvp] else [])
      ensures State() == Step(old(State()), Respond(rsvp, relay, reply))
      ensures row == if old(row).None? || reply.Refused? then old(row)
                     else Some(EventRow(old(row).value.event, Some(rsvp),
                                        if relay.Some? then relay else old(row).value.relay))
    {
      StepInv(State(), answer, Respond(rsvp, relay, reply));
      if row.Some? && !reply.Refused? {
        row := Some(row.value.(rsvp := Some(rsvp), relay := if relay.Some? then relay else row.value.relay));
        rsvps := rsvps + [rsvp];
      }
      recorded := if reply.Delivered? then Some(row.Some?) else None;
    }
  }
}
