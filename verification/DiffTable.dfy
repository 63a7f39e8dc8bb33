/**
 `writeDiffMetric` as the code is written: methods over the stored row, between whose DynamoDB calls
 other workers act. Each call is proved to be one step of the protocol in `DailyCounter`, so every
 run of the method, under any interference and any failed calls, is a run of that protocol.
 */
module DiffTables {
  import opened Options
  import opened StatsMetrics
  import opened DailyCounter

  /** What the sender of a DynamoDB command sees. */
  datatype Seen = Succeeded | ConditionFailed | Threw

  /** The row of one day, with the history variables of the protocol. */
  class DiffTable {
    var row: Option<DiffRow>
    var log: seq<Entry>
    var workers: seq<Worker>
    var calls: nat
    ghost const start: System
    ghost var trace: seq<Action>

    constructor (count: nat)
      ensures Valid() && State() == Init(count)
    {
      row, log, calls := None, [], 0;
      workers := seq(count, _ => Worker(Idle, Call(0, "", Allowed, 0)));
      start, trace := Init(count), [];
      new;
      InitInv(count);
    }

    function State(): System
      reads this
    {
      System(row, log, workers, calls)
    }

    /** The table is where the recorded steps of the protocol lead. */
    ghost predicate Valid()
      reads this
    {
      Inv(start) && State() == Run(start, trace)
    }

    lemma ValidInv()
      requires Valid()
      ensures Inv(State())
    {
      RunInv(start, trace);
    }

    lemma KnownIsByAnother(w: nat)
      requires Valid() && w < |workers| && Unlanded(workers[w].pc)
      ensures row.Some? && workers[w].call.key in row.value.history ==> LoggedByAnother(log, workers[w].call)
      ensures workers[w].pc.RetryUpdate? || workers[w].pc.RaceUpdate? ==> row.Some?
    {
      ValidInv();
      if row.Some? && workers[w].call.key in row.value.history {
        HistoryIsByAnother(State(), w);
      }
    }

    ghost method Record(before: System, a: Action)
      requires Inv(start) && before == Run(start, trace) && State() == Step(before, a)
      modifies this`trace
      ensures Valid() && trace == old(trace) + [a]
      ensures before.log <= log
    {
      LogGrows(before, a);
      RunAppend(start, trace, [a]);
      RunFirst(before, [a]);
      trace := trace + [a];
    }

    method Goto(w: nat, pc: Pc)
      requires w < |workers|
      modifies this`workers
      ensures State() == DailyCounter.Goto(old(State()), w, pc)
    {
      workers := workers[w := workers[w].(pc := pc)];
    }

    /** Another worker acts. */
    method Other(w: nat, a: Action)
      requires w < |workers| && Valid() && a.w != w
      modifies this
      ensures Valid() && trace == old(trace) + [a] && old(log) <= log
      ensures |workers| == old(|workers|) && workers[w] == old(workers[w])
    {
      ghost var before := State();
      OthersUntouched(before, a, w);
      var next := Step(State(), a);
      row, log, workers, calls := next.row, next.log, next.workers, next.calls;
      Record(before, a);
    }

    /** The other workers act while `w` waits. */
    method Interfere(w: nat, actions: seq<Action>)
      requires w < |workers| && Valid()
      requires forall a :: a in actions ==> a.w != w
      modifies this
      ensures Valid() && trace == old(trace) + actions && old(log) <= log
      ensures |workers| == old(|workers|) && workers[w] == old(workers[w])
      ensures actions == [] ==> row == old(row) && log == old(log)
    {
      for i := 0 to |actions|
        invariant Valid() && trace == old(trace) + actions[..i] && old(log) <= log
        invariant i == 0 ==> row == old(row) && log == old(log)
        invariant |workers| == old(|workers|) && workers[w] == old(workers[w])
      {
        Other(w, actions[i]);
        assert actions[..i + 1] == actions[..i] + [actions[i]];
      }
      assert actions[..|actions|] == actions;
    }

    /** The conditional `UpdateItem` that adds the delta and appends the key. */
    method UpdateItem(w: nat, reply: Reply) returns (seen: Seen)
      requires w < |workers| && Valid()
      requires workers[w].pc in {Update, RetryUpdate, RaceUpdate}
      modifies this
      ensures Valid() && trace == old(trace) + [Send(w, reply)] && old(log) <= log
      ensures State() == Step(old(State()), Send(w, reply))
      ensures seen == if !reply.Delivered? then Threw
                      else if CanUpdate(old(row), old(workers[w].call.key)) then Succeeded else ConditionFailed
      ensures |workers| == old(|workers|)
      ensures workers[w] == old(workers[w]).(pc := match seen
                case Succeeded => TrimRead
                case ConditionFailed => if old(workers[w].pc.Update?) then Disambiguate else Done(true)
                case Threw => Done(false))
      ensures log == old(log) + (if !reply.Refused? && CanUpdate(old(row), old(workers[w].call.key))
                                 then [Entry(old(workers[w].call))] else [])
    {
      ghost var before := State();
      var c := workers[w].call;
      seen := Threw;
      if !reply.Refused? {
        var holds := row.Some? && c.key !in row.value.history;
        if holds {
          var r := row.value;
          row := Some(DiffRow(r.metrics[c.metric := Value(r.metrics, c.metric) + c.delta], r.history + [c.key]));
          log := log + [Entry(c)];
        }
        if reply.Delivered? {
          seen := if holds then Succeeded else ConditionFailed;
        }
      }
      Goto(w, match seen
              case Succeeded => TrimRead
              case ConditionFailed => if workers[w].pc.Update? then Disambiguate else Done(true)
              case Threw => Done(false));
      Record(before, Send(w, reply));
    }

    /** The `PutItem` on condition that no row exists. */
    method PutItem(w: nat, reply: Reply) returns (seen: Seen)
      requires w < |workers| && Valid() && workers[w].pc.Create?
      modifies this
      ensures Valid() && trace == old(trace) + [Send(w, reply)] && old(log) <= log
      ensures State() == Step(old(State()), Send(w, reply))
      ensures seen == if !reply.Delivered? then Threw else if old(row).None? then Succeeded else ConditionFailed
      ensures |workers| == old(|workers|)
      ensures workers[w] == old(workers[w]).(pc := match seen
                case Succeeded => Done(true)
                case ConditionFailed => RaceUpdate
                case Threw => Done(false))
      ensures log == old(log) + (if !reply.Refused? && old(row).None? then [Entry(old(workers[w].call))] else [])
    {
      ghost var before := State();
      var c := workers[w].call;
      seen := Threw;
      if !reply.Refused? {
        var holds := row.None?;
        if holds {
          row := Some(DiffRow(map[c.metric := c.delta], [c.key]));
          log := log + [Entry(c)];
        }
        if reply.Delivered? {
          seen := if holds then Succeeded else ConditionFailed;
        }
      }
      Goto(w, match seen case Succeeded => Done(true) case ConditionFailed => RaceUpdate case Threw => Done(false));
      Record(before, Send(w, reply));
    }

    /** The `GetItem` of step 2: `None` when it throws, else the row's history if there is a row. */
    method GetItem(w: nat, reply: Reply) returns (seen: Option<Option<seq<Key>>>)
      requires w < |workers| && Valid() && workers[w].pc.Disambiguate?
      modifies this
      ensures Valid() && trace == old(trace) + [Send(w, reply)] && old(log) <= log
      ensures State() == Step(old(State()), Send(w, reply))
      ensures row == old(row) && log == old(log) && calls == old(calls)
      ensures seen == if !reply.Delivered? then None else Some(if row.None? then None else Some(row.value.history))
      ensures |workers| == old(|workers|)
      ensures workers[w] == old(workers[w]).(pc := match seen
                case None => Done(false)
                case Some(None) => Create
                case Some(Some(h)) => if workers[w].call.key in h then Done(true) else RetryUpdate)
    {
      ghost var before := State();
      var key := workers[w].call.key;
      seen := if !reply.Delivered? then None else Some(if row.None? then None else Some(row.value.history));
      Goto(w, match seen
              case None => Done(false)
              case Some(None) => Create
              case Some(Some(h)) => if key in h then Done(true) else RetryUpdate);
      Record(before, Send(w, reply));
    }

    /** No other worker acts. */
    ghost predicate Quiet(others: nat -> seq<Action>) {
      forall j :: others(j) == []
    }

    ghost predicate ByOthers(others: nat -> seq<Action>, w: nat) {
      forall j, a :: a in others(j) ==> a.w != w
    }

    /** `trimHistory`: read, then remove the ten oldest keys; every failure is swallowed. */
    method TrimHistory(w: nat, others: nat -> seq<Action>, reply: nat -> Reply, i: nat)
      requires w < |workers| && Valid() && workers[w].pc.TrimRead?
      requires ByOthers(others, w)
      modifies this
      ensures Valid() && old(trace) <= trace && old(log) <= log
      ensures |workers| == old(|workers|)
      ensures workers[w] == old(workers[w]).(pc := Done(true))
      ensures Quiet(others) ==> log == old(log)
      ensures Quiet(others) && reply(i).Delivered? && reply(i + 1).Delivered? && old(row).Some? ==>
                var r := old(row).value;
                row == Some(DiffRow(r.metrics, if |r.history| > 100 then r.history[10..] else r.history))
    {
      Interfere(w, others(i));
      var long := ReadLength(w, reply(i));
      if long {
        Interfere(w, others(i + 1));
        RemoveOldest(w, reply(i + 1));
      }
    }

    method ReadLength(w: nat, reply: Reply) returns (long: bool)
      requires w < |workers| && Valid() && workers[w].pc.TrimRead?
      modifies this
      ensures Valid() && trace == old(trace) + [Send(w, reply)] && old(log) <= log
      ensures State() == Step(old(State()), Send(w, reply))
      ensures |workers| == old(|workers|)
      ensures workers[w] == old(workers[w]).(pc := if long then TrimWrite else Done(true))
      ensures long == (reply.Delivered? && row.Some? && |row.value.history| > HISTORY_LIMIT)
      ensures row == old(row) && log == old(log)
    {
      ghost var before := State();
      long := reply.Delivered? && row.Some? && |row.value.history| > HISTORY_LIMIT;
      Goto(w, if long then TrimWrite else Done(true));
      Record(before, Send(w, reply));
    }

    method RemoveOldest(w: nat, reply: Reply)
      requires w < |workers| && Valid() && workers[w].pc.TrimWrite?
      modifies this
      ensures Valid() && trace == old(trace) + [Send(w, reply)] && old(log) <= log
      ensures State() == Step(old(State()), Send(w, reply))
      ensures |workers| == old(|workers|)
      ensures workers[w] == old(workers[w]).(pc := Done(true))
      ensures log == old(log)
      ensures row == if reply.Refused? || old(row).None? then old(row) else Some(DropOldest(old(row).value))
    {
      ghost var before := State();
      if !reply.Refused? && row.Some? {
        var h := row.value.history;
        row := Some(DiffRow(row.value.metrics, if |h| <= TRIM_COUNT then [] else h[TRIM_COUNT..]));
      }
      Goto(w, Done(true));
      Record(before, Send(w, reply));
    }

    /** The worker's record has grown, and nothing that landed is forgotten. */
    twostate predicate Continues()
      reads this
    {
      Valid() && old(trace) <= trace && old(log) <= log && |workers| == old(|workers|)
    }

    /** A conditional update with the trim that follows its success. */
    method UpdateAndTrim(w: nat, others: nat -> seq<Action>, reply: nat -> Reply, i: nat) returns (seen: Seen)
      requires w < |workers| && Valid() && workers[w].pc in {Update, RetryUpdate, RaceUpdate}
      requires ByOthers(others, w)
      modifies this
      ensures Continues()
      ensures workers[w] == old(workers[w]).(pc := match seen
                case Succeeded => Done(true)
                case ConditionFailed => if old(workers[w].pc.Update?) then Disambiguate else Done(true)
                case Threw => Done(false))
      ensures seen == Threw <==> !reply(i).Delivered?
      ensures seen == Succeeded ==> Entry(workers[w].call) in log
      ensures seen == ConditionFailed && !old(workers[w].pc.Update?) ==> LoggedByAnother(log, workers[w].call)
      ensures Quiet(others) && seen == Succeeded ==> log == old(log) + [Entry(workers[w].call)]
      ensures Quiet(others) && seen == ConditionFailed ==> row == old(row) && log == old(log)
      ensures Quiet(others) && reply(i).Delivered? ==>
                (seen == Succeeded <==> CanUpdate(old(row), old(workers[w].call.key)))
    {
      Interfere(w, others(i));
      KnownIsByAnother(w);
      seen := UpdateItem(w, reply(i));
      if seen == Succeeded {
        ghost var landed := log;
        TrimHistory(w, others, reply, i + 1);
        assert log[|landed| - 1] == landed[|landed| - 1];
      }
    }

    /** Step 2's read. */
    method ReadHistory(w: nat, others: nat -> seq<Action>, reply: Reply, i: nat)
      returns (seen: Option<Option<seq<Key>>>)
      requires w < |workers| && Valid() && workers[w].pc.Disambiguate?
      requires ByOthers(others, w)
      modifies this
      ensures Continues()
      ensures workers[w] == old(workers[w]).(pc := match seen
                case None => Done(false)
                case Some(None) => Create
                case Some(Some(h)) => if old(workers[w].call.key) in h then Done(true) else RetryUpdate)
      ensures seen.None? <==> !reply.Delivered?
      ensures workers[w].pc == Done(true) ==> LoggedByAnother(log, workers[w].call)
      ensures Quiet(others) ==> row == old(row) && log == old(log)
      ensures Quiet(others) && reply.Delivered? ==>
                seen == Some(if row.None? then None else Some(row.value.history))
    {
      Interfere(w, others(i));
      KnownIsByAnother(w);
      seen := GetItem(w, reply);
    }

    /** Step 3's conditional put. */
    method CreateRow(w: nat, others: nat -> seq<Action>, reply: Reply, i: nat) returns (seen: Seen)
      requires w < |workers| && Valid() && workers[w].pc.Create?
      requires ByOthers(others, w)
      modifies this
      ensures Continues()
      ensures workers[w] == old(workers[w]).(pc := match seen
                case Succeeded => Done(true)
                case ConditionFailed => RaceUpdate
                case Threw => Done(false))
      ensures seen == Threw <==> !reply.Delivered?
      ensures seen == Succeeded ==> Entry(workers[w].call) in log
      ensures Quiet(others) && seen == Succeeded ==> log == old(log) + [Entry(workers[w].call)]
      ensures Quiet(others) && reply.Delivered? && old(row).None? ==> seen == Succeeded
    {
      Interfere(w, others(i));
      seen := PutItem(w, reply);
    }

    /** Step 3 if there was no row, then the retry that a row calls for. */
    method CreateOrRetry(w: nat, missing: bool, others: nat -> seq<Action>, reply: nat -> Reply) returns (ok: bool)
      requires w < |workers| && Valid() && workers[w].pc == if missing then Create else RetryUpdate
      requires ByOthers(others, w)
      modifies this
      ensures Continues()
      ensures workers[w] == old(workers[w]).(pc := Done(ok))
      ensures reply(2).Delivered? && reply(3).Delivered? ==> ok
      ensures ok ==> Counted(log, workers[w].call)
      ensures Quiet(others) && reply(2).Delivered? && reply(3).Delivered?
              && old(row).None? == missing && (!missing ==> CanUpdate(old(row), old(workers[w].call.key))) ==>
                log == old(log) + [Entry(workers[w].call)]
    {
      var seen := ConditionFailed;
      if missing {
        seen := CreateRow(w, others, reply(2), 2);
      }
      if seen != ConditionFailed {
        ok := seen == Succeeded;
      } else {
        seen := UpdateAndTrim(w, others, reply, 3);
        ok := seen != Threw;
      }
    }

    /** The new call, before its first DynamoDB call. */
    method Start(w: nat, key: Key, metric: Metric, delta: int)
      requires w < |workers| && AtRest(workers[w].pc) && Valid()
      modifies this
      ensures Continues()
      ensures workers[w] == Worker(Update, Call(old(calls), key, metric, delta))
      ensures row == old(row) && log == old(log)
    {
      ghost var before := State();
      workers, calls := workers[w := Worker(Update, Call(calls, key, metric, delta))], calls + 1;
      Record(before, Begin(w, key, metric, delta));
    }

    /**
     One call of `writeDiffMetric` by worker `w`. `others(i)` are the actions of the other workers
     before its i-th DynamoDB call and `reply(i)` is what became of that call. The call fails only if one
     of its own updates, its read or its put was refused or its reply lost; undisturbed, it counts its delta
     exactly if its key is not in the history.
     */
    method WriteDiffMetric(w: nat, key: Key, metric: Metric, delta: int,
                           others: nat -> seq<Action>, reply: nat -> Reply)
      returns (ok: bool)
      requires w < |workers| && AtRest(workers[w].pc) && Valid()
      requires ByOthers(others, w)
      modifies this
      ensures Valid() && old(trace) <= trace && old(log) <= log
      ensures |workers| == old(|workers|)
      ensures workers[w] == Worker(Done(ok), Call(old(calls), key, metric, delta))
      ensures ok ==> Counted(log, Call(old(calls), key, metric, delta))
      ensures (forall i :: 0 <= i < 4 ==> reply(i).Delivered?) ==> ok
      ensures Quiet(others) && (forall i :: 0 <= i < 4 ==> reply(i).Delivered?) ==>
                log == old(log) + (if old(row).Some? && key in old(row).value.history then []
                                   else [Entry(Call(old(calls), key, metric, delta))])
    {
      Start(w, key, metric, delta);
      var seen := UpdateAndTrim(w, others, reply, 0);
      if seen != ConditionFailed {
        ok := seen == Succeeded;
      } else {
        var existing := ReadHistory(w, others, reply(1), 1);
        if existing.None? {
          ok := false;
        } else if existing.value.Some? && key in existing.value.value {
          ok := true;
        } else {
          ok := CreateOrRetry(w, existing.value.None?, others, reply);
        }
      }
    }
  }
}
