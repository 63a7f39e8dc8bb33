/**
 Signals of one account in the signals table, `thread-database.ts`. Every stored signal is listed in one
 index partition: its thread, QUARANTINED or BLOCKED. The partition is derived state; here is exactly
 when each writer leaves it equal to what `signalItem` computes from the row's fields.
 */
module SignalStore {
  import opened Options
  import opened Text

  datatype Status =
    | Active | BlockHidden | BlockReject | ReportViolation
    | QuarantineVisible | QuarantineHidden | Draft | PendingSend | Sent

  predicate IsQuarantined(s: Status) {
    s.QuarantineVisible? || s.QuarantineHidden?
  }

  /** `payload` stands for everything no key depends on. */
  datatype Signal = Signal(id: string, lookupId: string, threadId: Option<string>, status: Status, payload: string)

  /** A stored item; an update of a missing row leaves the attributes it did not set absent. */
  datatype Row = Row(id: Option<string>, threadId: Option<string>, status: Option<Status>, payload: Option<string>,
                     gsi1pk: Option<string>, gsi1sk: Option<string>)

  // ---------------------------------------------------------------------------
  // Partitions
  // ---------------------------------------------------------------------------

  function ThreadPk(account: string, thread: string): string {
    "ACCT#" + account + "#ARC#" + thread
  }

  function Quarantined(account: string): string {
    "ACCT#" + account + "#QUARANTINED"
  }

  function Blocked(account: string): string {
    "ACCT#" + account + "#BLOCKED"
  }

  /** A thread id counts when it is present and not empty. */
  predicate HasThread(threadId: Option<string>) {
    threadId.Some? && threadId.value != ""
  }

  /** What `signalItem` computes. */
  function PartitionOf(account: string, threadId: Option<string>, status: Option<Status>): string {
    if HasThread(threadId) then ThreadPk(account, threadId.value)
    else if status.Some? && IsQuarantined(status.value) then Quarantined(account)
    else Blocked(account)
  }

  lemma {:induction false} PartitionsDiffer(account: string, a: string, b: string)
    ensures ThreadPk(account, a) != Quarantined(account) && ThreadPk(account, a) != Blocked(account)
    ensures Quarantined(account) != Blocked(account)
    ensures ThreadPk(account, a) == ThreadPk(account, b) ==> a == b
  {
    var k := |"ACCT#" + account|;
    assert ThreadPk(account, a)[k + 1] == 'A' && Quarantined(account)[k + 1] == 'Q' && Blocked(account)[k + 1] == 'B';
    assert ThreadPk(account, a)[k + 5..] == a && ThreadPk(account, b)[k + 5..] == b;
  }

  /** The row is where its own fields say. */
  predicate InPlace(account: string, r: Row) {
    r.gsi1pk == Some(PartitionOf(account, r.threadId, r.status))
  }

  function SignalItem(account: string, s: Signal): Row {
    Row(Some(s.id), s.threadId, Some(s.status), Some(s.payload),
        Some(PartitionOf(account, s.threadId, Some(s.status))), Some(s.id))
  }

  const NO_ROW := Row(None, None, None, None, None, None)

  // ---------------------------------------------------------------------------
  // The writers, as changes of one row
  // ---------------------------------------------------------------------------

  datatype Write =
    | Save(signal: Signal)                                            // saveSignal
    | Block(status: Status)                                           // updateSignalStatus
    | Unblock(thread: string)                                         // unblockSignal
    | Edit(draft: Option<string>)                                     // updateSignal, with or without data fields
    | Rsvp(payload: string)                                           // setCalendarEventRsvp
    | SendStatus(status: Status, threadId: Option<string>, data: Option<string>)  // updateSignalSendStatus
    | Delete                                                          // deleteSignal

  /** The statuses the writers' types admit. */
  predicate Admits(w: Write) {
    match w
    case Block(s) => s.BlockHidden? || s.BlockReject? || s.ReportViolation?
    case SendStatus(s, _, _) => s.PendingSend? || s.Sent? || s.Draft?
    case _ => true
  }

  /** Whether an update of paths inside `data` can succeed: the row exists and has its data. */
  predicate HasData(before: Option<Row>) {
    before.Some? && before.value.payload.Some?
  }

  /**
   The row after a write. An update of paths inside `data` fails without them; an update of top-level
   attributes alone creates a missing row. A send-status update that touches no data is refused, because
   it declares a placeholder it does not use.
   */
  function Apply(account: string, before: Option<Row>, w: Write): Option<Row> {
    var r := if before.Some? then before.value else NO_ROW;
    match w
    case Save(s) => Some(SignalItem(account, s))
    case Block(s) => Some(r.(status := Some(s), gsi1pk := Some(Blocked(account))))
    case Unblock(t) => Some(r.(threadId := Some(t), status := Some(Active), gsi1pk := Some(ThreadPk(account, t))))
    case Edit(None) => Some(r)
    case Edit(Some(p)) => if HasData(before) then Some(r.(payload := Some(p))) else before
    case Rsvp(p) => if HasData(before) then Some(r.(payload := Some(p))) else before
    case SendStatus(s, t, p) =>
      if HasData(before) && p.Some?
      then Some(r.(status := Some(s), threadId := if t.Some? then t else r.threadId, payload := p))
      else before
    case Delete => None
  }

  /** An unthreaded row in the quarantine partition. */
  predicate WaitsInQuarantine(r: Row) {
    !HasThread(r.threadId) && r.status.Some? && IsQuarantined(r.status.value)
  }

  /** What a caller can check before a write, so that it keeps the row in place. */
  predicate Keeps(before: Option<Row>, w: Write) {
    match w
    case Block(_) => before.None? || !HasThread(before.value.threadId)
    case Unblock(t) => t != ""
    case Edit(p) => before.Some? || p.Some?
    case SendStatus(_, t, p) =>
      HasData(before) && p.Some? ==>
        && !WaitsInQuarantine(before.value)
        && (t.None? || t == before.value.threadId || (!HasThread(t) && !HasThread(before.value.threadId)))
    case _ => true
  }

  ghost predicate StoredInPlace(account: string, r: Option<Row>) {
    r.Some? ==> InPlace(account, r.value)
  }

  /** Each write leaves a row that was in place in place exactly under its condition. */
  lemma {:induction false} KeepsInPlaceIff(account: string, before: Option<Row>, w: Write)
    requires Admits(w) && StoredInPlace(account, before)
    ensures StoredInPlace(account, Apply(account, before, w)) <==> Keeps(before, w)
  {
    var oldThread := if before.Some? && before.value.threadId.Some? then before.value.threadId.value else "";
    var newThread := if w.SendStatus? && w.threadId.Some? then w.threadId.value else if w.Unblock? then w.thread
        else "";
    PartitionsDiffer(account, oldThread, newThread);
    PartitionsDiffer(account, newThread, oldThread);
  }

  // ---------------------------------------------------------------------------
  // Runs
  // ---------------------------------------------------------------------------

  type Rows = map<string, Row>

  datatype Operation = Operation(lookupId: string, write: Write)

  function Find(rows: Rows, lookupId: string): Option<Row> {
    if lookupId in rows then Some(rows[lookupId]) else None
  }

  /** What an unconditional update starts from. */
  function Known(rows: Rows, lookupId: string): Row {
    if lookupId in rows then rows[lookupId] else NO_ROW
  }

  function Put(rows: Rows, lookupId: string, r: Option<Row>): Rows {
    match r
    case Some(row) => rows[lookupId := row]
    case None => rows - {lookupId}
  }

  function Step(account: string, rows: Rows, op: Operation): Rows {
    Put(rows, op.lookupId, Apply(account, Find(rows, op.lookupId), op.write))
  }

  function Run(account: string, rows: Rows, ops: seq<Operation>): Rows
    decreases |ops|
  {
    if ops == [] then rows else Run(account, Step(account, rows, ops[0]), ops[1..])
  }

  /** Every write meets its condition when its turn comes. */
  predicate Careful(account: string, rows: Rows, ops: seq<Operation>)
    decreases |ops|
  {
    ops == [] ||
    (&& Admits(ops[0].write) && Keeps(Find(rows, ops[0].lookupId), ops[0].write)
     && Careful(account, Step(account, rows, ops[0]), ops[1..]))
  }

  ghost predicate AllInPlace(account: string, rows: Rows) {
    forall id :: id in rows ==> InPlace(account, rows[id])
  }

  /** Over every careful run each stored signal sits in the one partition its fields give. */
  lemma {:induction false} RunInPlace(account: string, rows: Rows, ops: seq<Operation>)
    requires AllInPlace(account, rows) && Careful(account, rows, ops)
    ensures AllInPlace(account, Run(account, rows, ops))
    decreases |ops|
  {
    if ops != [] {
      RunInPlace(account, Step(account, rows, ops[0]), ops[1..]);
    }
  }

  /** A careless write spoils it: blocking a threaded signal hides it from its thread. */
  lemma {:induction false} BlockingThreadedSignalMisplaces(account: string, s: Signal)
    requires HasThread(s.threadId)
    ensures !InPlace(account, Apply(account, Some(SignalItem(account, s)), Block(BlockHidden)).value)
  {
    PartitionsDiffer(account, s.threadId.value, "");
  }

  /** The rows an index query over a partition finds: those that have both index keys. */
  function Listed(rows: Rows, partition: string): set<string> {
    set id | id in rows && rows[id].gsi1pk == Some(partition) && rows[id].gsi1sk.Some?
  }

  /** The rows that were saved as signals, not left behind by an update of a missing row. */
  function Signals(rows: Rows): set<string> {
    set id | id in rows && rows[id].gsi1sk.Some?
  }

  /** With every row in place the three listings sort the signals by their fields. */
  lemma {:induction false} ListingsByFields(account: string, rows: Rows, thread: string)
    requires AllInPlace(account, rows) && thread != ""
    ensures Listed(rows, ThreadPk(account, thread)) == set id | id in Signals(rows) && rows[id].threadId == Some(thread)
    ensures Listed(rows, Quarantined(account)) == set id | id in Signals(rows) && WaitsInQuarantine(rows[id])
    ensures Listed(rows, Blocked(account))
         == set id | id in Signals(rows) && !HasThread(rows[id].threadId) && !WaitsInQuarantine(rows[id])
  {
    forall id | id in rows
      ensures rows[id].gsi1pk == Some(ThreadPk(account, thread)) <==> rows[id].threadId == Some(thread)
      ensures rows[id].gsi1pk == Some(Quarantined(account)) <==> WaitsInQuarantine(rows[id])
      ensures rows[id].gsi1pk == Some(Blocked(account)) <==>
          !HasThread(rows[id].threadId) && !WaitsInQuarantine(rows[id])
    {
      var own := if rows[id].threadId.Some? then rows[id].threadId.value else "";
      PartitionsDiffer(account, thread, own);
      PartitionsDiffer(account, own, thread);
    }
  }

  // ---------------------------------------------------------------------------
  // The table
  // ---------------------------------------------------------------------------

  /** The stored signals of one account. Each method is one conditional or unconditional DynamoDB write. */
  class SignalTable {
    const account: string
    var rows: Rows

    constructor (account: string)
      ensures rows == map[] && this.account == account
    {
      this.account := account;
      rows := map[];
    }

    method SaveSignal(s: Signal)
      modifies this
      ensures rows == Step(account, old(rows), Operation(s.lookupId, Save(s)))
      ensures rows == old(rows)[s.lookupId := Row(Some(s.id), s.threadId, Some(s.status), Some(s.payload),
                                                  Some(PartitionOf(account, s.threadId, Some(s.status))), Some(s.id))]
    {
      var gsi1pk;
      if HasThread(s.threadId) {
        gsi1pk := ThreadPk(account, s.threadId.value);
      } else if s.status == QuarantineVisible || s.status == QuarantineHidden {
        gsi1pk := Quarantined(account);
      } else {
        gsi1pk := Blocked(account);
      }
      rows := rows[s.lookupId := Row(Some(s.id), s.threadId, Some(s.status), Some(s.payload), Some(gsi1pk),
          Some(s.id))];
    }

    method UpdateSignalStatus(lookupId: string, status: Status)
      requires Admits(Block(status))
      modifies this
      ensures rows == Step(account, old(rows), Operation(lookupId, Block(status)))
      ensures var was := Known(old(rows), lookupId);
              rows == old(rows)[lookupId := Row(was.id, was.threadId, Some(status), was.payload,
                                                Some(Blocked(account)), was.gsi1sk)]
    {
      var r := if lookupId in rows then rows[lookupId] else NO_ROW;
      rows := rows[lookupId := r.(status := Some(status), gsi1pk := Some("ACCT#" + account + "#BLOCKED"))];
    }

    method UnblockSignal(lookupId: string, thread: string)
      modifies this
      ensures rows == Step(account, old(rows), Operation(lookupId, Unblock(thread)))
      ensures var was := Known(old(rows), lookupId);
              rows == old(rows)[lookupId := Row(was.id, Some(thread), Some(Active), was.payload,
                                                Some(ThreadPk(account, thread)), was.gsi1sk)]
    {
      var r := if lookupId in rows then rows[lookupId] else NO_ROW;
      rows := rows[lookupId := r.(threadId := Some(thread), status := Some(Active),
          gsi1pk := Some(ThreadPk(account, thread)))];
    }

    /** Fails, changing nothing, when it sets data that is not there. */
    method UpdateSignal(lookupId: string, draft: Option<string>) returns (ok: bool)
      modifies this
      ensures rows == Step(account, old(rows), Operation(lookupId, Edit(draft)))
      ensures ok <==> draft.None? || HasData(Find(old(rows), lookupId))
      ensures !ok ==> rows == old(rows)
      ensures ok ==>
                var was := Known(old(rows), lookupId);
                rows == old(rows)[lookupId := was.(payload := if draft.Some? then draft else was.payload)]
    {
      ok := draft.None? || (lookupId in rows && rows[lookupId].payload.Some?);
      if ok {
        var r := if lookupId in rows then rows[lookupId] else NO_ROW;
        rows := rows[lookupId := if draft.Some? then r.(payload := draft) else r];
      } else {
      }
    }

    method SetCalendarEventRsvp(lookupId: string, payload: string) returns (ok: bool)
      modifies this
      ensures rows == Step(account, old(rows), Operation(lookupId, Rsvp(payload)))
      ensures ok <==> HasData(Find(old(rows), lookupId))
      ensures !ok ==> rows == old(rows)
      ensures ok ==> rows == old(rows)[lookupId := old(rows)[lookupId].(payload := Some(payload))]
    {
      ok := lookupId in rows && rows[lookupId].payload.Some?;
      if ok {
        rows := rows[lookupId := rows[lookupId].(payload := Some(payload))];
      } else {
      }
    }

    method UpdateSignalSendStatus(lookupId: string, status: Status, threadId: Option<string>, data: Option<string>)
      returns (ok: bool)
      requires Admits(SendStatus(status, threadId, data))
      modifies this
      ensures rows == Step(account, old(rows), Operation(lookupId, SendStatus(status, threadId, data)))
      ensures ok <==> HasData(Find(old(rows), lookupId)) && data.Some?
      ensures !ok ==> rows == old(rows)
      ensures ok ==>
                var was := old(rows)[lookupId];
                rows == old(rows)[lookupId := Row(was.id, if threadId.Some? then threadId else was.threadId,
                                                  Some(status), data, was.gsi1pk, was.gsi1sk)]
    {
      ok := lookupId in rows && rows[lookupId].payload.Some? && data.Some?;
      if ok {
        var r := rows[lookupId].(status := Some(status), payload := data);
        if threadId.Some? {
          r := r.(threadId := threadId);
        }
        rows := rows[lookupId := r];
      } else {
      }
    }

    method DeleteSignal(lookupId: string)
      modifies this
      ensures rows == Step(account, old(rows), Operation(lookupId, Delete))
      ensures rows == old(rows) - {lookupId}
    {
      rows := rows - {lookupId};
    }
  }
}
