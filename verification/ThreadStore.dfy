/**
 Threads of one account in the signals table: the writers that keep the recency index in step with the
 row, and `listThreads`, which reads only `limit + 1` rows per status and must find the newest threads.
 */
module ThreadStore {
  import opened Options
  import opened Text
  import opened Seqs

  datatype Status = Active | Archived | Deleted | ReportViolation

  function Name(s: Status): string {
    match s
    case Active => "active"
    case Archived => "archived"
    case Deleted => "deleted"
    case ReportViolation => "report_violation"
  }

  /** What a put stores; `ttl` is derived from the retention. */
  datatype Thread = Thread(id: string, status: Status, lastSignalAt: string, sender: string, recipient: string,
                           ttl: Option<int>)

  /** A stored item. An update of a missing row leaves one without `gsi1pk`, sender or recipient. */
  datatype Row = Row(id: string, status: Status, lastSignalAt: string, gsi1pk: Option<string>, gsi1sk: string,
                     sender: Option<string>, recipient: Option<string>, ttl: Option<int>)

  function Prefix(s: Status): string {
    "LASTACT#" + Name(s) + "#"
  }

  function IndexKey(s: Status, lastSignalAt: string, id: string): string {
    Prefix(s) + Tail(lastSignalAt, id)
  }

  function Tail(lastSignalAt: string, id: string): string {
    lastSignalAt + ("#" + id)
  }

  // ---------------------------------------------------------------------------
  // The index keys
  // ---------------------------------------------------------------------------

  /** No status name is a prefix of another one up to its `#`. */
  lemma {:induction false} PrefixTellsStatus(a: Status, b: Status, rest: string)
    ensures StartsWith(Prefix(b) + rest, Prefix(a)) <==> a == b
  {
    var s := Prefix(b) + rest;
    if a == b {
      assert s[..|Prefix(a)|] == Prefix(a);
    } else if |Prefix(a)| <= |s| {
      assert s[..|Prefix(a)|][8] == Name(b)[0] && s[..|Prefix(a)|][9] == Name(b)[1];
    }
  }

  /** For timestamps of any widths, key order is recency order: `#` sorts below their characters. */
  lemma {:induction false} KeyOrderIsRecency(s: Status, a: string, x: string, b: string, y: string)
    requires AboveSeparator(a) && AtMost(IndexKey(s, a, x), IndexKey(s, b, y))
    ensures AtMost(a, b)
  {
    BelowTotal(a, b);
    if Below(b, a) {
      BelowSeparated(b, a, y, "#" + x);
      BelowAfter(Prefix(s), Tail(b, y), Tail(a, x));
      BelowTotal(IndexKey(s, a, x), IndexKey(s, b, y));
    }
  }

  // ---------------------------------------------------------------------------
  // Lists of rows
  // ---------------------------------------------------------------------------

  ghost predicate NoDuplicates(rows: seq<Row>) {
    forall i, j :: 0 <= i < j < |rows| ==> rows[i] != rows[j]
  }

  function Elements(rows: seq<Row>): set<Row> {
    set r | r in rows
  }

  lemma {:induction false} ElementsCount(rows: seq<Row>)
    ensures |Elements(rows)| <= |rows|
    ensures NoDuplicates(rows) ==> |Elements(rows)| == |rows|
  {
    if rows != [] {
      var k := |rows| - 1;
      ElementsCount(rows[..k]);
      assert rows == rows[..k] + [rows[k]];
      assert Elements(rows) == Elements(rows[..k]) + {rows[k]};
    } else {
      assert Elements(rows) == {};
    }
  }

  lemma {:induction false} SubsetIsSmaller(a: set<Row>, b: set<Row>)
    requires a <= b
    ensures |a| <= |b|
  {
    if a != {} {
      var x :| x in a;
      SubsetIsSmaller(a - {x}, b - {x});
    }
  }

  ghost predicate NewestFirst(rows: seq<Row>) {
    forall i, j :: 0 <= i < j < |rows| ==> AtMost(rows[j].lastSignalAt, rows[i].lastSignalAt)
  }

  function Insert(r: Row, rows: seq<Row>): seq<Row> {
    if rows == [] || Below(rows[0].lastSignalAt, r.lastSignalAt) then [r] + rows else [rows[0]] + Insert(r, rows[1..])
  }

  /** `items.sort((a, b) => b.lastSignalAt.localeCompare(a.lastSignalAt))` */
  function SortNewestFirst(rows: seq<Row>): seq<Row> {
    if rows == [] then [] else Insert(rows[|rows| - 1], SortNewestFirst(rows[..|rows| - 1]))
  }

  lemma {:induction false} NewestFirstCons(r: Row, rows: seq<Row>)
    requires NewestFirst(rows) && rows != [] && AtMost(rows[0].lastSignalAt, r.lastSignalAt)
    ensures NewestFirst([r] + rows)
  {
    forall j | 0 <= j < |rows| ensures AtMost(rows[j].lastSignalAt, r.lastSignalAt) {
      if rows[0].lastSignalAt != r.lastSignalAt && rows[j].lastSignalAt != rows[0].lastSignalAt {
        BelowTransitive(rows[j].lastSignalAt, rows[0].lastSignalAt, r.lastSignalAt);
      }
    }
  }

  lemma {:induction false} InsertSorted(r: Row, rows: seq<Row>)
    requires NewestFirst(rows)
    ensures NewestFirst(Insert(r, rows)) && multiset(Insert(r, rows)) == multiset(rows) + multiset{r}
  {
    if rows != [] {
      if Below(rows[0].lastSignalAt, r.lastSignalAt) {
        NewestFirstCons(r, rows);
      } else {
        InsertSorted(r, rows[1..]);
        var t := Insert(r, rows[1..]);
        assert rows == [rows[0]] + rows[1..];
        BelowTotal(r.lastSignalAt, rows[0].lastSignalAt);
        assert t != [] && t[0] in multiset(rows[1..]) + multiset{r};
        NewestFirstCons(rows[0], t);
      }
    }
  }

  lemma {:induction false} SortSorted(rows: seq<Row>)
    ensures NewestFirst(SortNewestFirst(rows)) && multiset(SortNewestFirst(rows)) == multiset(rows)
  {
    if rows != [] {
      var k := |rows| - 1;
      var before := rows[..k];
      assert rows == before + [rows[k]];
      SortSorted(before);
      InsertSorted(rows[k], SortNewestFirst(before));
    }
  }

  const MIN_LAST_SIGNAL_AT := "2000-01-01T00:00:00.000Z"

  predicate HasRecentSignal(r: Row) {
    !Below(r.lastSignalAt, MIN_LAST_SIGNAL_AT)
  }

  function Recent(rows: seq<Row>): seq<Row> {
    if rows == [] then []
    else Recent(rows[..|rows| - 1]) + if HasRecentSignal(rows[|rows| - 1]) then [rows[|rows| - 1]] else []
  }

  lemma {:induction false} RecentKeeps(rows: seq<Row>)
    ensures forall r :: r in Recent(rows) <==> r in rows && HasRecentSignal(r)
  {
    if rows != [] {
      RecentKeeps(rows[..|rows| - 1]);
      assert rows == rows[..|rows| - 1] + [rows[|rows| - 1]];
    }
  }

  lemma {:induction false} RecentSorted(rows: seq<Row>)
    requires NewestFirst(rows)
    ensures NewestFirst(Recent(rows))
  {
    if rows != [] {
      var k := |rows| - 1;
      RecentSorted(rows[..k]);
      RecentKeeps(rows[..k]);
      forall i | 0 <= i < |Recent(rows[..k])| ensures AtMost(rows[k].lastSignalAt, Recent(rows[..k])[i].lastSignalAt) {
        assert Recent(rows[..k])[i] in rows[..k];
        var j :| 0 <= j < k && rows[..k][j] == Recent(rows[..k])[i];
        assert rows[j] == rows[..k][j];
      }
    }
  }

  lemma {:induction false} RecentDistinct(rows: seq<Row>)
    requires NoDuplicates(rows)
    ensures NoDuplicates(Recent(rows))
  {
    if rows != [] {
      var k := |rows| - 1;
      RecentDistinct(rows[..k]);
      RecentKeeps(rows[..k]);
      assert rows[k] !in rows[..k];
    }
  }

  // ---------------------------------------------------------------------------
  // The store
  // ---------------------------------------------------------------------------

  /** The rows an index query ranges over. */
  predicate InPartition(r: Row, account: string, s: Status) {
    r.gsi1pk == Some("ACCT#" + account) && StartsWith(r.gsi1sk, Prefix(s))
  }

  /** A descending index query with a limit: the greatest keys, each row once. */
  ghost predicate IsQuery(q: seq<Row>, candidates: set<Row>, n: nat) {
    && NoDuplicates(q) && Elements(q) <= candidates && |q| <= n
    && (forall i, j :: 0 <= i < j < |q| ==> AtMost(q[j].gsi1sk, q[i].gsi1sk))
    && (forall r :: r in candidates && r !in q ==> |q| == n && forall i :: 0 <= i < |q| ==>
        AtMost(r.gsi1sk, q[i].gsi1sk))
  }

  datatype Created = Stored | Reclaimed | Collision | Broken

  class ThreadTable {
    const account: string
    var rows: map<string, Row>

    constructor (account: string)
      ensures Valid() && rows == map[]
    {
      this.account := account;
      rows := map[];
    }

    /** Every row's index key is the one its fields give, and sits in the account's partition or in none. */
    ghost predicate Valid()
      reads this
    {
      forall id :: id in rows ==>
        && rows[id].id == id
        && rows[id].gsi1sk == IndexKey(rows[id].status, rows[id].lastSignalAt, id)
        && (rows[id].gsi1pk == None || rows[id].gsi1pk == Some("ACCT#" + account))
    }

    /** The threads that were put, and so are listed. */
    ghost predicate Listed(r: Row)
      reads this
    {
      r.id in rows && rows[r.id] == r && r.gsi1pk.Some?
    }

    /** `buildThreadItem` */
    function Item(t: Thread): Row {
      Row(t.id, t.status, t.lastSignalAt, Some("ACCT#" + account), IndexKey(t.status, t.lastSignalAt, t.id),
          Some(t.sender), Some(t.recipient), t.ttl)
    }

    /** The row holds the thread, and is listed. */
    ghost predicate Stores(r: Row, t: Thread) {
      && r.id == t.id && r.status == t.status && r.lastSignalAt == t.lastSignalAt && r.ttl == t.ttl
      && r.sender == Some(t.sender) && r.recipient == Some(t.recipient) && r.gsi1pk.Some?
    }

    method SaveThread(t: Thread)
      requires Valid()
      modifies this
      ensures Valid() && rows == old(rows)[t.id := Item(t)]
      ensures Stores(rows[t.id], t)
    {
      rows := rows[t.id := Item(t)];
    }

    /** `createThread`: never overwrites, and reclaims only the same conversation. */
    method CreateThread(t: Thread) returns (r: Created)
      requires Valid()
      modifies this
      ensures Valid()
      ensures t.id !in old(rows) ==> r == Stored && rows == old(rows)[t.id := Item(t)] && Stores(rows[t.id], t)
      ensures t.id in old(rows) ==> rows == old(rows) && r != Stored
      ensures t.id in old(rows) ==>
          (r == Reclaimed <==> rows[t.id].sender == Some(t.sender) && rows[t.id].recipient == Some(t.recipient))
      ensures r == Broken <==> t.id in old(rows) && old(rows)[t.id].sender.None?
    {
      if t.id !in rows {
        rows := rows[t.id := Item(t)];
        return Stored;
      }
      var existing := rows[t.id];
      if existing.sender.None? {
        return Broken;
      }
      if existing.sender == Some(t.sender) && existing.recipient == Some(t.recipient) {
        return Reclaimed;
      }
      return Collision;
    }

    /** `updateThread`: status, recency and index key move together; a missing row comes into being unlisted. */
    method UpdateThread(id: string, status: Status, lastSignalAt: string, sender: Option<string>,
                        recipient: Option<string>)
      requires Valid()
      modifies this
      ensures Valid() && rows.Keys == old(rows.Keys) + {id}
      ensures forall other :: other in old(rows) && other != id ==> rows[other] == old(rows)[other]
      ensures rows[id].status == status && rows[id].lastSignalAt == lastSignalAt
      ensures id in old(rows) ==>
                && rows[id].gsi1pk == old(rows)[id].gsi1pk && rows[id].ttl == old(rows)[id].ttl
                && rows[id].sender == (if sender.Some? then sender else old(rows)[id].sender)
                && rows[id].recipient == (if recipient.Some? then recipient else old(rows)[id].recipient)
      ensures id !in old(rows) ==>
          rows[id].gsi1pk == None && rows[id].sender == sender && rows[id].recipient == recipient
              && rows[id].ttl == None
    {
      var before := if id in rows then rows[id] else Row(id, status, lastSignalAt, None, "", None, None, None);
      var r := SetFields(before, status, lastSignalAt, sender, recipient);
      rows := rows[id := r];
    }

    /** The attributes that the update expression sets. */
    method SetFields(before: Row, status: Status, lastSignalAt: string, sender: Option<string>,
                     recipient: Option<string>)
      returns (r: Row)
      ensures r == Row(before.id, status, lastSignalAt, before.gsi1pk, IndexKey(status, lastSignalAt, before.id),
                       if sender.Some? then sender else before.sender,
                       if recipient.Some? then recipient else before.recipient, before.ttl)
    {
      r := before.(status := status, lastSignalAt := lastSignalAt, gsi1sk := IndexKey(status, lastSignalAt, before.id));
      if sender.Some? {
        r := r.(sender := sender);
      }
      if recipient.Some? {
        r := r.(recipient := recipient);
      }
    }

    /** `setThreadTtlFallback`: only an existing row, and only one without a ttl. */
    method SetThreadTtlFallback(id: string, fallback: int)
      requires Valid()
      modifies this
      ensures Valid() && rows.Keys == old(rows.Keys)
      ensures forall other :: other in rows && other != id ==> rows[other] == old(rows)[other]
      ensures id in rows ==>
          rows[id] == old(rows)[id].(ttl := if old(rows)[id].ttl.Some? then old(rows)[id].ttl else Some(fallback))
    {
      if id in rows && rows[id].ttl.None? {
        rows := rows[id := rows[id].(ttl := Some(fallback))];
      }
    }

    function Candidates(s: Status): set<Row>
      reads this
    {
      set id | id in rows && InPartition(rows[id], account, s) :: rows[id]
    }

    /** The index serves rows by descending key. */
    method Query(s: Status, n: nat) returns (q: seq<Row>)
      ensures IsQuery(q, Candidates(s), n)
    {
      var all := Candidates(s);
      var left := all;
      q := [];
      while left != {} && |q| < n
        invariant NoDuplicates(q) && |q| <= n
        invariant left <= all && Elements(q) == all - left
        invariant forall i, j :: 0 <= i < j < |q| ==> AtMost(q[j].gsi1sk, q[i].gsi1sk)
        invariant forall r, i :: r in left && 0 <= i < |q| ==> AtMost(r.gsi1sk, q[i].gsi1sk)
        decreases left
      {
        var top := Greatest(left);
        assert top !in q by {
          assert top !in Elements(q);
        }
        assert Elements(q + [top]) == Elements(q) + {top};
        q := q + [top];
        left := left - {top};
      }
      forall r | r in all && r !in q ensures r in left {
        assert r !in Elements(q);
      }
    }

    /** `listThreads` without workflow, label or cursor; `status` is the optional status filter. */
    method ListThreads(limit: Option<nat>, status: Option<Status>) returns (page: seq<Row>)
      requires Valid()
      requires forall id :: id in rows ==> AboveSeparator(rows[id].lastSignalAt)
      ensures NoDuplicates(page) && NewestFirst(page)
      ensures ShowsNewest(page, status, if limit.None? then 20 else if limit.value < 100 then limit.value else 100)
    {
      var n := PageSize(limit);
      var items;
      if status.Some? {
        items := Query(status.value, n + 1);
        OneQuery(items, status.value, n + 1);
      } else {
        var active := Query(Active, n + 1);
        var archived := Query(Archived, n + 1);
        var deleted := Query(Deleted, n + 1);
        items := SortNewestFirst(active + archived + deleted);
        MergedQueries(active, archived, deleted, n + 1);
      }
      var recent := Recent(items);
      page := if |recent| <= n then recent else recent[..n];
      PageIsNewest(items, page, Wanted(status), n);
      PageShows(page, status, n);
    }

    /** At most `n` threads that are to be shown; one that is missing is no newer than any, and the page is full. */
    ghost predicate ShowsNewest(page: seq<Row>, status: Option<Status>, n: nat)
      reads this
    {
      && |page| <= n && (forall r :: r in page ==> Shown(r, status))
      && forall t :: Shown(t, status) && t !in page ==>
           |page| == n && forall r :: r in page ==> AtMost(t.lastSignalAt, r.lastSignalAt)
    }

    lemma {:induction false} ShownIff(r: Row, status: Option<Status>)
      ensures Shown(r, status) <==> Listed(r) && r.status in Wanted(status) && HasRecentSignal(r)
    {
    }

    lemma {:induction false} PageShows(page: seq<Row>, status: Option<Status>, n: nat)
      requires |page| <= n
      requires forall r :: r in page ==> Listed(r) && r.status in Wanted(status) && HasRecentSignal(r)
      requires forall t :: Listed(t) && t.status in Wanted(status) && HasRecentSignal(t) && t !in page ==>
                 |page| == n && forall r :: r in page ==> AtMost(t.lastSignalAt, r.lastSignalAt)
      ensures ShowsNewest(page, status, n)
    {
      forall r ensures Shown(r, status) <==> Listed(r) && r.status in Wanted(status) && HasRecentSignal(r) {
        ShownIff(r, status);
      }
    }

    /** A listed thread of the status asked for, else of any but a report, with a signal since the year 2000. */
    ghost predicate Shown(r: Row, status: Option<Status>)
      reads this
    {
      && Listed(r) && (if status.Some? then r.status == status.value else r.status != ReportViolation)
      && !Below(r.lastSignalAt, "2000-01-01T00:00:00.000Z")
    }

    /** The rows read so far: sorted, once each, and per status all rows or `n` of the newest. */
    ghost predicate Covers(items: seq<Row>, wanted: set<Status>, n: nat)
      reads this
    {
      && NoDuplicates(items) && NewestFirst(items)
      && (forall r :: r in items ==> Listed(r) && r.status in wanted)
      && (forall t :: Listed(t) && t.status in wanted && t !in items ==> CutOff(items, t, n))
    }

    /** `n` rows on the list are at least as recent as the missing one. */
    ghost predicate CutOff(items: seq<Row>, t: Row, n: nat) {
      exists q: seq<Row> :: NoDuplicates(q) && |q| == n && AtLeast(q, items, t)
    }

    ghost predicate AtLeast(q: seq<Row>, items: seq<Row>, t: Row) {
      forall r :: r in q ==> r in items && AtMost(t.lastSignalAt, r.lastSignalAt)
    }

    lemma {:induction false} PartitionIsStatus(r: Row, s: Status)
      requires Valid() && r.id in rows && rows[r.id] == r
      ensures r in Candidates(s) <==> Listed(r) && r.status == s
    {
      PrefixTellsStatus(s, r.status, Tail(r.lastSignalAt, r.id));
    }

    /** Rows of one status, once each; a missing one is no newer than `n` that are there. */
    ghost predicate Answers(q: seq<Row>, s: Status, n: nat)
      reads this
    {
      && NoDuplicates(q)
      && (forall r :: r in q ==> Listed(r) && r.status == s)
      && forall t :: Listed(t) && t.status == s && t !in q ==> |q| == n && AtLeast(q, q, t)
    }

    lemma {:induction false} QueryFacts(q: seq<Row>, s: Status, n: nat)
      requires Valid() && IsQuery(q, Candidates(s), n)
      requires forall id :: id in rows ==> AboveSeparator(rows[id].lastSignalAt)
      ensures NewestFirst(q) && Answers(q, s, n)
    {
      forall r | r in q ensures Listed(r) && r.status == s {
        assert r in Elements(q);
        assert r in Candidates(s);
        PartitionIsStatus(r, s);
      }
      forall i, j | 0 <= i < j < |q| ensures AtMost(q[j].lastSignalAt, q[i].lastSignalAt) {
        assert q[i] in q && q[j] in q;
        KeyOrderIsRecency(s, q[j].lastSignalAt, q[j].id, q[i].lastSignalAt, q[i].id);
      }
      forall t | Listed(t) && t.status == s && t !in q ensures |q| == n && AtLeast(q, q, t) {
        PartitionIsStatus(t, s);
        forall r | r in q ensures AtMost(t.lastSignalAt, r.lastSignalAt) {
          var i :| 0 <= i < |q| && q[i] == r;
          KeyOrderIsRecency(s, t.lastSignalAt, t.id, r.lastSignalAt, r.id);
        }
      }
    }

    lemma {:induction false} OneQuery(q: seq<Row>, s: Status, n: nat)
      requires Valid() && IsQuery(q, Candidates(s), n)
      requires forall id :: id in rows ==> AboveSeparator(rows[id].lastSignalAt)
      ensures Covers(q, {s}, n)
    {
      QueryFacts(q, s, n);
    }

    lemma {:induction false} MergedQueries(a: seq<Row>, b: seq<Row>, c: seq<Row>, n: nat)
      requires Valid()
      requires IsQuery(a, Candidates(Active), n) && IsQuery(b, Candidates(Archived), n)
          && IsQuery(c, Candidates(Deleted), n)
      requires forall id :: id in rows ==> AboveSeparator(rows[id].lastSignalAt)
      ensures Covers(SortNewestFirst(a + b + c), {Active, Archived, Deleted}, n)
    {
      QueryFacts(a, Active, n);
      QueryFacts(b, Archived, n);
      QueryFacts(c, Deleted, n);
      MergedCovers(a, b, c, n);
    }

    lemma {:induction false} MergedCovers(a: seq<Row>, b: seq<Row>, c: seq<Row>, n: nat)
      requires Answers(a, Active, n) && Answers(b, Archived, n) && Answers(c, Deleted, n)
      ensures Covers(SortNewestFirst(a + b + c), {Active, Archived, Deleted}, n)
    {
      MergedRows(a, b, c, n);
      var items := SortNewestFirst(a + b + c);
      forall t | Listed(t) && t.status in {Active, Archived, Deleted} && t !in items ensures CutOff(items, t, n) {
        var q := match t.status case Active => a case Archived => b case _ => c;
      }
    }

    lemma {:induction false} MergedRows(a: seq<Row>, b: seq<Row>, c: seq<Row>, n: nat)
      requires Answers(a, Active, n) && Answers(b, Archived, n) && Answers(c, Deleted, n)
      ensures var items := SortNewestFirst(a + b + c);
              && NoDuplicates(items) && NewestFirst(items)
              && forall r :: r in items <==> r in a + b + c
    {
      var all := a + b + c;
      JoinDistinct(a, b);
      JoinDistinct(a + b, c);
      SortSorted(all);
      SameMembers(all, SortNewestFirst(all));
      DistinctPermute(all, SortNewestFirst(all));
    }

    lemma {:induction false} PageIsNewest(items: seq<Row>, page: seq<Row>, wanted: set<Status>, n: nat)
      requires Covers(items, wanted, n + 1)
      requires page == if |Recent(items)| <= n then Recent(items) else Recent(items)[..n]
      ensures |page| <= n && NoDuplicates(page) && NewestFirst(page)
      ensures forall r :: r in page ==> Listed(r) && r.status in wanted && HasRecentSignal(r)
      ensures forall t :: Listed(t) && t.status in wanted && HasRecentSignal(t) && t !in page ==>
                |page| == n && forall r :: r in page ==> AtMost(t.lastSignalAt, r.lastSignalAt)
    {
      var recent := Recent(items);
      RecentKeeps(items);
      RecentSorted(items);
      RecentDistinct(items);
      forall t | Listed(t) && t.status in wanted && HasRecentSignal(t) && t !in page
        ensures |page| == n && forall r :: r in page ==> AtMost(t.lastSignalAt, r.lastSignalAt)
      {
        if t in items {
          var k :| 0 <= k < |recent| && recent[k] == t;
        } else {
          var q :| NoDuplicates(q) && |q| == n + 1 && AtLeast(q, items, t);
          EnoughNewer(recent, q, t, n) by {
            forall r | r in q ensures r in recent && AtMost(t.lastSignalAt, r.lastSignalAt) {
              RecentUp(t, r);
            }
          }
        }
      }
    }
  }

  function PageSize(limit: Option<nat>): nat {
    var n := if limit.Some? then limit.value else 20;
    if n < 100 then n else 100
  }

  function Wanted(status: Option<Status>): set<Status> {
    if status.Some? then {status.value} else {Active, Archived, Deleted}
  }

  method Greatest(rows: set<Row>) returns (top: Row)
    requires rows != {}
    ensures top in rows && forall r :: r in rows ==> AtMost(r.gsi1sk, top.gsi1sk)
  {
    var left := rows;
    top :| top in left;
    left := left - {top};
    while left != {}
      invariant left <= rows && top in rows
      invariant forall r :: r in rows - left ==> AtMost(r.gsi1sk, top.gsi1sk)
      decreases left
    {
      var r :| r in left;
      if Below(top.gsi1sk, r.gsi1sk) {
        forall x | x in rows - left ensures AtMost(x.gsi1sk, r.gsi1sk) {
          if x.gsi1sk != top.gsi1sk {
            BelowTransitive(x.gsi1sk, top.gsi1sk, r.gsi1sk);
          }
        }
        top := r;
      } else {
        BelowTotal(top.gsi1sk, r.gsi1sk);
      }
      left := left - {r};
    }
  }

  lemma {:induction false} SameMembers(a: seq<Row>, b: seq<Row>)
    requires multiset(a) == multiset(b)
    ensures forall r :: r in a <==> r in b
  {
    forall r ensures r in a <==> r in b {
      assert r in a <==> r in multiset(a);
      assert r in b <==> r in multiset(b);
    }
  }

  lemma {:induction false} JoinDistinct(a: seq<Row>, b: seq<Row>)
    requires NoDuplicates(a) && NoDuplicates(b) && forall r :: r in a ==> r !in b
    ensures NoDuplicates(a + b)
    ensures forall r :: r in a + b <==> r in a || r in b
  {
    forall i, j | 0 <= i < j < |a + b| ensures (a + b)[i] != (a + b)[j] {
      if i < |a| && j >= |a| {
        assert a[i] in a && b[j - |a|] in b;
      }
    }
  }

  lemma {:induction false} NoDuplicatesCount(rows: seq<Row>)
    ensures NoDuplicates(rows) <==> forall r :: multiset(rows)[r] <= 1
  {
    if rows != [] {
      var k := |rows| - 1;
      var init, last := rows[..k], rows[k];
      NoDuplicatesCount(init);
      assert rows == init + [last];
      assert NoDuplicates(rows) <==> NoDuplicates(init) && last !in init by {
        if last in init {
          var i :| 0 <= i < k && init[i] == last;
          assert rows[i] == rows[k];
        }
        if NoDuplicates(rows) {
          forall i, j | 0 <= i < j < k ensures init[i] != init[j] {
            assert rows[i] != rows[j];
          }
        }
      }
      assert last in init <==> last in multiset(init);
      assert forall r :: multiset(rows)[r] == multiset(init)[r] + if r == last then 1 else 0;
    }
  }

  lemma {:induction false} DistinctPermute(a: seq<Row>, b: seq<Row>)
    requires multiset(a) == multiset(b) && NoDuplicates(a)
    ensures NoDuplicates(b)
  {
    NoDuplicatesCount(a);
    NoDuplicatesCount(b);
  }

  /** Something at least as recent as a recent thread is recent. */
  lemma {:induction false} RecentUp(t: Row, r: Row)
    requires HasRecentSignal(t) && AtMost(t.lastSignalAt, r.lastSignalAt)
    ensures HasRecentSignal(r)
  {
    if Below(r.lastSignalAt, MIN_LAST_SIGNAL_AT) && t.lastSignalAt != r.lastSignalAt {
      BelowTransitive(t.lastSignalAt, r.lastSignalAt, MIN_LAST_SIGNAL_AT);
    }
  }

  /** Of a sorted list with `n + 1` rows at least as recent as `t`, the first `n` all are. */
  lemma {:induction false} EnoughNewer(recent: seq<Row>, q: seq<Row>, t: Row, n: nat)
    requires NewestFirst(recent) && NoDuplicates(q) && |q| == n + 1
    requires forall r :: r in q ==> r in recent && AtMost(t.lastSignalAt, r.lastSignalAt)
    ensures |recent| > n && forall r :: r in recent[..n] ==> AtMost(t.lastSignalAt, r.lastSignalAt)
  {
    ElementsCount(q);
    ElementsCount(recent);
    SubsetIsSmaller(Elements(q), Elements(recent));
    forall i | 0 <= i < n ensures AtMost(t.lastSignalAt, recent[i].lastSignalAt) {
      BelowTotal(t.lastSignalAt, recent[i].lastSignalAt);
      if Below(recent[i].lastSignalAt, t.lastSignalAt) {
        forall r | r in q ensures r in recent[..i] {
          var k :| 0 <= k < |recent| && recent[k] == r;
          OlderThanOlder(recent, i, k, t.lastSignalAt);
          assert recent[..i][k] == r;
        }
        ElementsCount(recent[..i]);
        SubsetIsSmaller(Elements(q), Elements(recent[..i]));
      }
    }
  }

  lemma {:induction false} OlderThanOlder(recent: seq<Row>, i: nat, k: nat, time: string)
    requires NewestFirst(recent) && i < |recent| && k < |recent|
    requires Below(recent[i].lastSignalAt, time) && AtMost(time, recent[k].lastSignalAt)
    ensures k < i
  {
    if k >= i {
      var a, b := recent[i].lastSignalAt, recent[k].lastSignalAt;
      assert AtMost(b, a);
      if time != b {
        BelowTransitive(a, time, b);
      }
      BelowTotal(a, b);
      BelowIrreflexive(a);
    }
  }
}
