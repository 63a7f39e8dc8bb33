/**
 Read-time collapse of calendar signals, `calendar-collapse.ts`: one card per event, showing its latest
 revision. Revisions of one UID are ordered by SEQUENCE (RFC 5546, sections 2.1.4 and 2.1.5), then by
 arrival.
 */
module CalendarCollapse {
  import opened Options
  import opened Text
  import opened Seqs

  datatype Field = Title | Description | StartTime | EndTime | Location

  const DIFFED_FIELDS := [Title, Description, StartTime, EndTime, Location]

  datatype Data = Data(title: string, description: Option<string>, startTime: string, endTime: Option<string>,
                       location: Option<string>, organizer: string, uid: string, itip: string, sequence: int)

  datatype Signal = Signal(id: string, createdAt: string, data: Data)

  /** The changed fields with their earlier values. */
  datatype Previous = Previous(changedAt: string, values: map<Field, string>)

  datatype Enrichment = Enrichment(rsvpable: bool, cancelledAt: Option<string>, previousValues: Option<Previous>)

  datatype Reason = UpdateWithoutPrior | CancellationWithoutPrior

  datatype Orphan = Orphan(uid: string, signalId: string, itip: string, sequence: int, reason: Reason)

  function Get(d: Data, f: Field): Option<string> {
    match f
    case Title => Some(d.title)
    case Description => d.description
    case StartTime => Some(d.startTime)
    case EndTime => d.endTime
    case Location => d.location
  }

  // ---------------------------------------------------------------------------
  // Differences
  // ---------------------------------------------------------------------------

  predicate Differs(prior: Data, current: Data, f: Field) {
    Get(prior, f).Some? && Get(prior, f) != Get(current, f)
  }

  function Difference(prior: Data, current: Data): map<Field, string> {
    map f: Field | f in DIFFED_FIELDS && Differs(prior, current, f) :: Get(prior, f).value
  }

  method DiffPreviousValues(prior: Data, current: Data, changedAt: string) returns (previous: Option<Previous>)
    ensures previous == PreviousValues(prior, current, changedAt)
  {
    var values: map<Field, string> := map[];
    var changed := false;
    for i := 0 to |DIFFED_FIELDS|
      invariant values == map f: Field | f in DIFFED_FIELDS[..i] && Differs(prior, current, f) :: Get(prior, f).value
      invariant changed <==> values != map[]
    {
      var f := DIFFED_FIELDS[i];
      assert DIFFED_FIELDS[..i + 1] == DIFFED_FIELDS[..i] + [f];
      var priorValue := Get(prior, f);
      if priorValue.Some? && priorValue != Get(current, f) {
        values := values[f := priorValue.value];
        changed := true;
        assert f in values;
      }
    }
    assert DIFFED_FIELDS[..|DIFFED_FIELDS|] == DIFFED_FIELDS;
    previous := if changed then Some(Previous(changedAt, values)) else None;
  }

  function PreviousValues(prior: Data, current: Data, changedAt: string): Option<Previous> {
    if Difference(prior, current) == map[] then None else Some(Previous(changedAt, Difference(prior, current)))
  }

  /** What the client shows for a field before the change. */
  function Overlaid(previous: Option<Previous>, current: Data, f: Field): Option<string> {
    if previous.Some? && f in previous.value.values then Some(previous.value.values[f]) else Get(current, f)
  }

  lemma EveryFieldListed(f: Field)
    ensures f in DIFFED_FIELDS
  {
    assert DIFFED_FIELDS[0] == Title && DIFFED_FIELDS[1] == Description && DIFFED_FIELDS[2] == StartTime;
    assert DIFFED_FIELDS[3] == EndTime && DIFFED_FIELDS[4] == Location;
  }

  /** Laying the previous values over the current ones gives back every field the prior revision defined. */
  lemma OverlayRestores(prior: Data, current: Data, changedAt: string, f: Field)
    requires Get(prior, f).Some?
    ensures Overlaid(PreviousValues(prior, current, changedAt), current, f) == Get(prior, f)
  {
    EveryFieldListed(f);
    if Differs(prior, current, f) {
      assert f in Difference(prior, current);
    }
  }

  // ---------------------------------------------------------------------------
  // Order within a group
  // ---------------------------------------------------------------------------

  /** `orderInGroup(a, b) < 0` */
  predicate Earlier(a: Signal, b: Signal) {
    if a.data.sequence != b.data.sequence then a.data.sequence < b.data.sequence else Below(a.createdAt, b.createdAt)
  }

  predicate NotLater(a: Signal, b: Signal) {
    !Earlier(b, a)
  }

  lemma EarlierTotal(a: Signal, b: Signal)
    ensures !(Earlier(a, b) && Earlier(b, a))
    ensures NotLater(a, b) && NotLater(b, a) ==> a.data.sequence == b.data.sequence && a.createdAt == b.createdAt
  {
    BelowTotal(a.createdAt, b.createdAt);
  }

  lemma NotLaterTransitive(a: Signal, b: Signal, c: Signal)
    requires NotLater(a, b) && NotLater(b, c)
    ensures NotLater(a, c)
  {
    BelowTotal(a.createdAt, b.createdAt);
    BelowTotal(b.createdAt, c.createdAt);
    BelowTotal(a.createdAt, c.createdAt);
    if Below(a.createdAt, b.createdAt) && Below(b.createdAt, c.createdAt) {
      BelowTransitive(a.createdAt, b.createdAt, c.createdAt);
    }
  }

  ghost predicate Ordered(g: seq<Signal>) {
    forall i, j :: 0 <= i < j < |g| ==> NotLater(g[i], g[j])
  }

  function Insert(x: Signal, g: seq<Signal>): seq<Signal> {
    if g == [] then [x] else if Earlier(x, g[|g| - 1]) then Insert(x, g[..|g| - 1]) + [g[|g| - 1]] else g + [x]
  }

  /** `[...group].sort(orderInGroup)`: stable, so of equals the later in the input comes last. */
  function Sort(g: seq<Signal>): seq<Signal> {
    if g == [] then [] else Insert(g[|g| - 1], Sort(g[..|g| - 1]))
  }

  lemma {:induction false} OrderedSnoc(g: seq<Signal>, x: Signal)
    requires Ordered(g) && (g != [] ==> NotLater(g[|g| - 1], x))
    ensures Ordered(g + [x])
  {
    forall i | 0 <= i < |g| ensures NotLater(g[i], x) {
      if i < |g| - 1 {
        NotLaterTransitive(g[i], g[|g| - 1], x);
      }
    }
  }

  lemma {:induction false} OrderedPrefix(g: seq<Signal>)
    requires g != [] && Ordered(g)
    ensures Ordered(g[..|g| - 1])
  {
    var p := g[..|g| - 1];
    forall i, j | 0 <= i < j < |p| ensures NotLater(p[i], p[j]) {
      assert NotLater(g[i], g[j]);
    }
  }

  lemma {:induction false} InsertOrdered(x: Signal, g: seq<Signal>)
    requires Ordered(g)
    ensures Ordered(Insert(x, g)) && multiset(Insert(x, g)) == multiset(g) + multiset{x}
  {
    if g != [] {
      var k := |g| - 1;
      if Earlier(x, g[k]) {
        OrderedPrefix(g);
        InsertOrdered(x, g[..k]);
        var t := Insert(x, g[..k]);
        assert g == g[..k] + [g[k]];
        assert t != [] && t[|t| - 1] in multiset(g[..k]) + multiset{x};
        EarlierTotal(x, g[k]);
        OrderedSnoc(t, g[k]);
      } else {
        OrderedSnoc(g, x);
      }
    }
  }

  lemma {:induction false} SortOrdered(g: seq<Signal>)
    ensures Ordered(Sort(g)) && multiset(Sort(g)) == multiset(g) && |Sort(g)| == |g|
  {
    if g != [] {
      var k := |g| - 1;
      SortOrdered(g[..k]);
      InsertOrdered(g[k], Sort(g[..k]));
      assert g == g[..k] + [g[k]];
      assert |multiset(Sort(g))| == |Sort(g)| && |multiset(g)| == |g|;
    }
  }

  // ---------------------------------------------------------------------------
  // Groups
  // ---------------------------------------------------------------------------

  function Group(signals: seq<Signal>, uid: string): seq<Signal> {
    if signals == [] then []
    else
      var last := signals[|signals| - 1];
      Group(signals[..|signals| - 1], uid) + if last.data.uid == uid then [last] else []
  }

  /** The uids in order of first appearance. */
  function Uids(signals: seq<Signal>): seq<string> {
    if signals == [] then []
    else
      var before, uid := Uids(signals[..|signals| - 1]), signals[|signals| - 1].data.uid;
      if uid in before then before else before + [uid]
  }

  lemma {:induction false} GroupMembers(signals: seq<Signal>, uid: string)
    ensures forall s :: s in Group(signals, uid) <==> s in signals && s.data.uid == uid
    ensures Group(signals, uid) != [] <==> uid in Uids(signals)
  {
    if signals != [] {
      var k := |signals| - 1;
      GroupMembers(signals[..k], uid);
      assert signals == signals[..k] + [signals[k]];
    }
  }

  lemma {:induction false} GroupNonempty(signals: seq<Signal>, uid: string)
    ensures Group(signals, uid) != [] <==> uid in Uids(signals)
  {
    if signals != [] {
      GroupNonempty(signals[..|signals| - 1], uid);
    }
  }

  function Latest(signals: seq<Signal>, uid: string): Signal
    requires uid in Uids(signals)
  {
    GroupNonempty(signals, uid);
    WinnerOf(Group(signals, uid))
  }

  function Prior(signals: seq<Signal>, uid: string): Option<Signal> {
    PriorOf(Group(signals, uid))
  }

  // ---------------------------------------------------------------------------
  // Collapse
  // ---------------------------------------------------------------------------

  function UpperChar(c: char): char {
    if 'a' <= c <= 'z' then (c as int - 32) as char else c
  }

  predicate IsRequest(itip: string) {
    |itip| == 7 && forall i :: 0 <= i < 7 ==> UpperChar(itip[i]) == "REQUEST"[i]
  }

  function Enrich(winner: Signal, prior: Option<Signal>): Enrichment {
    var cancelled := winner.data.itip == "CANCEL";
    Enrichment(IsRequest(winner.data.itip) && winner.data.organizer != "",
               if cancelled then Some(winner.createdAt) else None,
               if !cancelled && winner.data.sequence > 0 && prior.Some?
               then PreviousValues(prior.value.data, winner.data, winner.createdAt) else None)
  }

  function OrphanOf(winner: Signal, prior: Option<Signal>): seq<Orphan> {
    var d := winner.data;
    if prior.Some? then []
    else if d.itip == "CANCEL" then [Orphan(d.uid, winner.id, d.itip, d.sequence, CancellationWithoutPrior)]
    else if d.sequence > 0 then [Orphan(d.uid, winner.id, d.itip, d.sequence, UpdateWithoutPrior)]
    else []
  }

  ghost predicate DistinctIds(signals: seq<Signal>) {
    forall s, t :: s in signals && t in signals && s.id == t.id ==> s == t
  }

  /** The losers of the groups named by `uids`. */
  function Losers(signals: seq<Signal>, uids: set<string>): set<string> {
    set s | s in signals && s.data.uid in uids && s.data.uid in Uids(signals)
        && s.id != Latest(signals, s.data.uid).id :: s.id
  }

  ghost predicate AllUids(uids: seq<string>, signals: seq<Signal>) {
    forall i :: 0 <= i < |uids| ==> uids[i] in Uids(signals)
  }

  /** What is reported of one event. */
  function Reports(signals: seq<Signal>): string -> seq<Orphan> {
    uid => if uid in Uids(signals) then OrphanOf(Latest(signals, uid), Prior(signals, uid)) else []
  }

  function Orphans(signals: seq<Signal>, uids: seq<string>): seq<Orphan> {
    FlatMap(uids, Reports(signals))
  }

  /** Each group's winner, with its enrichment. */
  ghost predicate HoldsWinners(winners: map<string, Enrichment>, signals: seq<Signal>, uids: set<string>)
    requires forall u :: u in uids ==> u in Uids(signals)
  {
    && winners.Keys == (set u | u in uids :: Latest(signals, u).id)
    && forall u :: u in uids ==> winners[Latest(signals, u).id] == Enrich(Latest(signals, u), Prior(signals, u))
  }

  /** `Map` of groups with the order of its keys. */
  method GroupByUid(signals: seq<Signal>) returns (groups: map<string, seq<Signal>>, order: seq<string>)
    ensures order == Uids(signals)
    ensures forall u :: u in groups <==> u in order
    ensures forall u :: u in groups ==> groups[u] == Group(signals, u)
  {
    groups, order := map[], [];
    for i := 0 to |signals|
      invariant order == Uids(signals[..i])
      invariant forall u :: u in groups <==> u in order
      invariant forall u :: u in groups ==> groups[u] == Group(signals[..i], u)
    {
      var signal := signals[i];
      var uid := signal.data.uid;
      assert signals[..i + 1][..i] == signals[..i];
      GroupMembers(signals[..i], uid);
      if uid in groups {
        groups := groups[uid := groups[uid] + [signal]];
      } else {
        groups, order := groups[uid := [signal]], order + [uid];
      }
    }
    assert signals[..|signals|] == signals;
  }

  function Others(group: seq<Signal>, winner: string): set<string> {
    set s | s in group && s.id != winner :: s.id
  }

  // What the loop over the groups collects, part by part

  function Superseded(groups: seq<seq<Signal>>): set<string> {
    if groups == [] then {}
    else
      var before, group := Superseded(groups[..|groups| - 1]), groups[|groups| - 1];
      if group == [] then before else before + Others(group, WinnerOf(group).id)
  }

  function Winners(groups: seq<seq<Signal>>): map<string, Enrichment> {
    if groups == [] then map[]
    else
      var before, group := Winners(groups[..|groups| - 1]), groups[|groups| - 1];
      if group == [] then before else before[WinnerOf(group).id := Enrich(WinnerOf(group), PriorOf(group))]
  }

  function Reported(groups: seq<seq<Signal>>): seq<Orphan> {
    if groups == [] then []
    else
      var before, group := Reported(groups[..|groups| - 1]), groups[|groups| - 1];
      if group == [] then before else before + OrphanOf(WinnerOf(group), PriorOf(group))
  }

  function Groups(signals: seq<Signal>, uids: seq<string>): seq<seq<Signal>> {
    seq(|uids|, i requires 0 <= i < |uids| => Group(signals, uids[i]))
  }

  /** `collapseCalendarSignals`. */
  method CollapseCalendarSignals(signals: seq<Signal>)
    returns (winners: map<string, Enrichment>, superseded: set<string>, orphans: seq<Orphan>)
    ensures superseded == Losers(signals, UidSet(signals))
    ensures orphans == Orphans(signals, Uids(signals))
    ensures DistinctIds(signals) ==> HoldsWinners(winners, signals, UidSet(signals))
    ensures DistinctIds(signals) ==> ShowsCards(winners, signals)
    ensures ReportsOrphans(orphans, signals)
  {
    var groups, order := GroupByUid(signals);
    var entries := seq(|order|, i requires 0 <= i < |order| => groups[order[i]]);
    assert entries == Groups(signals, order);
    forall i | 0 <= i < |entries| ensures entries[i] != [] {
      GroupNonempty(signals, order[i]);
    }
    winners, superseded, orphans := CollapseGroups(entries);
    CollapsedLosers(signals, order);
    CollapsedOrphans(signals, order);
    CollapsedWinners(signals, order);
    CardsShown(signals, winners);
    OrphansReported(signals);
  }

  /** The loop over the groups. */
  method CollapseGroups(groups: seq<seq<Signal>>)
    returns (winners: map<string, Enrichment>, superseded: set<string>, orphans: seq<Orphan>)
    requires forall i :: 0 <= i < |groups| ==> groups[i] != []
    ensures winners == Winners(groups) && superseded == Superseded(groups) && orphans == Reported(groups)
  {
    winners, superseded, orphans := map[], {}, [];
    for i := 0 to |groups|
      invariant winners == Winners(groups[..i])
      invariant superseded == Superseded(groups[..i])
      invariant orphans == Reported(groups[..i])
    {
      assert groups[..i + 1][..i] == groups[..i];
      var winner, enrichment, losers, orphan := CollapseGroup(groups[i]);
      superseded := superseded + losers;
      orphans := orphans + orphan;
      winners := winners[winner.id := enrichment];
    }
    assert groups[..|groups|] == groups;
  }

  lemma {:induction false} GroupsLast(signals: seq<Signal>, uids: seq<string>)
    requires uids != [] && AllUids(uids, signals)
    ensures var all := Groups(signals, uids);
            && all[..|all| - 1] == Groups(signals, uids[..|uids| - 1])
            && all[|all| - 1] == Group(signals, uids[|uids| - 1]) && all[|all| - 1] != []
  {
    GroupNonempty(signals, uids[|uids| - 1]);
  }

  lemma {:induction false} CollapsedLosers(signals: seq<Signal>, uids: seq<string>)
    requires AllUids(uids, signals)
    ensures Superseded(Groups(signals, uids)) == Losers(signals, Elements(uids))
  {
    if uids == [] {
      assert Elements(uids) == {};
    } else {
      GroupsLast(signals, uids);
      CollapsedLosers(signals, uids[..|uids| - 1]);
      LosersLast(signals, uids);
    }
  }

  lemma {:induction false} LosersLast(signals: seq<Signal>, uids: seq<string>)
    requires uids != [] && AllUids(uids, signals)
    ensures var k, uid := |uids| - 1, uids[|uids| - 1];
            Losers(signals, Elements(uids))
            == Losers(signals, Elements(uids[..k])) + Others(Group(signals, uid), Latest(signals, uid).id)
  {
    var k := |uids| - 1;
    LosersOfOne(signals, Elements(uids[..k]), uids[k]);
    ElementsLast(uids);
  }

  lemma {:induction false} CollapsedOrphans(signals: seq<Signal>, uids: seq<string>)
    requires AllUids(uids, signals)
    ensures Reported(Groups(signals, uids)) == Orphans(signals, uids)
  {
    if uids != [] {
      GroupsLast(signals, uids);
      CollapsedOrphans(signals, uids[..|uids| - 1]);
    }
  }

  lemma {:induction false} CollapsedWinners(signals: seq<Signal>, uids: seq<string>)
    requires AllUids(uids, signals)
    ensures DistinctIds(signals) ==> HoldsWinners(Winners(Groups(signals, uids)), signals, Elements(uids))
  {
    if uids == [] {
      assert Elements(uids) == {};
    } else if DistinctIds(signals) {
      CollapsedWinners(signals, uids[..|uids| - 1]);
      WinnersLast(signals, uids);
    }
  }

  lemma {:induction false} WinnersLast(signals: seq<Signal>, uids: seq<string>)
    requires DistinctIds(signals) && uids != [] && AllUids(uids, signals)
    requires HoldsWinners(Winners(Groups(signals, uids[..|uids| - 1])), signals, Elements(uids[..|uids| - 1]))
    ensures HoldsWinners(Winners(Groups(signals, uids)), signals, Elements(uids))
  {
    var before, uid := uids[..|uids| - 1], uids[|uids| - 1];
    WinnersGrow(signals, uids);
    WinnersOfOne(Winners(Groups(signals, before)), signals, Elements(before), uid);
    ElementsLast(uids);
  }

  lemma {:induction false} WinnersGrow(signals: seq<Signal>, uids: seq<string>)
    requires uids != [] && AllUids(uids, signals)
    ensures var uid := uids[|uids| - 1];
            var w, prior := Latest(signals, uid), Prior(signals, uid);
            Winners(Groups(signals, uids)) == Winners(Groups(signals, uids[..|uids| - 1]))[w.id := Enrich(w, prior)]
  {
    GroupsLast(signals, uids);
  }

  lemma {:induction false} ElementsLast(uids: seq<string>)
    requires uids != []
    ensures Elements(uids) == Elements(uids[..|uids| - 1]) + {uids[|uids| - 1]}
  {
  }

  function WinnerOf(group: seq<Signal>): Signal
    requires group != []
  {
    SortLength(group);
    Sort(group)[|group| - 1]
  }

  lemma {:induction false} SortLength(g: seq<Signal>)
    ensures |Sort(g)| == |g|
  {
    if g != [] {
      SortLength(g[..|g| - 1]);
      InsertLength(g[|g| - 1], Sort(g[..|g| - 1]));
    }
  }

  lemma {:induction false} InsertLength(x: Signal, g: seq<Signal>)
    ensures |Insert(x, g)| == |g| + 1
  {
    if g != [] {
      InsertLength(x, g[..|g| - 1]);
    }
  }

  function PriorOf(group: seq<Signal>): Option<Signal> {
    if |Sort(group)| > 1 then Some(Sort(group)[|Sort(group)| - 2]) else None
  }

  lemma {:induction false} SortedWinner(group: seq<Signal>)
    requires group != []
    ensures |Sort(group)| == |group|
    ensures Sort(group)[|group| - 1] in group
    ensures forall s :: s in group ==> NotLater(s, Sort(group)[|group| - 1])
  {
    var ordered := Sort(group);
    SortOrdered(group);
    SameMembers(ordered, group);
    var winner := ordered[|ordered| - 1];
    assert winner in ordered;
    forall s | s in group ensures NotLater(s, winner) {
      var i :| 0 <= i < |ordered| && ordered[i] == s;
      EarlierTotal(s, s);
    }
  }

  /** One turn of the outer loop. */
  method CollapseGroup(group: seq<Signal>)
    returns (winner: Signal, enrichment: Enrichment, losers: set<string>, orphan: seq<Orphan>)
    requires group != []
    ensures winner == WinnerOf(group)
    ensures enrichment == Enrich(winner, PriorOf(group)) && orphan == OrphanOf(winner, PriorOf(group))
    ensures losers == Others(group, winner.id)
  {
    var ordered := Sort(group);
    SortLength(group);
    winner := ordered[|ordered| - 1];
    var prior := if |ordered| > 1 then Some(ordered[|ordered| - 2]) else None;
    losers := OtherIds(ordered, winner.id);
    SortOrdered(group);
    SameMembers(ordered, group);
    enrichment, orphan := EnrichWinner(winner, prior);
  }

  method OtherIds(ordered: seq<Signal>, winner: string) returns (losers: set<string>)
    ensures losers == Others(ordered, winner)
  {
    losers := {};
    for i := 0 to |ordered|
      invariant losers == set k | 0 <= k < i && ordered[k].id != winner :: ordered[k].id
    {
      if ordered[i].id != winner {
        losers := losers + {ordered[i].id};
      }
    }
  }

  /** The part of the loop body that looks at one winner. */
  method EnrichWinner(winner: Signal, prior: Option<Signal>) returns (enrichment: Enrichment, orphan: seq<Orphan>)
    ensures enrichment == Enrich(winner, prior) && orphan == OrphanOf(winner, prior)
  {
    var d := winner.data;
    var winnerIsCancel := d.itip == "CANCEL";
    enrichment := Enrichment(IsRequest(d.itip) && d.organizer != "", None, None);
    orphan := [];
    if winnerIsCancel {
      enrichment := enrichment.(cancelledAt := Some(winner.createdAt));
      if prior.None? {
        orphan := [Orphan(d.uid, winner.id, d.itip, d.sequence, CancellationWithoutPrior)];
      }
    }
    if !winnerIsCancel && d.sequence > 0 {
      if prior.Some? {
        var previousValues := DiffPreviousValues(prior.value.data, d, winner.createdAt);
        enrichment := enrichment.(previousValues := previousValues);
      } else {
        orphan := [Orphan(d.uid, winner.id, d.itip, d.sequence, UpdateWithoutPrior)];
      }
    }
  }

  function Elements(uids: seq<string>): set<string> {
    set u | u in uids
  }

  function UidSet(signals: seq<Signal>): set<string> {
    Elements(Uids(signals))
  }

  lemma {:induction false} SameMembers(a: seq<Signal>, b: seq<Signal>)
    requires multiset(a) == multiset(b)
    ensures forall s :: s in a <==> s in b
  {
    forall s ensures s in a <==> s in b {
      assert s in a <==> s in multiset(a);
      assert s in b <==> s in multiset(b);
    }
  }

  lemma {:induction false} LosersOfOne(signals: seq<Signal>, uids: set<string>, uid: string)
    requires uid in Uids(signals)
    ensures Losers(signals, uids + {uid})
         == Losers(signals, uids) + Others(Group(signals, uid), Latest(signals, uid).id)
  {
    GroupMembers(signals, uid);
    forall id | id in Losers(signals, uids + {uid})
      ensures id in Losers(signals, uids) || id in Others(Group(signals, uid), Latest(signals, uid).id)
    {
      var s :| s in signals && s.data.uid in uids + {uid} && s.data.uid in Uids(signals)
               && s.id != Latest(signals, s.data.uid).id && s.id == id;
      if s.data.uid == uid {
        assert s in Group(signals, uid);
      }
    }
    forall id | id in Others(Group(signals, uid), Latest(signals, uid).id)
      ensures id in Losers(signals, uids + {uid})
    {
      var s :| s in Group(signals, uid) && s.id != Latest(signals, uid).id && s.id == id;
      assert s.data.uid == uid;
    }
  }

  /** The latest signal of a group belongs to it, and none of the group is later. */
  lemma {:induction false} LatestIsMember(signals: seq<Signal>, uid: string)
    requires uid in Uids(signals)
    ensures Latest(signals, uid) in signals && Latest(signals, uid).data.uid == uid
    ensures forall s :: s in signals && s.data.uid == uid ==> NotLater(s, Latest(signals, uid))
  {
    GroupMembers(signals, uid);
    SortedWinner(Group(signals, uid));
  }

  lemma {:induction false} WinnersOfOne(winners: map<string, Enrichment>, signals: seq<Signal>, uids: set<string>,
                                        uid: string)
    requires DistinctIds(signals) && uid in Uids(signals) && forall u :: u in uids ==> u in Uids(signals)
    requires HoldsWinners(winners, signals, uids)
    ensures var w := Latest(signals, uid);
            HoldsWinners(winners[w.id := Enrich(w, Prior(signals, uid))], signals, uids + {uid})
  {
    forall u | u in uids && Latest(signals, u).id == Latest(signals, uid).id ensures u == uid {
      LatestIsMember(signals, u);
      LatestIsMember(signals, uid);
    }
  }

  // ---------------------------------------------------------------------------
  // Main results
  // ---------------------------------------------------------------------------

  function Ids(signals: seq<Signal>): set<string> {
    set s | s in signals :: s.id
  }

  // What a card shows

  /** "REQUEST" in any case. */
  predicate SaysRequest(s: string) {
    && |s| == 7
    && (s[0] == 'R' || s[0] == 'r') && (s[1] == 'E' || s[1] == 'e') && (s[2] == 'Q' || s[2] == 'q')
    && (s[3] == 'U' || s[3] == 'u') && (s[4] == 'E' || s[4] == 'e') && (s[5] == 'S' || s[5] == 's')
    && (s[6] == 'T' || s[6] == 't')
  }

  lemma {:induction false} RequestInAnyCase(s: string)
    ensures IsRequest(s) <==> SaysRequest(s)
  {
    var r := "REQUEST";
    assert r[0] == 'R' && r[1] == 'E' && r[2] == 'Q' && r[3] == 'U' && r[4] == 'E' && r[5] == 'S' && r[6] == 'T';
    if IsRequest(s) {
      assert forall i :: 0 <= i < 7 ==> UpperChar(s[i]) == r[i];
    }
    if SaysRequest(s) {
      forall i | 0 <= i < 7 ensures UpperChar(s[i]) == r[i] {
      }
    }
  }

  /** A field that had a value and changed is listed with that value; any other is not. */
  ghost predicate ListsChange(p: Option<Previous>, f: Field, was: Option<string>, now: Option<string>) {
    if was.Some? && was != now then p.Some? && f in p.value.values && Some(p.value.values[f]) == was
    else p.None? || f !in p.value.values
  }

  /** The changes from one revision to the next, and when they were made. */
  ghost predicate ListsChanges(p: Option<Previous>, prior: Data, current: Data, changedAt: string) {
    && (p.Some? ==> p.value.changedAt == changedAt && p.value.values != map[])
    && ListsChange(p, Title, Some(prior.title), Some(current.title))
    && ListsChange(p, Description, prior.description, current.description)
    && ListsChange(p, StartTime, Some(prior.startTime), Some(current.startTime))
    && ListsChange(p, EndTime, prior.endTime, current.endTime)
    && ListsChange(p, Location, prior.location, current.location)
  }

  lemma {:induction false} ChangesListed(prior: Data, current: Data, changedAt: string)
    ensures ListsChanges(PreviousValues(prior, current, changedAt), prior, current, changedAt)
  {
    var p := PreviousValues(prior, current, changedAt);
    forall f ensures ListsChange(p, f, Get(prior, f), Get(current, f)) {
      EveryFieldListed(f);
      if Differs(prior, current, f) {
        assert f in Difference(prior, current);
      }
    }
    assert ListsChange(p, Title, Get(prior, Title), Get(current, Title));
    assert ListsChange(p, Description, Get(prior, Description), Get(current, Description));
    assert ListsChange(p, StartTime, Get(prior, StartTime), Get(current, StartTime));
    assert ListsChange(p, EndTime, Get(prior, EndTime), Get(current, EndTime));
    assert ListsChange(p, Location, Get(prior, Location), Get(current, Location));
  }

  /**
   The card of a winner: struck through since its arrival exactly for a CANCEL, open to an answer exactly for
   a REQUEST with an organizer, and with the changes of an update whose prior revision is there.
   */
  ghost predicate IsCard(e: Enrichment, w: Signal, prior: Option<Signal>) {
    && e.cancelledAt == (if w.data.itip == "CANCEL" then Some(w.createdAt) else None)
    && (e.rsvpable <==> SaysRequest(w.data.itip) && w.data.organizer != "")
    && if w.data.itip == "CANCEL" || w.data.sequence <= 0 || prior.None? then e.previousValues.None?
       else ListsChanges(e.previousValues, prior.value.data, w.data, w.createdAt)
  }

  /** The revision before the last: none if the event has one signal, else one that only the last may be later than. */
  ghost predicate IsPrior(prior: Option<Signal>, w: Signal, signals: seq<Signal>) {
    match prior
    case None => AtMostOne(signals, w.data.uid)
    case Some(p) =>
      && p.data.uid == w.data.uid && multiset{p, w} <= multiset(signals)
      && forall s :: s in signals && s.data.uid == w.data.uid ==> s == w || NotLater(s, p)
  }

  ghost predicate AtMostOne(signals: seq<Signal>, uid: string) {
    forall i, j :: 0 <= i < j < |signals| ==> !(signals[i].data.uid == uid && signals[j].data.uid == uid)
  }

  ghost predicate ShowsCards(winners: map<string, Enrichment>, signals: seq<Signal>) {
    forall w :: w in signals && w.id in winners ==>
      exists prior :: IsPrior(prior, w, signals) && IsCard(winners[w.id], w, prior)
  }

  lemma {:induction false} EnrichIsCard(w: Signal, prior: Option<Signal>)
    ensures IsCard(Enrich(w, prior), w, prior)
  {
    RequestInAnyCase(w.data.itip);
    if prior.Some? {
      ChangesListed(prior.value.data, w.data, w.createdAt);
    }
  }

  lemma {:induction false} GroupSize(signals: seq<Signal>, uid: string)
    ensures multiset(Group(signals, uid)) <= multiset(signals)
    ensures |Group(signals, uid)| <= 1 <==> AtMostOne(signals, uid)
  {
    if signals != [] {
      var k := |signals| - 1;
      GroupSize(signals[..k], uid);
      AtMostOneMore(signals, uid);
      OthersOfEvent(signals[..k], uid);
      assert signals == signals[..k] + [signals[k]];
    }
  }

  lemma {:induction false} OthersOfEvent(signals: seq<Signal>, uid: string)
    ensures Group(signals, uid) == [] <==> forall s :: s in signals ==> s.data.uid != uid
  {
    var g := Group(signals, uid);
    GroupMembers(signals, uid);
    if g != [] {
      assert g[0] in g;
    }
  }

  lemma {:induction false} AtMostOneMore(signals: seq<Signal>, uid: string)
    requires signals != []
    ensures var k := |signals| - 1;
            AtMostOne(signals, uid) <==>
              && AtMostOne(signals[..k], uid)
              && (signals[k].data.uid == uid ==> forall s :: s in signals[..k] ==> s.data.uid != uid)
  {
    var k := |signals| - 1;
    var before := signals[..k];
    if AtMostOne(signals, uid) {
      forall i, j | 0 <= i < j < k ensures !(before[i].data.uid == uid && before[j].data.uid == uid) {
        assert before[i] == signals[i] && before[j] == signals[j];
      }
    }
    if AtMostOne(before, uid) && (signals[k].data.uid == uid ==> forall s :: s in before ==> s.data.uid != uid) {
      forall i, j | 0 <= i < j < |signals| ensures !(signals[i].data.uid == uid && signals[j].data.uid == uid) {
        assert before[i] == signals[i] && (j < k ==> before[j] == signals[j]);
      }
    }
  }

  lemma {:induction false} PriorIs(signals: seq<Signal>, uid: string)
    requires uid in Uids(signals)
    ensures IsPrior(Prior(signals, uid), Latest(signals, uid), signals)
  {
    var g := Group(signals, uid);
    GroupSize(signals, uid);
    GroupNonempty(signals, uid);
    LatestIsMember(signals, uid);
    SortOrdered(g);
    if |g| > 1 {
      GroupMembers(signals, uid);
      PriorInGroup(signals, uid, g, Sort(g));
    }
  }

  lemma {:induction false} PriorInGroup(signals: seq<Signal>, uid: string, g: seq<Signal>, sorted: seq<Signal>)
    requires |sorted| > 1 && Ordered(sorted) && multiset(sorted) == multiset(g) && multiset(g) <= multiset(signals)
    requires forall s :: s in g <==> s in signals && s.data.uid == uid
    requires sorted[|sorted| - 1].data.uid == uid
    ensures IsPrior(Some(sorted[|sorted| - 2]), sorted[|sorted| - 1], signals)
  {
    var n := |sorted|;
    var p, w := sorted[n - 2], sorted[n - 1];
    LastTwo(sorted);
    SameMembers(sorted, g);
    assert p in sorted;
    forall s | s in signals && s.data.uid == uid ensures s == w || NotLater(s, p) {
      assert s in sorted;
      var k :| 0 <= k < n && sorted[k] == s;
      EarlierTotal(p, p);
    }
  }

  lemma {:induction false} LastTwo(s: seq<Signal>)
    requires |s| > 1
    ensures multiset{s[|s| - 2], s[|s| - 1]} <= multiset(s)
  {
    assert s == s[..|s| - 2] + [s[|s| - 2], s[|s| - 1]];
  }

  lemma {:induction false} CardsShown(signals: seq<Signal>, winners: map<string, Enrichment>)
    ensures DistinctIds(signals) && HoldsWinners(winners, signals, UidSet(signals)) ==> ShowsCards(winners, signals)
  {
    if DistinctIds(signals) && HoldsWinners(winners, signals, UidSet(signals)) {
      forall w | w in signals && w.id in winners
        ensures exists prior :: IsPrior(prior, w, signals) && IsCard(winners[w.id], w, prior)
      {
        var prior := CardShown(signals, winners, w);
      }
    }
  }

  lemma {:induction false} CardShown(signals: seq<Signal>, winners: map<string, Enrichment>, w: Signal)
    returns (prior: Option<Signal>)
    requires DistinctIds(signals) && HoldsWinners(winners, signals, UidSet(signals))
    requires w in signals && w.id in winners
    ensures IsPrior(prior, w, signals) && IsCard(winners[w.id], w, prior)
  {
    var uid := w.data.uid;
    SignalPlace(signals, winners, w);
    prior := Prior(signals, uid);
    PriorIs(signals, uid);
    EnrichIsCard(w, prior);
    assert uid in UidSet(signals);
  }

  // What is reported

  /** The event's only signal, which revises or cancels something never seen. */
  ghost predicate IsOrphan(o: Orphan, w: Signal) {
    && o.uid == w.data.uid && o.signalId == w.id && o.itip == w.data.itip && o.sequence == w.data.sequence
    && if w.data.itip == "CANCEL" then o.reason == CancellationWithoutPrior
       else w.data.sequence > 0 && o.reason == UpdateWithoutPrior
  }

  /** Exactly the orphans, and each event at most once. */
  ghost predicate ReportsOrphans(orphans: seq<Orphan>, signals: seq<Signal>) {
    && (forall o :: o in orphans <==> exists w :: w in signals && AtMostOne(signals, w.data.uid) && IsOrphan(o, w))
    && DistinctUids(orphans)
  }

  /** What one event adds to the report. */
  lemma {:induction false} OrphanIff(signals: seq<Signal>, uid: string, o: Orphan)
    requires uid in Uids(signals)
    ensures o in OrphanOf(Latest(signals, uid), Prior(signals, uid))
       <==> o.uid == uid && IsOrphanOf(o, signals)
  {
    SortLength(Group(signals, uid));
    GroupSize(signals, uid);
    LatestIsMember(signals, uid);
    OneOrphan(Latest(signals, uid), Prior(signals, uid), o);
  }

  lemma {:induction false} OneOrphan(w: Signal, prior: Option<Signal>, o: Orphan)
    ensures o in OrphanOf(w, prior) <==> prior.None? && IsOrphan(o, w)
    ensures |OrphanOf(w, prior)| <= 1
  {
  }

  lemma {:induction false} OnlyOne(signals: seq<Signal>, w: Signal)
    requires w in signals && AtMostOne(signals, w.data.uid)
    ensures w.data.uid in Uids(signals) && Latest(signals, w.data.uid) == w
  {
    GroupMembers(signals, w.data.uid);
    LatestIsMember(signals, w.data.uid);
    var i :| 0 <= i < |signals| && signals[i] == w;
    var j :| 0 <= j < |signals| && signals[j] == Latest(signals, w.data.uid);
  }

  lemma {:induction false} OrphansLast(signals: seq<Signal>, uids: seq<string>)
    requires AllUids(uids, signals) && uids != []
    ensures var k := |uids| - 1;
            Orphans(signals, uids)
            == Orphans(signals, uids[..k]) + OrphanOf(Latest(signals, uids[k]), Prior(signals, uids[k]))
  {
  }

  ghost predicate IsOrphanOf(o: Orphan, signals: seq<Signal>) {
    o.uid in Uids(signals) && AtMostOne(signals, o.uid) && IsOrphan(o, Latest(signals, o.uid))
  }

  lemma {:induction false} OrphansOf(signals: seq<Signal>, uids: seq<string>, o: Orphan)
    requires AllUids(uids, signals)
    ensures o in Orphans(signals, uids) <==> o.uid in uids && IsOrphanOf(o, signals)
  {
    if uids != [] {
      var k := |uids| - 1;
      OrphansOf(signals, uids[..k], o);
      OrphanIff(signals, uids[k], o);
      OrphansLast(signals, uids);
      assert o.uid in uids <==> o.uid in uids[..k] || o.uid == uids[k];
    }
  }

  lemma {:induction false} OrphansOnce(signals: seq<Signal>, uids: seq<string>)
    requires AllUids(uids, signals) && Distinct(uids)
    ensures DistinctUids(Orphans(signals, uids))
  {
    if uids != [] {
      var k := |uids| - 1;
      var before, last := Orphans(signals, uids[..k]), OrphanOf(Latest(signals, uids[k]), Prior(signals, uids[k]));
      OrphansOnce(signals, uids[..k]);
      OrphansLast(signals, uids);
      forall i | 0 <= i < |before| ensures before[i].uid in uids[..k] {
        OrphansOf(signals, uids[..k], before[i]);
      }
      forall o | o in last ensures o.uid == uids[k] {
        OrphanIff(signals, uids[k], o);
      }
      OneMoreUid(before, last, uids[k]);
    }
  }

  ghost predicate DistinctUids(os: seq<Orphan>) {
    forall i, j :: 0 <= i < j < |os| ==> os[i].uid != os[j].uid
  }

  lemma {:induction false} OneMoreUid(before: seq<Orphan>, last: seq<Orphan>, uid: string)
    requires DistinctUids(before) && |last| <= 1 && (forall o :: o in last ==> o.uid == uid)
    requires forall i :: 0 <= i < |before| ==> before[i].uid != uid
    ensures DistinctUids(before + last)
  {
  }

  lemma {:induction false} OrphansReported(signals: seq<Signal>)
    ensures ReportsOrphans(Orphans(signals, Uids(signals)), signals)
  {
    var os := Orphans(signals, Uids(signals));
    UidsDistinct(signals);
    OrphansOnce(signals, Uids(signals));
    forall o ensures o in os <==> exists w :: w in signals && AtMostOne(signals, w.data.uid) && IsOrphan(o, w) {
      OrphansOf(signals, Uids(signals), o);
      if o in os {
        LatestIsMember(signals, o.uid);
      }
      if w :| w in signals && AtMostOne(signals, w.data.uid) && IsOrphan(o, w) {
        OnlyOne(signals, w);
      }
    }
  }

  /** Winners and superseded signals split the input; each event has one winner, and none of its signals is later. */
  lemma {:induction false} WinnersAndLosersSplit(signals: seq<Signal>, winners: map<string, Enrichment>)
    requires DistinctIds(signals) && HoldsWinners(winners, signals, UidSet(signals))
    ensures winners.Keys + Losers(signals, UidSet(signals)) == Ids(signals)
    ensures winners.Keys * Losers(signals, UidSet(signals)) == {}
    ensures forall s :: s in signals ==>
              s.data.uid in Uids(signals) && (s.id in winners <==> s == Latest(signals, s.data.uid))
              && NotLater(s, Latest(signals, s.data.uid))
  {
    var losers := Losers(signals, UidSet(signals));
    forall s | s in signals
      ensures s.data.uid in Uids(signals)
      ensures s.id in winners <==> s == Latest(signals, s.data.uid)
      ensures s.id in losers <==> s != Latest(signals, s.data.uid)
      ensures NotLater(s, Latest(signals, s.data.uid))
    {
      SignalPlace(signals, winners, s);
    }
    forall id | id in winners ensures id in Ids(signals) {
      var u :| u in UidSet(signals) && Latest(signals, u).id == id;
      LatestIsMember(signals, u);
    }
  }

  lemma {:induction false} SignalPlace(signals: seq<Signal>, winners: map<string, Enrichment>, s: Signal)
    requires DistinctIds(signals) && HoldsWinners(winners, signals, UidSet(signals)) && s in signals
    ensures s.data.uid in Uids(signals)
    ensures s.id in winners <==> s == Latest(signals, s.data.uid)
    ensures s.id in Losers(signals, UidSet(signals)) <==> s != Latest(signals, s.data.uid)
    ensures NotLater(s, Latest(signals, s.data.uid))
  {
    var uid := s.data.uid;
    GroupMembers(signals, uid);
    LatestIsMember(signals, uid);
    assert uid in UidSet(signals);
    if s.id in winners {
      var u :| u in UidSet(signals) && Latest(signals, u).id == s.id;
      LatestIsMember(signals, u);
    }
    if s.id in Losers(signals, UidSet(signals)) {
      var t :| t in signals && t.data.uid in Uids(signals) && t.id != Latest(signals, t.data.uid).id && t.id == s.id;
    }
  }

  // ---------------------------------------------------------------------------
  // The order of the input
  // ---------------------------------------------------------------------------

  /** No two signals of one event share sequence and arrival time. */
  ghost predicate NoTies(signals: seq<Signal>) {
    forall s, t :: s in signals && t in signals && s.data.uid == t.data.uid && NotLater(s, t) && NotLater(t, s) ==>
        s == t
  }

  lemma {:induction false} GroupJoin(a: seq<Signal>, b: seq<Signal>, uid: string)
    ensures Group(a + b, uid) == Group(a, uid) + Group(b, uid)
  {
    if b == [] {
      assert a + b == a;
    } else {
      var k := |b| - 1;
      assert (a + b)[..|a + b| - 1] == a + b[..k];
      GroupJoin(a, b[..k], uid);
    }
  }

  lemma {:induction false} GroupWithout(b: seq<Signal>, i: nat, uid: string)
    requires i < |b|
    ensures b[i].data.uid == uid ==>
              multiset(Group(b, uid)) == multiset(Group(b[..i] + b[i + 1..], uid)) + multiset{b[i]}
    ensures b[i].data.uid != uid ==> multiset(Group(b, uid)) == multiset(Group(b[..i] + b[i + 1..], uid))
  {
    assert b == b[..i] + ([b[i]] + b[i + 1..]);
    GroupAround(b[..i], b[i], b[i + 1..], uid);
  }

  lemma {:induction false} GroupAround(before: seq<Signal>, x: Signal, after: seq<Signal>, uid: string)
    ensures var (g, rest) := (Group(before + ([x] + after), uid), Group(before + after, uid));
            multiset(g) == if x.data.uid == uid then multiset(rest) + multiset{x} else multiset(rest)
  {
    GroupJoin(before, [x] + after, uid);
    GroupJoin([x], after, uid);
    GroupJoin(before, after, uid);
  }

  lemma {:induction false} GroupPermute(a: seq<Signal>, b: seq<Signal>, uid: string)
    requires multiset(a) == multiset(b)
    ensures multiset(Group(a, uid)) == multiset(Group(b, uid))
    decreases |a|
  {
    SameEmpty(a, b);
    if a != [] {
      var i := FindIn(a, 0, b);
      var k := 0;
      var a', b' := a[..k] + a[k + 1..], b[..i] + b[i + 1..];
      assert multiset(a') == multiset(b') by {
        RemoveSame(a, b, k, i);
      }
      GroupPermute(a', b', uid);
      GroupPermuteStep(a, k, b, i, uid);
    }
  }

  lemma {:induction false} GroupPermuteStep(a: seq<Signal>, i: nat, b: seq<Signal>, j: nat, uid: string)
    requires i < |a| && j < |b| && a[i] == b[j]
    requires multiset(Group(a[..i] + a[i + 1..], uid)) == multiset(Group(b[..j] + b[j + 1..], uid))
    ensures multiset(Group(a, uid)) == multiset(Group(b, uid))
  {
    GroupWithout(a, i, uid);
    GroupWithout(b, j, uid);
  }

  /** Without ties an ordered list is determined by its contents. */
  lemma {:induction false} OrderedUnique(a: seq<Signal>, b: seq<Signal>)
    requires multiset(a) == multiset(b) && Ordered(a) && Ordered(b)
    requires forall s, t :: s in a && t in a && NotLater(s, t) && NotLater(t, s) ==> s == t
    ensures a == b
    decreases |a|
  {
    SameEmpty(a, b);
    if a != [] {
      LastsAgree(a, b);
      var k, n := |a| - 1, |b| - 1;
      RemoveSame(a, b, k, n);
      assert a[..k] + a[k + 1..] == a[..k] && b[..n] + b[n + 1..] == b[..n];
      OrderedPrefix(a);
      OrderedPrefix(b);
      assert forall s :: s in a[..k] ==> s in a;
      OrderedUnique(a[..k], b[..n]);
      assert a == a[..k] + [a[k]] && b == b[..n] + [b[n]];
    }
  }

  lemma {:induction false} LastsAgree(a: seq<Signal>, b: seq<Signal>)
    requires a != [] && b != [] && multiset(a) == multiset(b) && Ordered(a) && Ordered(b)
    requires forall s, t :: s in a && t in a && NotLater(s, t) && NotLater(t, s) ==> s == t
    ensures a[|a| - 1] == b[|b| - 1]
  {
    var i := FindIn(a, |a| - 1, b);
    var j := FindIn(b, |b| - 1, a);
    EarlierTotal(a[|a| - 1], a[|a| - 1]);
    EarlierTotal(b[|b| - 1], b[|b| - 1]);
    assert NotLater(a[j], a[|a| - 1]) && NotLater(b[i], b[|b| - 1]);
  }

  lemma {:induction false} SortedGroupPermute(a: seq<Signal>, b: seq<Signal>, uid: string)
    requires multiset(a) == multiset(b) && NoTies(a)
    ensures Sort(Group(a, uid)) == Sort(Group(b, uid))
  {
    GroupPermute(a, b, uid);
    SortOrdered(Group(a, uid));
    SortOrdered(Group(b, uid));
    GroupMembers(a, uid);
    SameMembers(Sort(Group(a, uid)), Group(a, uid));
    OrderedUnique(Sort(Group(a, uid)), Sort(Group(b, uid)));
  }

  /** Without ties the collapse does not depend on the order in which the signals were loaded. */
  lemma {:induction false} InputOrderDoesNotMatter(a: seq<Signal>, b: seq<Signal>, uid: string)
    requires multiset(a) == multiset(b) && NoTies(a)
    ensures uid in Uids(a) <==> uid in Uids(b)
    ensures uid in Uids(a) ==> Latest(a, uid) == Latest(b, uid) && Prior(a, uid) == Prior(b, uid)
  {
    GroupMembers(a, uid);
    GroupMembers(b, uid);
    SameMembers(a, b);
    SortedGroupPermute(a, b, uid);
    GroupPermute(a, b, uid);
    SameEmpty(Group(a, uid), Group(b, uid));
    SortOrdered(Group(a, uid));
    SortOrdered(Group(b, uid));
  }

  lemma {:induction false} LosersPermute(a: seq<Signal>, b: seq<Signal>)
    requires multiset(a) == multiset(b) && NoTies(a)
    ensures UidSet(a) == UidSet(b)
    ensures Losers(a, UidSet(a)) == Losers(b, UidSet(b))
    ensures forall w :: HoldsWinners(w, a, UidSet(a)) <==> HoldsWinners(w, b, UidSet(b))
  {
    SameMembers(a, b);
    forall uid ensures uid in Uids(a) <==> uid in Uids(b)
      ensures uid in Uids(a) ==> Latest(a, uid) == Latest(b, uid) && Prior(a, uid) == Prior(b, uid)
    {
      InputOrderDoesNotMatter(a, b, uid);
    }
    assert forall u :: u in UidSet(a) ==> Latest(a, u) == Latest(b, u);
    assert (set u | u in UidSet(a) :: Latest(a, u).id) == (set u | u in UidSet(b) :: Latest(b, u).id);
  }

  lemma {:induction false} UidsDistinct(signals: seq<Signal>)
    ensures Distinct(Uids(signals))
  {
    if signals != [] {
      UidsDistinct(signals[..|signals| - 1]);
    }
  }

  /** And it reports the same orphans, in whatever order. */
  lemma {:induction false} OrphansPermute(a: seq<Signal>, b: seq<Signal>)
    requires multiset(a) == multiset(b) && NoTies(a)
    ensures multiset(Orphans(a, Uids(a))) == multiset(Orphans(b, Uids(b)))
  {
    forall uid ensures uid in Uids(a) <==> uid in Uids(b) {
      InputOrderDoesNotMatter(a, b, uid);
    }
    UidsDistinct(a);
    UidsDistinct(b);
    SameMembersPermute(Uids(a), Uids(b));
    forall i | 0 <= i < |Uids(a)| ensures Reports(a)(Uids(a)[i]) == Reports(b)(Uids(a)[i]) {
      InputOrderDoesNotMatter(a, b, Uids(a)[i]);
    }
    FlatMapAgree(Uids(a), Reports(a), Reports(b));
    FlatMapPermute(Uids(a), Uids(b), Reports(b));
  }

  // ---------------------------------------------------------------------------
  // One more signal
  // ---------------------------------------------------------------------------

  /**
   A signal that no signal of its event is later than becomes the winner; the old winner becomes its
   prior, and so the base of its difference; every other event is untouched.
   */
  lemma {:induction false} CollapseIsIncremental(signals: seq<Signal>, x: Signal)
    requires forall s :: s in signals && s.data.uid == x.data.uid ==> NotLater(s, x)
    ensures x.data.uid in Uids(signals + [x]) && Latest(signals + [x], x.data.uid) == x
    ensures Prior(signals + [x], x.data.uid) == if x.data.uid in Uids(signals)
        then Some(Latest(signals, x.data.uid)) else None
    ensures forall uid :: uid != x.data.uid ==> SameCard(signals, signals + [x], uid)
  {
    OwnEvent(signals, x);
    forall uid | uid != x.data.uid ensures SameCard(signals, signals + [x], uid) {
      OtherEvent(signals, x, uid);
    }
  }

  /** A later update of a known event shows, under its arrows, every field of the revision it replaced. */
  lemma {:induction false} UpdateShowsWhatItReplaced(signals: seq<Signal>, x: Signal, f: Field)
    requires forall s :: s in signals && s.data.uid == x.data.uid ==> NotLater(s, x)
    requires x.data.uid in Uids(signals) && x.data.itip != "CANCEL" && x.data.sequence > 0
    ensures var (all, replaced) := (signals + [x], Latest(signals, x.data.uid).data);
            && x.data.uid in Uids(all)
            && var shown := Enrich(Latest(all, x.data.uid), Prior(all, x.data.uid)).previousValues;
               Get(replaced, f).Some? ==> Overlaid(shown, x.data, f) == Get(replaced, f)
  {
    OwnEvent(signals, x);
    var replaced := Latest(signals, x.data.uid).data;
    if Get(replaced, f).Some? {
      OverlayRestores(replaced, x.data, x.createdAt, f);
    }
  }

  ghost predicate SameCard(a: seq<Signal>, b: seq<Signal>, uid: string) {
    && (uid in Uids(a) <==> uid in Uids(b))
    && (uid in Uids(a) ==> Latest(a, uid) == Latest(b, uid) && Prior(a, uid) == Prior(b, uid))
  }

  lemma {:induction false} GroupGrows(signals: seq<Signal>, x: Signal, uid: string)
    ensures Group(signals + [x], uid) == Group(signals, uid) + if x.data.uid == uid then [x] else []
  {
    GroupJoin(signals, [x], uid);
  }

  lemma {:induction false} OwnEvent(signals: seq<Signal>, x: Signal)
    requires forall s :: s in signals && s.data.uid == x.data.uid ==> NotLater(s, x)
    ensures x.data.uid in Uids(signals + [x]) && Latest(signals + [x], x.data.uid) == x
    ensures Prior(signals + [x], x.data.uid) == if x.data.uid in Uids(signals)
        then Some(Latest(signals, x.data.uid)) else None
  {
    var u := x.data.uid;
    var g := Group(signals, u);
    GroupGrows(signals, x, u);
    GroupNonempty(signals, u);
    GroupNonempty(signals + [x], u);
    LastGroup(signals, x);
    SortAppend(g, x);
    SortLength(g);
  }

  lemma {:induction false} LastGroup(signals: seq<Signal>, x: Signal)
    requires forall s :: s in signals && s.data.uid == x.data.uid ==> NotLater(s, x)
    ensures forall s :: s in Group(signals, x.data.uid) ==> NotLater(s, x)
  {
    GroupMembers(signals, x.data.uid);
  }

  lemma {:induction false} OtherEvent(signals: seq<Signal>, x: Signal, uid: string)
    requires uid != x.data.uid
    ensures SameCard(signals, signals + [x], uid)
  {
    GroupGrows(signals, x, uid);
    GroupNonempty(signals, uid);
    GroupNonempty(signals + [x], uid);
    assert Group(signals + [x], uid) == Group(signals, uid);
  }

  lemma {:induction false} SortAppend(g: seq<Signal>, x: Signal)
    requires forall s :: s in g ==> NotLater(s, x)
    ensures Sort(g + [x]) == Sort(g) + [x]
  {
    assert (g + [x])[..|g|] == g;
    SortOrdered(g);
    SameMembers(Sort(g), g);
    if g != [] {
      assert Sort(g)[|Sort(g)| - 1] in Sort(g);
    }
  }

  /** The old winner is superseded, the new signal is not, and no other signal changes sides. */
  lemma {:induction false} SupersededIncrementally(signals: seq<Signal>, x: Signal)
    requires forall s :: s in signals && s.data.uid == x.data.uid ==> NotLater(s, x)
    requires DistinctIds(signals + [x]) && x !in signals
    ensures Losers(signals + [x], UidSet(signals + [x]))
         == Losers(signals, UidSet(signals))
            + if x.data.uid in Uids(signals) then {Latest(signals, x.data.uid).id} else {}
  {
    var all, u := signals + [x], x.data.uid;
    forall id | id in Losers(all, UidSet(all))
      ensures id in Losers(signals, UidSet(signals)) || (u in Uids(signals) && id == Latest(signals, u).id)
    {
      LosesNow(signals, x, id);
    }
    forall id | id in Losers(signals, UidSet(signals)) ensures id in Losers(all, UidSet(all)) {
      StillLoses(signals, x, id);
    }
    if u in Uids(signals) {
      LatestIsMember(signals, u);
      LoserAfter(signals, x, Latest(signals, u));
    }
  }

  lemma {:induction false} LosesNow(signals: seq<Signal>, x: Signal, id: string)
    requires forall s :: s in signals && s.data.uid == x.data.uid ==> NotLater(s, x)
    requires id in Losers(signals + [x], UidSet(signals + [x]))
    ensures id in Losers(signals, UidSet(signals))
        || (x.data.uid in Uids(signals) && id == Latest(signals, x.data.uid).id)
  {
    var all := signals + [x];
    var s :| s in all && s.data.uid in Uids(all) && s.id != Latest(all, s.data.uid).id && s.id == id;
    LoserBefore(signals, x, s);
  }

  lemma {:induction false} StillLoses(signals: seq<Signal>, x: Signal, id: string)
    requires forall s :: s in signals && s.data.uid == x.data.uid ==> NotLater(s, x)
    requires DistinctIds(signals + [x]) && x !in signals
    requires id in Losers(signals, UidSet(signals))
    ensures id in Losers(signals + [x], UidSet(signals + [x]))
  {
    var s :| s in signals && s.data.uid in Uids(signals) && s.id != Latest(signals, s.data.uid).id && s.id == id;
    LoserAfter(signals, x, s);
  }

  lemma {:induction false} LoserBefore(signals: seq<Signal>, x: Signal, s: Signal)
    requires forall t :: t in signals && t.data.uid == x.data.uid ==> NotLater(t, x)
    requires s in signals + [x] && s.data.uid in Uids(signals + [x]) && s.id != Latest(signals + [x], s.data.uid).id
    ensures s in signals && s.data.uid in Uids(signals)
    ensures s.id in Losers(signals, UidSet(signals)) || s.id == Latest(signals, s.data.uid).id
    ensures s.id in Losers(signals, UidSet(signals)) || s.data.uid == x.data.uid
  {
    CollapseIsIncremental(signals, x);
    assert s.data.uid != x.data.uid ==> SameCard(signals, signals + [x], s.data.uid);
    GroupMembers(signals, s.data.uid);
    assert s.data.uid in UidSet(signals);
  }

  lemma {:induction false} LoserAfter(signals: seq<Signal>, x: Signal, s: Signal)
    requires forall t :: t in signals && t.data.uid == x.data.uid ==> NotLater(t, x)
    requires DistinctIds(signals + [x]) && x !in signals
    requires s in signals && s.data.uid in Uids(signals)
    requires s.data.uid == x.data.uid || s.id != Latest(signals, s.data.uid).id
    ensures s.id in Losers(signals + [x], UidSet(signals + [x]))
  {
    var all := signals + [x];
    CollapseIsIncremental(signals, x);
    assert s.data.uid != x.data.uid ==> SameCard(signals, signals + [x], s.data.uid);
    GroupMembers(all, s.data.uid);
    assert s in all && x in all;
    assert s.data.uid in UidSet(all);
  }
}
