/**
 The summary of an error, `errors.ts`: a walk over a graph of error objects that may share and may be
 cyclic. The objects are the nodes of a finite heap.
 */
module ErrorWalk {
  import opened Options
  import opened Text

  /** A value that is no object has no message and no children. */
  datatype Value = Obj(id: nat) | NoObject

  /** A field of a plain object is `None` unless it has the type that the code asks for; so is an absent `cause`. */
  datatype Node =
    | Aggregate(message: string, list: seq<Value>, cause: Option<Value>)
    | ErrorInstance(message: string, errors: Option<seq<Value>>, cause: Option<Value>, kind: Option<string>)
    | Plain(text: Option<string>, reason: Option<string>, errorName: Option<string>, errors: Option<seq<Value>>,
            cause: Option<Value>, kind: Option<string>)

  type Heap = map<nat, Node>

  const SIBLING_SEPARATOR := " \U{2014}\U{2014} "

  predicate NonEmpty(s: Option<string>) {
    s.Some? && s.value != ""
  }

  function OwnToken(n: Node): (token: Option<string>)
    ensures token != Some("")
  {
    if n.Plain? then
      if NonEmpty(n.text) then n.text
      else if NonEmpty(n.reason) then n.reason
      else if NonEmpty(n.errorName) then n.errorName
      else None
    else if n.message != "" then Some(n.message) else None
  }

  function ChildErrors(n: Node): seq<Value> {
    if n.Aggregate? then n.list
    else if n.errors.Some? then n.errors.value
    else if n.cause.Some? then [n.cause.value]
    else []
  }

  /** What the node refers to: the members of its list of errors, and its cause. */
  ghost predicate Links(n: Node, id: nat) {
    Obj(id) in ChildErrors(n) || n.cause == Some(Obj(id))
  }

  ghost predicate InHeap(h: Heap, vs: seq<Value>) {
    forall i :: 0 <= i < |vs| && vs[i].Obj? ==> vs[i].id in h
  }

  ghost predicate CauseInHeap(h: Heap, cause: Option<Value>) {
    cause.Some? && cause.value.Obj? ==> cause.value.id in h
  }

  /** No object refers out of the heap. */
  ghost predicate Closed(h: Heap) {
    forall id :: id in h ==> InHeap(h, ChildErrors(h[id])) && CauseInHeap(h, h[id].cause)
  }

  // ---------------------------------------------------------------------------
  // Joining
  // ---------------------------------------------------------------------------

  /** `parts.filter((s) => s.length > 0).join(SIBLING_SEPARATOR)`, taken from the left. */
  function JoinReadable(parts: seq<string>): string {
    if parts == [] then ""
    else
      var k := |parts| - 1;
      Beside(JoinReadable(parts[..k]), parts[k])
  }

  function Beside(left: string, right: string): string {
    if left == "" then right else if right == "" then left else left + SIBLING_SEPARATOR + right
  }

  /** A node's own text, unless it repeats the token above it. */
  function OwnText(n: Node, parent: Option<string>): Option<string> {
    if OwnToken(n) == parent then None else OwnToken(n)
  }

  function NextToken(n: Node, parent: Option<string>): Option<string> {
    if OwnToken(n).Some? then OwnToken(n) else parent
  }

  function Compose(own: Option<string>, children: string): string {
    if own.Some? && children != "" then own.value + ": " + children
    else if own.Some? then own.value
    else children
  }

  // ---------------------------------------------------------------------------
  // The guarded walk
  // ---------------------------------------------------------------------------

  datatype One = One(text: string, seen: set<nat>)

  datatype Walked = Walked(texts: seq<string>, seen: set<nat>)

  /** `walkErrorMessages` on one value: its text, and the objects seen at the end. */
  function WalkOne(h: Heap, v: Value, seen: set<nat>, parent: Option<string>): (one: One)
    requires Closed(h) && InHeap(h, [v])
    ensures seen <= one.seen
    decreases |h.Keys - seen|, 0
  {
    if v.NoObject? || v.id in seen then One("", seen)
    else
      assert [v][0] == v;
      Fewer(h, seen, seen + {v.id}, v.id);
      var n := h[v.id];
      var w := Walk(h, ChildErrors(n), seen + {v.id}, NextToken(n, parent));
      One(Compose(OwnText(n, parent), JoinReadable(w.texts)), w.seen)
  }

  /** The walk over siblings, from the left. */
  function Walk(h: Heap, vs: seq<Value>, seen: set<nat>, parent: Option<string>): (w: Walked)
    requires Closed(h) && InHeap(h, vs)
    ensures |w.texts| == |vs| && seen <= w.seen
    decreases |h.Keys - seen|, |vs|
  {
    if vs == [] then Walked([], seen)
    else
      var k := |vs| - 1;
      var before := Walk(h, vs[..k], seen, parent);
      NotMore(h, seen, before.seen);
      var last := WalkOne(h, vs[k], before.seen, parent);
      Walked(before.texts + [last.text], last.seen)
  }

  lemma {:induction false} NotMore(h: Heap, seen: set<nat>, more: set<nat>)
    requires seen <= more
    ensures |h.Keys - more| <= |h.Keys - seen|
  {
    Subset(h.Keys - more, h.Keys - seen);
  }

  lemma {:induction false} Subset(a: set<nat>, b: set<nat>)
    requires a <= b
    ensures |a| <= |b|
  {
    assert b == a + (b - a);
    assert |a + (b - a)| == |a| + |b - a|;
  }

  /** Each object entered leaves fewer to enter. */
  lemma {:induction false} Fewer(h: Heap, seen: set<nat>, more: set<nat>, id: nat)
    requires seen <= more && id in h && id !in seen && id in more
    ensures |h.Keys - more| < |h.Keys - seen|
  {
    Subset((h.Keys - more) + {id}, h.Keys - seen);
  }

  class WeakSet {
    var members: set<nat>

    constructor ()
      ensures members == {}
    {
      members := {};
    }

    method Add(id: nat)
      modifies this
      ensures members == old(members) + {id}
    {
      members := members + {id};
    }
  }

  method WalkErrorMessages(h: Heap, e: Value, seen: WeakSet, parentToken: Option<string>) returns (text: string)
    requires Closed(h) && InHeap(h, [e])
    modifies seen
    ensures One(text, seen.members) == WalkOne(h, e, old(seen.members), parentToken)
    decreases |h.Keys - seen.members|, 0
  {
    assert e == [e][0];
    if e.NoObject? || e.id in seen.members {
      return "";
    }
    seen.Add(e.id);
    var n := h[e.id];
    Fewer(h, old(seen.members), seen.members, e.id);
    var texts := WalkChildren(h, ChildErrors(n), seen, NextToken(n, parentToken));
    text := Compose(OwnText(n, parentToken), JoinReadable(texts));
  }

  /** The text of each child. */
  method WalkChildren(h: Heap, children: seq<Value>, seen: WeakSet, token: Option<string>) returns (texts: seq<string>)
    requires Closed(h) && InHeap(h, children)
    modifies seen
    ensures Walked(texts, seen.members) == Walk(h, children, old(seen.members), token)
    decreases |h.Keys - seen.members|, 1
  {
    ghost var start := seen.members;
    texts := [];
    for i := 0 to |children|
      invariant start <= seen.members
      invariant Walked(texts, seen.members) == Walk(h, children[..i], start, token)
    {
      assert children[..i + 1][..i] == children[..i];
      NotMore(h, start, seen.members);
      var t := WalkErrorMessages(h, children[i], seen, token);
      texts := texts + [t];
    }
    assert children[..|children|] == children;
  }

  /** `errorMessage` */
  method ErrorMessage(h: Heap, e: Value) returns (text: string)
    requires Closed(h) && InHeap(h, [e])
    ensures text == Summary(h, e)
    ensures Silent(h, e) ==>
              text == if Kind(h, e).Some? then Kind(h, e).value else "unknown error"
    ensures !Silent(h, e) ==> text == WalkOne(h, e, {}, None).text != ""
  {
    assert e == [e][0];
    FallsBackIff(h, e);
    var seen := new WeakSet();
    var walked := WalkErrorMessages(h, e, seen, None);
    if |walked| > 0 {
      return walked;
    }
    text := Fallback(h, e);
  }

  /** No object that the walk enters has a message. */
  ghost predicate Silent(h: Heap, e: Value)
    requires Closed(h) && InHeap(h, [e])
  {
    EntersAllReachable(h, e, {});
    forall x :: x in Entered(h, e) ==> OwnToken(h[x]).None?
  }

  /** An `AggregateError` has no `kind`. */
  function Kind(h: Heap, e: Value): Option<string>
    requires InHeap(h, [e])
  {
    assert e == [e][0];
    if e.NoObject? || h[e.id].Aggregate? then None else h[e.id].kind
  }

  function Fallback(h: Heap, e: Value): string
    requires InHeap(h, [e])
  {
    assert e == [e][0];
    if e.Obj? && !h[e.id].Aggregate? && h[e.id].kind.Some? then h[e.id].kind.value else "unknown error"
  }

  function Summary(h: Heap, e: Value): string
    requires Closed(h) && InHeap(h, [e])
  {
    var text := WalkOne(h, e, {}, None).text;
    if text != "" then text else Fallback(h, e)
  }

  // ---------------------------------------------------------------------------
  // The same walk without the guard, on forests
  // ---------------------------------------------------------------------------

  datatype Forest = Empty | Grow(before: Forest, id: nat, children: Forest)

  function PlainText(h: Heap, f: Forest, parent: Option<string>): string {
    if f.Empty? || f.id !in h then ""
    else
      var n := h[f.id];
      Beside(PlainText(h, f.before, parent),
          Compose(OwnText(n, parent), PlainText(h, f.children, NextToken(n, parent))))
  }

  function IdSet(f: Forest): set<nat> {
    if f.Empty? then {} else IdSet(f.before) + {f.id} + IdSet(f.children)
  }

  /** No object occurs twice. */
  ghost predicate Distinct(f: Forest) {
    f.Grow? ==>
      && Distinct(f.before) && Distinct(f.children)
      && f.id !in IdSet(f.before) && f.id !in IdSet(f.children)
      && IdSet(f.before) !! IdSet(f.children)
  }

  /** `f` is all that can be reached from `vs`, unfolded. */
  ghost predicate Unfolds(h: Heap, vs: seq<Value>, f: Forest)
    requires Closed(h) && InHeap(h, vs)
    decreases f, |vs|
  {
    if vs == [] then f.Empty?
    else
      var v, before := vs[|vs| - 1], vs[..|vs| - 1];
      if v.NoObject? then Unfolds(h, before, f)
      else f.Grow? && f.id == v.id && Unfolds(h, ChildErrors(h[v.id]), f.children) && Unfolds(h, before, f.before)
  }

  /** `f` is drawn from the graph: its roots are objects of `vs`, in their order, and so below each of them. */
  ghost predicate Drawn(h: Heap, vs: seq<Value>, f: Forest)
    decreases f, |vs|
  {
    if vs == [] then f.Empty?
    else
      var v, before := vs[|vs| - 1], vs[..|vs| - 1];
      || Drawn(h, before, f)
      || (f.Grow? && v == Obj(f.id) && f.id in h && Drawn(h, ChildErrors(h[f.id]), f.children)
          && Drawn(h, before, f.before))
  }

  // ---------------------------------------------------------------------------
  // The forest that the guard cuts out of the graph
  // ---------------------------------------------------------------------------

  datatype Spanned = Spanned(forest: Forest, seen: set<nat>)

  /** Each object becomes a child of the one from which the walk enters it. */
  function Span(h: Heap, vs: seq<Value>, seen: set<nat>): (s: Spanned)
    requires Closed(h) && InHeap(h, vs)
    ensures seen <= s.seen
    decreases |h.Keys - seen|, |vs|
  {
    if vs == [] then Spanned(Empty, seen)
    else
      var v := vs[|vs| - 1];
      var before := Span(h, vs[..|vs| - 1], seen);
      if v.NoObject? || v.id in before.seen then before
      else
        Fewer(h, seen, before.seen + {v.id}, v.id);
        var below := Span(h, ChildErrors(h[v.id]), before.seen + {v.id});
        Spanned(Grow(before.forest, v.id, below.forest), below.seen)
  }

  /** A forest of the objects that were not seen at the start, each once. */
  ghost predicate Covers(s: Spanned, start: set<nat>) {
    start <= s.seen && Distinct(s.forest) && IdSet(s.forest) == s.seen - start
  }

  lemma {:induction false} GrowCovers(before: Spanned, id: nat, below: Spanned, start: set<nat>)
    requires Covers(before, start) && id !in before.seen && Covers(below, before.seen + {id})
    ensures Covers(Spanned(Grow(before.forest, id, below.forest), below.seen), start)
  {
  }

  lemma {:induction false} SpanDistinct(h: Heap, vs: seq<Value>, seen: set<nat>)
    requires Closed(h) && InHeap(h, vs)
    ensures Covers(Span(h, vs, seen), seen)
    decreases |h.Keys - seen|, |vs|
  {
    if vs != [] {
      var v := vs[|vs| - 1];
      var before := Span(h, vs[..|vs| - 1], seen);
      SpanDistinct(h, vs[..|vs| - 1], seen);
      if v.Obj? && v.id !in before.seen {
        Fewer(h, seen, before.seen + {v.id}, v.id);
        var below := Span(h, ChildErrors(h[v.id]), before.seen + {v.id});
        SpanDistinct(h, ChildErrors(h[v.id]), before.seen + {v.id});
        GrowCovers(before, v.id, below, seen);
        assert Span(h, vs, seen) == Spanned(Grow(before.forest, v.id, below.forest), below.seen);
      } else {
        assert Span(h, vs, seen) == before;
      }
    }
  }

  lemma {:induction false} SpanDrawn(h: Heap, vs: seq<Value>, seen: set<nat>)
    requires Closed(h) && InHeap(h, vs)
    ensures Drawn(h, vs, Span(h, vs, seen).forest)
    decreases |h.Keys - seen|, |vs|
  {
    if vs != [] {
      var v := vs[|vs| - 1];
      var before := Span(h, vs[..|vs| - 1], seen);
      SpanDrawn(h, vs[..|vs| - 1], seen);
      if v.Obj? && v.id !in before.seen {
        Fewer(h, seen, before.seen + {v.id}, v.id);
        SpanDrawn(h, ChildErrors(h[v.id]), before.seen + {v.id});
      }
    }
  }

  ghost predicate Prints(h: Heap, w: Walked, s: Spanned, parent: Option<string>) {
    w.seen == s.seen && JoinReadable(w.texts) == PlainText(h, s.forest, parent)
  }

  lemma {:induction false} GrowPrints(h: Heap, w: Walked, s: Spanned, id: nat, inner: Walked, below: Spanned,
                                      parent: Option<string>)
    requires id in h && Prints(h, w, s, parent) && Prints(h, inner, below, NextToken(h[id], parent))
    ensures PlainText(h, Grow(s.forest, id, below.forest), parent)
         == Beside(JoinReadable(w.texts), Compose(OwnText(h[id], parent), JoinReadable(inner.texts)))
  {
  }

  /** The guarded walk prints the spanning forest as the walk without a guard would. */
  lemma {:induction false} WalkPrintsSpan(h: Heap, vs: seq<Value>, seen: set<nat>, parent: Option<string>)
    requires Closed(h) && InHeap(h, vs)
    ensures Prints(h, Walk(h, vs, seen, parent), Span(h, vs, seen), parent)
    decreases |h.Keys - seen|, |vs|, 1
  {
    if vs != [] {
      var v := vs[|vs| - 1];
      WalkPrintsSpan(h, vs[..|vs| - 1], seen, parent);
      LastText(h, vs, seen, parent);
      var before := Span(h, vs[..|vs| - 1], seen);
      if v.NoObject? || v.id in before.seen {
        assert Span(h, vs, seen) == before;
      } else {
        EnteredPrints(h, vs, seen, parent);
      }
    }
  }

  lemma {:induction false} EnteredPrints(h: Heap, vs: seq<Value>, seen: set<nat>, parent: Option<string>)
    requires Closed(h) && InHeap(h, vs) && vs != []
    requires var v := vs[|vs| - 1]; v.Obj? && v.id !in Span(h, vs[..|vs| - 1], seen).seen
    requires Prints(h, Walk(h, vs[..|vs| - 1], seen, parent), Span(h, vs[..|vs| - 1], seen), parent)
    ensures Prints(h, Walk(h, vs, seen, parent), Span(h, vs, seen), parent)
    decreases |h.Keys - seen|, |vs|, 0
  {
    var id := vs[|vs| - 1].id;
    var n := h[id];
    var w, before := Walk(h, vs[..|vs| - 1], seen, parent), Span(h, vs[..|vs| - 1], seen);
    var start := before.seen + {id};
    Fewer(h, seen, start, id);
    WalkPrintsSpan(h, ChildErrors(n), start, NextToken(n, parent));
    var inner, below := Walk(h, ChildErrors(n), start, NextToken(n, parent)), Span(h, ChildErrors(n), start);
    GrowPrints(h, w, before, id, inner, below, parent);
    LastText(h, vs, seen, parent);
    assert Span(h, vs, seen) == Spanned(Grow(before.forest, id, below.forest), below.seen);
  }

  lemma {:induction false} LastText(h: Heap, vs: seq<Value>, seen: set<nat>, parent: Option<string>)
    requires Closed(h) && InHeap(h, vs) && vs != []
    ensures var before := Walk(h, vs[..|vs| - 1], seen, parent);
            var last := WalkOne(h, vs[|vs| - 1], before.seen, parent);
            && Walk(h, vs, seen, parent).seen == last.seen
            && JoinReadable(Walk(h, vs, seen, parent).texts) == Beside(JoinReadable(before.texts), last.text)
  {
    var before := Walk(h, vs[..|vs| - 1], seen, parent);
    var last := WalkOne(h, vs[|vs| - 1], before.seen, parent);
    assert (before.texts + [last.text])[..|before.texts|] == before.texts;
  }

  /** On a forest that shares nothing the guard never fires: the walk finds the whole unfolding. */
  lemma {:induction false} SpanOfForest(h: Heap, vs: seq<Value>, f: Forest, seen: set<nat>)
    requires Closed(h) && InHeap(h, vs) && Unfolds(h, vs, f) && Distinct(f) && IdSet(f) !! seen
    ensures Span(h, vs, seen) == Spanned(f, seen + IdSet(f))
    decreases f, |vs|
  {
    if vs != [] {
      var v, before := vs[|vs| - 1], vs[..|vs| - 1];
      if v.NoObject? {
        SpanOfForest(h, before, f, seen);
      } else {
        SpanOfForest(h, before, f.before, seen);
        SpanOfForest(h, ChildErrors(h[v.id]), f.children, seen + IdSet(f.before) + {v.id});
        assert seen + IdSet(f.before) + {v.id} + IdSet(f.children) == seen + IdSet(f);
      }
    }
  }

  // ---------------------------------------------------------------------------
  // What the walk reaches
  // ---------------------------------------------------------------------------

  ghost predicate Within(vs: seq<Value>, c: set<nat>) {
    forall i :: 0 <= i < |vs| && vs[i].Obj? ==> vs[i].id in c
  }

  /** `c` contains the children of its objects. */
  ghost predicate ClosedSet(h: Heap, c: set<nat>) {
    forall id :: id in c ==> id in h && Within(ChildErrors(h[id]), c)
  }

  ghost predicate ClosedFrom(h: Heap, start: set<nat>, c: set<nat>) {
    forall id :: id in c && id !in start ==> id in h && Within(ChildErrors(h[id]), c)
  }

  lemma {:induction false} SpanCloses(h: Heap, vs: seq<Value>, seen: set<nat>)
    requires Closed(h) && InHeap(h, vs)
    ensures Within(vs, Span(h, vs, seen).seen) && ClosedFrom(h, seen, Span(h, vs, seen).seen)
    decreases |h.Keys - seen|, |vs|
  {
    if vs != [] {
      var v := vs[|vs| - 1];
      var before := Span(h, vs[..|vs| - 1], seen);
      SpanCloses(h, vs[..|vs| - 1], seen);
      if v.Obj? && v.id !in before.seen {
        Fewer(h, seen, before.seen + {v.id}, v.id);
        SpanCloses(h, ChildErrors(h[v.id]), before.seen + {v.id});
      }
      WithinSnoc(vs, before.seen, Span(h, vs, seen).seen);
    }
  }

  lemma {:induction false} WithinSnoc(vs: seq<Value>, before: set<nat>, after: set<nat>)
    requires vs != [] && before <= after && Within(vs[..|vs| - 1], before)
    requires vs[|vs| - 1].Obj? ==> vs[|vs| - 1].id in after
    ensures Within(vs, after)
  {
    forall i | 0 <= i < |vs| && vs[i].Obj? ensures vs[i].id in after {
      if i < |vs| - 1 {
        assert vs[..|vs| - 1][i] == vs[i];
      }
    }
  }

  lemma {:induction false} SpanStays(h: Heap, vs: seq<Value>, seen: set<nat>, c: set<nat>)
    requires Closed(h) && InHeap(h, vs) && ClosedSet(h, c) && Within(vs, c)
    ensures Span(h, vs, seen).seen <= seen + c
    decreases |h.Keys - seen|, |vs|
  {
    if vs != [] {
      var v := vs[|vs| - 1];
      var before := Span(h, vs[..|vs| - 1], seen);
      SpanStays(h, vs[..|vs| - 1], seen, c);
      if v.Obj? && v.id !in before.seen {
        Fewer(h, seen, before.seen + {v.id}, v.id);
        SpanStays(h, ChildErrors(h[v.id]), before.seen + {v.id}, c);
      }
    }
  }

  // ---------------------------------------------------------------------------
  // Which messages are shown
  // ---------------------------------------------------------------------------

  ghost predicate Shows(text: string, token: Option<string>, parent: Option<string>) {
    token.None? || token == parent || Includes(text, token.value)
  }

  lemma {:induction false} IncludesAround(a: string, s: string, b: string, part: string)
    requires Includes(s, part)
    ensures Includes(a + s + b, part)
  {
    var i :| 0 <= i <= |s| && StartsWith(s[i..], part);
    var whole := a + s + b;
    assert whole[|a| + i..] == s[i..] + b;
    assert StartsWith(whole[|a| + i..], part);
  }

  lemma {:induction false} BesideShows(left: string, right: string, token: Option<string>, parent: Option<string>)
    requires token != Some("") && (Shows(left, token, parent) || Shows(right, token, parent))
    ensures Shows(Beside(left, right), token, parent)
  {
    if token.Some? && token != parent {
      var part := token.value;
      if Includes(left, part) {
        IncludesAround("", left, SIBLING_SEPARATOR + right, part);
        assert left != "";
        assert "" + left + (SIBLING_SEPARATOR + right) == left + SIBLING_SEPARATOR + right;
      } else {
        IncludesAround(left + SIBLING_SEPARATOR, right, "", part);
        assert left + SIBLING_SEPARATOR + right + "" == left + SIBLING_SEPARATOR + right;
      }
    }
  }

  lemma {:induction false} ComposeShows(n: Node, parent: Option<string>, children: string, token: Option<string>)
    requires token != Some("") && (token == OwnToken(n) || Shows(children, token, NextToken(n, parent)))
    ensures Shows(Compose(OwnText(n, parent), children), token, parent)
  {
    if token.Some? && token != parent {
      var own, part := OwnText(n, parent), token.value;
      var text := Compose(own, children);
      if token == OwnToken(n) {
        assert text[0..] == text && StartsWith(text[0..], part);
      } else if own.Some? && children != "" {
        IncludesAround(own.value + ": ", children, "", part);
        assert own.value + ": " + children + "" == text;
      }
    }
  }

  lemma {:induction false} WalkOneShows(h: Heap, v: Value, seen: set<nat>, parent: Option<string>, x: nat)
    requires Closed(h) && InHeap(h, [v]) && x in h && x !in seen && x in WalkOne(h, v, seen, parent).seen
    ensures Shows(WalkOne(h, v, seen, parent).text, OwnToken(h[x]), parent)
    decreases |h.Keys - seen|, 0
  {
    assert [v][0] == v;
    var n := h[v.id];
    if x != v.id {
      Fewer(h, seen, seen + {v.id}, v.id);
      WalkShows(h, ChildErrors(n), seen + {v.id}, NextToken(n, parent), x);
    }
    var w := Walk(h, ChildErrors(n), seen + {v.id}, NextToken(n, parent));
    ComposeShows(n, parent, JoinReadable(w.texts), OwnToken(h[x]));
  }

  lemma {:induction false} WalkShows(h: Heap, vs: seq<Value>, seen: set<nat>, parent: Option<string>, x: nat)
    requires Closed(h) && InHeap(h, vs) && x in h && x !in seen && x in Walk(h, vs, seen, parent).seen
    ensures Shows(JoinReadable(Walk(h, vs, seen, parent).texts), OwnToken(h[x]), parent)
    decreases |h.Keys - seen|, |vs|
  {
    var k := |vs| - 1;
    var before := Walk(h, vs[..k], seen, parent);
    var last := WalkOne(h, vs[k], before.seen, parent);
    assert (before.texts + [last.text])[..k] == before.texts;
    if x in before.seen {
      WalkShows(h, vs[..k], seen, parent, x);
    } else {
      NotMore(h, seen, before.seen);
      WalkOneShows(h, vs[k], before.seen, parent, x);
    }
    BesideShows(JoinReadable(before.texts), last.text, OwnToken(h[x]), parent);
  }

  // ---------------------------------------------------------------------------
  // Main results
  // ---------------------------------------------------------------------------

  /** The objects that the walk enters. */
  function Entered(h: Heap, e: Value): set<nat>
    requires Closed(h) && InHeap(h, [e])
  {
    WalkOne(h, e, {}, None).seen
  }

  lemma {:induction false} RootWalk(h: Heap, e: Value)
    requires Closed(h) && InHeap(h, [e])
    ensures Entered(h, e) == Span(h, [e], {}).seen
    ensures WalkOne(h, e, {}, None).text == PlainText(h, Span(h, [e], {}).forest, None)
  {
    assert [e][..0] == [];
    LastText(h, [e], {}, None);
    WalkPrintsSpan(h, [e], {}, None);
  }

  /** The walk enters exactly what can be reached by its own children: the least set with the root and all of them. */
  lemma {:induction false} EntersAllReachable(h: Heap, e: Value, c: set<nat>)
    requires Closed(h) && InHeap(h, [e])
    ensures Within([e], Entered(h, e)) && ClosedSet(h, Entered(h, e))
    ensures Within([e], c) && ClosedSet(h, c) ==> Entered(h, e) <= c
  {
    RootWalk(h, e);
    SpanCloses(h, [e], {});
    if Within([e], c) && ClosedSet(h, c) {
      SpanStays(h, [e], {}, c);
    }
  }

  /**
   On any graph the guarded walk prints one tree as a walk without a guard would: its nodes are the
   objects it enters, each once, so no object contributes twice; its edges are edges of the graph.
   */
  lemma {:induction false} EachObjectOnce(h: Heap, e: Value) returns (f: Forest)
    requires Closed(h) && InHeap(h, [e])
    ensures Distinct(f) && IdSet(f) == Entered(h, e) && Drawn(h, [e], f)
    ensures if e.Obj? then f.Grow? && f.before.Empty? && f.id == e.id else f.Empty?
    ensures WalkOne(h, e, {}, None).text == PlainText(h, f, None)
  {
    RootWalk(h, e);
    SpanDistinct(h, [e], {});
    SpanDrawn(h, [e], {});
    f := Span(h, [e], {}).forest;
    assert [e][..0] == [];
    assert Span(h, [e], {}).seen - {} == Span(h, [e], {}).seen;
  }

  /** On a tree the guard changes nothing. */
  lemma {:induction false} GuardIsIdleOnTrees(h: Heap, e: Value, f: Forest)
    requires Closed(h) && InHeap(h, [e]) && Unfolds(h, [e], f) && Distinct(f)
    ensures WalkOne(h, e, {}, None).text == PlainText(h, f, None)
  {
    SpanOfForest(h, [e], f, {});
    RootWalk(h, e);
  }

  /** The summary shows the message of every object that the walk enters. */
  lemma {:induction false} NoMessageIsLost(h: Heap, e: Value, x: nat)
    requires Closed(h) && InHeap(h, [e]) && x in Entered(h, e)
    ensures x in h
    ensures OwnToken(h[x]).Some? ==> Includes(WalkOne(h, e, {}, None).text, OwnToken(h[x]).value)
    ensures OwnToken(h[x]).Some? ==> Includes(Summary(h, e), OwnToken(h[x]).value)
  {
    EntersAllReachable(h, e, {});
    WalkOneShows(h, e, {}, None, x);
    if OwnToken(h[x]).Some? {
      assert Includes(WalkOne(h, e, {}, None).text, OwnToken(h[x]).value);
    }
  }

  lemma {:induction false} SilentForest(h: Heap, f: Forest, parent: Option<string>)
    requires parent.None? && forall x :: x in IdSet(f) && x in h ==> OwnToken(h[x]).None?
    ensures PlainText(h, f, parent) == ""
  {
    if f.Grow? && f.id in h {
      SilentForest(h, f.before, parent);
      SilentForest(h, f.children, parent);
    }
  }

  /** The fallback is used exactly when no entered object has a message. */
  lemma {:induction false} FallsBackIff(h: Heap, e: Value)
    requires Closed(h) && InHeap(h, [e])
    ensures (forall x :: x in Entered(h, e) ==> x in h)
    ensures WalkOne(h, e, {}, None).text == "" <==> forall x :: x in Entered(h, e) ==> OwnToken(h[x]).None?
  {
    EntersAllReachable(h, e, {});
    var f := EachObjectOnce(h, e);
    if forall x :: x in Entered(h, e) ==> OwnToken(h[x]).None? {
      SilentForest(h, f, None);
    } else {
      var x :| x in Entered(h, e) && OwnToken(h[x]).Some?;
      NoMessageIsLost(h, e, x);
    }
  }

  // ---------------------------------------------------------------------------
  // Causes that a list of errors hides
  // ---------------------------------------------------------------------------

  /** A way through lists of errors and causes. */
  ghost predicate IsPath(h: Heap, path: seq<nat>) {
    var k := |path| - 1;
    k <= 0 || (path[k - 1] in h && Links(h[path[k - 1]], path[k]) && IsPath(h, path[..k]))
  }

  ghost predicate PathTo(h: Heap, e: Value, path: seq<nat>, x: nat) {
    path != [] && e == Obj(path[0]) && path[|path| - 1] == x && IsPath(h, path)
  }

  /** An object of the whole error tree, nested causes included. */
  ghost predicate InTree(h: Heap, e: Value, x: nat) {
    exists path :: PathTo(h, e, path, x)
  }

  lemma {:induction false} TreeGrows(h: Heap, e: Value, x: nat, y: nat)
    requires InTree(h, e, x) && x in h && Links(h[x], y)
    ensures InTree(h, e, y)
  {
    var path :| PathTo(h, e, path, x);
    var longer := path + [y];
    assert longer[..|path|] == path;
    assert PathTo(h, e, longer, y);
  }

  lemma {:induction false} EnteredInTree(h: Heap, e: Value, x: nat)
    requires Closed(h) && InHeap(h, [e]) && x in Entered(h, e)
    ensures InTree(h, e, x)
  {
    var c := set y | y in h && InTree(h, e, y);
    assert Within([e], c) by {
      if e.Obj? {
        assert [e][0] == e;
        assert PathTo(h, e, [e.id], e.id);
      }
    }
    forall y | y in c ensures Within(ChildErrors(h[y]), c) {
      var vs := ChildErrors(h[y]);
      forall i | 0 <= i < |vs| && vs[i].Obj? ensures vs[i].id in c {
        assert vs[i] == Obj(vs[i].id) && vs[i] in vs;
        TreeGrows(h, e, y, vs[i].id);
      }
    }
    EntersAllReachable(h, e, c);
  }

  /** The cause of an object with a list of errors, not entered on another way. */
  ghost predicate Hides(h: Heap, e: Value, x: nat)
    requires Closed(h) && InHeap(h, [e])
  {
    && x in Entered(h, e) && x in h && h[x].cause.Some? && h[x].cause.value.Obj?
    && (h[x].Aggregate? || h[x].errors.Some?) && h[x].cause.value.id !in Entered(h, e)
  }

  /** The walk covers the whole tree exactly when no object hides its cause behind a list of errors. */
  lemma {:induction false} CoversTreeIff(h: Heap, e: Value)
    requires Closed(h) && InHeap(h, [e])
    ensures (forall x :: InTree(h, e, x) <==> x in Entered(h, e)) <==> forall x :: !Hides(h, e, x)
  {
    forall x | x in Entered(h, e) ensures InTree(h, e, x) {
      EnteredInTree(h, e, x);
    }
    if x :| Hides(h, e, x) {
      TreeGrows(h, e, x, h[x].cause.value.id);
    } else {
      forall x, y | x in Entered(h, e) && x in h && Links(h[x], y) ensures y in Entered(h, e) {
        LinkEntered(h, e, x, y);
      }
      RootEntered(h, e);
      forall x | InTree(h, e, x) ensures x in Entered(h, e) {
        var path :| PathTo(h, e, path, x);
        PathWithin(h, path, Entered(h, e));
      }
    }
  }

  ghost predicate Follows(h: Heap, c: set<nat>) {
    forall x, y :: x in c && x in h && Links(h[x], y) ==> y in c
  }

  lemma {:induction false} PathWithin(h: Heap, path: seq<nat>, c: set<nat>)
    requires Follows(h, c) && path != [] && path[0] in c && IsPath(h, path)
    ensures path[|path| - 1] in c
  {
    var k := |path| - 1;
    if k > 0 {
      PathWithin(h, path[..k], c);
    }
  }

  lemma {:induction false} RootEntered(h: Heap, e: Value)
    requires Closed(h) && InHeap(h, [e])
    ensures e.Obj? ==> e.id in Entered(h, e)
  {
    assert [e][0] == e;
  }

  lemma {:induction false} LinkEntered(h: Heap, e: Value, x: nat, y: nat)
    requires Closed(h) && InHeap(h, [e]) && x in Entered(h, e) && !Hides(h, e, x)
    requires x in h && Links(h[x], y)
    ensures y in Entered(h, e)
  {
    EntersAllReachable(h, e, {});
    var vs := ChildErrors(h[x]);
    if Obj(y) in vs {
      var i :| 0 <= i < |vs| && vs[i] == Obj(y);
      assert vs[i].Obj?;
    }
  }

  /** Then no message of the tree is lost. */
  lemma {:induction false} NoMessageOfTreeIsLost(h: Heap, e: Value, x: nat)
    requires Closed(h) && InHeap(h, [e]) && InTree(h, e, x) && forall y :: !Hides(h, e, y)
    ensures x in h && (OwnToken(h[x]).Some? ==> Includes(Summary(h, e), OwnToken(h[x]).value))
  {
    CoversTreeIff(h, e);
    NoMessageIsLost(h, e, x);
  }

  /** An empty list of errors hides the cause and its message. */
  lemma {:induction false} EmptyListHidesCause(outer: Node, inner: Node)
    requires outer == ErrorInstance("a", Some([]), Some(Obj(1)), None)
    requires inner == ErrorInstance("b", None, None, None)
    ensures var h := map[0 := outer, 1 := inner];
            Closed(h) && InHeap(h, [Obj(0)]) && InTree(h, Obj(0), 1) && Summary(h, Obj(0)) == "a"
  {
    var h := map[0 := outer, 1 := inner];
    assert ChildErrors(outer) == [] && ChildErrors(inner) == [];
    var path := [0, 1];
    assert path[..1] == [0] && IsPath(h, [0]);
    assert PathTo(h, Obj(0), path, 1);
    assert WalkOne(h, Obj(0), {}, None).text == Compose(Some("a"), JoinReadable([]));
  }

  // ---------------------------------------------------------------------------
  // How messages are taken and joined
  // ---------------------------------------------------------------------------

  /** Where a node's message is looked for, in order. */
  function Fields(n: Node): seq<Option<string>> {
    if n.Plain? then [n.text, n.reason, n.errorName] else [Some(n.message)]
  }

  /** A node's message is the first of them that is there and not empty. */
  lemma {:induction false} TokenIsFirst(n: Node, t: string)
    ensures OwnToken(n) == Some(t)
       <==> exists i :: 0 <= i < |Fields(n)| && Fields(n)[i] == Some(t) && t != ""
                        && forall j :: 0 <= j < i ==> !NonEmpty(Fields(n)[j])
  {
    var fs := Fields(n);
    if OwnToken(n) == Some(t) {
      var i := if NonEmpty(fs[0]) then 0 else if NonEmpty(fs[1]) then 1 else 2;
      assert fs[i] == Some(t) && forall j :: 0 <= j < i ==> !NonEmpty(fs[j]);
    }
    if i :| 0 <= i < |fs| && fs[i] == Some(t) && t != "" && forall j :: 0 <= j < i ==> !NonEmpty(fs[j]) {
      assert i > 0 ==> !NonEmpty(fs[0]);
      assert i > 1 ==> !NonEmpty(fs[1]);
    }
  }

  lemma {:induction false} NodeText(h: Heap, id: nat, seen: set<nat>, parent: Option<string>)
    requires Closed(h) && id in h && id !in seen
    ensures var w := Walk(h, ChildErrors(h[id]), seen + {id}, NextToken(h[id], parent));
            WalkOne(h, Obj(id), seen, parent) == One(Compose(OwnText(h[id], parent), JoinReadable(w.texts)), w.seen)
  {
    assert [Obj(id)][0] == Obj(id);
  }

  lemma {:induction false} NoChildren(h: Heap, seen: set<nat>, parent: Option<string>)
    requires Closed(h)
    ensures Walk(h, [], seen, parent) == Walked([], seen) && JoinReadable([]) == ""
  {
  }

  lemma {:induction false} OneChild(h: Heap, v: Value, seen: set<nat>, parent: Option<string>)
    requires Closed(h) && InHeap(h, [v])
    ensures var one := WalkOne(h, v, seen, parent);
            Walk(h, [v], seen, parent) == Walked([one.text], one.seen) && JoinReadable([one.text]) == one.text
  {
    var one := WalkOne(h, v, seen, parent);
    NoChildren(h, seen, parent);
    assert [v][..0] == [] && [one.text][..0] == [];
    assert [] + [one.text] == [one.text];
  }

  lemma {:induction false} TwoChildren(h: Heap, u: Value, v: Value, seen: set<nat>, parent: Option<string>)
    requires Closed(h) && InHeap(h, [u, v])
    ensures InHeap(h, [u]) && InHeap(h, [v])
    ensures var first := WalkOne(h, u, seen, parent);
            var second := WalkOne(h, v, first.seen, parent);
            JoinReadable(Walk(h, [u, v], seen, parent).texts) == Beside(first.text, second.text)
  {
    assert [u, v][0] == u && [u, v][1] == v && [u, v][..1] == [u];
    var first := WalkOne(h, u, seen, parent);
    OneChild(h, u, seen, parent);
    LastText(h, [u, v], seen, parent);
  }

  lemma {:induction false} LeafText(h: Heap, id: nat, seen: set<nat>, parent: Option<string>)
    requires Closed(h) && id in h && id !in seen && ChildErrors(h[id]) == []
    ensures WalkOne(h, Obj(id), seen, parent) == One(Compose(OwnText(h[id], parent), ""), seen + {id})
  {
    NodeText(h, id, seen, parent);
    NoChildren(h, seen + {id}, NextToken(h[id], parent));
  }

  lemma {:induction false} CauseText(h: Heap, id: nat, v: Value, seen: set<nat>, parent: Option<string>)
    requires Closed(h) && id in h && id !in seen && ChildErrors(h[id]) == [v] && InHeap(h, [v])
    ensures WalkOne(h, Obj(id), seen, parent).text
         == Compose(OwnText(h[id], parent), WalkOne(h, v, seen + {id}, NextToken(h[id], parent)).text)
  {
    NodeText(h, id, seen, parent);
    OneChild(h, v, seen + {id}, NextToken(h[id], parent));
  }

  /** A message, then after a colon those of its errors, with a dash between siblings. */
  lemma {:induction false} MessagesJoined(outer: string, a: string, b: string, h: Heap)
    requires outer != "" && a != "" && b != "" && a != outer && b != outer
    requires Closed(h) && 0 in h && 1 in h && 2 in h && h[0] == Aggregate(outer, [Obj(1), Obj(2)], None)
    requires h[1] == ErrorInstance(a, None, None, None) && h[2] == ErrorInstance(b, None, None, None)
    ensures Summary(h, Obj(0)) == outer + ": " + (a + " \U{2014}\U{2014} " + b)
  {
    assert ChildErrors(h[0]) == [Obj(1), Obj(2)] && ChildErrors(h[1]) == [] && ChildErrors(h[2]) == [];
    var token := Some(outer);
    NodeText(h, 0, {}, None);
    TwoChildren(h, Obj(1), Obj(2), {0}, token);
    LeafText(h, 1, {0}, token);
    LeafText(h, 2, {0, 1}, token);
    assert {} + {0} == {0} && {0} + {1} == {0, 1};
  }

  lemma {:induction false} RepeatIsDropped(outer: string, inner: string, h: Heap, seen: set<nat>)
    requires outer != "" && inner != "" && inner != outer && 1 !in seen && 2 !in seen
    requires Closed(h) && 1 in h && 2 in h && h[1] == ErrorInstance(outer, None, Some(Obj(2)), None)
    requires h[2] == ErrorInstance(inner, None, None, None)
    ensures InHeap(h, [Obj(1)]) && WalkOne(h, Obj(1), seen, Some(outer)).text == inner
  {
    assert ChildErrors(h[1]) == [Obj(2)] && ChildErrors(h[2]) == [];
    assert [Obj(1)][0] == Obj(1) && [Obj(2)][0] == Obj(2);
    CauseText(h, 1, Obj(2), seen, Some(outer));
    LeafText(h, 2, seen + {1}, Some(outer));
  }

  /** A message that repeats the one above it is left out, and what lies below it is not. */
  lemma {:induction false} RepeatedOnce(outer: string, inner: string, h: Heap)
    requires outer != "" && inner != "" && inner != outer
    requires Closed(h) && 0 in h && 1 in h && 2 in h && h[0] == ErrorInstance(outer, None, Some(Obj(1)), None)
    requires h[1] == ErrorInstance(outer, None, Some(Obj(2)), None) && h[2] == ErrorInstance(inner, None, None, None)
    ensures Summary(h, Obj(0)) == outer + ": " + inner
  {
    assert ChildErrors(h[0]) == [Obj(1)];
    RepeatIsDropped(outer, inner, h, {} + {0});
    CauseText(h, 0, Obj(1), {}, None);
  }
}
