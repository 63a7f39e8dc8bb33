/**
 Resolving `[link-N]` tokens in the classifier's whole answer, `resolveLinkTokensDeep` of `classifier.ts`:
 what comes back of the text the model copied.
 */
module LinkTree {
  import opened Options
  import opened Text
  import opened LinkRedaction
  import opened LinkDocuments
  import opened LinkRoundTrip

  /** A JSON value; `Other` is a number or a boolean. */
  datatype Json = Null | Text(s: string) | Other(id: int) | Array(items: seq<Json>)
    | Record(keys: seq<string>, items: seq<Json>)

  /** What a string becomes. */
  function ResolvedText(s: string, urls: map<string, string>): Json {
    match ResolveLinkTokensInString(s, urls)
    case Some(t) => Text(t)
    case None => Null
  }

  function ResolvedChild(node: Json, urls: map<string, string>): Json {
    if node.Text? then ResolvedText(node.s, urls)
    else if node.Array? || node.Record? then
      node.(items := seq(|node.items|, i requires 0 <= i < |node.items| => ResolvedChild(node.items[i], urls)))
    else node
  }

  /** `resolveLinkTokensDeep`: items and fields are replaced one by one; a string at the root is left alone. */
  method ResolveLinkTokensDeep(node: Json, urls: map<string, string>) returns (r: Json)
    ensures r == if node.Text? then node else ResolvedChild(node, urls)
    decreases node
  {
    r := node;
    if !node.Array? && !node.Record? {
      return;
    }
    var items := node.items;
    for i := 0 to |items|
      invariant |items| == |node.items|
      invariant forall j :: 0 <= j < i ==> items[j] == ResolvedChild(node.items[j], urls)
      invariant forall j :: i <= j < |items| ==> items[j] == node.items[j]
    {
      var child := node.items[i];
      if child.Text? {
        items := items[i := ResolvedText(child.s, urls)];
      } else {
        var resolved := ResolveLinkTokensDeep(child, urls);
        items := items[i := resolved];
      }
    }
    r := node.(items := items);
    assert items == seq(|node.items|, i requires 0 <= i < |node.items| => ResolvedChild(node.items[i], urls));
  }

  // ---------------------------------------------------------------------------
  // Copied text comes back
  // ---------------------------------------------------------------------------

  /** An answer whose strings are documents over the link index. */
  datatype Plan = Leaf(d: Doc) | Fixed(id: int) | List(parts: seq<Plan>) | Fields(keys: seq<string>, parts: seq<Plan>)

  /** Every string is plain text with placeholders of the index. */
  ghost predicate Copies(p: Plan, count: nat) {
    match p
    case Leaf(d) => Numbers1To(d, count) && Clean(d)
    case Fixed(_) => true
    case List(parts) => forall i :: 0 <= i < |parts| ==> Copies(parts[i], count)
    case Fields(_, parts) => forall i :: 0 <= i < |parts| ==> Copies(parts[i], count)
  }

  /** The answer as the model gives it. */
  function Written(p: Plan): Json {
    match p
    case Leaf(d) => Text(Render(d))
    case Fixed(id) => Other(id)
    case List(parts) => Array(seq(|parts|, i requires 0 <= i < |parts| => Written(parts[i])))
    case Fields(keys, parts) => Record(keys, seq(|parts|, i requires 0 <= i < |parts| => Written(parts[i])))
  }

  /** The answer with every placeholder spelled out. */
  ghost function Meant(p: Plan, links: seq<Link>): Json
    requires Copies(p, |links|)
  {
    match p
    case Leaf(d) => Text(Expand(d, links))
    case Fixed(id) => Other(id)
    case List(parts) => Array(seq(|parts|, i requires 0 <= i < |parts| => Meant(parts[i], links)))
    case Fields(keys, parts) => Record(keys, seq(|parts|, i requires 0 <= i < |parts| => Meant(parts[i], links)))
  }

  /** Whatever the model copied of the redacted text, at any depth, comes back with its URLs. */
  lemma {:induction false} CopiedTextComesBack(p: Plan, links: seq<Link>)
    requires Copies(p, |links|)
    ensures ResolvedChild(Written(p), LinkMap(Index(links))) == Meant(p, links)
  {
    match p
    case Leaf(d) =>
      LinkMapKnows(links);
      ResolveStringRender(d, LinkMap(Index(links)), links);
    case Fixed(_) =>
    case List(parts) =>
      forall i | 0 <= i < |parts|
        ensures ResolvedChild(Written(parts[i]), LinkMap(Index(links))) == Meant(parts[i], links) {
        CopiedTextComesBack(parts[i], links);
      }
    case Fields(_, parts) =>
      forall i | 0 <= i < |parts|
        ensures ResolvedChild(Written(parts[i]), LinkMap(Index(links))) == Meant(parts[i], links) {
        CopiedTextComesBack(parts[i], links);
      }
  }
}
