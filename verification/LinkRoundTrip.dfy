/** When resolving a redacted body gives the body back, and which URLs redaction removes. */
module LinkRoundTrip {
  import opened Options
  import opened Text
  import opened LinkRedaction
  import opened LinkDocuments

  // ---------------------------------------------------------------------------
  // The two passes, as one list of replacements
  // ---------------------------------------------------------------------------

  ghost predicate NumbersMatch(m: Numbers, links: seq<Link>) {
    forall i :: 0 <= i < |m| ==> 1 <= m[i].1 <= |links| && links[m[i].1 - 1].url == m[i].0 && m[i].0 != ""
  }

  ghost predicate HaveUrls(links: seq<Link>) {
    forall i :: 0 <= i < |links| ==> links[i].url != ""
  }

  /** The URLs of the second pass with their numbers. */
  function FromNumber(urls: seq<string>, n: nat): Numbers {
    seq(|urls|, i requires 0 <= i < |urls| => (urls[i], n + i))
  }

  function Steps(body: string, links: seq<Link>): Numbers {
    SortByLength(Numbered(links)) + FromNumber(ExtraUrls(body, links), |links| + 1)
  }

  /** Some replacement, when its turn comes, cuts a token. */
  ghost predicate SomeCut(s: string, m: Numbers)
    decreases |m|
  {
    && m != [] && m[0].0 != ""
    && (Cuts(s, m[0].0) || SomeCut(ReplaceAll(s, m[0].0, Placeholder(m[0].1)), m[1..]))
  }

  ghost predicate AnyCut(body: string, links: seq<Link>) {
    SomeCut(body, Steps(body, links))
  }

  lemma {:induction false} ReplaceKnownJoin(s: string, a: Numbers, b: Numbers)
    ensures ReplaceKnown(s, a + b) == ReplaceKnown(ReplaceKnown(s, a), b)
    decreases |a|
  {
    if a == [] {
      assert a + b == b;
    } else {
      assert (a + b)[1..] == a[1..] + b;
      ReplaceKnownJoin(ReplaceAll(s, a[0].0, Placeholder(a[0].1)), a[1..], b);
    }
  }

  lemma {:induction false} ReplaceExtraKnown(s: string, urls: seq<string>, n: nat)
    ensures ReplaceExtra(s, urls, n) == ReplaceKnown(s, FromNumber(urls, n))
    decreases |urls|
  {
    if urls != [] {
      assert FromNumber(urls, n)[1..] == FromNumber(urls[1..], n + 1);
      ReplaceExtraKnown(ReplaceAll(s, urls[0], Placeholder(n)), urls[1..], n + 1);
    }
  }

  lemma {:induction false} RedactedBySteps(body: string, links: seq<Link>)
    ensures RedactedBody(body, links) == ReplaceKnown(body, Steps(body, links))
  {
    ReplaceKnownJoin(body, SortByLength(Numbered(links)), FromNumber(ExtraUrls(body, links), |links| + 1));
    ReplaceExtraKnown(FirstPass(body, links), ExtraUrls(body, links), |links| + 1);
  }

  /** A list of replacements keeps what the document stands for, or leaves a token in it. */
  lemma {:induction false} ReplaceInTurn(d: Doc, m: Numbers, links: seq<Link>) returns (e: Doc)
    requires Numbers1To(d, |links|) && Clean(d) && NumbersMatch(m, links)
    ensures Numbers1To(e, |links|) && Clean(e) && Render(e) == ReplaceKnown(Render(d), m)
    ensures !SomeCut(Render(d), m) ==> Expand(e, links) == Expand(d, links)
    ensures SomeCut(Render(d), m) || HasToken(Expand(d, links)) ==> HasToken(Expand(e, links))
    decreases |m|
  {
    if m == [] {
      e := d;
    } else {
      var u, n := m[0].0, m[0].1;
      ReplaceOne(d, u, n, links);
      NumbersMatchRest(m, links);
      e := ReplaceInTurn(Replace(d, u, n), m[1..], links);
    }
  }

  lemma {:induction false} NumbersMatchRest(m: Numbers, links: seq<Link>)
    requires m != [] && NumbersMatch(m, links)
    ensures NumbersMatch(m[1..], links)
  {
    assert forall i :: 0 <= i < |m[1..]| ==> m[1..][i] == m[i + 1];
  }

  // ---------------------------------------------------------------------------
  // The numbering
  // ---------------------------------------------------------------------------

  lemma {:induction false} SetNumberMatches(m: Numbers, url: string, n: nat, links: seq<Link>)
    requires NumbersMatch(m, links) && 1 <= n <= |links| && links[n - 1].url == url && url != ""
    ensures NumbersMatch(SetNumber(m, url, n), links)
    ensures forall v :: HasUrl(m, v) || v == url ==> HasUrl(SetNumber(m, url, n), v)
  {
    if m != [] {
      var r := SetNumber(m, url, n);
      if m[0].0 != url {
        SetNumberMatches(m[1..], url, n, links);
        assert forall v :: HasUrl(m, v) <==> m[0].0 == v || HasUrl(m[1..], v) by { HasUrlFirst(m); }
        HasUrlFirst(r);
        assert r[1..] == SetNumber(m[1..], url, n);
      } else {
        HasUrlFirst(m);
        HasUrlFirst(r);
        assert r[1..] == m[1..];
      }
    } else {
      assert SetNumber(m, url, n)[0].0 == url;
    }
  }

  ghost predicate HasUrl(m: Numbers, url: string) {
    exists i :: 0 <= i < |m| && m[i].0 == url
  }

  lemma {:induction false} HasUrlFirst(m: Numbers)
    requires m != []
    ensures forall v :: HasUrl(m, v) <==> m[0].0 == v || HasUrl(m[1..], v)
  {
    forall v ensures HasUrl(m, v) <==> m[0].0 == v || HasUrl(m[1..], v) {
      if HasUrl(m[1..], v) {
        var i :| 0 <= i < |m[1..]| && m[1..][i].0 == v;
        assert m[i + 1].0 == v;
      }
      if HasUrl(m, v) {
        var i :| 0 <= i < |m| && m[i].0 == v;
        assert i > 0 ==> m[1..][i - 1].0 == v;
      }
    }
  }

  lemma {:induction false} NumberedMatches(links: seq<Link>, all: seq<Link>)
    requires HaveUrls(links) && links <= all
    ensures NumbersMatch(Numbered(links), all)
    ensures forall i :: 0 <= i < |links| ==> HasUrl(Numbered(links), links[i].url)
  {
    if links != [] {
      var k := |links| - 1;
      NumberedMatches(links[..k], all);
      SetNumberMatches(Numbered(links[..k]), links[k].url, |links|, all);
      forall i | 0 <= i < |links| ensures HasUrl(Numbered(links), links[i].url) {
        assert i < k ==> links[i] == links[..k][i];
      }
    }
  }

  lemma {:induction false} InsertMultiset(x: (string, nat), m: Numbers)
    ensures multiset(InsertByLength(x, m)) == multiset(m) + multiset{x}
  {
    if m != [] && |x.0| <= |m[0].0| {
      InsertMultiset(x, m[1..]);
      assert m == [m[0]] + m[1..];
    }
  }

  lemma {:induction false} SortMultiset(m: Numbers)
    ensures multiset(SortByLength(m)) == multiset(m)
  {
    if m != [] {
      var k := |m| - 1;
      SortMultiset(m[..k]);
      InsertMultiset(m[k], SortByLength(m[..k]));
      assert m == m[..k] + [m[k]];
    }
  }

  lemma {:induction false} SortedMatches(links: seq<Link>, all: seq<Link>)
    requires HaveUrls(links) && links <= all
    ensures NumbersMatch(SortByLength(Numbered(links)), all)
    ensures forall i :: 0 <= i < |links| ==> HasUrl(SortByLength(Numbered(links)), links[i].url)
  {
    var m := Numbered(links);
    NumberedMatches(links, all);
    SortMultiset(m);
    SameMultisetMatches(m, SortByLength(m), all);
    forall i | 0 <= i < |links| ensures HasUrl(SortByLength(m), links[i].url) {
      SameMultisetHas(m, SortByLength(m), links[i].url);
    }
  }

  lemma {:induction false} SameMultisetMatches(m: Numbers, s: Numbers, all: seq<Link>)
    requires multiset(m) == multiset(s) && NumbersMatch(m, all)
    ensures NumbersMatch(s, all)
  {
    forall i | 0 <= i < |s|
      ensures 1 <= s[i].1 <= |all| && all[s[i].1 - 1].url == s[i].0 && s[i].0 != ""
    {
      assert s[i] in multiset(m);
      var k :| 0 <= k < |m| && m[k] == s[i];
    }
  }

  lemma {:induction false} SameMultisetHas(m: Numbers, s: Numbers, url: string)
    requires multiset(m) == multiset(s) && HasUrl(m, url)
    ensures HasUrl(s, url)
  {
    var k :| 0 <= k < |m| && m[k].0 == url;
    assert m[k] in multiset(s);
    var i :| 0 <= i < |s| && s[i] == m[k];
  }

  lemma {:induction false} BareUrlsNonempty(s: string, found: seq<string>)
    requires forall i :: 0 <= i < |found| ==> found[i] != ""
    ensures forall i :: 0 <= i < |BareUrls(s, found)| ==> BareUrls(s, found)[i] != ""
    decreases |s|
  {
    if s != "" {
      BareUrlsNonempty(s[Advance(s)..], Collect(s, found));
    }
  }

  lemma {:induction false} StepsMatch(body: string, links: seq<Link>)
    requires HaveUrls(links)
    ensures NumbersMatch(Steps(body, links), AllLinks(body, links))
  {
    SortedMatches(links, AllLinks(body, links));
    BareUrlsNonempty(FirstPass(body, links), []);
    FromNumberMatches(links, ExtraUrls(body, links));
    NumbersMatchJoin(
      SortByLength(Numbered(links)), FromNumber(ExtraUrls(body, links), |links| + 1), AllLinks(body, links));
  }

  lemma {:induction false} NumbersMatchJoin(a: Numbers, b: Numbers, links: seq<Link>)
    requires NumbersMatch(a, links) && NumbersMatch(b, links)
    ensures NumbersMatch(a + b, links)
  {
  }

  lemma {:induction false} FromNumberMatches(links: seq<Link>, extra: seq<string>)
    requires forall i :: 0 <= i < |extra| ==> extra[i] != ""
    ensures NumbersMatch(FromNumber(extra, |links| + 1), links + Untitled(extra))
  {
    forall i | 0 <= i < |extra| ensures (links + Untitled(extra))[|links| + i].url == extra[i] {
    }
  }

  /** The redacted body as a document. */
  lemma {:induction false} RedactedDocument(body: string, links: seq<Link>) returns (d: Doc)
    requires !HasToken(body) && HaveUrls(links)
    ensures var all := AllLinks(body, links);
            && Numbers1To(d, |all|) && Clean(d) && Render(d) == RedactedBody(body, links)
            && if AnyCut(body, links) then HasToken(Expand(d, all)) else Expand(d, all) == body
  {
    StepsMatch(body, links);
    RedactedBySteps(body, links);
    d := ReplaceInTurn(End(body), Steps(body, links), AllLinks(body, links));
  }

  // ---------------------------------------------------------------------------
  // Resolving a document
  // ---------------------------------------------------------------------------

  /** The map knows every link by its placeholder. */
  ghost predicate Knows(urls: map<string, string>, links: seq<Link>) {
    forall n :: 1 <= n <= |links| ==> Placeholder(n) in urls && urls[Placeholder(n)] == links[n - 1].url
  }

  lemma {:induction false} LinkMapKnows(links: seq<Link>)
    ensures Knows(LinkMap(Index(links)), links)
  {
    if links != [] {
      var k := |links| - 1;
      LinkMapKnows(links[..k]);
      assert Index(links)[..k] == Index(links[..k]);
      forall n | 1 <= n <= |links|
        ensures Placeholder(n) in LinkMap(Index(links)) && LinkMap(Index(links))[Placeholder(n)] == links[n - 1].url
      {
        if n < |links| && Placeholder(n) == Placeholder(|links|) {
          PlaceholderInjective(n, |links|);
        }
      }
    }
  }

  /** What starts no token is copied. */
  lemma {:induction false} CopiesChar(s: string, rest: string, urls: map<string, string>)
    requires s != "" && rest == s[1..] && TokenLength(s) == 0
    ensures ResolveAll(s, urls) == [s[0]] + ResolveAll(rest, urls)
  {
  }

  lemma {:induction false} ResolvePlaceholder(n: nat, s: string, urls: map<string, string>)
    requires Placeholder(n) in urls
    ensures ResolveAll(Placeholder(n) + s, urls) == urls[Placeholder(n)] + ResolveAll(s, urls)
  {
    var p := Placeholder(n);
    PlaceholderIsToken(n, s);
    assert (p + s)[..|p|] == p && (p + s)[|p|..] == s;
  }

  lemma {:induction false} ResolveRender(d: Doc, urls: map<string, string>, links: seq<Link>)
    requires Numbers1To(d, |links|) && Clean(d) && Knows(urls, links)
    ensures ResolveAll(Render(d), urls) == Expand(d, links)
    decreases |Render(d)|
  {
    if d.text != "" {
      RenderTail(d, 1);
      TokenlessTail(d.text, 1);
      ResolveRender(d.(text := d.text[1..]), urls, links);
      ResolveText(d, urls, links);
    } else if d.Linked? {
      RenderLink(d);
      ResolveRender(d.rest, urls, links);
      ResolvePlaceholder(d.n, Render(d.rest), urls);
    }
  }

  lemma {:induction false} ResolveText(d: Doc, urls: map<string, string>, links: seq<Link>)
    requires Numbers1To(d, |links|) && Clean(d) && d.text != ""
    requires ResolveAll(Render(d.(text := d.text[1..])), urls) == Expand(d.(text := d.text[1..]), links)
    ensures ResolveAll(Render(d), urls) == Expand(d, links)
  {
    var s, rest := Render(d), Render(d.(text := d.text[1..]));
    RenderTail(d, 1);
    NoTokenInText(d);
    CopiesChar(s, rest, urls);
    ExpandTail(d, links, 1);
    assert s[..1] == [s[0]];
  }

  /** Every token of the print is a placeholder of the map. */
  lemma {:induction false} TokensKnown(d: Doc, urls: map<string, string>, links: seq<Link>, i: nat)
    requires Numbers1To(d, |links|) && Clean(d) && Knows(urls, links) && TokenAt(Render(d), i)
    ensures Render(d)[i..][..TokenLength(Render(d)[i..])] in urls
    decreases d
  {
    var s := Render(d)[i..];
    if i < |d.text| {
      RenderTail(d, i);
      TokenlessTail(d.text, i);
      NoTokenInText(d.(text := d.text[i..]));
    } else if d.Linked? {
      TokenPastText(d, urls, links, i);
    } else {
      StartsWithBracket(s);
    }
  }

  lemma {:induction false} TokenPastText(d: Doc, urls: map<string, string>, links: seq<Link>, i: nat)
    requires Numbers1To(d, |links|) && Clean(d) && Knows(urls, links) && TokenAt(Render(d), i)
    requires d.Linked? && i >= |d.text|
    ensures Render(d)[i..][..TokenLength(Render(d)[i..])] in urls
    decreases d, 0
  {
    var s, p, j := Render(d)[i..], Placeholder(d.n), i - |d.text|;
    assert s == (p + Render(d.rest))[j..];
    if j >= |p| {
      assert s == Render(d.rest)[j - |p|..];
      assert TokenAt(Render(d.rest), j - |p|);
      TokensKnown(d.rest, urls, links, j - |p|);
    } else if j == 0 {
      PlaceholderIsToken(d.n, Render(d.rest));
      assert s[..|p|] == p;
    } else {
      StartsWithBracket(s);
      PlaceholderInside(d.n, j);
    }
  }

  lemma {:induction false} IncludesPart(s: string, k: nat, v: string)
    requires k <= |s|
    ensures Includes(s[k..], v) ==> Includes(s, v)
  {
    if Includes(s[k..], v) {
      var i :| 0 <= i <= |s[k..]| && StartsWith(s[k..][i..], v);
      assert s[k..][i..] == s[k + i..];
    }
  }

  lemma {:induction false} ResolveNothing(s: string, urls: map<string, string>)
    requires !Includes(s, OPEN)
    ensures ResolveAll(s, urls) == s
  {
    if s != "" {
      assert s[0..] == s;
      assert !StartsWith(s, OPEN);
      IncludesPart(s, 1, OPEN);
      ResolveNothing(s[1..], urls);
    }
  }

  lemma {:induction false} TokenAmidSpace(value: string, before: string, single: string, after: string)
    requires value == before + single + after && single != "" && TokenLength(single) == |single|
    ensures TokenAt(value, |before|) && TokenLength(value[|before|..]) == |single|
    ensures value[|before|..][..|single|] == single
  {
    assert value[|before|..] == single + after;
    TokenExtends(single, after);
  }

  /** Any print of a document over the index resolves to what the document stands for. */
  lemma {:induction false} ResolveStringRender(d: Doc, urls: map<string, string>, links: seq<Link>)
    requires Numbers1To(d, |links|) && Clean(d) && Knows(urls, links)
    ensures ResolveLinkTokensInString(Render(d), urls) == Some(Expand(d, links))
  {
    var value := Render(d);
    ResolveRender(d, urls, links);
    if !Includes(value, OPEN) {
      ResolveNothing(value, urls);
    } else if Trim(value) != "" && TokenLength(Trim(value)) == |Trim(value)| {
      var before, after := TrimParts(value);
      TokenAmidSpace(value, before, Trim(value), after);
      TokensKnown(d, urls, links, |before|);
    }
  }

  // ---------------------------------------------------------------------------
  // The round trip
  // ---------------------------------------------------------------------------

  /** Resolving the redacted body through its index gives the body back. */
  ghost predicate RoundTrips(body: string, links: seq<Link>) {
    ResolveLinkTokensInString(RedactedBody(body, links), LinkMap(Index(AllLinks(body, links)))) == Some(body)
  }

  /** For a body without tokens the round trip works exactly unless some replacement cuts a placeholder. */
  lemma {:induction false} RoundTripIff(body: string, links: seq<Link>)
    requires !HasToken(body) && HaveUrls(links)
    ensures RoundTrips(body, links) <==> !AnyCut(body, links)
  {
    var all := AllLinks(body, links);
    var d := RedactedDocument(body, links);
    LinkMapKnows(all);
    ResolveStringRender(d, LinkMap(Index(all)), all);
  }

  // ---------------------------------------------------------------------------
  // URLs that cannot meet a placeholder
  // ---------------------------------------------------------------------------

  predicate Agree(a: string, b: string) {
    StartsWith(a, b) || StartsWith(b, a)
  }

  /** Laid over a placeholder in any position, the URL differs from it somewhere. */
  ghost predicate Separate(u: string) {
    && u != ""
    && (forall n: nat, j :: 0 <= j < |u| ==> !Agree(u[j..], Placeholder(n)))
    && (forall n: nat, k :: 0 < k < |Placeholder(n)| ==> !Agree(u, Placeholder(n)[k..]))
  }

  /** The first character is in no placeholder, and no `[` ends the URL or is followed by an `l`. */
  predicate IsUsual(u: string) {
    && u != "" && !IsDigit(u[0]) && u[0] !in "[link-]"
    && forall i :: 0 <= i < |u| && u[i] == '[' ==> i + 1 < |u| && u[i + 1] != 'l'
  }

  lemma {:induction false} UsualIsSeparate(u: string)
    requires IsUsual(u)
    ensures Separate(u)
  {
    forall n: nat, j | 0 <= j < |u| ensures !Agree(u[j..], Placeholder(n)) {
      var p := Placeholder(n);
      assert p[0] == OPEN[0] && p[1] == OPEN[1];
      Differ(u[j..], p, if u[j] == '[' then 1 else 0);
    }
    forall n: nat, k | 0 < k < |Placeholder(n)| ensures !Agree(u, Placeholder(n)[k..]) {
      PlaceholderAlphabet(n, k);
      Differ(u, Placeholder(n)[k..], 0);
    }
  }

  lemma {:induction false} Differ(a: string, b: string, i: nat)
    requires i < |a| && i < |b| && a[i] != b[i]
    ensures !Agree(a, b)
  {
    assert |a| <= |b| ==> b[..|a|][i] == b[i];
    assert |b| <= |a| ==> a[..|b|][i] == a[i];
  }

  lemma {:induction false} PlaceholderAlphabet(n: nat, k: nat)
    requires k < |Placeholder(n)|
    ensures IsDigit(Placeholder(n)[k]) || Placeholder(n)[k] in "[link-]"
  {
    if k < 6 {
      assert Placeholder(n)[k] == OPEN[k] && OPEN[k] == "[link-]"[k];
    } else if k == |Placeholder(n)| - 1 {
      assert Placeholder(n)[k] == "[link-]"[6];
    } else {
      assert IsDigit(Decimal(n)[k - 6]);
    }
  }

  lemma {:induction false} SeparateNeverCuts(d: Doc, u: string)
    requires Separate(u)
    ensures !CutsLink(d, u)
    decreases |Render(d)|
  {
    if d.text != "" {
      RenderTail(d, 1);
      if StartsWith(Render(d), u) {
        SeparateStaysInText(d, u);
        DropRender(d, |u|);
        SeparateNeverCuts(Drop(d, |u|), u);
      } else {
        SeparateNeverCuts(d.(text := d.text[1..]), u);
      }
    } else if d.Linked? {
      RenderLink(d);
      SeparateNeverHits(Placeholder(d.n), Render(d.rest), u, d.n);
      SeparateNeverCuts(d.rest, u);
    }
  }

  lemma {:induction false} SeparateStaysInText(d: Doc, u: string)
    requires Separate(u) && StartsWith(Render(d), u)
    ensures |u| <= |d.text|
  {
    if |u| > |d.text| {
      PastTextAgrees(d, u);
    }
  }

  lemma {:induction false} PastTextAgrees(d: Doc, u: string)
    requires StartsWith(Render(d), u) && |u| > |d.text|
    ensures d.Linked? && Agree(u[|d.text|..], Placeholder(d.n))
  {
    var t := |d.text|;
    assert Render(d)[t..] == Placeholder(d.n) + Render(d.rest);
    assert u[t..] == Render(d)[t..][..|u| - t];
    AgreeInside(u[t..], Placeholder(d.n), Render(d.rest));
  }

  /** What begins a string agrees with whatever else begins it. */
  lemma {:induction false} AgreeInside(w: string, p: string, rest: string)
    requires StartsWith(p + rest, w)
    ensures Agree(w, p)
  {
    if |w| <= |p| {
      assert p[..|w|] == (p + rest)[..|w|];
    } else {
      assert w[..|p|] == (p + rest)[..|w|][..|p|];
    }
  }

  lemma {:induction false} SeparateNeverHits(p: string, rest: string, u: string, n: nat)
    requires Separate(u) && p == Placeholder(n)
    ensures forall i :: 0 <= i < |p| ==> !StartsWith((p + rest)[i..], u)
    ensures FirstHit(p + rest, u, |p|) == |p|
  {
    assert u[0..] == u && p[0..] == p;
    forall i | 0 <= i < |p| ensures !StartsWith((p + rest)[i..], u) {
      assert (p + rest)[i..] == p[i..] + rest;
      if StartsWith((p + rest)[i..], u) {
        AgreeInside(u, p[i..], rest);
      }
    }
  }

  // ---------------------------------------------------------------------------
  // What a replacement removes
  // ---------------------------------------------------------------------------

  lemma {:induction false} StartsCons(c: char, s: string, w: string)
    requires w != ""
    ensures StartsWith([c] + s, w) <==> w[0] == c && StartsWith(s, w[1..])
  {
    assert w == [w[0]] + w[1..];
    if |w| <= |s| + 1 {
      assert ([c] + s)[..|w|] == [c] + s[..|w| - 1];
    }
  }

  /** An end of a separate URL that begins the result began the string. */
  lemma {:induction false} EndWasThere(s: string, v: string, n: nat, u: string, j: nat)
    requires Separate(u) && v != "" && j <= |u| && StartsWith(ReplaceAll(s, v, Placeholder(n)), u[j..])
    ensures StartsWith(s, u[j..])
    decreases |s|
  {
    if j < |u| {
      if StartsWith(s, v) {
        AgreeInside(u[j..], Placeholder(n), ReplaceAll(s[|v|..], v, Placeholder(n)));
      } else {
        assert u[j..][1..] == u[j + 1..] && [s[0]] + s[1..] == s;
        StartsCons(s[0], ReplaceAll(s[1..], v, Placeholder(n)), u[j..]);
        EndWasThere(s[1..], v, n, u, j + 1);
        StartsCons(s[0], s[1..], u[j..]);
      }
    }
  }

  /** A separate URL that is not there, or is the one replaced, is not in the result. */
  lemma {:induction false} ReplaceKeepsOut(s: string, v: string, n: nat, u: string)
    requires Separate(u) && v != "" && (v == u || !Includes(s, u))
    ensures !Includes(ReplaceAll(s, v, Placeholder(n)), u)
    decreases |s|
  {
    if s == "" {
      NotInEmpty(u);
    } else if StartsWith(s, v) {
      IncludesPart(s, |v|, u);
      ReplaceKeepsOut(s[|v|..], v, n, u);
      var p, r := Placeholder(n), ReplaceAll(s[|v|..], v, Placeholder(n));
      SeparateNeverHits(p, r, u, n);
      NotInJoin(p, r, u);
    } else {
      IncludesPart(s, 1, u);
      ReplaceKeepsOut(s[1..], v, n, u);
      KeptOutAfterChar(s, v, n, u);
    }
  }

  lemma {:induction false} KeptOutAfterChar(s: string, v: string, n: nat, u: string)
    requires Separate(u) && v != "" && (v == u || !Includes(s, u)) && s != "" && !StartsWith(s, v)
    requires !Includes(ReplaceAll(s[1..], v, Placeholder(n)), u)
    ensures !Includes(ReplaceAll(s, v, Placeholder(n)), u)
  {
    var r := ReplaceAll(s, v, Placeholder(n));
    assert r == [s[0]] + ReplaceAll(s[1..], v, Placeholder(n));
    assert r[0..] == r && u[0..] == u;
    assert StartsWith(s[0..], u) <==> StartsWith(s, u);
    if StartsWith(r, u) {
      EndWasThere(s, v, n, u, 0);
    }
    NotInJoin([s[0]], ReplaceAll(s[1..], v, Placeholder(n)), u);
  }

  lemma {:induction false} NotInEmpty(u: string)
    requires u != ""
    ensures !Includes("", u)
  {
  }

  lemma {:induction false} NotInJoin(p: string, r: string, u: string)
    requires !Includes(r, u) && forall i :: 0 <= i < |p| ==> !StartsWith((p + r)[i..], u)
    ensures !Includes(p + r, u)
  {
    forall i | 0 <= i <= |p + r| ensures !StartsWith((p + r)[i..], u) {
      if i >= |p| {
        assert (p + r)[i..] == r[i - |p|..];
      }
    }
  }

  lemma {:induction false} StepsKeepOut(s: string, m: Numbers, u: string)
    requires Separate(u) && (forall i :: 0 <= i < |m| ==> m[i].0 != "") && (HasUrl(m, u) || !Includes(s, u))
    ensures !Includes(ReplaceKnown(s, m), u)
    decreases |m|
  {
    if m != [] {
      HasUrlFirst(m);
      if m[0].0 == u || !Includes(s, u) {
        ReplaceKeepsOut(s, m[0].0, m[0].1, u);
      }
      StepsKeepOut(ReplaceAll(s, m[0].0, Placeholder(m[0].1)), m[1..], u);
    }
  }

  // ---------------------------------------------------------------------------
  // Main results on URLs of the usual form
  // ---------------------------------------------------------------------------

  /** A body without tokens, and URLs that cannot meet a placeholder. */
  ghost predicate CanRedact(body: string, links: seq<Link>) {
    && !HasToken(body)
    && (forall i :: 0 <= i < |AllLinks(body, links)| ==> Separate(AllLinks(body, links)[i].url))
  }

  lemma {:induction false} SeparateStepsNeverCut(d: Doc, m: Numbers, links: seq<Link>)
    requires Numbers1To(d, |links|) && Clean(d) && NumbersMatch(m, links)
    requires forall i :: 0 <= i < |m| ==> Separate(m[i].0)
    ensures !SomeCut(Render(d), m)
    decreases |m|
  {
    if m != [] {
      var u, n := m[0].0, m[0].1;
      SeparateNeverCuts(d, u);
      CutsByLink(d, u);
      ReplaceOne(d, u, n, links);
      NumbersMatchRest(m, links);
      SeparateStepsNeverCut(Replace(d, u, n), m[1..], links);
    }
  }

  /** Such a body comes back. */
  lemma {:induction false} RedactThenResolve(body: string, links: seq<Link>)
    requires CanRedact(body, links)
    ensures RoundTrips(body, links)
  {
    var all, m := AllLinks(body, links), Steps(body, links);
    forall i | 0 <= i < |links| ensures links[i].url != "" {
      assert all[i] == links[i];
    }
    StepsMatch(body, links);
    forall i | 0 <= i < |m| ensures Separate(m[i].0) {
      assert all[m[i].1 - 1].url == m[i].0;
    }
    SeparateStepsNeverCut(End(body), m, all);
    RoundTripIff(body, links);
  }

  lemma {:induction false} EveryUrlHasItsStep(body: string, links: seq<Link>, i: nat)
    requires HaveUrls(links) && i < |AllLinks(body, links)|
    ensures HasUrl(Steps(body, links), AllLinks(body, links)[i].url)
  {
    var a, extra := SortByLength(Numbered(links)), ExtraUrls(body, links);
    if i < |links| {
      SortedMatches(links, AllLinks(body, links));
      var k :| 0 <= k < |a| && a[k].0 == links[i].url;
      assert Steps(body, links)[k] == a[k];
    } else {
      assert Steps(body, links)[|a| + i - |links|] == (extra[i - |links|], i + 1);
    }
  }

  /** Whatever the body and the other URLs, a URL of the index that cannot meet a placeholder is gone. */
  lemma {:induction false} NoIndexedUrlSurvives(body: string, links: seq<Link>, i: nat)
    requires HaveUrls(links) && i < |AllLinks(body, links)| && Separate(AllLinks(body, links)[i].url)
    ensures !Includes(RedactedBody(body, links), AllLinks(body, links)[i].url)
  {
    StepsMatch(body, links);
    EveryUrlHasItsStep(body, links, i);
    RedactedBySteps(body, links);
    StepsKeepOut(body, Steps(body, links), AllLinks(body, links)[i].url);
  }

  // ---------------------------------------------------------------------------
  // A bare URL that runs into a placeholder
  // ---------------------------------------------------------------------------

  lemma {:induction false} BareUrlsGrow(s: string, found: seq<string>)
    ensures found <= BareUrls(s, found)
    decreases |s|
  {
    if s != "" {
      BareUrlsGrow(s[Advance(s)..], Collect(s, found));
    }
  }

  lemma {:induction false} UrlRunStops(a: string, b: string)
    requires forall i :: 0 <= i < |a| ==> IsUrlChar(a[i])
    requires b != "" && !IsUrlChar(b[0])
    ensures UrlRun(a + b) == |a|
  {
    if a == "" {
      assert a + b == b;
    } else {
      assert (a + b)[1..] == a[1..] + b;
      UrlRunStops(a[1..], b);
    }
  }

  /** Up to its closing bracket a placeholder looks like a piece of a URL. */
  lemma {:induction false} PlaceholderIsUrl(n: nat)
    ensures var p := Placeholder(n);
            (forall i :: 0 <= i < |p| - 1 ==> IsUrlChar(p[i])) && p[|p| - 1] == ']' && !IsUrlChar(']')
  {
    forall i | 0 <= i < |Placeholder(n)| - 1 ensures IsUrlChar(Placeholder(n)[i]) {
      if i < 6 {
        assert Placeholder(n)[i] == OPEN[i];
      } else {
        assert IsDigit(Decimal(n)[i - 6]);
      }
    }
  }

  lemma {:induction false} BareUrlAt(u: string, e: string)
    requires StartsWith(u, "http://") && |u| > 7 && forall i :: 7 <= i < |u| ==> IsUrlChar(u[i])
    requires e != "" && !IsUrlChar(e[0])
    ensures BareLength(u + e) == |u|
  {
    var s := u + e;
    assert s[..7] == u[..7] == "http://";
    assert s[4] == s[..7][4] == ':';
    Differ(s, "https://", 4);
    assert s[7..] == u[7..] + e;
    UrlRunStops(u[7..], e);
  }

  lemma {:induction false} FirstBareUrl(s: string)
    requires BareLength(s) > 0
    ensures BareUrls(s, []) != [] && BareUrls(s, [])[0] == s[..BareLength(s)]
  {
    BareUrlsGrow(s[Advance(s)..], Collect(s, []));
    assert Collect(s, []) == [s[..BareLength(s)]];
  }

  /** After `w`, the beginning of a URL, a placeholder is taken for more of it; replacing that cuts it. */
  lemma {:induction false} BareUrlSwallows(w: string, n: nat, rest: string, s: string)
    requires StartsWith(w, "http://") && forall i :: 7 <= i < |w| ==> IsUrlChar(w[i])
    requires s == w + (Placeholder(n) + rest)
    ensures var u := w + Placeholder(n)[..|Placeholder(n)| - 1];
            BareUrls(s, []) != [] && BareUrls(s, [])[0] == u && Cuts(s, u)
  {
    var p := Placeholder(n);
    var u, e := w + p[..|p| - 1], [']'] + rest;
    PlaceholderIsUrl(n);
    assert p == p[..|p| - 1] + [']'];
    assert s == u + e && s[..|u|] == u;
    assert u[..7] == w[..7] && w[..7][0] == 'h';
    BareUrlAt(u, e);
    FirstBareUrl(s);
    SwallowingCuts(w, n, rest, s, u);
  }

  lemma {:induction false} SwallowingCuts(w: string, n: nat, rest: string, s: string, u: string)
    requires w != "" && w[0] != '[' && s == w + (Placeholder(n) + rest) && StartsWith(s, u) && |u| > |w|
    ensures Cuts(s, u)
  {
    assert s[0] == w[0];
    if TokenLength(s) > 0 {
      StartsWithBracket(s);
    }
    assert s[|w|..] == Placeholder(n) + rest;
    PlaceholderIsToken(n, rest);
    assert TokenAt(s, |w|);
  }

  /** A URL that ends in an extracted one, as redirects do, is not given back. */
  lemma {:induction false} SwallowedPlaceholder(w: string, u: string, text: Option<string>)
    requires w == "http://r?u=" && u == "http://a"
    ensures !RoundTrips(w + u, [Link(u, text)])
  {
    var body, links, s := w + u, [Link(u, text)], w + Placeholder(1);
    RedirectIsReplaced(w, u, text);
    RedirectHasNoToken(w, u);
    BareUrlSwallows(w, 1, "", s);
    assert Placeholder(1) + "" == Placeholder(1);
    var m := Steps(body, links);
    assert m[1..] == FromNumber(ExtraUrls(body, links), 2);
    assert SomeCut(s, m[1..]);
    RoundTripIff(body, links);
  }

  lemma {:induction false} RedirectHasNoToken(w: string, u: string)
    requires w == "http://r?u=" && u == "http://a"
    ensures !HasToken(w + u)
  {
    forall i: nat ensures !TokenAt(w + u, i) {
      if TokenAt(w + u, i) {
        StartsWithBracket((w + u)[i..]);
      }
    }
  }

  lemma {:induction false} OneNumber(u: string, text: Option<string>)
    ensures SortByLength(Numbered([Link(u, text)])) == [(u, 1)]
  {
    var links, m := [Link(u, text)], [(u, 1)];
    assert links[..0] == [] && Numbered([]) == [];
    assert Numbered(links) == m;
    assert m[..0] == [] && SortByLength([]) == [];
    assert InsertByLength(m[0], []) == m;
  }

  lemma {:induction false} RedirectIsReplaced(w: string, u: string, text: Option<string>)
    requires w == "http://r?u=" && u == "http://a"
    ensures SortByLength(Numbered([Link(u, text)])) == [(u, 1)]
    ensures ReplaceAll(w + u, u, Placeholder(1)) == w + Placeholder(1)
    ensures FirstPass(w + u, [Link(u, text)]) == w + Placeholder(1)
  {
    var links, m := [Link(u, text)], [(u, 1)];
    assert m[1..] == [];
    OneNumber(u, text);
    RedirectOnce(w, u);
    ReplaceSkips(w, u, u, Placeholder(1));
    assert u[|u|..] == "" && ReplaceAll(u, u, Placeholder(1)) == Placeholder(1);
    assert ReplaceKnown(w + u, m) == ReplaceKnown(w + Placeholder(1), m[1..]);
  }

  lemma {:induction false} RedirectOnce(w: string, u: string)
    requires w == "http://r?u=" && u == "http://a"
    ensures forall i :: 0 <= i < |w| ==> !StartsWith((w + u)[i..], u)
  {
    forall i | 0 <= i < |w| ensures !StartsWith((w + u)[i..], u) {
      if i == 0 {
        assert (w + u)[0..] == w + u;
        Differ(w + u, u, 7);
      } else {
        assert (w + u)[i..][0] == w[i] != 'h';
        Differ((w + u)[i..], u, 0);
      }
    }
  }
}
