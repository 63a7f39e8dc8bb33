/**
 URL redaction, `redactUrls` of `prompt-builder.ts`, and the resolver of `classifier.ts` that undoes it.

 The proofs see a redacted body as a document: text and links in turn. `Render` prints a link as its
 placeholder, `Expand` as its URL; a replacement changes the first and keeps the second.
 */
module LinkRedaction {
  import opened Options
  import opened Text

  datatype Link = Link(url: string, text: Option<string>)

  datatype IndexEntry = IndexEntry(placeholder: string, url: string, text: Option<string>)

  // ---------------------------------------------------------------------------
  // Placeholders
  // ---------------------------------------------------------------------------

  function Decimal(n: nat): (s: string)
    ensures s != "" && forall i :: 0 <= i < |s| ==> IsDigit(s[i])
  {
    var digit := ('0' as int + n % 10) as char;
    if n < 10 then [digit] else Decimal(n / 10) + [digit]
  }

  const OPEN := "[link-"

  function Placeholder(n: nat): string {
    OPEN + Decimal(n) + "]"
  }

  function Number(s: string): int {
    if s == "" then 0 else Number(s[..|s| - 1]) * 10 + (s[|s| - 1] as int - '0' as int)
  }

  lemma {:induction false} NumberOfDecimal(n: nat)
    ensures Number(Decimal(n)) == n
  {
    if n >= 10 {
      var s := Decimal(n);
      NumberOfDecimal(n / 10);
      assert s[..|s| - 1] == Decimal(n / 10);
    } else {
      assert Decimal(n)[..0] == "";
    }
  }

  lemma {:induction false} PlaceholderInjective(m: nat, n: nat)
    requires Placeholder(m) == Placeholder(n)
    ensures m == n
  {
    assert Placeholder(m)[6..|Placeholder(m)| - 1] == Decimal(m);
    assert Placeholder(n)[6..|Placeholder(n)| - 1] == Decimal(n);
    NumberOfDecimal(m);
    NumberOfDecimal(n);
  }

  // ---------------------------------------------------------------------------
  // Redaction
  // ---------------------------------------------------------------------------

  /** `s.split(u).join(p)`. */
  function ReplaceAll(s: string, u: string, p: string): string
    decreases |s|
  {
    if s == "" then ""
    else if u == "" then [s[0]] + (if |s| > 1 then p else "") + ReplaceAll(s[1..], u, p)
    else if StartsWith(s, u) then p + ReplaceAll(s[|u|..], u, p)
    else [s[0]] + ReplaceAll(s[1..], u, p)
  }

  /** The map from URL to placeholder number, in insertion order. */
  type Numbers = seq<(string, nat)>

  /** `Map.set`: a known key keeps its place and takes the new value. */
  function SetNumber(m: Numbers, url: string, n: nat): Numbers {
    if m == [] then [(url, n)]
    else if m[0].0 == url then [(url, n)] + m[1..]
    else [m[0]] + SetNumber(m[1..], url, n)
  }

  function Numbered(links: seq<Link>): Numbers {
    if links == [] then []
    else SetNumber(Numbered(links[..|links| - 1]), links[|links| - 1].url, |links|)
  }

  /** Stable insertion by descending URL length. */
  function InsertByLength(x: (string, nat), m: Numbers): Numbers {
    if m == [] || |x.0| > |m[0].0| then [x] + m else [m[0]] + InsertByLength(x, m[1..])
  }

  function SortByLength(m: Numbers): Numbers {
    if m == [] then [] else InsertByLength(m[|m| - 1], SortByLength(m[..|m| - 1]))
  }

  function ReplaceKnown(s: string, m: Numbers): string
    decreases |m|
  {
    if m == [] then s else ReplaceKnown(ReplaceAll(s, m[0].0, Placeholder(m[0].1)), m[1..])
  }

  /** The body after the pass over the extracted links. */
  function FirstPass(body: string, links: seq<Link>): string {
    ReplaceKnown(body, SortByLength(Numbered(links)))
  }

  /** `[^\s<>"')\]]` */
  predicate IsUrlChar(c: char) {
    !IsSpace(c) && c != '<' && c != '>' && c != '"' && c != '\'' && c != ')' && c != ']'
  }

  function UrlRun(s: string): (n: nat)
    ensures n <= |s|
  {
    if s == "" || !IsUrlChar(s[0]) then 0 else 1 + UrlRun(s[1..])
  }

  /** The length of a match of the bare-URL pattern at the start of `s`, or 0. */
  function BareLength(s: string): (n: nat)
    ensures n <= |s|
  {
    var scheme := if StartsWith(s, "https://") then 8 else if StartsWith(s, "http://") then 7 else 0;
    if scheme == 0 || UrlRun(s[scheme..]) == 0 then 0 else scheme + UrlRun(s[scheme..])
  }

  /** How far one `exec` moves: over a match, or over one character that starts none. */
  function Advance(s: string): (n: nat)
    requires s != ""
    ensures 1 <= n <= |s|
  {
    if BareLength(s) == 0 then 1 else BareLength(s)
  }

  /** A match is listed once. */
  function Collect(s: string, found: seq<string>): seq<string> {
    var url := s[..BareLength(s)];
    if url == "" || url in found then found else found + [url]
  }

  /** The matches of the pattern from left to right; `found` are those seen before. */
  function BareUrls(s: string, found: seq<string>): seq<string>
    decreases |s|
  {
    if s == "" then found else BareUrls(s[Advance(s)..], Collect(s, found))
  }

  function ReplaceExtra(s: string, urls: seq<string>, n: nat): string
    decreases |urls|
  {
    if urls == [] then s else ReplaceExtra(ReplaceAll(s, urls[0], Placeholder(n)), urls[1..], n + 1)
  }

  function ExtraUrls(body: string, links: seq<Link>): seq<string> {
    BareUrls(FirstPass(body, links), [])
  }

  function RedactedBody(body: string, links: seq<Link>): string {
    ReplaceExtra(FirstPass(body, links), ExtraUrls(body, links), |links| + 1)
  }

  function AllLinks(body: string, links: seq<Link>): seq<Link> {
    links + Untitled(ExtraUrls(body, links))
  }

  function Untitled(urls: seq<string>): seq<Link> {
    seq(|urls|, i requires 0 <= i < |urls| => Link(urls[i], None))
  }

  function Index(links: seq<Link>): seq<IndexEntry> {
    seq(|links|, i requires 0 <= i < |links| => IndexEntry(Placeholder(i + 1), links[i].url, links[i].text))
  }

  /** The entries of the extracted links, and the map that is keyed by their URLs. */
  method NumberLinks(links: seq<Link>) returns (linkIndex: seq<IndexEntry>, numbers: Numbers)
    ensures linkIndex == Index(links) && numbers == Numbered(links)
  {
    linkIndex, numbers := [], [];
    for i := 0 to |links|
      invariant linkIndex == Index(links[..i])
      invariant numbers == Numbered(links[..i])
    {
      assert links[..i + 1][..i] == links[..i];
      linkIndex := linkIndex + [IndexEntry(Placeholder(i + 1), links[i].url, links[i].text)];
      numbers := SetNumber(numbers, links[i].url, i + 1);
    }
    assert links[..|links|] == links;
  }

  method ReplaceInOrder(body: string, sorted: Numbers) returns (redacted: string)
    ensures redacted == ReplaceKnown(body, sorted)
  {
    redacted := body;
    for i := 0 to |sorted|
      invariant ReplaceKnown(redacted, sorted[i..]) == ReplaceKnown(body, sorted)
    {
      assert sorted[i..][1..] == sorted[i + 1..];
      redacted := ReplaceAll(redacted, sorted[i].0, Placeholder(sorted[i].1));
    }
  }

  /** The `exec` loop over the bare-URL pattern. */
  method CollectBareUrls(redacted: string) returns (extraUrls: seq<string>)
    ensures extraUrls == BareUrls(redacted, [])
  {
    extraUrls := [];
    var at := 0;
    while at < |redacted|
      invariant at <= |redacted|
      invariant BareUrls(redacted[at..], extraUrls) == BareUrls(redacted, [])
    {
      ghost var s, before := redacted[at..], extraUrls;
      var n := BareLength(redacted[at..]);
      var found := redacted[at..at + n];
      assert found == s[..n];
      if n > 0 && found !in extraUrls {
        extraUrls := extraUrls + [found];
      }
      at := at + if n == 0 then 1 else n;
      assert redacted[at..] == s[Advance(s)..] && extraUrls == Collect(s, before);
    }
  }

  /** The pass over the URLs that were not extracted: each gets the next placeholder. */
  method ReplaceExtraUrls(body: string, links: seq<Link>, extraUrls: seq<string>)
    returns (redacted: string, entries: seq<IndexEntry>)
    ensures redacted == ReplaceExtra(body, extraUrls, |links| + 1)
    ensures entries == Index(links + Untitled(extraUrls))
  {
    redacted, entries := body, Index(links);
    assert links + Untitled(extraUrls[..0]) == links;
    for i := 0 to |extraUrls|
      invariant entries == Index(links + Untitled(extraUrls[..i]))
      invariant ReplaceExtra(redacted, extraUrls[i..], |links| + 1 + i) == ReplaceExtra(body, extraUrls, |links| + 1)
    {
      assert extraUrls[i..][1..] == extraUrls[i + 1..];
      var placeholder := Placeholder(|entries| + 1);
      entries := entries + [IndexEntry(placeholder, extraUrls[i], None)];
      redacted := ReplaceAll(redacted, extraUrls[i], placeholder);
    }
    assert extraUrls[..|extraUrls|] == extraUrls;
  }

  /** `redactUrls`. */
  method RedactUrls(body: string, links: seq<Link>) returns (redacted: string, linkIndex: seq<IndexEntry>)
    ensures redacted == RedactedBody(body, links)
    ensures linkIndex == Index(AllLinks(body, links))
  {
    var numbers;
    linkIndex, numbers := NumberLinks(links);
    redacted := ReplaceInOrder(body, SortByLength(numbers));
    var extraUrls := CollectBareUrls(redacted);
    redacted, linkIndex := ReplaceExtraUrls(redacted, links, extraUrls);
  }

  // ---------------------------------------------------------------------------
  // Resolution
  // ---------------------------------------------------------------------------

  function DigitRun(s: string): (n: nat)
    ensures n <= |s|
  {
    if s == "" || !IsDigit(s[0]) then 0 else 1 + DigitRun(s[1..])
  }

  /** The length of a match of `\[link-\d+\]` at the start of `s`, or 0. */
  function TokenLength(s: string): (n: nat)
    ensures n <= |s|
  {
    if !StartsWith(s, OPEN) then 0
    else
      var d := DigitRun(s[6..]);
      if d == 0 || 6 + d == |s| || s[6 + d] != ']' then 0 else 6 + d + 1
  }

  function ResolveAll(s: string, urls: map<string, string>): string
    decreases |s|
  {
    if s == "" then ""
    else
      var n := TokenLength(s);
      if n == 0 then [s[0]] + ResolveAll(s[1..], urls)
      else (if s[..n] in urls then urls[s[..n]] else "") + ResolveAll(s[n..], urls)
  }

  /** `None` when the whole value was an unresolved token. */
  function ResolveLinkTokensInString(value: string, urls: map<string, string>): Option<string> {
    var single := Trim(value);
    if !Includes(value, OPEN) then Some(value)
    else if single != "" && TokenLength(single) == |single| && single !in urls then None
    else Some(ResolveAll(value, urls))
  }

  /** `new Map(linkIndex.map((l) => [l.placeholder, l.url]))` */
  function LinkMap(index: seq<IndexEntry>): map<string, string> {
    if index == [] then map[]
    else LinkMap(index[..|index| - 1])[index[|index| - 1].placeholder := index[|index| - 1].url]
  }

  /** Placeholders are numbered 1 to n and pairwise distinct, whatever the body. */
  lemma {:induction false} PlaceholdersDistinct(links: seq<Link>)
    ensures forall i, j :: 0 <= i < j < |Index(links)| ==> Index(links)[i].placeholder != Index(links)[j].placeholder
  {
    forall i, j | 0 <= i < j < |Index(links)| ensures Index(links)[i].placeholder != Index(links)[j].placeholder {
      if Placeholder(i + 1) == Placeholder(j + 1) {
        PlaceholderInjective(i + 1, j + 1);
      }
    }
  }
}
