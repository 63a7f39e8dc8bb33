/** Which URLs of a body the second pass of `redactUrls` finds, said without its scan. */
module LinkUrls {
  import opened Options
  import opened Text
  import opened LinkRedaction
  import opened LinkDocuments
  import opened LinkRoundTrip

  // ---------------------------------------------------------------------------
  // Bare URLs
  // ---------------------------------------------------------------------------

  /** White space, brackets and quotes end a URL, and nothing else does. */
  lemma {:induction false} UrlCharIff(c: char)
    ensures IsUrlChar(c) <==> !IsSpace(c) && c !in ['<', '>', '"', '\'', ')', ']']
  {
  }

  /** `http://` or `https://`, and at least one character after it. */
  ghost predicate IsBareUrl(u: string) {
    && ((StartsWith(u, "http://") && |u| > 7) || (StartsWith(u, "https://") && |u| > 8))
    && forall i :: 0 <= i < |u| ==> IsUrlChar(u[i])
  }

  /** `u` stands at `i` and goes on as far as a URL can. */
  ghost predicate UrlAt(s: string, i: nat, u: string) {
    i <= |s| && StartsWith(s[i..], u) && IsBareUrl(u) && (i + |u| == |s| || !IsUrlChar(s[i + |u|]))
  }

  /** No URL that begins before `i` goes on past it. */
  ghost predicate BeginsUrl(s: string, i: nat) {
    forall k: nat, v :: k < i && UrlAt(s, k, v) ==> k + |v| <= i
  }

  ghost predicate Lists(s: string, i: nat, u: string) {
    UrlAt(s, i, u) && BeginsUrl(s, i)
  }

  lemma {:induction false} RunStops(s: string)
    ensures forall i :: 0 <= i < UrlRun(s) ==> IsUrlChar(s[i])
    ensures UrlRun(s) < |s| ==> !IsUrlChar(s[UrlRun(s)])
  {
    if s != "" && IsUrlChar(s[0]) {
      RunStops(s[1..]);
    }
  }

  lemma {:induction false} SchemeChars(s: string)
    requires StartsWith(s, "http://") || StartsWith(s, "https://")
    ensures forall i :: 0 <= i < 7 ==> IsUrlChar(s[i])
    ensures StartsWith(s, "https://") ==> IsUrlChar(s[7])
  {
    var a, b := "http://", "https://";
    if StartsWith(s, a) {
      assert s[..7] == a;
      assert s[0] == 'h' && s[1] == 't' && s[2] == 't' && s[3] == 'p' && s[4] == ':' && s[5] == '/' && s[6] == '/';
    } else {
      assert s[..8] == b;
      assert s[0] == 'h' && s[1] == 't' && s[2] == 't' && s[3] == 'p' && s[4] == 's' && s[5] == ':' && s[6] == '/'
          && s[7] == '/';
    }
  }

  lemma {:induction false} SchemesDiffer(s: string)
    ensures !(StartsWith(s, "http://") && StartsWith(s, "https://"))
  {
    var a, b := "http://", "https://";
    if StartsWith(s, a) {
      assert s[..7][4] == a[4] == ':';
    }
    if StartsWith(s, b) {
      assert s[..8][4] == b[4] == 's';
    }
  }

  lemma {:induction false} LengthIsUrl(s: string)
    requires BareLength(s) > 0
    ensures UrlAt(s, 0, s[..BareLength(s)])
  {
    var n, k := BareLength(s), if StartsWith(s, "https://") then 8 else 7;
    SchemesDiffer(s);
    SchemeChars(s);
    RunStops(s[k..]);
    var u := s[..n];
    assert s[0..] == s && u[..k] == s[..k];
    forall i | 0 <= i < n ensures IsUrlChar(u[i]) {
      assert i >= k ==> u[i] == s[k..][i - k];
    }
    assert n < |s| ==> s[n] == s[k..][n - k];
  }

  lemma {:induction false} UrlChars(s: string, i: nat, u: string)
    requires UrlAt(s, i, u)
    ensures i + |u| <= |s| && s[i] == 'h' && forall k :: i <= k < i + |u| ==> IsUrlChar(s[k])
  {
    var t, a, b := s[i..], "http://", "https://";
    assert t[..|u|] == u;
    assert u[..7] == a || u[..8] == b;
    assert a[0] == 'h' && b[0] == 'h';
    forall k | i <= k < i + |u| ensures IsUrlChar(s[k]) {
      assert s[k] == u[k - i];
    }
  }

  /** The run of a URL is determined by where it begins. */
  lemma {:induction false} UrlUnique(s: string, i: nat, u: string, v: string)
    requires UrlAt(s, i, u) && UrlAt(s, i, v)
    ensures u == v
  {
    UrlChars(s, i, u);
    UrlChars(s, i, v);
    assert s[i..][..|u|] == u && s[i..][..|v|] == v;
  }

  lemma {:induction false} UrlHasLength(s: string, u: string)
    requires UrlAt(s, 0, u)
    ensures BareLength(s) > 0
  {
    assert s[0..] == s && s[..|u|] == u;
    var k := if StartsWith(u, "https://") then 8 else 7;
    SchemesDiffer(u);
    assert s[..k] == u[..k];
    SchemesDiffer(s);
    assert s[k..][0] == s[k] == u[k];
  }

  lemma {:induction false} FirstUrlIff(s: string, u: string)
    ensures UrlAt(s, 0, u) <==> BareLength(s) > 0 && u == s[..BareLength(s)]
  {
    if UrlAt(s, 0, u) {
      UrlHasLength(s, u);
      LengthIsUrl(s);
      UrlUnique(s, 0, u, s[..BareLength(s)]);
    } else if BareLength(s) > 0 {
      LengthIsUrl(s);
    }
  }

  // ---------------------------------------------------------------------------
  // The scan
  // ---------------------------------------------------------------------------

  lemma {:induction false} UrlShift(s: string, n: nat, t: string, i: nat, u: string)
    requires n <= |s| && t == s[n..]
    ensures UrlAt(s, n + i, u) <==> UrlAt(t, i, u)
  {
    if i <= |t| {
      assert s[n + i..] == t[i..];
    }
  }

  /** No URL crosses the end of another. */
  lemma {:induction false} NoneCrosses(s: string, n: nat, k: nat, v: string)
    requires k < n <= |s| && UrlAt(s, k, v) && (n < |s| ==> !IsUrlChar(s[n]))
    ensures k + |v| <= n
  {
    UrlChars(s, k, v);
  }

  lemma {:induction false} StepEnds(s: string, k: nat, v: string)
    requires s != "" && k < Advance(s) && UrlAt(s, k, v)
    ensures k + |v| <= Advance(s) && BareLength(s) > 0
  {
    var n := Advance(s);
    FirstUrlIff(s, v);
    LengthIsUrl(s);
    NoneCrosses(s, n, k, v);
  }

  lemma {:induction false} BeginsShift(s: string, t: string, i: nat)
    requires s != "" && t == s[Advance(s)..]
    ensures BeginsUrl(s, Advance(s) + i) <==> BeginsUrl(t, i)
  {
    var n := Advance(s);
    if BeginsUrl(s, n + i) {
      forall k: nat, v | k < i && UrlAt(t, k, v) ensures k + |v| <= i {
        UrlShift(s, n, t, k, v);
        assert UrlAt(s, n + k, v);
      }
    }
    if BeginsUrl(t, i) {
      forall k: nat, v | k < n + i && UrlAt(s, k, v) ensures k + |v| <= n + i {
        if k < n {
          StepEnds(s, k, v);
        } else {
          UrlShift(s, n, t, k - n, v);
        }
      }
    }
  }

  /** One step of the scan: what is listed here, and what is listed further on. */
  lemma {:induction false} ListsStep(s: string, t: string, u: string)
    requires s != "" && t == s[Advance(s)..]
    ensures (exists i: nat :: Lists(s, i, u))
       <==> (BareLength(s) > 0 && u == s[..BareLength(s)]) || exists i: nat :: Lists(t, i, u)
  {
    var n := Advance(s);
    FirstUrlIff(s, u);
    if i: nat :| Lists(s, i, u) {
      if 0 < i < n {
        LengthIsUrl(s);
        assert false;
      }
      if i >= n {
        UrlShift(s, n, t, i - n, u);
        BeginsShift(s, t, i - n);
        assert Lists(t, i - n, u);
      }
    }
    if i: nat :| Lists(t, i, u) {
      UrlShift(s, n, t, i, u);
      BeginsShift(s, t, i);
      assert Lists(s, n + i, u);
    }
    if UrlAt(s, 0, u) {
      assert Lists(s, 0, u);
    }
  }

  /** The scan lists exactly the URLs that begin where no earlier one goes on. */
  lemma {:induction false} BareUrlsIff(s: string, found: seq<string>, u: string)
    ensures u in BareUrls(s, found) <==> u in found || exists i: nat :: Lists(s, i, u)
    decreases |s|
  {
    if s != "" {
      var t := s[Advance(s)..];
      BareUrlsIff(t, Collect(s, found), u);
      ListsStep(s, t, u);
    }
  }

  ghost predicate NoRepeats(urls: seq<string>) {
    forall i, j :: 0 <= i < j < |urls| ==> urls[i] != urls[j]
  }

  lemma {:induction false} BareUrlsOnce(s: string, found: seq<string>)
    requires NoRepeats(found)
    ensures NoRepeats(BareUrls(s, found))
    decreases |s|
  {
    if s != "" {
      BareUrlsOnce(s[Advance(s)..], Collect(s, found));
    }
  }

  /** The entry after those of the extracted links has this URL. */
  ghost predicate Added(index: seq<IndexEntry>, links: seq<Link>, u: string) {
    exists j :: |links| <= j < |index| && index[j].url == u
  }

  lemma {:induction false} AddedIff(body: string, links: seq<Link>, u: string)
    ensures Added(Index(AllLinks(body, links)), links, u) <==> u in ExtraUrls(body, links)
  {
    var all, extra := AllLinks(body, links), ExtraUrls(body, links);
    assert |all| == |links| + |extra| && forall i :: 0 <= i < |extra| ==> all[|links| + i].url == extra[i];
    if i :| 0 <= i < |extra| && extra[i] == u {
      assert Index(all)[|links| + i].url == u;
    }
    if j :| |links| <= j < |all| && Index(all)[j].url == u {
      assert extra[j - |links|] == u;
    }
  }

  /**
   The second pass adds to the index, once each, exactly the URLs of what the first pass left: each the longest
   run from a scheme on, wherever no earlier URL goes on.
   */
  lemma {:induction false} SecondPassFinds(body: string, links: seq<Link>, u: string)
    ensures Added(Index(AllLinks(body, links)), links, u) <==> exists i: nat :: Lists(FirstPass(body, links), i, u)
    ensures NoRepeats(ExtraUrls(body, links))
  {
    AddedIff(body, links, u);
    BareUrlsIff(FirstPass(body, links), [], u);
    BareUrlsOnce(FirstPass(body, links), []);
  }

  // ---------------------------------------------------------------------------
  // The URLs of the body itself
  // ---------------------------------------------------------------------------

  /** No extracted URL is found in the body over any part of the place, or right after it. */
  ghost predicate Untouched(s: string, links: seq<Link>, i: nat, n: nat) {
    forall k: nat, l :: 0 <= l < |links| && k <= |s| && StartsWith(s[k..], links[l].url) ==>
      k + |links[l].url| <= i || i + n < k
  }

  lemma {:induction false} UntouchedShift(s: string, links: seq<Link>, m: nat, t: string, i: nat, n: nat)
    requires m <= |s| && t == s[m..] && Untouched(s, links, m + i, n)
    ensures Untouched(t, links, i, n)
  {
    forall k: nat, l | 0 <= l < |links| && k <= |t| && StartsWith(t[k..], links[l].url)
      ensures k + |links[l].url| <= i || i + n < k
    {
      assert t[k..] == s[m + k..];
    }
  }

  lemma {:induction false} ListsLater(s: string, m: nat, t: string, i: nat, u: string)
    requires m <= |s| && t == s[m..] && Lists(s, m + i, u)
    ensures Lists(t, i, u)
  {
    UrlShift(s, m, t, i, u);
    forall k: nat, v | k < i && UrlAt(t, k, v) ensures k + |v| <= i {
      UrlShift(s, m, t, k, v);
      assert UrlAt(s, m + k, v);
    }
  }

  /** After a character that ends a URL the listing starts afresh. */
  lemma {:induction false} ListsAfterStop(s: string, m: nat, t: string, i: nat, u: string)
    requires 0 < m <= |s| && t == s[m..] && !IsUrlChar(s[m - 1]) && Lists(t, i, u)
    ensures Lists(s, m + i, u)
  {
    UrlShift(s, m, t, i, u);
    forall k: nat, v | k < m + i && UrlAt(s, k, v) ensures k + |v| <= m + i {
      UrlChars(s, k, v);
      if k >= m {
        UrlShift(s, m, t, k - m, v);
      }
    }
  }

  /** A URL that ends within a text is listed whatever follows the text. */
  lemma {:induction false} ListsInText(text: string, x: string, y: string, i: nat, u: string)
    requires Lists(text + x, i, u) && i + |u| < |text|
    ensures Lists(text + y, i, u)
  {
    var s, r, n := text + x, text + y, i + |u|;
    UrlInText(text, x, y, i, u);
    assert s[n] == text[n] == r[n];
    forall k: nat, v | k < i && UrlAt(r, k, v) ensures k + |v| <= i {
      NoneCrosses(r, n, k, v);
      UrlInText(text, y, x, k, v);
      assert UrlAt(s, k, v);
    }
  }

  lemma {:induction false} UrlInText(text: string, x: string, y: string, i: nat, u: string)
    requires UrlAt(text + x, i, u) && i + |u| < |text|
    ensures UrlAt(text + y, i, u)
  {
    var s, r := text + x, text + y;
    assert s[i..][..|u|] == text[i..i + |u|] == r[i..][..|u|];
    assert s[i + |u|] == r[i + |u|];
  }

  /** Past a link the print lists what the rest of it does. */
  lemma {:induction false} ListsPastLink(text: string, n: nat, r: string, i: nat, u: string)
    requires Lists(r, i, u)
    ensures Lists(text + (Placeholder(n) + r), |text| + |Placeholder(n)| + i, u)
  {
    var p := Placeholder(n);
    var s, m := text + (p + r), |text| + |p|;
    assert s[m..] == r && s[m - 1] == p[|p| - 1] == ']';
    ListsAfterStop(s, m, r, i, u);
  }

  /** Text that no link touches lies before the link or after it. */
  lemma {:induction false} BeforeOrAfter(text: string, links: seq<Link>, l: nat, t: string, i: nat, n: nat)
    requires l < |links| && links[l].url != ""
    requires Untouched(text + (links[l].url + t), links, i, n)
    ensures i + n < |text| || i >= |text| + |links[l].url|
  {
    var url := links[l].url;
    var s := text + (url + t);
    assert s[|text|..] == url + t && (url + t)[..|url|] == url;
    assert StartsWith(s[|text|..], url);
  }

  lemma {:induction false} RestListed(s: string, links: seq<Link>, m: nat, t: string, i: nat, u: string)
    requires m <= i && m <= |s| && t == s[m..] && Lists(s, i, u) && Untouched(s, links, i, |u|)
    ensures Lists(t, i - m, u) && Untouched(t, links, i - m, |u|)
  {
    ListsLater(s, m, t, i - m, u);
    UntouchedShift(s, links, m, t, i - m, |u|);
  }

  /** A URL of what a document stands for that no link touches is listed in its print. */
  lemma {:induction false} ListedInPrint(d: Doc, links: seq<Link>, i: nat, u: string) returns (j: nat)
    requires Numbers1To(d, |links|) && HaveUrls(links)
    requires Lists(Expand(d, links), i, u) && Untouched(Expand(d, links), links, i, |u|)
    ensures Lists(Render(d), j, u)
  {
    match d
    case End(text) => j := i;
    case Linked(text, n, rest) =>
      var url, t := links[n - 1].url, Expand(rest, links);
      var m := |text| + |url|;
      BeforeOrAfter(text, links, n - 1, t, i, |u|);
      if i + |u| < |text| {
        ListsInText(text, url + t, Placeholder(n) + Render(rest), i, u);
        j := i;
      } else {
        assert t == (text + (url + t))[m..];
        RestListed(text + (url + t), links, m, t, i, u);
        var k := ListedInPrint(rest, links, i - m, u);
        ListsPastLink(text, n, Render(rest), k, u);
        j := |text| + |Placeholder(n)| + k;
      }
  }

  lemma {:induction false} FirstPassDocument(body: string, links: seq<Link>) returns (d: Doc)
    requires !HasToken(body) && HaveUrls(links) && !SomeCut(body, SortByLength(Numbered(links)))
    ensures Numbers1To(d, |links|) && Render(d) == FirstPass(body, links) && Expand(d, links) == body
  {
    SortedMatches(links, links);
    d := ReplaceInTurn(End(body), SortByLength(Numbered(links)), links);
  }

  /**
   As long as the first pass cuts no placeholder, every URL of the body that no extracted one touches is in the
   index.
   */
  lemma {:induction false} EveryUrlIsIndexed(body: string, links: seq<Link>, i: nat, u: string)
    requires !HasToken(body) && HaveUrls(links) && !SomeCut(body, SortByLength(Numbered(links)))
    requires Lists(body, i, u) && Untouched(body, links, i, |u|)
    ensures Added(Index(AllLinks(body, links)), links, u)
  {
    var d := FirstPassDocument(body, links);
    var j := ListedInPrint(d, links, i, u);
    SecondPassFinds(body, links, u);
  }

  /** A URL that begins with an extracted one is not: of `http://a/b` only `http://a` is. */
  lemma {:induction false} LongerUrlIsNotIndexed(u: string, rest: string, text: Option<string>)
    requires u == "http://a" && rest == "/b"
    ensures var index := Index(AllLinks(u + rest, [Link(u, text)]));
            Lists(u + rest, 0, u + rest) && forall j :: 0 <= j < |index| ==> index[j].url != u + rest
  {
    var body, links := u + rest, [Link(u, text)];
    LongerUrl(u, rest);
    FirstPassOfOne(u, rest, text);
    forall i: nat, v ensures !Lists(Placeholder(1) + rest, i, v) {
      NoScheme(Placeholder(1) + rest, i, v);
    }
    SecondPassFinds(body, links, body);
  }

  lemma {:induction false} LongerUrl(u: string, rest: string)
    requires u == "http://a" && rest == "/b"
    ensures Lists(u + rest, 0, u + rest)
  {
    var s, h := u + rest, "http://";
    assert s[0..] == s && s[..|s|] == s;
    assert s[..7] == u[..7] == h;
    SchemeChars(s);
    assert s[7] == 'a' && s[8] == '/' && s[9] == 'b';
  }

  /** A text without an `h` holds no URL. */
  lemma {:induction false} NoScheme(s: string, i: nat, u: string)
    requires forall k :: 0 <= k < |s| ==> s[k] != 'h'
    ensures !UrlAt(s, i, u)
  {
    if UrlAt(s, i, u) {
      UrlChars(s, i, u);
    }
  }

  lemma {:induction false} FirstPassOfOne(u: string, rest: string, text: Option<string>)
    requires u == "http://a" && rest == "/b"
    ensures FirstPass(u + rest, [Link(u, text)]) == Placeholder(1) + rest
    ensures forall k :: 0 <= k < |Placeholder(1) + rest| ==> (Placeholder(1) + rest)[k] != 'h'
  {
    var m, p := [(u, 1)], Placeholder(1);
    assert m[1..] == [];
    OneNumber(u, text);
    ReplacedOnce(u, rest, p);
    assert ReplaceKnown(u + rest, m) == ReplaceKnown(p + rest, m[1..]);
    assert p == ['[', 'l', 'i', 'n', 'k', '-', '1', ']'];
  }

  lemma {:induction false} ReplacedOnce(u: string, rest: string, p: string)
    requires u == "http://a" && rest == "/b"
    ensures ReplaceAll(u + rest, u, p) == p + rest
  {
    assert (u + rest)[|u|..] == rest && (u + rest)[..|u|] == u;
    assert u[0] == 'h' && rest[0] == '/' && rest[1..] == ['b'];
    assert !StartsWith(rest, u) && !StartsWith(rest[1..], u);
    assert rest[1..][1..] == "";
    assert ReplaceAll(rest[1..], u, p) == rest[1..];
    assert ReplaceAll(rest, u, p) == [rest[0]] + rest[1..];
    assert ReplaceAll(u + rest, u, p) == p + rest;
  }

  // ---------------------------------------------------------------------------
  // Which placeholder an extracted URL gets
  // ---------------------------------------------------------------------------

  ghost predicate DistinctUrls(m: Numbers) {
    forall i, j :: 0 <= i < j < |m| ==> m[i].0 != m[j].0
  }

  lemma {:induction false} SetNumberIff(m: Numbers, url: string, n: nat)
    requires DistinctUrls(m)
    ensures DistinctUrls(SetNumber(m, url, n))
    ensures forall x :: x in SetNumber(m, url, n) <==> x == (url, n) || (x in m && x.0 != url)
  {
    if m != [] {
      var r := SetNumber(m, url, n);
      if m[0].0 == url {
        assert r[1..] == m[1..];
      } else {
        SetNumberIff(m[1..], url, n);
        assert r[1..] == SetNumber(m[1..], url, n);
      }
      assert m == [m[0]] + m[1..] && r == [r[0]] + r[1..];
    }
  }

  /** The last entry with the URL is the `n`-th. */
  ghost predicate LastEntry(links: seq<Link>, u: string, n: nat) {
    1 <= n <= |links| && links[n - 1].url == u && forall j :: n <= j < |links| ==> links[j].url != u
  }

  lemma {:induction false} LastEntryStep(links: seq<Link>, u: string, n: nat)
    requires links != []
    ensures var k := |links| - 1;
            LastEntry(links, u, n) <==>
              if links[k].url == u then n == k + 1 else LastEntry(links[..k], u, n)
  {
  }

  /** Every extracted URL is known once, under the number of its last entry. */
  lemma {:induction false} NumberedIff(links: seq<Link>, u: string, n: nat)
    ensures DistinctUrls(Numbered(links))
    ensures (u, n) in Numbered(links) <==> LastEntry(links, u, n)
  {
    if links != [] {
      var k := |links| - 1;
      NumberedIff(links[..k], u, n);
      LastEntryStep(links, u, n);
      SetNumberIff(Numbered(links[..k]), links[k].url, k + 1);
    }
  }

  ghost predicate ComesBefore(m: Numbers, a: (string, nat), b: (string, nat)) {
    exists p, q :: 0 <= p < q < |m| && m[p] == a && m[q] == b
  }

  /** Longer before shorter, and of one length in the order of `m`. */
  ghost predicate LongerFirst(sorted: Numbers, m: Numbers) {
    forall i, j :: 0 <= i < j < |sorted| ==> Ranks(sorted[i], sorted[j], m)
  }

  ghost predicate Ranks(a: (string, nat), b: (string, nat), m: Numbers) {
    |a.0| > |b.0| || (|a.0| == |b.0| && ComesBefore(m, a, b))
  }

  lemma {:induction false} RanksInMore(a: (string, nat), b: (string, nat), m: Numbers, x: (string, nat))
    requires Ranks(a, b, m)
    ensures Ranks(a, b, m + [x])
  {
    if ComesBefore(m, a, b) {
      var p, q :| 0 <= p < q < |m| && m[p] == a && m[q] == b;
      assert (m + [x])[p] == a && (m + [x])[q] == b;
    }
  }

  lemma {:induction false} RanksLast(a: (string, nat), m: Numbers, x: (string, nat))
    requires a in m && |a.0| >= |x.0|
    ensures Ranks(a, x, m + [x])
  {
    var p :| 0 <= p < |m| && m[p] == a;
    assert (m + [x])[p] == a && (m + [x])[|m|] == x;
  }

  lemma {:induction false} FirstRanks(a: (string, nat), s: Numbers, m: Numbers)
    requires LongerFirst(s, m) && forall b :: b in s ==> Ranks(a, b, m)
    ensures LongerFirst([a] + s, m)
  {
    var r := [a] + s;
    forall i, j | 0 <= i < j < |r| ensures Ranks(r[i], r[j], m) {
      assert r[j] == s[j - 1] && (i > 0 ==> r[i] == s[i - 1]);
    }
  }

  lemma {:induction false} InsertRanks(x: (string, nat), s: Numbers, m: Numbers)
    requires LongerFirst(s, m) && forall a :: a in s ==> a in m
    ensures LongerFirst(InsertByLength(x, s), m + [x])
    ensures forall a :: a in InsertByLength(x, s) ==> a == x || a in s
  {
    if s != [] {
      assert s == [s[0]] + s[1..];
      InsertRanks(x, s[1..], m);
      if |x.0| > |s[0].0| {
        forall i, j | 0 <= i < j < |s| ensures Ranks(s[i], s[j], m + [x]) {
          RanksInMore(s[i], s[j], m, x);
        }
        FirstRanks(x, s, m + [x]);
      } else {
        InsertedLater(x, s, m);
      }
    }
  }

  lemma {:induction false} InsertedLater(x: (string, nat), s: Numbers, m: Numbers)
    requires s != [] && LongerFirst(s, m) && (forall a :: a in s ==> a in m) && |x.0| <= |s[0].0|
    requires LongerFirst(InsertByLength(x, s[1..]), m + [x])
    requires forall a :: a in InsertByLength(x, s[1..]) ==> a == x || a in s[1..]
    ensures LongerFirst(InsertByLength(x, s), m + [x])
  {
    var t := InsertByLength(x, s[1..]);
    forall b | b in t ensures Ranks(s[0], b, m + [x]) {
      if b == x {
        RanksLast(s[0], m, x);
      } else {
        var j :| 0 <= j < |s[1..]| && s[1..][j] == b;
        assert Ranks(s[0], s[j + 1], m);
        RanksInMore(s[0], b, m, x);
      }
    }
    FirstRanks(s[0], t, m + [x]);
  }

  /** The first pass takes the longest URLs first, and those of one length in the order of the links. */
  lemma {:induction false} LongestFirst(m: Numbers)
    ensures LongerFirst(SortByLength(m), m) && multiset(SortByLength(m)) == multiset(m)
  {
    SortMultiset(m);
    if m != [] {
      var k := |m| - 1;
      LongestFirst(m[..k]);
      SortMembers(m[..k]);
      InsertRanks(m[k], SortByLength(m[..k]), m[..k]);
      assert m[..k] + [m[k]] == m;
    }
  }

  lemma {:induction false} SortMembers(m: Numbers)
    ensures forall x :: x in SortByLength(m) <==> x in m
  {
    SortMultiset(m);
    forall x ensures x in SortByLength(m) <==> x in m {
      assert x in SortByLength(m) <==> x in multiset(SortByLength(m));
      assert x in m <==> x in multiset(m);
    }
  }

  lemma {:induction false} NothingReplaced(s: string, x: string, p: string)
    requires x != "" && forall i :: 0 <= i < |s| ==> !StartsWith(s[i..], x)
    ensures ReplaceAll(s, x, p) == s
  {
    assert s + "" == s;
    ReplaceSkips(s, "", x, p);
  }

  /** A separate URL leaves a placeholder alone. */
  lemma {:induction false} PlaceholderStays(n: nat, m: Numbers)
    requires forall i :: 0 <= i < |m| ==> Separate(m[i].0)
    ensures ReplaceKnown(Placeholder(n), m) == Placeholder(n)
    decreases |m|
  {
    if m != [] {
      var p := Placeholder(n);
      SeparateNeverHits(p, "", m[0].0, n);
      assert p + "" == p;
      NothingReplaced(p, m[0].0, Placeholder(m[0].1));
      PlaceholderStays(n, m[1..]);
    }
  }

  lemma {:induction false} StepsOnUrl(u: string, n: nat, m: Numbers, k: nat)
    requires k < |m| && m[k] == (u, n) && DistinctUrls(m) && u != ""
    requires forall i :: 0 <= i < |m| ==> Separate(m[i].0)
    requires forall i :: 0 <= i < k ==> |m[i].0| >= |u|
    ensures ReplaceKnown(u, m) == Placeholder(n)
    decreases k
  {
    var x, p := m[0].0, Placeholder(m[0].1);
    if k == 0 {
      assert u[..|u|] == u && u[|u|..] == "";
      assert ReplaceAll(u, u, p) == p + "" == p;
      PlaceholderStays(n, m[1..]);
    } else {
      forall i | 0 <= i < |u| ensures !StartsWith(u[i..], x) {
        assert x != u;
        assert |x| == |u| && i == 0 ==> u[i..][..|x|] == u;
      }
      NothingReplaced(u, x, p);
      assert m[1..][k - 1] == m[k];
      StepsOnUrl(u, n, m[1..], k - 1);
    }
  }

  /** However the extracted URLs contain each other, each gets its own placeholder, that of its last entry. */
  lemma {:induction false} EachUrlItsPlaceholder(links: seq<Link>, n: nat)
    requires 1 <= n <= |links| && LastEntry(links, links[n - 1].url, n)
    requires forall i :: 0 <= i < |links| ==> Separate(links[i].url)
    ensures FirstPass(links[n - 1].url, links) == Placeholder(n)
  {
    var u, m := links[n - 1].url, Numbered(links);
    var s := SortByLength(m);
    NumberedIff(links, u, n);
    LongestFirst(m);
    SortMembers(m);
    DistinctSorted(m, s);
    var k :| 0 <= k < |s| && s[k] == (u, n);
    forall i | 0 <= i < |s| ensures Separate(s[i].0) {
      assert s[i] in m;
      NumberedIff(links, s[i].0, s[i].1);
    }
    forall i | 0 <= i < k ensures |s[i].0| >= |u| {
      assert Ranks(s[i], s[k], m);
    }
    StepsOnUrl(u, n, s, k);
  }

  lemma {:induction false} DistinctSorted(m: Numbers, s: Numbers)
    requires DistinctUrls(m) && multiset(s) == multiset(m) && LongerFirst(s, m)
    ensures DistinctUrls(s)
  {
    forall i, j | 0 <= i < j < |s| ensures s[i].0 != s[j].0 {
      assert Ranks(s[i], s[j], m);
    }
  }
}
