/** Which `[link-N]` tokens can be left in a resolved value, `resolveLinkTokensInString` of `classifier.ts`. */
module LinkTokens {
  import opened Options
  import opened Text
  import opened LinkRedaction
  import opened LinkDocuments
  import opened LinkRoundTrip

  // A token after its bracket, read character by character

  const LINK := "link-"

  /** `r` begins with `link-` from its index `k` on, then digits (at least one, unless `digits`), then `]`. */
  predicate Rest(r: string, k: nat, digits: bool)
    requires k <= 5
  {
    && r != ""
    && if k < 5 then r[0] == LINK[k] && Rest(r[1..], k + 1, false)
       else if IsDigit(r[0]) then Rest(r[1..], 5, true)
       else digits && r[0] == ']'
  }

  lemma {:induction false} RestDigits(r: string, digits: bool)
    ensures Rest(r, 5, digits) <==> DigitRun(r) < |r| && r[DigitRun(r)] == ']' && (digits || DigitRun(r) > 0)
  {
    if r != "" && IsDigit(r[0]) {
      RestDigits(r[1..], true);
    }
  }

  lemma {:induction false} RestLink(r: string, k: nat)
    requires k <= 5
    ensures Rest(r, k, false) <==> 5 - k <= |r| && r[..5 - k] == LINK[k..] && Rest(r[5 - k..], 5, false)
  {
    if k == 5 {
      assert r[..0] == LINK[5..] && r[0..] == r;
    } else if r != "" {
      RestLink(r[1..], k + 1);
      if 5 - k <= |r| {
        assert r[..5 - k] == [r[0]] + r[1..][..4 - k] && LINK[k..] == [LINK[k]] + LINK[k + 1..];
        assert r[1..][4 - k..] == r[5 - k..];
      }
    }
  }

  /** A token is a bracket and the rest of one. */
  lemma {:induction false} TokenIsRest(s: string)
    requires s != "" && s[0] == '['
    ensures TokenLength(s) > 0 <==> Rest(s[1..], 0, false)
  {
    RestLink(s[1..], 0);
    if 6 <= |s| {
      RestDigits(s[6..], false);
      assert s[1..][5..] == s[6..] && LINK[0..] == LINK;
      assert s[..6] == [s[0]] + s[1..][..5] && OPEN == ['['] + LINK;
      assert s[..6] == OPEN ==> s[1..][..5] == OPEN[1..];
    }
  }

  /** What takes the place of a token. */
  function Known(token: string, urls: map<string, string>): string {
    if token in urls then urls[token] else ""
  }

  /**
   The rest of a token is read through `u`, a text already resolved, and then through `s`, in which a token
   gives its URL to read, or nothing when the index lacks it.
   */
  predicate Through(u: string, s: string, k: nat, digits: bool, urls: map<string, string>)
    requires k <= 5
    decreases |s|, |u|
  {
    if u != "" then
      if k < 5 then u[0] == LINK[k] && Through(u[1..], s, k + 1, false, urls)
      else if IsDigit(u[0]) then Through(u[1..], s, 5, true, urls)
      else digits && u[0] == ']'
    else
      && s != ""
      && var n := TokenLength(s);
         if n > 0 then Through(Known(s[..n], urls), s[n..], k, digits, urls)
         else Through(s[..1], s[1..], k, digits, urls)
  }

  /** Resolving gives the rest of a token exactly when `Through` says so. */
  lemma {:induction false} ThroughIsRest(u: string, s: string, k: nat, digits: bool, urls: map<string, string>)
    requires k <= 5
    ensures Through(u, s, k, digits, urls) <==> Rest(u + ResolveAll(s, urls), k, digits)
    decreases |s|, |u|
  {
    var r := u + ResolveAll(s, urls);
    if u != "" {
      assert r[0] == u[0] && r[1..] == u[1..] + ResolveAll(s, urls);
      ThroughIsRest(u[1..], s, if k < 5 then k + 1 else 5, k == 5, urls);
    } else if s != "" {
      var n := TokenLength(s);
      if n > 0 {
        ThroughIsRest(Known(s[..n], urls), s[n..], k, digits, urls);
        assert r == Known(s[..n], urls) + ResolveAll(s[n..], urls);
      } else {
        ThroughIsRest(s[..1], s[1..], k, digits, urls);
        assert r == s[..1] + ResolveAll(s[1..], urls);
      }
    }
  }

  // ---------------------------------------------------------------------------
  // Where a token is left
  // ---------------------------------------------------------------------------

  /** A stray bracket of the value, which what follows completes. */
  predicate MendedAt(s: string, urls: map<string, string>, i: nat) {
    i < |s| && s[i] == '[' && TokenLength(s[i..]) == 0 && Through("", s[i + 1..], 0, false, urls)
  }

  /** A bracket in the URL of a known token, which the rest of the URL and what follows complete. */
  ghost predicate SpilledAt(s: string, urls: map<string, string>, i: nat, j: nat) {
    && TokenAt(s, i)
    && var n := TokenLength(s[i..]);
       var url := Known(s[i..][..n], urls);
       j < |url| && url[j] == '[' && Through(url[j + 1..], s[i..][n..], 0, false, urls)
  }

  ghost predicate LeavesAt(s: string, urls: map<string, string>, i: nat) {
    MendedAt(s, urls, i) || exists j: nat :: SpilledAt(s, urls, i, j)
  }

  ghost predicate Leaves(s: string, urls: map<string, string>) {
    exists i: nat :: LeavesAt(s, urls, i)
  }

  lemma {:induction false} LeavesAtBracket(s: string, urls: map<string, string>, i: nat)
    requires LeavesAt(s, urls, i)
    ensures i < |s| && s[i] == '['
  {
    if TokenAt(s, i) {
      StartsWithBracket(s[i..]);
    }
  }

  lemma {:induction false} LeavesShift(s: string, urls: map<string, string>, n: nat, i: nat)
    requires n <= i <= |s|
    ensures LeavesAt(s, urls, i) <==> LeavesAt(s[n..], urls, i - n)
  {
    assert s[i..] == s[n..][i - n..];
    if i < |s| {
      assert s[i + 1..] == s[n..][i - n + 1..];
    }
    var t, k := s[n..], i - n;
    assert MendedAt(s, urls, i) <==> MendedAt(t, urls, k);
    forall j: nat ensures SpilledAt(s, urls, i, j) <==> SpilledAt(t, urls, k, j) {
    }
    if j: nat :| SpilledAt(s, urls, i, j) {
      assert SpilledAt(t, urls, k, j);
    }
    if j: nat :| SpilledAt(t, urls, k, j) {
      assert SpilledAt(s, urls, i, j);
    }
  }

  /** With no bracket among the next ones, only the first character and what lies past them count. */
  lemma {:induction false} LeavesFirst(s: string, urls: map<string, string>, n: nat)
    requires 0 < n <= |s| && forall i :: 0 < i < n ==> s[i] != '['
    ensures Leaves(s, urls) <==> LeavesAt(s, urls, 0) || Leaves(s[n..], urls)
  {
    if i: nat :| LeavesAt(s, urls, i) {
      LeavesAtBracket(s, urls, i);
      if i > 0 {
        LeavesShift(s, urls, n, i);
      }
    }
    if i: nat :| LeavesAt(s[n..], urls, i) {
      LeavesAtBracket(s[n..], urls, i);
      LeavesShift(s, urls, n, n + i);
    }
  }

  lemma {:induction false} TokenAfterChar(c: char, r: string)
    ensures HasToken([c] + r) <==> TokenLength([c] + r) > 0 || HasToken(r)
  {
    var t := [c] + r;
    assert t[0..] == t;
    if i: nat :| TokenAt(r, i) {
      assert t[i + 1..] == r[i..];
      assert TokenAt(t, i + 1);
    }
    if i: nat :| TokenAt(t, i) {
      if i > 0 {
        assert t[i..] == r[i - 1..];
        assert TokenAt(r, i - 1);
      }
    }
    if TokenLength(t) > 0 {
      assert TokenAt(t, 0);
    }
  }

  lemma {:induction false} TokenIsAtBracket(s: string, i: nat)
    requires TokenAt(s, i)
    ensures i < |s| && s[i] == '['
  {
    StartsWithBracket(s[i..]);
  }

  /** A token of `url + r` lies in `r` or begins at a bracket of the URL. */
  lemma {:induction false} TokenAfterUrl(url: string, r: string)
    ensures HasToken(url + r) <==>
              HasToken(r) || exists j: nat :: j < |url| && url[j] == '[' && Rest(url[j + 1..] + r, 0, false)
  {
    var t := url + r;
    if i: nat :| TokenAt(r, i) {
      assert t[|url| + i..] == r[i..];
      assert TokenAt(t, |url| + i);
    }
    if j: nat :| j < |url| && url[j] == '[' && Rest(url[j + 1..] + r, 0, false) {
      BracketAndRest(url, r, j);
    }
    if i: nat :| TokenAt(t, i) {
      TokenIsAtBracket(t, i);
      if i < |url| {
        BracketAndRest(url, r, i);
      } else {
        assert t[i..] == r[i - |url|..];
        assert TokenAt(r, i - |url|);
      }
    }
  }

  lemma {:induction false} BracketAndRest(url: string, r: string, j: nat)
    requires j < |url| && url[j] == '['
    ensures TokenAt(url + r, j) <==> Rest(url[j + 1..] + r, 0, false)
  {
    assert (url + r)[j..][1..] == url[j + 1..] + r;
    TokenIsRest((url + r)[j..]);
  }

  lemma {:induction false} ResolvedTokenIff(s: string, urls: map<string, string>)
    ensures HasToken(ResolveAll(s, urls)) <==> Leaves(s, urls)
    decreases |s|
  {
    if s == "" {
      NothingHasNoToken();
      forall i: nat ensures !LeavesAt(s, urls, i) {
        if LeavesAt(s, urls, i) {
          LeavesAtBracket(s, urls, i);
        }
      }
    } else if TokenLength(s) > 0 {
      AfterToken(s, urls);
      ResolvedTokenIff(s[TokenLength(s)..], urls);
    } else {
      AfterChar(s, urls);
      ResolvedTokenIff(s[1..], urls);
    }
  }

  lemma {:induction false} AfterToken(s: string, urls: map<string, string>)
    requires TokenLength(s) > 0
    ensures var n := TokenLength(s);
            && (HasToken(ResolveAll(s, urls)) <==> LeavesAt(s, urls, 0) || HasToken(ResolveAll(s[n..], urls)))
            && (Leaves(s, urls) <==> LeavesAt(s, urls, 0) || Leaves(s[n..], urls))
  {
    var n := TokenLength(s);
    forall i | 0 < i < n ensures s[i] != '[' {
      TokenChars(s, i);
    }
    LeavesFirst(s, urls, n);
    TokenAfterUrl(Known(s[..n], urls), ResolveAll(s[n..], urls));
    SpillsAtStart(s, urls);
  }

  lemma {:induction false} SpillsAtStart(s: string, urls: map<string, string>)
    requires TokenLength(s) > 0
    ensures var n := TokenLength(s);
            var url, r := Known(s[..n], urls), ResolveAll(s[n..], urls);
            LeavesAt(s, urls, 0) <==> exists j: nat :: j < |url| && url[j] == '[' && Rest(url[j + 1..] + r, 0, false)
  {
    var n := TokenLength(s);
    var url, r := Known(s[..n], urls), ResolveAll(s[n..], urls);
    assert s[0..] == s && !MendedAt(s, urls, 0);
    forall j: nat
      ensures SpilledAt(s, urls, 0, j) <==> j < |url| && url[j] == '[' && Rest(url[j + 1..] + r, 0, false)
    {
      if j < |url| {
        ThroughIsRest(url[j + 1..], s[n..], 0, false, urls);
      }
    }
  }

  lemma {:induction false} AfterChar(s: string, urls: map<string, string>)
    requires s != "" && TokenLength(s) == 0
    ensures HasToken(ResolveAll(s, urls)) <==> LeavesAt(s, urls, 0) || HasToken(ResolveAll(s[1..], urls))
    ensures Leaves(s, urls) <==> LeavesAt(s, urls, 0) || Leaves(s[1..], urls)
  {
    var r := ResolveAll(s[1..], urls);
    TokenAfterChar(s[0], r);
    LeavesFirst(s, urls, 1);
    assert s[0..] == s && !TokenAt(s, 0);
    if s[0] == '[' {
      TokenIsRest([s[0]] + r);
      assert ([s[0]] + r)[1..] == r && "" + r == r;
      ThroughIsRest("", s[1..], 0, false, urls);
    } else if TokenLength([s[0]] + r) > 0 {
      StartsWithBracket([s[0]] + r);
    }
  }

  /** A value that is one unknown token becomes null, and would leave none. */
  lemma {:induction false} SingleTokenLeavesNone(value: string, urls: map<string, string>)
    requires Trim(value) != "" && TokenLength(Trim(value)) == |Trim(value)| && Trim(value) !in urls
    ensures !Leaves(value, urls)
  {
    var before, after := TrimParts(value);
    var single := Trim(value);
    TokenAmidSpace(value, before, single, after);
    forall i: nat ensures !LeavesAt(value, urls, i) {
      if i < |value| && i != |before| {
        OnlyBracket(before, single, after, i);
      }
      if LeavesAt(value, urls, i) {
        LeavesAtBracket(value, urls, i);
      }
    }
  }

  lemma {:induction false} OnlyBracket(before: string, single: string, after: string, i: nat)
    requires AllSpace(before) && AllSpace(after) && single != "" && TokenLength(single) == |single|
    requires i < |before + single + after| && i != |before|
    ensures (before + single + after)[i] != '['
  {
    var value := before + single + after;
    if i < |before| {
      assert IsSpace(value[i]);
    } else if i >= |before| + |single| {
      assert IsSpace(value[i]);
    } else {
      assert value[i] == single[i - |before|];
      TokenChars(single, i - |before|);
    }
  }

  /**
   A token is left exactly when a stray bracket of the value, or a bracket in the URL of one of its known
   tokens, is followed by the rest of a token. This can be told from the value and the index alone.
   */
  lemma {:induction false} TokenSurvivesIff(value: string, urls: map<string, string>)
    ensures var r := ResolveLinkTokensInString(value, urls);
            (r.Some? && HasToken(r.value)) <==>
              (exists i: nat :: MendedAt(value, urls, i)) || (exists i: nat, j: nat :: SpilledAt(value, urls, i, j))
  {
    ResolvedTokenIff(value, urls);
    LeavesEither(value, urls);
    if !Includes(value, OPEN) {
      ResolveNothing(value, urls);
    } else if ResolveLinkTokensInString(value, urls).None? {
      SingleTokenLeavesNone(value, urls);
    }
  }

  lemma {:induction false} LeavesEither(s: string, urls: map<string, string>)
    ensures Leaves(s, urls) <==>
              (exists i: nat :: MendedAt(s, urls, i)) || (exists i: nat, j: nat :: SpilledAt(s, urls, i, j))
  {
    if i: nat :| MendedAt(s, urls, i) {
      assert LeavesAt(s, urls, i);
    }
    if i: nat, j: nat :| SpilledAt(s, urls, i, j) {
      assert LeavesAt(s, urls, i);
    }
  }

  // When the value becomes null

  /** `[link-`, digits and `]`. */
  ghost predicate IsToken(t: string, digits: string) {
    t == "[link-" + digits + "]" && digits != "" && forall i :: 0 <= i < |digits| ==> IsDigit(digits[i])
  }

  ghost predicate OnlyToken(value: string, before: string, t: string, digits: string, after: string) {
    value == before + t + after && AllSpace(before) && AllSpace(after) && IsToken(t, digits)
  }

  lemma {:induction false} WholeToken(t: string) returns (digits: string)
    requires t != "" && TokenLength(t) == |t|
    ensures IsToken(t, digits)
  {
    var d := DigitRun(t[6..]);
    digits := t[6..][..d];
    forall i | 0 <= i < d ensures IsDigit(digits[i]) {
      DigitsOnly(t[6..], i);
    }
    assert t[..6] == OPEN;
    assert t == t[..6] + digits + [t[6 + d]];
  }

  lemma {:induction false} TokenIsWhole(t: string, digits: string)
    requires IsToken(t, digits)
    ensures TokenLength(t) == |t| && Trimmed(t)
  {
    assert t[..6] == OPEN && t[6..] == digits + "]";
    DigitRunStops(digits, "]");
    assert t[0] == '[' && t[|t| - 1] == ']';
  }

  /** A value becomes null exactly when, but for white space around it, it is one token that the index lacks. */
  lemma {:induction false} NullIff(value: string, urls: map<string, string>)
    ensures ResolveLinkTokensInString(value, urls).None?
       <==> exists before, t, digits, after :: OnlyToken(value, before, t, digits, after) && t !in urls
  {
    if ResolveLinkTokensInString(value, urls).None? {
      var before, after := TrimParts(value);
      var digits := WholeToken(Trim(value));
      assert OnlyToken(value, before, Trim(value), digits, after);
    }
    if before, t, digits, after :| OnlyToken(value, before, t, digits, after) && t !in urls {
      OnlyTokenIsNull(value, before, t, digits, after, urls);
    }
  }

  lemma {:induction false} OnlyTokenIsNull(value: string, before: string, t: string, digits: string, after: string,
                                           urls: map<string, string>)
    requires OnlyToken(value, before, t, digits, after) && t !in urls
    ensures ResolveLinkTokensInString(value, urls).None?
  {
    TokenIsWhole(t, digits);
    TrimAround(before, t, after);
    assert value[|before|..] == t + after;
    assert (t + after)[..6] == t[..6] == OPEN;
    assert StartsWith(value[|before|..], OPEN);
  }

  // Conditions that are simpler to check

  /** Every token of the string is in the index. */
  ghost predicate AllKnown(s: string, urls: map<string, string>) {
    forall i: nat :: TokenAt(s, i) ==> s[i..][..TokenLength(s[i..])] in urls
  }

  /** Every bracket of the string begins a token. */
  ghost predicate NoStrayBracket(s: string) {
    forall i: nat :: i < |s| && s[i] == '[' ==> TokenAt(s, i)
  }

  ghost predicate NoBrackets(urls: map<string, string>) {
    forall t :: t in urls ==> '[' !in urls[t]
  }

  /** No URL begins like the inside of a token. */
  ghost predicate BeginApart(urls: map<string, string>) {
    forall t :: t in urls ==> urls[t] != "" && !IsDigit(urls[t][0]) && urls[t][0] !in "link-]"
  }

  /** The index of usual URLs without brackets is such. */
  lemma {:induction false} IndexIsGood(links: seq<Link>)
    requires forall i :: 0 <= i < |links| ==> IsUsual(links[i].url) && '[' !in links[i].url
    ensures NoBrackets(LinkMap(Index(links))) && BeginApart(LinkMap(Index(links)))
  {
    if links != [] {
      var k := |links| - 1;
      assert forall i :: 0 <= i < k ==> links[..k][i] == links[i];
      IndexIsGood(links[..k]);
      assert Index(links)[..k] == Index(links[..k]);
      assert IsUsual(links[k].url);
      BeginsOutside(links[k].url[0]);
    }
  }

  lemma {:induction false} BeginsOutside(c: char)
    requires c !in "[link-]"
    ensures c !in "link-]"
  {
    assert "[link-]"[1..] == "link-]";
    assert c in "[link-]"[1..] ==> c in "[link-]";
  }

  /** With every token known and no URL that continues one, only a token is read as one. */
  lemma {:induction false} KnownStops(s: string, k: nat, digits: bool, urls: map<string, string>)
    requires k <= 5 && AllKnown(s, urls) && BeginApart(urls) && Through("", s, k, digits, urls)
    ensures Rest(s, k, digits)
  {
    assert s[0..] == s && (TokenAt(s, 0) <==> TokenLength(s) > 0);
    if TokenLength(s) > 0 {
      FirstCharStops(Known(s[..TokenLength(s)], urls), s[TokenLength(s)..], k, digits, urls);
    } else {
      assert s[..1][1..] == "" && s[..1][0] == s[0];
      AllKnownRest(s, urls);
      if k < 5 {
        KnownStops(s[1..], k + 1, false, urls);
      } else if IsDigit(s[0]) {
        KnownStops(s[1..], 5, true, urls);
      }
    }
  }

  lemma {:induction false} AllKnownRest(s: string, urls: map<string, string>)
    requires s != "" && AllKnown(s, urls)
    ensures AllKnown(s[1..], urls)
  {
    forall i: nat | TokenAt(s[1..], i) ensures s[1..][i..][..TokenLength(s[1..][i..])] in urls {
      assert s[1..][i..] == s[i + 1..];
      assert TokenAt(s, i + 1);
    }
  }

  lemma {:induction false} FirstCharStops(u: string, s: string, k: nat, digits: bool, urls: map<string, string>)
    requires k <= 5 && u != "" && !IsDigit(u[0]) && u[0] !in "link-]"
    ensures !Through(u, s, k, digits, urls)
  {
    assert "link-]"[5] == ']' && (k < 5 ==> "link-]"[k] == LINK[k]);
  }

  /**
   No token is left in a value whose brackets all begin tokens, or whose tokens are all known and give URLs
   that do not continue one, as long as no URL has a bracket.
   */
  lemma {:induction false} NoTokenSurvives(value: string, urls: map<string, string>)
    requires NoBrackets(urls) && (NoStrayBracket(value) || (AllKnown(value, urls) && BeginApart(urls)))
    ensures var r := ResolveLinkTokensInString(value, urls); r.Some? ==> !HasToken(r.value)
  {
    TokenSurvivesIff(value, urls);
    forall i: nat ensures !MendedAt(value, urls, i) {
      if MendedAt(value, urls, i) {
        NothingMends(value, urls, i);
      }
    }
  }

  lemma {:induction false} NothingMends(s: string, urls: map<string, string>, i: nat)
    requires NoStrayBracket(s) || (AllKnown(s, urls) && BeginApart(urls))
    requires i < |s| && s[i] == '[' && TokenLength(s[i..]) == 0
    ensures !Through("", s[i + 1..], 0, false, urls)
  {
    assert !TokenAt(s, i);
    var t := s[i + 1..];
    forall k: nat | TokenAt(t, k) ensures TokenAt(s, i + 1 + k) && t[k..] == s[i + 1 + k..] {
      assert t[k..] == s[i + 1 + k..];
    }
    if Through("", t, 0, false, urls) {
      KnownStops(t, 0, false, urls);
      assert s[i..][1..] == t;
      TokenIsRest(s[i..]);
    }
  }

  /** Else one can: an unknown token inside a broken one leaves the broken one whole. */
  lemma {:induction false} BrokenTokenIsMended(value: string, n: nat, tail: string, urls: map<string, string>)
    requires Placeholder(n) !in urls && tail == "nk-1]" && value == "[li" + (Placeholder(n) + tail)
    ensures ResolveLinkTokensInString(value, urls) == Some("[link-1]")
    ensures HasToken("[link-1]")
  {
    var rest := Placeholder(n) + tail;
    assert value[3..] == rest && value[..3] == "[li";
    assert value[1] == 'l' && value[2] == 'i' && value[|value| - 1] == ']';
    MendedValue(value, n, tail, urls);
    assert "[li" + "nk-1]" == "[link-1]";
    OneIsToken();
  }

  lemma {:induction false} MendedValue(value: string, n: nat, tail: string, urls: map<string, string>)
    requires Placeholder(n) !in urls && |tail| < 6 && Trimmed(value)
    requires |value| > 6 && value[1] == 'l' && value[2] == 'i' && value[3..] == Placeholder(n) + tail
    ensures ResolveLinkTokensInString(value, urls) == Some(value[..3] + tail)
  {
    MendedText(value, n, tail, urls);
    UnknownTokenGoes(n, tail, urls);
  }

  lemma {:induction false} MendedText(value: string, n: nat, tail: string, urls: map<string, string>)
    requires Placeholder(n) !in urls && |tail| < 6
    requires |value| > 6 && value[1] == 'l' && value[2] == 'i' && value[3..] == Placeholder(n) + tail
    ensures TokenLength(value) == 0 && ResolveAll(value, urls) == value[..3] + tail
  {
    UnknownTokenGoes(n, tail, urls);
    assert value[3] == value[3..][..6][0];
    ShortResolves(tail, urls);
    BrokenToken(value, urls);
  }

  lemma {:induction false} ShortResolves(s: string, urls: map<string, string>)
    requires |s| < 6
    ensures ResolveAll(s, urls) == s
  {
    if s != "" {
      ShortResolves(s[1..], urls);
    }
  }

  lemma {:induction false} OneIsToken()
    ensures HasToken("[link-1]")
  {
    PlaceholderIsToken(1, "");
    assert Placeholder(1) + "" == "[link-1]";
    assert "[link-1]"[0..] == "[link-1]" && TokenAt("[link-1]", 0);
  }

  lemma {:induction false} UnknownTokenGoes(n: nat, s: string, urls: map<string, string>)
    requires Placeholder(n) !in urls
    ensures ResolveAll(Placeholder(n) + s, urls) == ResolveAll(s, urls)
    ensures StartsWith(Placeholder(n) + s, OPEN)
  {
    var p := Placeholder(n);
    PlaceholderIsToken(n, s);
    assert (p + s)[..|p|] == p && (p + s)[|p|..] == s;
    assert (p + s)[..6] == OPEN;
  }

  lemma {:induction false} BrokenToken(value: string, urls: map<string, string>)
    requires |value| > 6 && value[1] == 'l' && value[2] == 'i' && value[3] == '['
    ensures TokenLength(value) == 0
    ensures ResolveAll(value, urls) == value[..3] + ResolveAll(value[3..], urls)
  {
    var a, b, c := value[1..], value[2..], value[3..];
    assert a[1..] == b && b[1..] == c;
    CopiesChar(value, a, urls);
    CopiesChar(a, b, urls);
    CopiesChar(b, c, urls);
  }

  /** A known token too, when its URL was cut off inside a placeholder. */
  lemma {:induction false} SpilledToken(n: nat, m: nat, w: string, urls: map<string, string>)
    requires Placeholder(n) in urls && urls[Placeholder(n)] == w + Placeholder(m)[..|Placeholder(m)| - 1]
    ensures ResolveLinkTokensInString(Placeholder(n) + "]", urls) == Some(w + Placeholder(m))
    ensures HasToken(w + Placeholder(m))
  {
    var value, p := Placeholder(n) + "]", Placeholder(m);
    ResolvePlaceholder(n, "]", urls);
    ShortResolves("]", urls);
    assert p == p[..|p| - 1] + "]";
    assert w + p[..|p| - 1] + "]" == w + p;
    PlaceholderIsToken(n, "]");
    TrimAround("", value, "");
    assert value[0..] == value && StartsWith(value, OPEN);
    assert (w + p)[|w|..] == p;
    LiteralPlaceholder(w + p, |w|, m);
  }
}
