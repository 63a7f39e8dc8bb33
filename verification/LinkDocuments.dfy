/**
 What a redacted body stands for. The proofs see it as a document: text and links in turn. `Render` prints
 a link as its placeholder, `Expand` as its URL. A replacement changes the first and keeps the second, unless
 it cuts a placeholder in two.
 */
module LinkDocuments {
  import opened Options
  import opened Text
  import opened LinkRedaction

  // ---------------------------------------------------------------------------
  // Tokens
  // ---------------------------------------------------------------------------

  ghost predicate TokenAt(s: string, i: nat) {
    i <= |s| && TokenLength(s[i..]) > 0
  }

  ghost predicate HasToken(s: string) {
    exists i: nat :: TokenAt(s, i)
  }

  lemma {:induction false} DigitRunStops(digits: string, rest: string)
    requires forall i :: 0 <= i < |digits| ==> IsDigit(digits[i])
    requires rest != "" && !IsDigit(rest[0])
    ensures DigitRun(digits + rest) == |digits|
  {
    if digits == "" {
      assert digits + rest == rest;
    } else {
      assert (digits + rest)[1..] == digits[1..] + rest;
      DigitRunStops(digits[1..], rest);
    }
  }

  lemma {:induction false} DigitsOnly(s: string, i: nat)
    requires i < DigitRun(s)
    ensures IsDigit(s[i])
  {
    if i > 0 {
      DigitsOnly(s[1..], i - 1);
    }
  }

  lemma {:induction false} PlaceholderIsToken(n: nat, rest: string)
    ensures TokenLength(Placeholder(n) + rest) == |Placeholder(n)|
  {
    var s := Placeholder(n) + rest;
    assert s[6..] == Decimal(n) + ("]" + rest);
    DigitRunStops(Decimal(n), "]" + rest);
    assert s[..6] == OPEN;
  }

  lemma {:induction false} TokenChars(s: string, i: nat)
    requires 0 < i < TokenLength(s)
    ensures s[0] == '[' && s[i] != '['
  {
    assert s[..6] == OPEN;
    assert s[0] == OPEN[0];
    if i < 6 {
      assert s[i] == OPEN[i];
    } else if i < TokenLength(s) - 1 {
      DigitsOnly(s[6..], i - 6);
    }
  }

  lemma {:induction false} StartsWithBracket(s: string)
    requires TokenLength(s) > 0
    ensures s[0] == '[' && TokenLength(s) > 1
  {
    assert s[..6][0] == OPEN[0];
  }

  /** A token ends with its only closing bracket. */
  lemma {:induction false} TokenEnds(s: string)
    requires TokenLength(s) > 0
    ensures s[TokenLength(s) - 1] == ']'
  {
  }

  lemma {:induction false} DigitRunPrefix(s: string, rest: string)
    requires DigitRun(s) < |s|
    ensures DigitRun(s + rest) == DigitRun(s)
  {
    if IsDigit(s[0]) {
      assert (s + rest)[1..] == s[1..] + rest;
      DigitRunPrefix(s[1..], rest);
    }
  }

  /** What follows a token does not change it. */
  lemma {:induction false} TokenExtends(s: string, rest: string)
    requires TokenLength(s) > 0
    ensures TokenLength(s + rest) == TokenLength(s)
  {
    var t := s + rest;
    assert t[..6] == s[..6];
    DigitRunPrefix(s[6..], rest);
    assert t[6..] == s[6..] + rest;
  }

  /** Nor does it need what follows. */
  lemma {:induction false} TokenAlone(s: string, k: nat)
    requires 0 < TokenLength(s) <= k <= |s|
    ensures TokenLength(s[..k]) == TokenLength(s)
  {
    var n, d := TokenLength(s), DigitRun(s[6..]);
    var p := s[..n];
    assert p[..6] == s[..6];
    forall i | 0 <= i < d ensures IsDigit(s[6..][i]) {
      DigitsOnly(s[6..], i);
    }
    assert p[6..] == s[6..][..d] + "]";
    DigitRunStops(s[6..][..d], "]");
    TokenExtends(p, s[n..k]);
    assert s[..k] == p + s[n..k];
  }

  lemma {:induction false} HasTokenAfter(s: string, t: string)
    requires HasToken(t)
    ensures HasToken(s + t)
  {
    var i: nat :| TokenAt(t, i);
    assert (s + t)[|s| + i..] == t[i..];
    assert TokenAt(s + t, |s| + i);
  }

  /** A literal placeholder is a token. */
  lemma {:induction false} LiteralPlaceholder(s: string, i: nat, n: nat)
    requires i <= |s| && StartsWith(s[i..], Placeholder(n))
    ensures HasToken(s)
  {
    var p := Placeholder(n);
    assert s[i..] == p + s[i..][|p|..];
    PlaceholderIsToken(n, s[i..][|p|..]);
    assert TokenAt(s, i);
  }

  // ---------------------------------------------------------------------------
  // Documents
  // ---------------------------------------------------------------------------

  datatype Doc =
    | End(text: string)
    | Linked(text: string, n: nat, rest: Doc)

  function Render(d: Doc): string {
    match d
    case End(text) => text
    case Linked(text, n, rest) => text + (Placeholder(n) + Render(rest))
  }

  ghost predicate Numbers1To(d: Doc, count: nat) {
    d.Linked? ==> 1 <= d.n <= count && Numbers1To(d.rest, count)
  }

  function Expand(d: Doc, links: seq<Link>): string
    requires Numbers1To(d, |links|)
  {
    match d
    case End(text) => text
    case Linked(text, n, rest) => text + (links[n - 1].url + Expand(rest, links))
  }

  /** No text of the document holds a token: the tokens of its print are its placeholders. */
  ghost predicate Clean(d: Doc) {
    !HasToken(d.text) && (d.Linked? ==> Clean(d.rest))
  }

  lemma {:induction false} RenderTail(d: Doc, k: nat)
    requires k <= |d.text|
    ensures Render(d)[k..] == Render(d.(text := d.text[k..]))
    ensures Render(d)[..k] == d.text[..k]
  {
  }

  lemma {:induction false} RenderLink(d: Doc)
    requires d.text == "" && d.Linked?
    ensures Render(d) == Placeholder(d.n) + Render(d.rest)
  {
  }

  lemma {:induction false} ExpandTail(d: Doc, links: seq<Link>, k: nat)
    requires k <= |d.text| && Numbers1To(d, |links|)
    ensures Expand(d, links) == d.text[..k] + Expand(d.(text := d.text[k..]), links)
  {
    assert d.text == d.text[..k] + d.text[k..];
  }

  lemma {:induction false} ExpandPrepend(c: char, d: Doc, links: seq<Link>)
    requires Numbers1To(d, |links|)
    ensures Numbers1To(d.(text := [c] + d.text), |links|)
    ensures Expand(d.(text := [c] + d.text), links) == [c] + Expand(d, links)
  {
    assert d.(text := [c] + d.text).(text := d.text) == d;
    ExpandTail(d.(text := [c] + d.text), links, 1);
  }

  lemma {:induction false} TokenlessTail(t: string, k: nat)
    requires !HasToken(t) && k <= |t|
    ensures !HasToken(t[k..])
  {
    forall i: nat ensures !TokenAt(t[k..], i) {
      if TokenAt(t[k..], i) {
        assert t[k..][i..] == t[k + i..];
        assert TokenAt(t, k + i);
      }
    }
  }

  /** No token of the print begins in a text. */
  lemma {:induction false} NoTokenInText(d: Doc)
    requires Clean(d) && d.text != ""
    ensures TokenLength(Render(d)) == 0
  {
    var s, t := Render(d), TokenLength(Render(d));
    assert s[..|d.text|] == d.text && d.text[0..] == d.text && !TokenAt(d.text, 0);
    if t > |d.text| {
      assert s[|d.text|] == Placeholder(d.n)[0] == '[';
      TokenChars(s, |d.text|);
    } else if t > 0 {
      TokenAlone(s, |d.text|);
    }
  }

  // ---------------------------------------------------------------------------
  // Dropping a prefix
  // ---------------------------------------------------------------------------

  /** The document without its first `k` characters in print. A placeholder that is cut becomes text. */
  function Drop(d: Doc, k: nat): Doc
    requires k <= |Render(d)|
  {
    if k <= |d.text| then d.(text := d.text[k..])
    else
      var p, j := Placeholder(d.n), k - |d.text|;
      if j >= |p| then Drop(d.rest, j - |p|) else d.rest.(text := p[j..] + d.rest.text)
  }

  lemma {:induction false} DropRender(d: Doc, k: nat)
    requires k <= |Render(d)|
    ensures Render(Drop(d, k)) == Render(d)[k..]
  {
    if k > |d.text| {
      var p, j := Placeholder(d.n), k - |d.text|;
      assert Render(d)[k..] == (p + Render(d.rest))[j..];
      if j >= |p| {
        DropRender(d.rest, j - |p|);
      } else {
        RenderTextFirst(p[j..], d.rest);
      }
    }
  }

  lemma {:induction false} RenderTextFirst(t: string, d: Doc)
    ensures Render(d.(text := t + d.text)) == t + Render(d)
  {
  }

  lemma {:induction false} DropNumbers(d: Doc, k: nat, count: nat)
    requires k <= |Render(d)| && Numbers1To(d, count)
    ensures Numbers1To(Drop(d, k), count)
  {
    if k > |d.text| && k - |d.text| >= |Placeholder(d.n)| {
      DropNumbers(d.rest, k - |d.text| - |Placeholder(d.n)|, count);
    }
  }

  lemma {:induction false} DropClean(d: Doc, k: nat)
    requires k <= |Render(d)| && Clean(d)
    ensures Clean(Drop(d, k))
  {
    if k <= |d.text| {
      TokenlessTail(d.text, k);
    } else if k - |d.text| >= |Placeholder(d.n)| {
      DropClean(d.rest, k - |d.text| - |Placeholder(d.n)|);
    } else {
      CutTail(d.n, k - |d.text|, d.rest.text);
    }
  }

  /** The end of a cut placeholder completes no token. */
  lemma {:induction false} CutTail(n: nat, j: nat, t: string)
    requires 0 < j < |Placeholder(n)| && !HasToken(t)
    ensures !HasToken(Placeholder(n)[j..] + t)
  {
    var q := Placeholder(n)[j..];
    forall i: nat ensures !TokenAt(q + t, i) {
      if TokenAt(q + t, i) {
        StartsWithBracket((q + t)[i..]);
        if i < |q| {
          PlaceholderInside(n, j + i);
        }
        assert (q + t)[i..] == t[i - |q|..];
        assert TokenAt(t, i - |q|);
      }
    }
  }

  lemma {:induction false} PlaceholderInside(n: nat, i: nat)
    requires 0 < i < |Placeholder(n)|
    ensures Placeholder(n)[i] != '[' && (Placeholder(n)[i] == ']' <==> i == |Placeholder(n)| - 1)
  {
    if 6 <= i < |Placeholder(n)| - 1 {
      assert IsDigit(Decimal(n)[i - 6]);
    }
  }

  // ---------------------------------------------------------------------------
  // Replacing in a document
  // ---------------------------------------------------------------------------

  /** The first of `k` places where `u` starts, or `k`. */
  function FirstHit(s: string, u: string, k: nat): (i: nat)
    requires k <= |s|
    ensures i <= k && (i < k ==> StartsWith(s[i..], u)) && forall j :: 0 <= j < i ==> !StartsWith(s[j..], u)
  {
    if k == 0 || StartsWith(s, u) then
      assert s[0..] == s;
      0
    else
      var i := 1 + FirstHit(s[1..], u, k - 1);
      assert forall j :: 0 < j <= i ==> s[j..] == s[1..][j - 1..];
      assert s[0..] == s;
      i
  }

  /** Replacing `u` by link `n` wherever the scan of the print finds it. */
  function Replace(d: Doc, u: string, n: nat): Doc
    requires u != ""
    decreases |Render(d)|
  {
    if d.text != "" then
      if StartsWith(Render(d), u) then
        DropRender(d, |u|);
        Linked("", n, Replace(Drop(d, |u|), u, n))
      else
        RenderTail(d, 1);
        var r := Replace(d.(text := d.text[1..]), u, n);
        r.(text := [d.text[0]] + r.text)
    else if d.End? then d
    else
      RenderLink(d);
      var p := Placeholder(d.n);
      var k := FirstHit(Render(d), u, |p|);
      if k == |p| then Linked("", d.n, Replace(d.rest, u, n))
      else
        DropRender(d, k + |u|);
        Linked(p[..k], n, Replace(Drop(d, k + |u|), u, n))
  }

  lemma {:induction false} ReplaceSkips(q: string, s: string, u: string, p: string)
    requires u != "" && forall i :: 0 <= i < |q| ==> !StartsWith((q + s)[i..], u)
    ensures ReplaceAll(q + s, u, p) == q + ReplaceAll(s, u, p)
  {
    if q == "" {
      assert q + s == s;
    } else {
      assert (q + s)[0..] == q + s && (q + s)[1..] == q[1..] + s;
      assert forall i :: 0 <= i < |q[1..]| ==> (q[1..] + s)[i..] == (q + s)[i + 1..];
      ReplaceSkips(q[1..], s, u, p);
      assert q == [q[0]] + q[1..];
    }
  }

  lemma {:induction false} ReplaceHit(s: string, u: string, p: string, k: nat)
    requires u != "" && k <= |s| && StartsWith(s[k..], u) && forall i :: 0 <= i < k ==> !StartsWith(s[i..], u)
    ensures ReplaceAll(s, u, p) == s[..k] + (p + ReplaceAll(s[k + |u|..], u, p))
  {
    assert s == s[..k] + s[k..];
    ReplaceSkips(s[..k], s[k..], u, p);
    assert s[k..] != "" by {
      assert |u| <= |s[k..]|;
    }
    assert s[k..][|u|..] == s[k + |u|..];
  }

  lemma {:induction false} RenderReplace(d: Doc, u: string, n: nat)
    requires u != ""
    ensures Render(Replace(d, u, n)) == ReplaceAll(Render(d), u, Placeholder(n))
    decreases |Render(d)|
  {
    if d.text != "" {
      if StartsWith(Render(d), u) {
        DropRender(d, |u|);
        RenderReplace(Drop(d, |u|), u, n);
      } else {
        RenderTail(d, 1);
        RenderReplace(d.(text := d.text[1..]), u, n);
        RenderTextFirst([d.text[0]], Replace(d.(text := d.text[1..]), u, n));
      }
    } else if d.Linked? {
      RenderReplaceLink(d, u, n);
    }
  }

  lemma {:induction false} RenderReplaceLink(d: Doc, u: string, n: nat)
    requires u != "" && d.text == "" && d.Linked?
    ensures Render(Replace(d, u, n)) == ReplaceAll(Render(d), u, Placeholder(n))
    decreases |Render(d)|, 0
  {
    RenderLink(d);
    var p := Placeholder(d.n);
    var k := FirstHit(Render(d), u, |p|);
    if k == |p| {
      RenderReplace(d.rest, u, n);
      ReplaceSkips(p, Render(d.rest), u, Placeholder(n));
    } else {
      DropRender(d, k + |u|);
      RenderReplace(Drop(d, k + |u|), u, n);
      ReplaceHit(Render(d), u, Placeholder(n), k);
      assert Render(d)[..k] == p[..k];
      assert Replace(d, u, n) == Linked(p[..k], n, Replace(Drop(d, k + |u|), u, n));
    }
  }

  lemma {:induction false} ReplaceNumbers(d: Doc, u: string, n: nat, count: nat)
    requires u != "" && Numbers1To(d, count) && 1 <= n <= count
    ensures Numbers1To(Replace(d, u, n), count)
    decreases |Render(d)|
  {
    if d.text != "" {
      if StartsWith(Render(d), u) {
        DropRender(d, |u|);
        DropNumbers(d, |u|, count);
        ReplaceNumbers(Drop(d, |u|), u, n, count);
      } else {
        RenderTail(d, 1);
        ReplaceNumbers(d.(text := d.text[1..]), u, n, count);
      }
    } else if d.Linked? {
      RenderLink(d);
      var k := FirstHit(Render(d), u, |Placeholder(d.n)|);
      if k == |Placeholder(d.n)| {
        ReplaceNumbers(d.rest, u, n, count);
      } else {
        DropRender(d, k + |u|);
        DropNumbers(d, k + |u|, count);
        ReplaceNumbers(Drop(d, k + |u|), u, n, count);
      }
    }
  }

  /** The first text of the result is the beginning of the print. */
  lemma {:induction false} ReplacePrefix(d: Doc, u: string, n: nat)
    requires u != ""
    ensures StartsWith(Render(d), Replace(d, u, n).text)
    decreases |Render(d)|
  {
    if d.text != "" && !StartsWith(Render(d), u) {
      RenderTail(d, 1);
      var tail := d.(text := d.text[1..]);
      ReplacePrefix(tail, u, n);
      var t := Replace(tail, u, n).text;
      assert Render(d)[..|t| + 1] == [d.text[0]] + Render(d)[1..][..|t|];
    } else if d.text == "" && d.Linked? {
      RenderLink(d);
    }
  }

  lemma {:induction false} TokenlessPrepend(c: char, t: string)
    requires !HasToken(t) && TokenLength([c] + t) == 0
    ensures !HasToken([c] + t)
  {
    forall i: nat ensures !TokenAt([c] + t, i) {
      if i == 0 {
        assert ([c] + t)[0..] == [c] + t;
      } else if i <= |t| + 1 {
        assert ([c] + t)[i..] == t[i - 1..];
        assert !TokenAt(t, i - 1);
      }
    }
  }

  /** A placeholder without its end is no token. */
  lemma {:induction false} CutHead(n: nat, k: nat)
    requires k < |Placeholder(n)|
    ensures !HasToken(Placeholder(n)[..k])
  {
    var q := Placeholder(n)[..k];
    forall c | 0 <= c < k ensures q[c] != ']' {
      if c > 0 {
        PlaceholderInside(n, c);
      }
    }
    forall i: nat ensures !TokenAt(q, i) {
      if TokenAt(q, i) {
        TokenEnds(q[i..]);
      }
    }
  }

  lemma {:induction false} ReplaceClean(d: Doc, u: string, n: nat)
    requires u != "" && Clean(d)
    ensures Clean(Replace(d, u, n))
    decreases |Render(d)|
  {
    if d.text != "" {
      if StartsWith(Render(d), u) {
        DropRender(d, |u|);
        DropClean(d, |u|);
        ReplaceClean(Drop(d, |u|), u, n);
        NothingHasNoToken();
      } else {
        RenderTail(d, 1);
        TokenlessTail(d.text, 1);
        ReplaceClean(d.(text := d.text[1..]), u, n);
        ReplaceCleanText(d, u, n);
      }
    } else if d.Linked? {
      ReplaceCleanLink(d, u, n);
    }
  }

  lemma {:induction false} NothingHasNoToken()
    ensures !HasToken("")
  {
    forall i: nat ensures !TokenAt("", i) {
    }
  }

  lemma {:induction false} ReplaceCleanText(d: Doc, u: string, n: nat)
    requires u != "" && Clean(d) && d.text != "" && !StartsWith(Render(d), u)
    requires Clean(Replace(d.(text := d.text[1..]), u, n))
    ensures !HasToken(Replace(d, u, n).text)
  {
    var t := Replace(d, u, n).text;
    ReplacePrefix(d, u, n);
    NoTokenInText(d);
    if TokenLength(t) > 0 {
      assert Render(d) == t + Render(d)[|t|..];
      TokenExtends(t, Render(d)[|t|..]);
    }
    TokenlessPrepend(d.text[0], Replace(d.(text := d.text[1..]), u, n).text);
  }

  lemma {:induction false} ReplaceCleanLink(d: Doc, u: string, n: nat)
    requires u != "" && Clean(d) && d.text == "" && d.Linked?
    ensures Clean(Replace(d, u, n))
    decreases |Render(d)|, 0
  {
    RenderLink(d);
    NothingHasNoToken();
    var k := FirstHit(Render(d), u, |Placeholder(d.n)|);
    if k == |Placeholder(d.n)| {
      ReplaceClean(d.rest, u, n);
    } else {
      DropRender(d, k + |u|);
      DropClean(d, k + |u|);
      ReplaceClean(Drop(d, k + |u|), u, n);
      CutHead(d.n, k);
    }
  }

  // ---------------------------------------------------------------------------
  // Cutting a placeholder
  // ---------------------------------------------------------------------------

  /** A token begins within the first `k` characters. */
  ghost predicate TokenWithin(s: string, k: nat) {
    exists q: nat :: q < k && TokenAt(s, q)
  }

  /** The scan for `u` finds it, at some place, over a part of a token. */
  ghost predicate Cuts(s: string, u: string)
    requires u != ""
    decreases |s|
  {
    && s != ""
    && var t := TokenLength(s);
       if t > 0 then FirstHit(s, u, t) < t || Cuts(s[t..], u)
       else if StartsWith(s, u) then TokenWithin(s, |u|) || Cuts(s[|u|..], u)
       else Cuts(s[1..], u)
  }

  /** The same of a document: it finds `u` over a part of a placeholder. */
  ghost predicate CutsLink(d: Doc, u: string)
    requires u != ""
    decreases |Render(d)|
  {
    if d.text != "" then
      if StartsWith(Render(d), u) then |u| > |d.text| || (DropRender(d, |u|); CutsLink(Drop(d, |u|), u))
      else (RenderTail(d, 1); CutsLink(d.(text := d.text[1..]), u))
    else
      && d.Linked?
      && (RenderLink(d); FirstHit(Render(d), u, |Placeholder(d.n)|) < |Placeholder(d.n)| || CutsLink(d.rest, u))
  }

  lemma {:induction false} CutsByLink(d: Doc, u: string)
    requires u != "" && Clean(d)
    ensures Cuts(Render(d), u) <==> CutsLink(d, u)
    decreases |Render(d)|
  {
    if d.text != "" {
      NoTokenInText(d);
      if StartsWith(Render(d), u) {
        CoversByLength(d, u);
        if |u| <= |d.text| {
          DropRender(d, |u|);
          DropClean(d, |u|);
          CutsByLink(Drop(d, |u|), u);
        }
      } else {
        RenderTail(d, 1);
        TokenlessTail(d.text, 1);
        CutsByLink(d.(text := d.text[1..]), u);
      }
    } else if d.Linked? {
      RenderLink(d);
      PlaceholderIsToken(d.n, Render(d.rest));
      CutsByLink(d.rest, u);
      assert Render(d)[|Placeholder(d.n)|..] == Render(d.rest);
    }
  }

  /** A match that begins in a text covers a token exactly when it is longer than the text. */
  lemma {:induction false} CoversByLength(d: Doc, u: string)
    requires Clean(d) && StartsWith(Render(d), u)
    ensures TokenWithin(Render(d), |u|) <==> |u| > |d.text|
  {
    if |u| > |d.text| {
      RenderTail(d, |d.text|);
      assert d.text[|d.text|..] == "";
      RenderLink(d.(text := ""));
      PlaceholderIsToken(d.n, Render(d.rest));
      assert TokenAt(Render(d), |d.text|);
    } else {
      forall q: nat | q < |u| ensures !TokenAt(Render(d), q) {
        RenderTail(d, q);
        TokenlessTail(d.text, q);
        NoTokenInText(d.(text := d.text[q..]));
      }
    }
  }

  // ---------------------------------------------------------------------------
  // What a replacement keeps
  // ---------------------------------------------------------------------------

  // What the result stands for, case by case

  lemma {:induction false} ReplaceFound(d: Doc, u: string, n: nat, links: seq<Link>)
    requires u != "" && Numbers1To(d, |links|) && 1 <= n <= |links| && links[n - 1].url == u
    requires d.text != "" && StartsWith(Render(d), u)
    ensures Numbers1To(Drop(d, |u|), |links|)
    ensures Numbers1To(Replace(d, u, n), |links|) && Numbers1To(Replace(Drop(d, |u|), u, n), |links|)
    ensures Expand(Replace(d, u, n), links) == u + Expand(Replace(Drop(d, |u|), u, n), links)
  {
    DropNumbers(d, |u|, |links|);
    ReplaceNumbers(d, u, n, |links|);
    ReplaceNumbers(Drop(d, |u|), u, n, |links|);
  }

  lemma {:induction false} ReplaceCopied(d: Doc, u: string, n: nat, links: seq<Link>)
    requires u != "" && Numbers1To(d, |links|) && 1 <= n <= |links|
    requires d.text != "" && !StartsWith(Render(d), u)
    ensures Numbers1To(Replace(d, u, n), |links|) && Numbers1To(Replace(d.(text := d.text[1..]), u, n), |links|)
    ensures Expand(Replace(d, u, n), links) == [d.text[0]] + Expand(Replace(d.(text := d.text[1..]), u, n), links)
  {
    ReplaceNumbers(d.(text := d.text[1..]), u, n, |links|);
    ExpandPrepend(d.text[0], Replace(d.(text := d.text[1..]), u, n), links);
  }

  lemma {:induction false} ReplaceKept(d: Doc, u: string, n: nat, links: seq<Link>)
    requires u != "" && Numbers1To(d, |links|) && 1 <= n <= |links| && d.text == "" && d.Linked?
    requires |Placeholder(d.n)| <= |Render(d)|
    requires FirstHit(Render(d), u, |Placeholder(d.n)|) == |Placeholder(d.n)|
    ensures Numbers1To(Replace(d, u, n), |links|) && Numbers1To(Replace(d.rest, u, n), |links|)
    ensures Expand(Replace(d, u, n), links) == links[d.n - 1].url + Expand(Replace(d.rest, u, n), links)
  {
    ReplaceNumbers(d.rest, u, n, |links|);
  }

  lemma {:induction false} ReplaceBroken(d: Doc, u: string, n: nat, links: seq<Link>, k: nat)
    requires u != "" && Numbers1To(d, |links|) && 1 <= n <= |links| && links[n - 1].url == u
    requires d.text == "" && d.Linked? && |Placeholder(d.n)| <= |Render(d)|
    requires k == FirstHit(Render(d), u, |Placeholder(d.n)|) < |Placeholder(d.n)|
    ensures Numbers1To(Drop(d, k + |u|), |links|)
    ensures Numbers1To(Replace(d, u, n), |links|) && Numbers1To(Replace(Drop(d, k + |u|), u, n), |links|)
    ensures Expand(Replace(d, u, n), links)
         == Placeholder(d.n)[..k] + (u + Expand(Replace(Drop(d, k + |u|), u, n), links))
  {
    DropNumbers(d, k + |u|, |links|);
    ReplaceNumbers(Drop(d, k + |u|), u, n, |links|);
    ReplaceBreaks(d, u, n, k);
    var e := Replace(Drop(d, k + |u|), u, n);
    assert Expand(Linked(Placeholder(d.n)[..k], n, e), links)
        == Placeholder(d.n)[..k] + (links[n - 1].url + Expand(e, links));
  }

  lemma {:induction false} ReplaceBreaks(d: Doc, u: string, n: nat, k: nat)
    requires u != "" && d.text == "" && d.Linked? && |Placeholder(d.n)| <= |Render(d)|
    requires k == FirstHit(Render(d), u, |Placeholder(d.n)|) < |Placeholder(d.n)|
    ensures k + |u| <= |Render(d)|
    ensures Replace(d, u, n) == Linked(Placeholder(d.n)[..k], n, Replace(Drop(d, k + |u|), u, n))
  {
  }

  /** A replacement that cuts no placeholder keeps what the document stands for. */
  lemma {:induction false} ExpandSame(d: Doc, u: string, n: nat, links: seq<Link>)
    requires u != "" && Numbers1To(d, |links|) && 1 <= n <= |links| && links[n - 1].url == u && !CutsLink(d, u)
    ensures Numbers1To(Replace(d, u, n), |links|)
    ensures Expand(Replace(d, u, n), links) == Expand(d, links)
    decreases |Render(d)|
  {
    ReplaceNumbers(d, u, n, |links|);
    if d.text != "" {
      if StartsWith(Render(d), u) {
        DropRender(d, |u|);
        ExpandSame(Drop(d, |u|), u, n, links);
        FoundSame(d, u, n, links);
      } else {
        RenderTail(d, 1);
        ExpandSame(d.(text := d.text[1..]), u, n, links);
        CopiedSame(d, u, n, links);
      }
    } else if d.Linked? {
      RenderLink(d);
      ExpandSame(d.rest, u, n, links);
      ReplaceKept(d, u, n, links);
    }
  }

  lemma {:induction false} CopiedSame(d: Doc, u: string, n: nat, links: seq<Link>)
    requires u != "" && Numbers1To(d, |links|) && 1 <= n <= |links| && d.text != "" && !StartsWith(Render(d), u)
    requires Numbers1To(Replace(d.(text := d.text[1..]), u, n), |links|)
    requires Expand(Replace(d.(text := d.text[1..]), u, n), links) == Expand(d.(text := d.text[1..]), links)
    ensures Numbers1To(Replace(d, u, n), |links|) && Expand(Replace(d, u, n), links) == Expand(d, links)
  {
    ReplaceCopied(d, u, n, links);
    ExpandTail(d, links, 1);
  }

  lemma {:induction false} FoundSame(d: Doc, u: string, n: nat, links: seq<Link>)
    requires u != "" && Numbers1To(d, |links|) && 1 <= n <= |links| && links[n - 1].url == u
    requires d.text != "" && StartsWith(Render(d), u) && |u| <= |d.text|
    requires Numbers1To(Replace(Drop(d, |u|), u, n), |links|) && Numbers1To(Drop(d, |u|), |links|)
    requires Expand(Replace(Drop(d, |u|), u, n), links) == Expand(Drop(d, |u|), links)
    ensures Numbers1To(Replace(d, u, n), |links|) && Expand(Replace(d, u, n), links) == Expand(d, links)
  {
    ReplaceFound(d, u, n, links);
    ExpandTail(d, links, |u|);
    RenderTail(d, |u|);
  }

  /** Whatever is replaced, the text before the first link stands for itself. */
  lemma {:induction false} ExpandStarts(d: Doc, u: string, n: nat, links: seq<Link>)
    requires u != "" && Numbers1To(d, |links|) && 1 <= n <= |links| && links[n - 1].url == u
    ensures Numbers1To(Replace(d, u, n), |links|)
    ensures StartsWith(Expand(Replace(d, u, n), links), d.text)
    decreases |Render(d)|
  {
    ReplaceNumbers(d, u, n, |links|);
    if d.text != "" {
      if StartsWith(Render(d), u) {
        DropRender(d, |u|);
        ReplaceFound(d, u, n, links);
        ExpandStarts(Drop(d, |u|), u, n, links);
        FoundStarts(d, u, Expand(Replace(Drop(d, |u|), u, n), links));
      } else {
        RenderTail(d, 1);
        ExpandStarts(d.(text := d.text[1..]), u, n, links);
        CopiedStarts(d, u, n, links);
      }
    }
  }

  lemma {:induction false} CopiedStarts(d: Doc, u: string, n: nat, links: seq<Link>)
    requires u != "" && d.text != "" && !StartsWith(Render(d), u) && Numbers1To(d, |links|) && 1 <= n <= |links|
    requires Numbers1To(Replace(d, u, n), |links|) && Numbers1To(Replace(d.(text := d.text[1..]), u, n), |links|)
    requires StartsWith(Expand(Replace(d.(text := d.text[1..]), u, n), links), d.text[1..])
    ensures StartsWith(Expand(Replace(d, u, n), links), d.text)
  {
    var x := Expand(Replace(d.(text := d.text[1..]), u, n), links);
    ReplaceCopied(d, u, n, links);
    assert ([d.text[0]] + x)[..|d.text|] == [d.text[0]] + x[..|d.text| - 1];
  }

  lemma {:induction false} FoundStarts(d: Doc, u: string, x: string)
    requires StartsWith(Render(d), u) && StartsWith(x, Drop(d, |u|).text)
    ensures StartsWith(u + x, d.text)
  {
    if |u| <= |d.text| {
      assert Render(d)[..|u|] == d.text[..|u|];
      assert d.text == u + d.text[|u|..];
      assert (u + x)[..|d.text|] == u + x[..|d.text| - |u|];
    } else {
      assert (u + x)[..|d.text|] == Render(d)[..|u|][..|d.text|] == d.text;
    }
  }

  /** A replacement that cuts a placeholder leaves it standing for itself. */
  lemma {:induction false} ExpandCut(d: Doc, u: string, n: nat, links: seq<Link>)
    requires u != "" && Numbers1To(d, |links|) && 1 <= n <= |links| && links[n - 1].url == u && CutsLink(d, u)
    ensures Numbers1To(Replace(d, u, n), |links|)
    ensures HasToken(Expand(Replace(d, u, n), links))
    decreases |Render(d)|, 1
  {
    ReplaceNumbers(d, u, n, |links|);
    if d.text == "" {
      ExpandCutLink(d, u, n, links);
    } else if StartsWith(Render(d), u) {
      ExpandCutFound(d, u, n, links);
    } else {
      RenderTail(d, 1);
      ReplaceCopied(d, u, n, links);
      ExpandCut(d.(text := d.text[1..]), u, n, links);
      HasTokenAfter([d.text[0]], Expand(Replace(d.(text := d.text[1..]), u, n), links));
    }
  }

  lemma {:induction false} ExpandCutFound(d: Doc, u: string, n: nat, links: seq<Link>)
    requires u != "" && Numbers1To(d, |links|) && 1 <= n <= |links| && links[n - 1].url == u && CutsLink(d, u)
    requires d.text != "" && StartsWith(Render(d), u)
    ensures Numbers1To(Replace(d, u, n), |links|)
    ensures HasToken(Expand(Replace(d, u, n), links))
    decreases |Render(d)|, 0
  {
    ReplaceFound(d, u, n, links);
    if |u| > |d.text| {
      assert Render(d)[0..] == Render(d);
      ExpandCutHere(d, u, n, links, 0);
      var x := Expand(Replace(Drop(d, |u|), u, n), links);
      assert Render(d)[..0] + (u + x) == u + x;
    } else {
      DropRender(d, |u|);
      ExpandCut(Drop(d, |u|), u, n, links);
      HasTokenAfter(u, Expand(Replace(Drop(d, |u|), u, n), links));
    }
  }

  lemma {:induction false} ExpandCutLink(d: Doc, u: string, n: nat, links: seq<Link>)
    requires u != "" && Numbers1To(d, |links|) && 1 <= n <= |links| && links[n - 1].url == u && CutsLink(d, u)
    requires d.text == ""
    ensures Numbers1To(Replace(d, u, n), |links|)
    ensures HasToken(Expand(Replace(d, u, n), links))
    decreases |Render(d)|, 0
  {
    ReplaceNumbers(d, u, n, |links|);
    RenderLink(d);
    var k := FirstHit(Render(d), u, |Placeholder(d.n)|);
    if k == |Placeholder(d.n)| {
      ReplaceKept(d, u, n, links);
      ExpandCut(d.rest, u, n, links);
      HasTokenAfter(links[d.n - 1].url, Expand(Replace(d.rest, u, n), links));
    } else {
      ReplaceBroken(d, u, n, links, k);
      ExpandCutHere(d, u, n, links, k);
      assert Render(d)[..k] == Placeholder(d.n)[..k];
    }
  }

  /** `u` is found at `k`, before the end of the first placeholder and over a part of it. */
  lemma {:induction false} ExpandCutHere(d: Doc, u: string, n: nat, links: seq<Link>, k: nat)
    requires u != "" && Numbers1To(d, |links|) && 1 <= n <= |links| && links[n - 1].url == u
    requires d.Linked? && k < |d.text| + |Placeholder(d.n)| && |d.text| < k + |u| <= |Render(d)|
    requires StartsWith(Render(d)[k..], u)
    ensures Numbers1To(Replace(Drop(d, k + |u|), u, n), |links|)
    ensures HasToken(Render(d)[..k] + (u + Expand(Replace(Drop(d, k + |u|), u, n), links)))
  {
    var e := Drop(d, k + |u|);
    DropNumbers(d, k + |u|, |links|);
    ExpandStarts(e, u, n, links);
    CutIsLiteral(d, u, k, Expand(Replace(e, u, n), links));
  }

  lemma {:induction false} CutIsLiteral(d: Doc, u: string, k: nat, x: string)
    requires d.Linked? && k < |d.text| + |Placeholder(d.n)| && |d.text| < k + |u| <= |Render(d)|
    requires StartsWith(Render(d)[k..], u) && StartsWith(x, Drop(d, k + |u|).text)
    ensures HasToken(Render(d)[..k] + (u + x))
  {
    var p, s, t, m := Placeholder(d.n), Render(d), |d.text|, k + |u|;
    var whole := s[..k] + (u + x);
    assert whole == s[..m] + x;
    assert s[t..] == p + Render(d.rest);
    if m < t + |p| {
      CutInside(d, m);
      HeadAndTail(whole, s[..m], x, p, t, Drop(d, m).text);
    } else {
      assert whole[t..][..|p|] == s[t..][..|p|];
    }
    LiteralPlaceholder(whole, t, d.n);
  }

  lemma {:induction false} CutInside(d: Doc, m: nat)
    requires d.Linked? && |d.text| < m < |d.text| + |Placeholder(d.n)|
    ensures m <= |Render(d)| && Render(d)[..m][|d.text|..] == Placeholder(d.n)[..m - |d.text|]
    ensures StartsWith(Drop(d, m).text, Placeholder(d.n)[m - |d.text|..])
  {
    var t, p := |d.text|, Placeholder(d.n);
    assert Render(d)[..m][t..] == (p + Render(d.rest))[..m - t];
    assert Drop(d, m).text == p[m - t..] + d.rest.text;
  }

  /** A placeholder whose beginning ends `a` and whose end begins `x`. */
  lemma {:induction false} HeadAndTail(whole: string, a: string, x: string, p: string, t: nat, e: string)
    requires whole == a + x && t <= |a| < t + |p| && a[t..] == p[..|a| - t]
    requires StartsWith(x, e) && StartsWith(e, p[|a| - t..])
    ensures StartsWith(whole[t..], p)
  {
    var j := |a| - t;
    assert x[..|p| - j] == x[..|e|][..|p| - j];
    assert p == p[..j] + p[j..];
    assert whole[t..] == a[t..] + x;
    assert whole[t..][..|p|] == a[t..] + x[..|p| - j];
  }

  /** What one replacement does, in every respect. */
  lemma {:induction false} ReplaceOne(d: Doc, u: string, n: nat, links: seq<Link>)
    requires u != "" && Numbers1To(d, |links|) && Clean(d) && 1 <= n <= |links| && links[n - 1].url == u
    ensures Numbers1To(Replace(d, u, n), |links|) && Clean(Replace(d, u, n))
    ensures Render(Replace(d, u, n)) == ReplaceAll(Render(d), u, Placeholder(n))
    ensures if Cuts(Render(d), u) then HasToken(Expand(Replace(d, u, n), links))
            else Expand(Replace(d, u, n), links) == Expand(d, links)
  {
    RenderReplace(d, u, n);
    ReplaceClean(d, u, n);
    CutsByLink(d, u);
    if CutsLink(d, u) {
      ExpandCut(d, u, n, links);
    } else {
      ExpandSame(d, u, n, links);
    }
  }
}
