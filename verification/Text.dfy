/** The string operations of JavaScript that the components use, on sequences of characters. */
module Text {

  /** The characters that `trim` removes and `\s` matches. */
  predicate IsSpace(c: char) {
    || '\t' <= c <= '\r' || c == ' ' || c == '\U{A0}' || c == '\U{1680}' || '\U{2000}' <= c <= '\U{200A}'
    || c == '\U{2028}' || c == '\U{2029}' || c == '\U{202F}' || c == '\U{205F}' || c == '\U{3000}' || c == '\U{FEFF}'
  }

  predicate IsDigit(c: char) {
    '0' <= c <= '9'
  }

  predicate AllSpace(s: string) {
    forall i :: 0 <= i < |s| ==> IsSpace(s[i])
  }

  function TrimStart(s: string): string {
    if s != "" && IsSpace(s[0]) then TrimStart(s[1..]) else s
  }

  function TrimEnd(s: string): string {
    if s != "" && IsSpace(s[|s| - 1]) then TrimEnd(s[..|s| - 1]) else s
  }

  function Trim(s: string): string {
    TrimEnd(TrimStart(s))
  }

  /** Neither end is white space. */
  predicate Trimmed(s: string) {
    s == "" || (!IsSpace(s[0]) && !IsSpace(s[|s| - 1]))
  }

  /** `trim` splits off white space on both sides and leaves nothing to trim. */
  lemma {:induction false} TrimParts(s: string) returns (before: string, after: string)
    ensures s == before + Trim(s) + after
    ensures AllSpace(before) && AllSpace(after) && Trimmed(Trim(s))
  {
    before := TrimStartParts(s);
    after := TrimEndParts(TrimStart(s));
    if Trim(s) != "" {
      assert Trim(s)[0] == TrimStart(s)[0];
    }
  }

  lemma {:induction false} TrimStartParts(s: string) returns (before: string)
    ensures s == before + TrimStart(s) && AllSpace(before)
    ensures TrimStart(s) != "" ==> !IsSpace(TrimStart(s)[0])
  {
    if s != "" && IsSpace(s[0]) {
      var rest := TrimStartParts(s[1..]);
      before := [s[0]] + rest;
    } else {
      before := "";
    }
  }

  lemma {:induction false} TrimEndParts(s: string) returns (after: string)
    ensures s == TrimEnd(s) + after && AllSpace(after)
    ensures TrimEnd(s) != "" ==> !IsSpace(TrimEnd(s)[|TrimEnd(s)| - 1])
  {
    if s != "" && IsSpace(s[|s| - 1]) {
      var k := |s| - 1;
      var rest := TrimEndParts(s[..k]);
      after := rest + [s[k]];
      assert s == s[..k] + [s[k]];
    } else {
      after := "";
    }
  }

  /** White space around a trimmed string is all that `trim` removes. */
  lemma {:induction false} TrimAround(before: string, s: string, after: string)
    requires AllSpace(before) && AllSpace(after) && Trimmed(s)
    ensures s != "" ==> Trim(before + s + after) == s
    ensures Trim(s) == s
    decreases |before| + |after|
  {
    if s != "" {
      var whole := before + s + after;
      TrimStartDrops(before, s + after);
      assert whole == before + (s + after);
      TrimEndDrops(s, after);
    }
  }

  lemma {:induction false} TrimStartDrops(before: string, s: string)
    requires AllSpace(before) && s != "" && !IsSpace(s[0])
    ensures TrimStart(before + s) == s
  {
    if before != "" {
      assert (before + s)[1..] == before[1..] + s;
      TrimStartDrops(before[1..], s);
    } else {
      assert before + s == s;
    }
  }

  lemma {:induction false} TrimEndDrops(s: string, after: string)
    requires AllSpace(after) && s != "" && !IsSpace(s[|s| - 1])
    ensures TrimEnd(s + after) == s
  {
    var n := |after|;
    if n > 0 {
      assert (s + after)[..|s + after| - 1] == s + after[..n - 1];
      TrimEndDrops(s, after[..n - 1]);
    } else {
      assert s + after == s;
    }
  }

  predicate StartsWith(s: string, prefix: string) {
    |prefix| <= |s| && s[..|prefix|] == prefix
  }

  predicate EndsWith(s: string, suffix: string) {
    |suffix| <= |s| && s[|s| - |suffix|..] == suffix
  }

  /** `s.includes(part)`. */
  predicate Includes(s: string, part: string) {
    exists i :: 0 <= i <= |s| && StartsWith(s[i..], part)
  }

  /** Unit order of strings, as an index sort key compares. */
  predicate Below(a: string, b: string) {
    b != "" && (a == "" || a[0] < b[0] || (a[0] == b[0] && Below(a[1..], b[1..])))
  }

  predicate AtMost(a: string, b: string) {
    a == b || Below(a, b)
  }

  lemma {:induction false} BelowIrreflexive(a: string)
    ensures !Below(a, a)
  {
    if a != "" {
      BelowIrreflexive(a[1..]);
    }
  }

  lemma {:induction false} BelowTransitive(a: string, b: string, c: string)
    requires Below(a, b) && Below(b, c)
    ensures Below(a, c)
  {
    if a != "" && a[0] == b[0] == c[0] {
      BelowTransitive(a[1..], b[1..], c[1..]);
    }
  }

  lemma {:induction false} BelowTotal(a: string, b: string)
    ensures a == b || Below(a, b) || Below(b, a)
    ensures !(Below(a, b) && Below(b, a))
  {
    if a != "" && b != "" && a[0] == b[0] {
      BelowTotal(a[1..], b[1..]);
      assert a == [a[0]] + a[1..] && b == [b[0]] + b[1..];
    }
  }

  /** A common prefix does not matter. */
  lemma {:induction false} BelowAfter(p: string, a: string, b: string)
    ensures Below(p + a, p + b) == Below(a, b)
  {
    if p == "" {
      assert p + a == a && p + b == b;
    } else {
      assert (p + a)[1..] == p[1..] + a && (p + b)[1..] == p[1..] + b;
      BelowAfter(p[1..], a, b);
    }
  }

  /** Strings of one width decide before what follows them. */
  lemma {:induction false} BelowWide(a: string, b: string, x: string, y: string)
    requires |a| == |b| && Below(a, b)
    ensures Below(a + x, b + y)
  {
    assert (a + x)[1..] == a[1..] + x && (b + y)[1..] == b[1..] + y;
    if a[0] == b[0] {
      BelowWide(a[1..], b[1..], x, y);
    }
  }

  /** Every character sorts above the separator `#`, as those of an ISO timestamp do. */
  predicate AboveSeparator(s: string) {
    forall i :: 0 <= i < |s| ==> '#' < s[i]
  }

  /** Then a separator keeps the order, whatever the widths and whatever follows. */
  lemma {:induction false} BelowSeparated(a: string, b: string, x: string, y: string)
    requires Below(a, b) && AboveSeparator(b)
    ensures Below(a + ("#" + x), b + y)
  {
    assert (b + y)[0] == b[0] && (b + y)[1..] == b[1..] + y;
    if a == "" {
      assert (a + ("#" + x))[0] == '#';
    } else {
      assert (a + ("#" + x))[0] == a[0] && (a + ("#" + x))[1..] == a[1..] + ("#" + x);
      if a[0] == b[0] {
        BelowSeparated(a[1..], b[1..], x, y);
      }
    }
  }

  /** Strings of which neither begins with the other decide before what follows them. */
  lemma {:induction false} BelowApart(a: string, b: string, x: string, y: string)
    requires Below(a, b) && !StartsWith(b, a)
    ensures Below(a + x, b + y)
  {
    assert a != "" by {
      assert b[..0] == "";
    }
    assert (a + x)[1..] == a[1..] + x && (b + y)[1..] == b[1..] + y;
    if a[0] == b[0] {
      BelowApart(a[1..], b[1..], x, y);
    }
  }
}
