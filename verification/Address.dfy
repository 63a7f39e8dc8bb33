/**
 Mailbox printing and splitting, `address.ts`, against a reference reader of the RFC 5322 mailbox
 (sections 3.2.4 and 3.4) that also decodes the base64 encoded-word of RFC 2047 section 2.
 */
module Address {
  import opened Options
  import opened Text
  import Base64

  datatype Address = Address(address: string, name: Option<string>)

  // ---------------------------------------------------------------------------
  // Printing
  // ---------------------------------------------------------------------------

  predicate IsLineBreak(c: char) {
    c == '\r' || c == '\n'
  }

  /** `replace(/[\r\n]+/g, " ")`: every run of line breaks becomes one space. */
  function Fold(s: string): string {
    if s == "" then ""
    else if !IsLineBreak(s[0]) then [s[0]] + Fold(s[1..])
    else if |s| > 1 && IsLineBreak(s[1]) then Fold(s[1..])
    else " " + Fold(s[1..])
  }

  /** The name that is printed, if any. */
  function DisplayName(a: Address): Option<string> {
    if a.name.None? || Trim(Fold(a.name.value)) == "" then None else Some(Trim(Fold(a.name.value)))
  }

  predicate IsPrintable(s: string) {
    forall i :: 0 <= i < |s| ==> ' ' <= s[i] <= '~'
  }

  predicate IsSafeChar(c: char) {
    'A' <= c <= 'Z' || 'a' <= c <= 'z' || '0' <= c <= '9' || c == ' ' || c == '\'' || c == '.' || c == '-'
  }

  predicate IsSafe(s: string) {
    s != "" && forall i :: 0 <= i < |s| ==> IsSafeChar(s[i])
  }

  function EscapeChar(c: char): string {
    if c == '"' || c == '\\' then ['\\', c] else [c]
  }

  function Escape(s: string): string {
    if s == "" then "" else EscapeChar(s[0]) + Escape(s[1..])
  }

  function EncodeWord(s: string): string {
    "=?UTF-8?B?" + Base64.Encode(Base64.Utf8(s)) + "?="
  }

  /** The phrase before the angle brackets. */
  function Phrase(name: string): string {
    if !IsPrintable(name) then EncodeWord(name)
    else if IsSafe(name) then name
    else "\"" + Escape(name) + "\""
  }

  function FormatAddress(a: Address): string {
    var address := Trim(a.address);
    match DisplayName(a)
    case None => address
    case Some(name) => Phrase(name) + " <" + address + ">"
  }

  function FormatAddressList(list: seq<Address>): string {
    if list == [] then ""
    else if |list| == 1 then FormatAddress(list[0])
    else FormatAddress(list[0]) + ", " + FormatAddressList(list[1..])
  }

  /** An addr-spec that needs no quoting: not empty, no white space, quotes, brackets or commas. */
  predicate IsPlain(s: string) {
    s != "" && forall i :: 0 <= i < |s| ==> IsPlainChar(s[i])
  }

  predicate IsPlainChar(c: char) {
    !IsSpace(c) && c != '"' && c != '<' && c != '>' && c != ','
  }

  // ---------------------------------------------------------------------------
  // Splitting
  // ---------------------------------------------------------------------------

  /** What the scan of `splitAddressList` still yields: `s` is left, `current` is the entry so far. */
  function Split(s: string, current: string, inQuotes: bool, inBrackets: bool): seq<string>
    decreases |s|
  {
    if s == "" then (if Trim(current) != "" then [Trim(current)] else [])
    else if s[0] == '\\' && inQuotes then
      Split(if |s| > 1 then s[2..] else "", current + (if |s| > 1 then s[..2] else s), inQuotes, inBrackets)
    else
      var q := Quotes(s[0], inQuotes);
      var b := Brackets(s[0], inQuotes, inBrackets);
      if s[0] == ',' && !q && !b then [Trim(current)] + Split(s[1..], "", q, b)
      else Split(s[1..], current + [s[0]], q, b)
  }

  predicate Quotes(c: char, inQuotes: bool) {
    if c == '"' then !inQuotes else inQuotes
  }

  predicate Brackets(c: char, inQuotes: bool, inBrackets: bool) {
    if inQuotes || c == '"' then inBrackets else if c == '<' then true else if c == '>' then false else inBrackets
  }

  method SplitAddressList(value: string) returns (entries: seq<string>)
    ensures entries == Split(value, "", false, false)
  {
    entries := [];
    var current, inQuotes, inBrackets := "", false, false;
    var i := 0;
    while i < |value|
      invariant 0 <= i <= |value|
      invariant entries + Split(value[i..], current, inQuotes, inBrackets) == Split(value, "", false, false)
    {
      var ch := value[i];
      ghost var rest, before, done := value[i..], current, entries;
      assert rest[1..] == value[i + 1..];
      if ch == '\\' && inQuotes {
        current := current + [ch] + if i + 1 < |value| then [value[i + 1]] else "";
        assert current == before + if |rest| > 1 then rest[..2] else rest;
        assert |rest| > 1 ==> rest[2..] == value[i + 2..];
        i := if i + 1 < |value| then i + 2 else i + 1;
        continue;
      }
      if ch == '"' {
        inQuotes := !inQuotes;
      } else if ch == '<' && !inQuotes {
        inBrackets := true;
      } else if ch == '>' && !inQuotes {
        inBrackets := false;
      }
      i := i + 1;
      if ch == ',' && !inQuotes && !inBrackets {
        entries := entries + [Trim(current)];
        current := "";
        assert entries + Split(value[i..], "", inQuotes, inBrackets)
            == done + ([Trim(before)] + Split(value[i..], "", inQuotes, inBrackets));
        continue;
      }
      current := current + [ch];
    }
    if Trim(current) != "" {
      entries := entries + [Trim(current)];
    }
  }

  /** Where the scan of `s` leaves the two flags, if it neither splits nor escapes past its end. */
  function Scan(s: string, inQuotes: bool, inBrackets: bool): Option<(bool, bool)>
    decreases |s|
  {
    if s == "" then Some((inQuotes, inBrackets))
    else if s[0] == '\\' && inQuotes then if |s| > 1 then Scan(s[2..], inQuotes, inBrackets) else None
    else
      var q := Quotes(s[0], inQuotes);
      var b := Brackets(s[0], inQuotes, inBrackets);
      if s[0] == ',' && !q && !b then None else Scan(s[1..], q, b)
  }

  lemma {:induction false} SplitPasses(s: string, rest: string, current: string, q: bool, b: bool)
    requires Scan(s, q, b).Some?
    ensures Split(s + rest, current, q, b) == Split(rest, current + s, Scan(s, q, b).value.0, Scan(s, q, b).value.1)
    decreases |s|
  {
    if s == "" {
      assert s + rest == rest && current + s == current;
    } else if s[0] == '\\' && q {
      assert (s + rest)[2..] == s[2..] + rest && (s + rest)[..2] == s[..2];
      assert current + s[..2] + s[2..] == current + s;
      SplitPasses(s[2..], rest, current + s[..2], q, b);
    } else {
      assert (s + rest)[1..] == s[1..] + rest;
      assert current + [s[0]] + s[1..] == current + s;
      SplitPasses(s[1..], rest, current + [s[0]], Quotes(s[0], q), Brackets(s[0], q, b));
    }
  }

  lemma {:induction false} ScanJoins(s: string, t: string, q: bool, b: bool)
    requires Scan(s, q, b).Some?
    ensures Scan(s + t, q, b) == Scan(t, Scan(s, q, b).value.0, Scan(s, q, b).value.1)
    decreases |s|
  {
    if s == "" {
      assert s + t == t;
    } else if s[0] == '\\' && q {
      assert (s + t)[2..] == s[2..] + t;
      ScanJoins(s[2..], t, q, b);
    } else {
      assert (s + t)[1..] == s[1..] + t;
      ScanJoins(s[1..], t, Quotes(s[0], q), Brackets(s[0], q, b));
    }
  }

  /** Characters that leave the scan alone outside quotes. */
  predicate IsInert(s: string) {
    forall i :: 0 <= i < |s| ==> s[i] != '"' && s[i] != '<' && s[i] != '>' && s[i] != ','
  }

  lemma {:induction false} ScanInert(s: string, b: bool)
    requires IsInert(s)
    ensures Scan(s, false, b) == Some((false, b))
  {
    if s != "" {
      ScanInert(s[1..], b);
    }
  }

  lemma {:induction false} ScanEscaped(s: string, b: bool)
    ensures Scan(Escape(s), true, b) == Some((true, b))
  {
    if s != "" {
      ScanEscaped(s[1..], b);
      var e := Escape(s);
      if |EscapeChar(s[0])| == 2 {
        assert e[2..] == Escape(s[1..]);
      } else {
        assert e[1..] == Escape(s[1..]);
      }
    }
  }

  lemma {:induction false} EncodeWordIsInert(s: string)
    ensures IsInert(EncodeWord(s))
    ensures forall i :: 0 <= i < |EncodeWord(s)| ==> !IsSpace(EncodeWord(s)[i])
  {
    var code := Base64.Encode(Base64.Utf8(s));
    Base64.EncodeAlphabet(Base64.Utf8(s));
    WordIsInert(code);
  }

  lemma {:induction false} WordIsInert(code: string)
    requires Base64.AllEncoded(code)
    ensures IsInert("=?UTF-8?B?" + code + "?=")
    ensures forall i :: 0 <= i < |code| + 12 ==> !IsSpace(("=?UTF-8?B?" + code + "?=")[i])
  {
    forall i | 0 <= i < |code| ensures !IsSpace(code[i]) && code[i] !in "\"<>," {
      assert Base64.IsEncodedChar(code[i]);
    }
  }

  lemma {:induction false} ScanPhrase(name: string)
    ensures Scan(Phrase(name), false, false) == Some((false, false))
  {
    if !IsPrintable(name) {
      EncodeWordIsInert(name);
      ScanInert(Phrase(name), false);
    } else if IsSafe(name) {
      ScanInert(name, false);
    } else {
      ScanEscaped(name, false);
      assert Scan("\"", false, false) == Some((true, false));
      ScanJoins("\"", Escape(name), false, false);
      ScanJoins("\"" + Escape(name), "\"", false, false);
      assert Scan("\"", true, false) == Some((false, false));
    }
  }

  /** A printed mailbox is one entry, and has nothing to trim. */
  lemma {:induction false} ScanFormatted(a: Address)
    requires IsPlain(Trim(a.address))
    ensures Scan(FormatAddress(a), false, false) == Some((false, false))
    ensures Trimmed(FormatAddress(a)) && FormatAddress(a) != ""
  {
    var address := Trim(a.address);
    if DisplayName(a).None? {
      ScanInert(address, false);
    } else {
      var name := DisplayName(a).value;
      var phrase := Phrase(name);
      ScanPhrase(name);
      ScanAngle(phrase, address);
      PhraseStart(a);
    }
  }

  lemma {:induction false} ScanAngle(phrase: string, address: string)
    requires IsPlain(address) && Scan(phrase, false, false) == Some((false, false))
    ensures Scan(phrase + " <" + address + ">", false, false) == Some((false, false))
  {
    ScanInert(address, true);
    ScanJoins(phrase, " <", false, false);
    ScanJoins(phrase + " <", address, false, false);
    ScanJoins(phrase + " <" + address, ">", false, false);
  }

  lemma {:induction false} PhraseStart(a: Address)
    requires DisplayName(a).Some?
    ensures Phrase(DisplayName(a).value) != "" && !IsSpace(Phrase(DisplayName(a).value)[0])
  {
    var _, _ := TrimParts(Fold(a.name.value));
  }

  function FormatEach(list: seq<Address>): seq<string> {
    seq(|list|, i requires 0 <= i < |list| => FormatAddress(list[i]))
  }

  /** The separator ends an entry and its space opens the next one. */
  lemma {:induction false} SplitSeparator(current: string, rest: string)
    ensures Split(", " + rest, current, false, false) == [Trim(current)] + Split(rest, " ", false, false)
  {
    assert (", " + rest)[1..] == " " + rest && (" " + rest)[1..] == rest;
    assert "" + [' '] == " ";
  }

  lemma FormatEachFirst(list: seq<Address>)
    requires list != []
    ensures FormatEach(list) == [FormatAddress(list[0])] + FormatEach(list[1..])
  {
  }

  lemma {:induction false} SplitFrom(list: seq<Address>, lead: string)
    requires list != [] && AllSpace(lead)
    requires forall i :: 0 <= i < |list| ==> IsPlain(Trim(list[i].address))
    ensures Split(FormatAddressList(list), lead, false, false) == FormatEach(list)
    decreases |list|
  {
    var first := FormatAddress(list[0]);
    SplitEntry(list[0], lead);
    FormatEachFirst(list);
    if |list| == 1 {
      SplitLast(first, lead);
    } else {
      SplitFrom(list[1..], " ");
      SplitMore(first, lead, FormatAddressList(list[1..]));
    }
  }

  lemma {:induction false} SplitLast(entry: string, lead: string)
    requires Scan(entry, false, false) == Some((false, false)) && Trim(lead + entry) == entry != ""
    ensures Split(entry, lead, false, false) == [entry]
  {
    SplitPasses(entry, "", lead, false, false);
    assert entry + "" == entry;
  }

  lemma {:induction false} SplitMore(entry: string, lead: string, others: string)
    requires Scan(entry, false, false) == Some((false, false)) && Trim(lead + entry) == entry
    ensures Split(entry + ", " + others, lead, false, false) == [entry] + Split(others, " ", false, false)
  {
    SplitPasses(entry, ", " + others, lead, false, false);
    assert entry + (", " + others) == entry + ", " + others;
    SplitSeparator(lead + entry, others);
  }

  lemma {:induction false} SplitEntry(a: Address, lead: string)
    requires AllSpace(lead) && IsPlain(Trim(a.address))
    ensures Scan(FormatAddress(a), false, false) == Some((false, false))
    ensures Trim(lead + FormatAddress(a)) == FormatAddress(a) != ""
  {
    ScanFormatted(a);
    TrimAround(lead, FormatAddress(a), "");
    assert lead + FormatAddress(a) + "" == lead + FormatAddress(a);
  }

  /** Splitting undoes joining, whatever the display names contain. */
  lemma {:induction false} SplitUndoesFormat(list: seq<Address>)
    requires forall i :: 0 <= i < |list| ==> IsPlain(Trim(list[i].address))
    ensures Split(FormatAddressList(list), "", false, false) == FormatEach(list)
  {
    if list != [] {
      SplitFrom(list, "");
    }
  }

  // ---------------------------------------------------------------------------
  // Reading back
  // ---------------------------------------------------------------------------

  datatype Mailbox = Mailbox(name: Option<string>, address: string)

  /** Reads a quoted string after its opening quote: its content, and what follows the closing quote. */
  function ReadQuoted(s: string): Option<(string, string)>
    decreases |s|
  {
    if s == "" then None
    else if s[0] == '"' then Some(("", s[1..]))
    else if s[0] == '\\' && |s| == 1 then None
    else
      var n := if s[0] == '\\' then 2 else 1;
      match ReadQuoted(s[n..])
      case None => None
      case Some((content, rest)) => Some(([s[n - 1]] + content, rest))
  }

  /** An encoded-word stands for what it encodes, any other unquoted phrase for itself. */
  function ReadPhrase(s: string): Option<string> {
    if StartsWith(s, "=?UTF-8?B?") && EndsWith(s, "?=") && |s| >= 12 then
      match Base64.Decode(s[10..|s| - 2])
      case None => None
      case Some(bytes) => Base64.FromUtf8(bytes)
    else Some(s)
  }

  function IndexOf(s: string, c: char): (i: nat)
    ensures i <= |s| && (i < |s| ==> s[i] == c) && forall j :: 0 <= j < i ==> s[j] != c
  {
    if s == "" || s[0] == c then 0 else 1 + IndexOf(s[1..], c)
  }

  /** `<addr>` at the end of a mailbox. */
  function ReadAngle(s: string, name: Option<string>): Option<Mailbox> {
    if |s| >= 2 && s[0] == '<' && s[|s| - 1] == '>' && name.Some? then Some(Mailbox(name, s[1..|s| - 1])) else None
  }

  function ReadMailbox(s: string): Option<Mailbox> {
    if s != "" && s[0] == '"' then
      match ReadQuoted(s[1..])
      case None => None
      case Some((content, rest)) => ReadAngle(TrimStart(rest), Some(content))
    else
      var i := IndexOf(s, '<');
      if i == |s| then Some(Mailbox(None, s)) else ReadAngle(s[i..], ReadPhrase(TrimEnd(s[..i])))
  }

  lemma {:induction false} ReadEscaped(s: string, rest: string)
    ensures ReadQuoted(Escape(s) + ("\"" + rest)) == Some((s, rest))
  {
    var tail := "\"" + rest;
    if s == "" {
      assert Escape(s) + tail == tail && tail[1..] == rest;
    } else {
      ReadEscaped(s[1..], rest);
      assert Escape(s) + tail == EscapeChar(s[0]) + (Escape(s[1..]) + tail);
      assert [s[0]] + s[1..] == s;
    }
  }

  lemma {:induction false} ReadEncoded(s: string)
    ensures ReadPhrase(EncodeWord(s)) == Some(s)
  {
    var bytes := Base64.Utf8(s);
    var w := EncodeWord(s);
    Base64.DecodeEncode(bytes);
    Base64.Utf8RoundTrip(s);
    assert w[10..|w| - 2] == Base64.Encode(bytes);
    assert w[..10] == "=?UTF-8?B?" && w[|w| - 2..] == "?=";
  }

  /** An unquoted phrase without `<` reads back through the bracket form. */
  lemma {:induction false} ReadUnquoted(phrase: string, address: string)
    requires phrase != "" && !IsSpace(phrase[|phrase| - 1]) && phrase[0] != '"'
    requires IsInert(phrase) && IsPlain(address) && ReadPhrase(phrase).Some?
    ensures ReadMailbox(phrase + " <" + address + ">") == Some(Mailbox(ReadPhrase(phrase), address))
  {
    var s, i := phrase + " <" + address + ">", |phrase| + 1;
    assert s[i] == '<' && IndexOf(s, '<') == i;
    assert s[..i] == phrase + " ";
    TrimEndDrops(phrase, " ");
    assert s[i..] == "<" + address + ">";
    assert s[i..][1..|s[i..]| - 1] == address;
  }

  lemma {:induction false} ReadPrinted(name: string, address: string)
    requires IsPlain(address) && name != "" && Trimmed(name)
    ensures ReadMailbox(Phrase(name) + " <" + address + ">") == Some(Mailbox(Some(name), address))
  {
    if !IsPrintable(name) {
      ReadEncoded(name);
      EncodeWordIsInert(name);
      ReadUnquoted(EncodeWord(name), address);
    } else if IsSafe(name) {
      ReadSafe(name);
      ReadUnquoted(name, address);
    } else {
      ReadsQuotedName(name, address);
    }
  }

  lemma {:induction false} ReadSafe(name: string)
    requires IsSafe(name)
    ensures ReadPhrase(name) == Some(name) && IsInert(name) && name[0] != '"'
  {
    var mark := "=?UTF-8?B?";
    assert IsSafeChar(name[0]) && mark[0] == '=';
    assert |name| >= 10 ==> name[..10][0] == name[0];
  }

  lemma {:induction false} ReadsQuotedName(name: string, address: string)
    requires IsPlain(address)
    ensures ReadMailbox("\"" + Escape(name) + "\"" + " <" + address + ">") == Some(Mailbox(Some(name), address))
  {
    var angle := "<" + address + ">";
    var s := "\"" + Escape(name) + "\"" + " <" + address + ">";
    ReadEscaped(name, " " + angle);
    assert s[1..] == Escape(name) + ("\"" + (" " + angle));
    TrimStartDrops(" ", angle);
    assert angle[1..|angle| - 1] == address;
  }

  /** Printing loses nothing but folding and trimming: the reader recovers name and address. */
  lemma {:induction false} ReaderRecovers(a: Address)
    requires IsPlain(Trim(a.address))
    ensures ReadMailbox(FormatAddress(a)) == Some(Mailbox(DisplayName(a), Trim(a.address)))
  {
    if DisplayName(a).Some? {
      var _, _ := TrimParts(Fold(a.name.value));
      ReadPrinted(DisplayName(a).value, Trim(a.address));
    } else {
    }
  }

  /** No two mailboxes share a printed form. */
  lemma PrintedFormsDiffer(a: Address, b: Address)
    requires IsPlain(Trim(a.address)) && IsPlain(Trim(b.address))
    requires FormatAddress(a) == FormatAddress(b)
    ensures DisplayName(a) == DisplayName(b) && Trim(a.address) == Trim(b.address)
  {
    ReaderRecovers(a);
    ReaderRecovers(b);
  }

  // ---------------------------------------------------------------------------
  // Which form a name takes
  // ---------------------------------------------------------------------------

  /** Letters, digits, spaces and `'.-`. */
  ghost predicate IsSimple(s: string) {
    forall i :: 0 <= i < |s| ==>
      'A' <= s[i] <= 'Z' || 'a' <= s[i] <= 'z' || '0' <= s[i] <= '9' || s[i] == ' ' || s[i] == '\'' || s[i] == '.'
      || s[i] == '-'
  }

  ghost predicate IsAscii(s: string) {
    forall i :: 0 <= i < |s| ==> ' ' <= s[i] <= '~'
  }

  /** A simple name is printed as it is, any other in ASCII in quotes, and the rest encoded. */
  lemma {:induction false} WhichForm(a: Address, name: string)
    requires DisplayName(a) == Some(name)
    ensures FormatAddress(a) == name + (" <" + Trim(a.address) + ">") <==> IsSimple(name)
    ensures FormatAddress(a)[0] == '"' <==> IsAscii(name) && !IsSimple(name)
    ensures StartsWith(FormatAddress(a), "=?UTF-8?B?") <==> !IsAscii(name)
  {
    var s, tail := FormatAddress(a), " <" + Trim(a.address) + ">";
    PhraseForm(name);
    assert s == Phrase(name) + tail;
    AppendCancels(Phrase(name), name, tail);
    assert !IsAscii(name) ==> s[..10] == Phrase(name)[..10];
    assert StartsWith(s, "=?UTF-8?B?") ==> s[0] == s[..10][0] == '=';
  }

  lemma {:induction false} AppendCancels(a: string, b: string, t: string)
    ensures a + t == b + t <==> a == b
  {
    assert (a + t)[..|a + t| - |t|] == a && (b + t)[..|b + t| - |t|] == b;
  }

  lemma {:induction false} PhraseForm(name: string)
    requires name != ""
    ensures IsSimple(name) ==> IsAscii(name)
    ensures Phrase(name) != ""
    ensures Phrase(name) == name <==> IsSimple(name)
    ensures IsSimple(name) ==> Phrase(name)[0] != '"' && Phrase(name)[0] != '='
    ensures IsAscii(name) && !IsSimple(name) ==> Phrase(name)[0] == '"'
    ensures !IsAscii(name) ==> Phrase(name)[0] == '=' && |Phrase(name)| >= 10 && Phrase(name)[..10] == "=?UTF-8?B?"
  {
    assert IsPrintable(name) <==> IsAscii(name);
    assert IsSafe(name) <==> IsSimple(name);
    if !IsAscii(name) {
      EncodedIsAscii(name);
    } else if !IsSimple(name) {
      EscapeLonger(name);
    }
  }

  lemma {:induction false} EscapeLonger(s: string)
    ensures |Escape(s)| >= |s|
  {
    if s != "" {
      EscapeLonger(s[1..]);
    }
  }

  lemma {:induction false} EncodedIsAscii(s: string)
    ensures IsAscii(EncodeWord(s)) && |EncodeWord(s)| >= 12 && EncodeWord(s)[..10] == "=?UTF-8?B?"
  {
    Base64.EncodeAlphabet(Base64.Utf8(s));
    WordIsAscii(Base64.Encode(Base64.Utf8(s)));
  }

  lemma {:induction false} WordIsAscii(code: string)
    requires Base64.AllEncoded(code)
    ensures var w := "=?UTF-8?B?" + code + "?="; IsAscii(w) && |w| >= 12 && w[..10] == "=?UTF-8?B?"
  {
    var a, b := "=?UTF-8?B?", "?=";
    assert IsAscii(a) && IsAscii(b);
    forall i | 0 <= i < |code| ensures ' ' <= code[i] <= '~' {
      assert Base64.IsEncodedChar(code[i]);
    }
    assert (a + code + b)[..10] == a;
  }

  /** A run of line breaks becomes one space. */
  lemma {:induction false} FoldRun(s: string, breaks: string, t: string)
    requires forall i :: 0 <= i < |s| ==> s[i] != '\r' && s[i] != '\n'
    requires breaks != "" && forall i :: 0 <= i < |breaks| ==> breaks[i] == '\r' || breaks[i] == '\n'
    requires t != "" ==> t[0] != '\r' && t[0] != '\n'
    ensures Fold(s + (breaks + t)) == s + (" " + Fold(t))
  {
    if s != "" {
      assert (s + (breaks + t))[1..] == s[1..] + (breaks + t);
      FoldRun(s[1..], breaks, t);
    } else {
      FoldBreaks(breaks, t);
      assert s + (breaks + t) == breaks + t && s + (" " + Fold(t)) == " " + Fold(t);
    }
  }

  lemma {:induction false} FoldBreaks(breaks: string, t: string)
    requires breaks != "" && forall i :: 0 <= i < |breaks| ==> breaks[i] == '\r' || breaks[i] == '\n'
    requires t != "" ==> t[0] != '\r' && t[0] != '\n'
    ensures Fold(breaks + t) == " " + Fold(t)
  {
    assert (breaks + t)[1..] == breaks[1..] + t;
    if |breaks| > 1 {
      FoldBreaks(breaks[1..], t);
    } else {
      assert breaks[1..] + t == t;
    }
  }

  // ---------------------------------------------------------------------------
  // Where any list is split
  // ---------------------------------------------------------------------------

  /** A quoted string, or text in angle brackets. */
  function Block(x: string, quoted: bool): string {
    if quoted then "\"" + Escape(x) + "\"" else "<" + x + ">"
  }

  lemma {:induction false} ScanBracketed(x: string)
    requires '"' !in x && '>' !in x
    ensures Scan(x, false, true) == Some((false, true))
  {
    if x != "" {
      ScanBracketed(x[1..]);
    }
  }

  lemma {:induction false} ScanBlock(x: string, quoted: bool)
    requires quoted || ('"' !in x && '>' !in x)
    ensures Scan(Block(x, quoted), false, false) == Some((false, false))
  {
    if quoted {
      ScanEscaped(x, false);
      assert Scan("\"", false, false) == Some((true, false));
      ScanJoins("\"", Escape(x), false, false);
      ScanJoins("\"" + Escape(x), "\"", false, false);
      assert Scan("\"", true, false) == Some((false, false));
    } else {
      ScanBracketed(x);
      assert Scan("<", false, false) == Some((false, true));
      ScanJoins("<", x, false, false);
      ScanJoins("<" + x, ">", false, false);
      assert Scan(">", false, true) == Some((false, false));
    }
  }

  /** A comma ends an entry, and no comma within quotes or brackets does. */
  lemma {:induction false} SplitsAtComma(before: string, x: string, quoted: bool, after: string, rest: string)
    requires IsInert(before) && IsInert(after) && (quoted || ('"' !in x && '>' !in x))
    ensures var entry := before + Block(x, quoted) + after;
            && Split(entry + ("," + rest), "", false, false) == [Trim(entry)] + Split(rest, "", false, false)
            && Split(entry, "", false, false) == [Trim(entry)]
  {
    var entry := before + Block(x, quoted) + after;
    ScanInert(before, false);
    ScanBlock(x, quoted);
    ScanInert(after, false);
    ScanJoins(before, Block(x, quoted), false, false);
    ScanJoins(before + Block(x, quoted), after, false, false);
    EntryEnds(entry, rest);
    var first := Block(x, quoted)[0];
    assert entry[|before|] == first && !IsSpace(first);
    var k := TrimKeeps(entry, |before|);
  }

  /** So does one after an entry without quotes and brackets; only a blank last entry is left out. */
  lemma {:induction false} SplitsPlainEntry(entry: string, rest: string)
    requires IsInert(entry)
    ensures Split(entry + ("," + rest), "", false, false) == [Trim(entry)] + Split(rest, "", false, false)
    ensures Split(entry, "", false, false) == if Trim(entry) == "" then [] else [Trim(entry)]
  {
    ScanInert(entry, false);
    EntryEnds(entry, rest);
  }

  lemma {:induction false} EntryEnds(entry: string, rest: string)
    requires Scan(entry, false, false) == Some((false, false))
    ensures Split(entry + ("," + rest), "", false, false) == [Trim(entry)] + Split(rest, "", false, false)
    ensures Split(entry, "", false, false) == if Trim(entry) == "" then [] else [Trim(entry)]
  {
    SplitPasses(entry, "," + rest, "", false, false);
    SplitPasses(entry, "", "", false, false);
    assert "" + entry == entry && entry + "" == entry && ("," + rest)[1..] == rest;
  }

  // ---------------------------------------------------------------------------
  // Extracting the address
  // ---------------------------------------------------------------------------

  function LowerChar(c: char): (l: char)
    ensures l == c <==> !('A' <= c <= 'Z')
    ensures 'A' <= c <= 'Z' ==> 'a' <= l <= 'z' && l - 'a' == c - 'A'
  {
    if 'A' <= c <= 'Z' then (c as int + 32) as char else c
  }

  function Lower(s: string): (r: string)
    ensures |r| == |s| && forall i :: 0 <= i < |s| ==> r[i] == LowerChar(s[i])
  {
    if s == "" then "" else [LowerChar(s[0])] + Lower(s[1..])
  }

  /** The end of a match of `<([^>]+)>\s*$` that starts at `i`: the index of its `>`. */
  predicate Matches(s: string, i: nat)
    requires i <= |s|
  {
    && i < |s| && s[i] == '<'
    && var j := i + 1 + IndexOf(s[i + 1..], '>');
       j < |s| && j > i + 1 && AllSpace(s[j + 1..])
  }

  /** The leftmost match at or after `i`. */
  function FirstMatch(s: string, i: nat): (m: nat)
    requires i <= |s|
    ensures i <= m <= |s|
    ensures m < |s| ==> Matches(s, m)
    ensures forall k :: i <= k < m ==> !Matches(s, k)
    decreases |s| - i
  {
    if i == |s| || Matches(s, i) then i else FirstMatch(s, i + 1)
  }

  /** The text between the brackets that match at `m`. */
  function Inside(s: string, m: nat): string
    requires m < |s| && Matches(s, m)
  {
    s[m + 1..m + 1 + IndexOf(s[m + 1..], '>')]
  }

  function ExtractAddress(value: string): string {
    var s := Trim(value);
    var m := FirstMatch(s, 0);
    Lower(Trim(if m < |s| then Inside(s, m) else value))
  }

  /** Without a bracket the whole value is the address. */
  lemma {:induction false} ExtractsBare(value: string)
    requires '<' !in value
    ensures ExtractAddress(value) == Lower(Trim(value))
  {
    var before, after := TrimParts(value);
    var s := Trim(value);
    forall i | 0 <= i < |s| ensures s[i] != '<' {
      assert value[|before| + i] == s[i];
    }
    assert FirstMatch(s, 0) == |s|;
  }

  /** The name has a `<` that no `>` follows. */
  predicate HasUnclosed(s: string) {
    exists i :: 0 <= i < |s| && s[i] == '<' && '>' !in s[i..]
  }

  lemma {:induction false} EscapeKeepsBrackets(s: string)
    ensures HasUnclosed(Escape(s)) == HasUnclosed(s)
    ensures ('>' in Escape(s)) == ('>' in s)
  {
    if s != "" {
      EscapeKeepsBrackets(s[1..]);
      var e := EscapeChar(s[0]);
      if |e| == 2 {
        assert Escape(s)[1..][1..] == Escape(s[1..]);
      } else {
        assert Escape(s)[1..] == Escape(s[1..]);
      }
    }
  }

  lemma {:induction false} PhraseUnclosed(name: string)
    ensures HasUnclosed(Phrase(name)) <==> IsPrintable(name) && HasUnclosed(name)
  {
    if !IsPrintable(name) {
      EncodeWordIsInert(name);
    } else if !IsSafe(name) {
      var p := Phrase(name);
      EscapeKeepsBrackets(name);
      assert p[1..] == Escape(name) + "\"";
      UnclosedSnoc(Escape(name), '"');
    }
  }

  lemma {:induction false} UnclosedSnoc(s: string, c: char)
    requires c != '<' && c != '>'
    ensures HasUnclosed(s + [c]) == HasUnclosed(s)
  {
    if HasUnclosed(s) {
      var i :| 0 <= i < |s| && s[i] == '<' && '>' !in s[i..];
      assert (s + [c])[i..] == s[i..] + [c];
    }
    if HasUnclosed(s + [c]) {
      var i :| 0 <= i < |s + [c]| && (s + [c])[i] == '<' && '>' !in (s + [c])[i..];
      assert (s + [c])[i..] == s[i..] + [c];
    }
  }

  lemma {:induction false} Closes(s: string, i: nat, j: nat)
    requires i < j < |s| && s[j] == '>'
    requires forall k :: i < k < j ==> s[k] != '>'
    ensures i + 1 + IndexOf(s[i + 1..], '>') == j
  {
    var rest, k := s[i + 1..], IndexOf(s[i + 1..], '>');
    assert rest[j - i - 1] == '>';
    assert k < |rest| && s[i + 1 + k] == rest[k];
  }

  function Bracketed(phrase: string, address: string): string {
    phrase + " <" + address + ">"
  }

  /** An unclosed `<` of the phrase, like the bracket itself, is closed at the very end. */
  lemma {:induction false} ClosesAtEnd(phrase: string, address: string, i: nat)
    requires IsPlain(address) && i <= |phrase| + 1
    requires i < |phrase| ==> '>' !in phrase[i..]
    ensures var s := Bracketed(phrase, address);
            i + 1 + IndexOf(s[i + 1..], '>') == |s| - 1
  {
    var s := Bracketed(phrase, address);
    forall k | i < k < |s| - 1 ensures s[k] != '>' {
      if k < |phrase| {
        assert s[k] == phrase[i..][k - i];
      } else if k >= |phrase| + 2 {
        assert IsPlainChar(address[k - |phrase| - 2]);
      }
    }
    Closes(s, i, |s| - 1);
  }

  /** Before the final bracket, exactly an unclosed `<` starts a match. */
  lemma {:induction false} MatchBeforeBracket(phrase: string, address: string, i: nat)
    requires IsPlain(address) && i <= |phrase|
    ensures Matches(Bracketed(phrase, address), i) <==> i < |phrase| && phrase[i] == '<' && '>' !in phrase[i..]
  {
    var s := Bracketed(phrase, address);
    if i < |phrase| && phrase[i] == '<' {
      if '>' in phrase[i..] {
        var k := IndexOf(phrase[i..], '>');
        forall h | i < h < i + k ensures s[h] != '>' {
          assert s[h] == phrase[i..][h - i];
        }
        assert s[i + k] == phrase[i..][k];
        Closes(s, i, i + k);
        assert s[i + k + 1..][|phrase| - i - k] == '<';
      } else {
        ClosesAtEnd(phrase, address, i);
      }
    }
  }

  lemma {:induction false} LowerKeepsBracket(s: string, i: nat)
    requires i < |s| && s[i] == '<'
    ensures '<' in Lower(s)
  {
    assert Lower(s)[i] == '<';
  }

  lemma {:induction false} TrimKeeps(s: string, i: nat) returns (k: nat)
    requires i < |s| && !IsSpace(s[i])
    ensures k < |Trim(s)| && Trim(s)[k] == s[i]
  {
    var before, after := TrimParts(s);
    k := i - |before|;
  }

  /**
   `extractAddress` finds the address of every printed mailbox except exactly those whose name is
   printed as it is (not encoded) and has a `<` that no `>` of the name follows.
   */
  lemma {:induction false} ExtractsAddressIff(a: Address)
    requires IsPlain(Trim(a.address))
    ensures ExtractAddress(FormatAddress(a)) == Lower(Trim(a.address))
       <==> !(DisplayName(a).Some? && IsPrintable(DisplayName(a).value) && HasUnclosed(DisplayName(a).value))
  {
    var address, s := Trim(a.address), FormatAddress(a);
    ScanFormatted(a);
    TrimAround("", s, "");
    var m := FirstMatch(s, 0);
    if DisplayName(a).None? {
      assert m == |s|;
    } else {
      var phrase := Phrase(DisplayName(a).value);
      PhraseUnclosed(DisplayName(a).value);
      assert s == Bracketed(phrase, address);
      ExtractNamed(phrase, address);
    }
  }

  lemma {:induction false} UnclosedDefeats(address: string, name: string)
    requires IsPlain(address) && Trim(address) == address
    requires name != "" && Trimmed(name) && IsPrintable(name) && HasUnclosed(name)
    ensures ExtractAddress(FormatAddress(Address(address, Some(name)))) != Lower(address)
  {
    PrintableName(address, name);
    ExtractsAddressIff(Address(address, Some(name)));
  }

  lemma {:induction false} PrintableName(address: string, name: string)
    requires name != "" && Trimmed(name) && IsPrintable(name)
    ensures DisplayName(Address(address, Some(name))) == Some(name)
  {
    forall i | 0 <= i < |name| ensures !IsLineBreak(name[i]) {
      assert ' ' <= name[i];
    }
    PlainFold(name);
    TrimAround("", name, "");
  }

  /** The name `a <b` defeats it. */
  lemma {:induction false} UnclosedNameDefeatsExtraction(address: string, name: string)
    requires address == "x@y" && name == "a <b"
    ensures ExtractAddress(FormatAddress(Address(address, Some(name)))) != Lower(address)
  {
    TrimAround("", address, "");
    assert name[2] == '<' && '>' !in name[2..];
    UnclosedDefeats(address, name);
  }

  lemma {:induction false} PlainFold(s: string)
    requires forall i :: 0 <= i < |s| ==> !IsLineBreak(s[i])
    ensures Fold(s) == s
  {
    if s != "" {
      PlainFold(s[1..]);
    }
  }

  lemma {:induction false} ExtractNamed(phrase: string, address: string)
    requires IsPlain(address) && Trim(Bracketed(phrase, address)) == Bracketed(phrase, address)
    ensures ExtractAddress(Bracketed(phrase, address)) == Lower(address) <==> !HasUnclosed(phrase)
  {
    if HasUnclosed(phrase) {
      var i :| 0 <= i < |phrase| && phrase[i] == '<' && '>' !in phrase[i..];
      ExtractUnclosed(phrase, address, i);
    } else {
      ExtractClosed(phrase, address);
    }
  }

  lemma {:induction false} ExtractClosed(phrase: string, address: string)
    requires IsPlain(address) && Trim(Bracketed(phrase, address)) == Bracketed(phrase, address)
    requires !HasUnclosed(phrase)
    ensures ExtractAddress(Bracketed(phrase, address)) == Lower(address)
  {
    var s, bracket := Bracketed(phrase, address), |phrase| + 1;
    var m := FirstMatch(s, 0);
    ClosesAtEnd(phrase, address, bracket);
    assert Matches(s, bracket);
    if m < bracket {
      MatchBeforeBracket(phrase, address, m);
    }
    assert s[bracket + 1..|s| - 1] == address;
  }

  lemma {:induction false} ExtractUnclosed(phrase: string, address: string, i: nat)
    requires IsPlain(address) && Trim(Bracketed(phrase, address)) == Bracketed(phrase, address)
    requires i < |phrase| && phrase[i] == '<' && '>' !in phrase[i..]
    ensures ExtractAddress(Bracketed(phrase, address)) != Lower(address)
  {
    var s := Bracketed(phrase, address);
    MatchBeforeBracket(phrase, address, i);
    var m := ExtractFirst(s, i);
    MatchBeforeBracket(phrase, address, m);
    ClosesAtEnd(phrase, address, m);
    ExtractsTooMuch(phrase, address, m);
  }

  lemma {:induction false} ExtractFirst(s: string, i: nat) returns (m: nat)
    requires Trim(s) == s && i < |s| && Matches(s, i)
    ensures m <= i && Matches(s, m) && ExtractAddress(s) == Lower(Trim(Inside(s, m)))
  {
    m := FirstMatch(s, 0);
  }

  /** Text from an unclosed `<` on still holds the bracket, which no plain address does. */
  lemma {:induction false} ExtractsTooMuch(phrase: string, address: string, m: nat)
    requires IsPlain(address) && m < |phrase|
    ensures var s := Bracketed(phrase, address);
            Lower(Trim(s[m + 1..|s| - 1])) != Lower(address)
  {
    var s := Bracketed(phrase, address);
    var inner := s[m + 1..|s| - 1];
    assert inner[|phrase| - m] == '<';
    var k := TrimKeeps(inner, |phrase| - m);
    LowerKeepsBracket(Trim(inner), k);
  }
}
