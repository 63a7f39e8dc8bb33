/** UTF-8 (RFC 3629) and base64 (RFC 4648 section 4), with the decoders that undo them. */
module Base64 {
  import opened Options

  type Byte = b: int | 0 <= b < 256

  // ---------------------------------------------------------------------------
  // UTF-8
  // ---------------------------------------------------------------------------

  /** The six low bits, marked as a continuation byte. */
  function Tail(u: nat): Byte {
    0x80 + u % 64
  }

  function CharBytes(c: char): seq<Byte> {
    var u := c as int;
    if u < 0x80 then [u]
    else if u < 0x800 then [0xC0 + u / 64, Tail(u)]
    else if u < 0x10000 then [0xE0 + u / 64 / 64, Tail(u / 64), Tail(u)]
    else [0xF0 + u / 64 / 64 / 64, Tail(u / 64 / 64), Tail(u / 64), Tail(u)]
  }

  function Utf8(s: string): seq<Byte> {
    if s == "" then [] else CharBytes(s[0]) + Utf8(s[1..])
  }

  /** The number of bytes a first byte announces. */
  function Width(b: Byte): nat {
    if b < 0x80 then 1 else if b < 0xE0 then 2 else if b < 0xF0 then 3 else 4
  }

  /** Appends the six low bits of a continuation byte. */
  function Shift(u: int, b: int): int {
    u * 64 + (b - 0x80)
  }

  function CodePoint(bs: seq<Byte>): int
    requires bs != [] && |bs| == Width(bs[0])
  {
    var first: int := bs[0];
    match |bs|
    case 1 => first
    case 2 => Shift(first - 0xC0, bs[1])
    case 3 => Shift(Shift(first - 0xE0, bs[1]), bs[2])
    case _ => Shift(Shift(Shift(first - 0xF0, bs[1]), bs[2]), bs[3])
  }

  predicate IsScalar(u: int) {
    0 <= u < 0xD800 || 0xE000 <= u < 0x110000
  }

  function FromUtf8(bs: seq<Byte>): Option<string> {
    if bs == [] then Some("")
    else
      var n := Width(bs[0]);
      if |bs| < n || !IsScalar(CodePoint(bs[..n])) then None
      else
        match FromUtf8(bs[n..])
        case None => None
        case Some(rest) => Some([CodePoint(bs[..n]) as char] + rest)
  }

  lemma {:induction false} CharRoundTrip(c: char)
    ensures CharBytes(c) != [] && |CharBytes(c)| == Width(CharBytes(c)[0])
    ensures CodePoint(CharBytes(c)) == c as int
  {
    var u := c as int;
    ShiftTail(u);
    ShiftTail(u / 64);
    ShiftTail(u / 64 / 64);
  }

  /** How many bytes a character takes, and which (RFC 3629, section 3). */
  lemma {:induction false} Utf8Shape(c: char)
    ensures var bs := CharBytes(c);
            && |bs| == (if c <= '\U{7F}' then 1 else if c <= '\U{7FF}' then 2 else if c <= '\U{FFFF}' then 3 else 4)
            && bs[0] / (if |bs| == 1 then 128 else if |bs| == 2 then 32 else if |bs| == 3 then 16 else 8)
               == (if |bs| == 1 then 0 else if |bs| == 2 then 6 else if |bs| == 3 then 14 else 30)
            && forall i :: 0 < i < |bs| ==> bs[i] / 64 == 2
  {
  }

  lemma {:induction false} ShiftTail(u: nat)
    ensures Shift(u / 64, Tail(u)) == u
  {
  }

  lemma {:induction false} Utf8RoundTrip(s: string)
    ensures FromUtf8(Utf8(s)) == Some(s)
  {
    if s != "" {
      var bs, n := CharBytes(s[0]), |CharBytes(s[0])|;
      CharRoundTrip(s[0]);
      Utf8RoundTrip(s[1..]);
      assert Utf8(s)[0] == bs[0] && Utf8(s)[..n] == bs && Utf8(s)[n..] == Utf8(s[1..]);
      assert IsScalar(CodePoint(bs)) && CodePoint(bs) as char == s[0];
      assert [s[0]] + s[1..] == s;
    }
  }

  // ---------------------------------------------------------------------------
  // Base64
  // ---------------------------------------------------------------------------

  type Sextet = n: int | 0 <= n < 64

  function Letter(n: Sextet): char {
    if n < 26 then ('A' as int + n) as char
    else if n < 52 then ('a' as int + n - 26) as char
    else if n < 62 then ('0' as int + n - 52) as char
    else if n == 62 then '+' else '/'
  }

  predicate IsLetter(c: char) {
    'A' <= c <= 'Z' || 'a' <= c <= 'z' || '0' <= c <= '9' || c == '+' || c == '/'
  }

  function Number(c: char): Sextet
    requires IsLetter(c)
  {
    if 'A' <= c <= 'Z' then c as int - 'A' as int
    else if 'a' <= c <= 'z' then c as int - 'a' as int + 26
    else if '0' <= c <= '9' then c as int - '0' as int + 52
    else if c == '+' then 62 else 63
  }

  // The four sextets of three bytes, and back.

  function S0(b0: Byte): Sextet { b0 / 4 }
  function S1(b0: Byte, b1: Byte): Sextet { b0 % 4 * 16 + b1 / 16 }
  function S2(b1: Byte, b2: Byte): Sextet { b1 % 16 * 4 + b2 / 64 }
  function S3(b2: Byte): Sextet { b2 % 64 }

  function B0(s0: Sextet, s1: Sextet): Byte { s0 * 4 + s1 / 16 }
  function B1(s1: Sextet, s2: Sextet): Byte { s1 % 16 * 16 + s2 / 4 }
  function B2(s2: Sextet, s3: Sextet): Byte { s2 % 4 * 64 + s3 }

  lemma {:induction false} SextetsRoundTrip(b0: Byte, b1: Byte, b2: Byte)
    ensures B0(S0(b0), S1(b0, b1)) == b0
    ensures B1(S1(b0, b1), S2(b1, b2)) == b1
    ensures B2(S2(b1, b2), S3(b2)) == b2
  {
  }

  function Quad(s0: Sextet, s1: Sextet, s2: Sextet := 0, s3: Sextet := 0): (q: string)
    ensures |q| == 4
    ensures IsLetter(q[0]) && IsLetter(q[1]) && IsLetter(q[2]) && IsLetter(q[3])
    ensures Number(q[0]) == s0 && Number(q[1]) == s1 && Number(q[2]) == s2 && Number(q[3]) == s3
  {
    [Letter(s0), Letter(s1), Letter(s2), Letter(s3)]
  }

  function Encode(bs: seq<Byte>): string {
    if |bs| == 0 then ""
    else if |bs| == 1 then Group(bs[0], 0, 0)[..2] + "=="
    else if |bs| == 2 then Group(bs[0], bs[1], 0)[..3] + "="
    else Group(bs[0], bs[1], bs[2]) + Encode(bs[3..])
  }

  function Group(b0: Byte, b1: Byte, b2: Byte): (q: string)
    ensures |q| == 4 && forall i :: 0 <= i < 4 ==> IsLetter(q[i])
  {
    Quad(S0(b0), S1(b0, b1), S2(b1, b2), S3(b2))
  }

  function Decode(s: string): Option<seq<Byte>> {
    if s == "" then Some([])
    else if |s| < 4 || !IsLetter(s[0]) || !IsLetter(s[1]) then None
    else if |s| == 4 && s[2] == '=' && s[3] == '=' then Some([B0(Number(s[0]), Number(s[1]))])
    else if !IsLetter(s[2]) then None
    else if |s| == 4 && s[3] == '=' then Some([B0(Number(s[0]), Number(s[1])), B1(Number(s[1]), Number(s[2]))])
    else if !IsLetter(s[3]) then None
    else
      match Decode(s[4..])
      case None => None
      case Some(rest) =>
        Some([B0(Number(s[0]), Number(s[1])), B1(Number(s[1]), Number(s[2])), B2(Number(s[2]), Number(s[3]))] + rest)
  }

  /** Decoding one group of four letters, whatever the sextets stand for. */
  lemma {:induction false} DecodeQuad(s0: Sextet, s1: Sextet, s2: Sextet, s3: Sextet, rest: string)
    ensures Decode(Quad(s0, s1, s2, s3)[..2] + "==") == Some([B0(s0, s1)])
    ensures Decode(Quad(s0, s1, s2, s3)[..3] + "=") == Some([B0(s0, s1), B1(s1, s2)])
    ensures Decode(rest).Some? ==>
              Decode(Quad(s0, s1, s2, s3) + rest) == Some([B0(s0, s1), B1(s1, s2), B2(s2, s3)] + Decode(rest).value)
  {
    assert (Quad(s0, s1, s2, s3) + rest)[4..] == rest;
  }

  lemma {:induction false} DecodeOne(b0: Byte)
    ensures Decode(Encode([b0])) == Some([b0])
  {
    DecodeQuad(S0(b0), S1(b0, 0), 0, 0, "");
    SextetsRoundTrip(b0, 0, 0);
  }

  lemma {:induction false} DecodeTwo(b0: Byte, b1: Byte)
    ensures Decode(Encode([b0, b1])) == Some([b0, b1])
  {
    DecodeQuad(S0(b0), S1(b0, b1), S2(b1, 0), 0, "");
    SextetsRoundTrip(b0, b1, 0);
  }

  lemma {:induction false} DecodeThree(b0: Byte, b1: Byte, b2: Byte, more: seq<Byte>)
    requires Decode(Encode(more)) == Some(more)
    ensures Decode(Encode([b0, b1, b2] + more)) == Some([b0, b1, b2] + more)
  {
    assert ([b0, b1, b2] + more)[3..] == more;
    DecodeQuad(S0(b0), S1(b0, b1), S2(b1, b2), S3(b2), Encode(more));
    SextetsRoundTrip(b0, b1, b2);
  }

  lemma {:induction false} DecodeShort(bs: seq<Byte>)
    requires 0 < |bs| < 3
    ensures Decode(Encode(bs)) == Some(bs)
  {
    if |bs| == 1 {
      var b0 := bs[0];
      assert bs == [b0];
      DecodeOne(b0);
    } else {
      var b0, b1 := bs[0], bs[1];
      assert bs == [b0, b1];
      DecodeTwo(b0, b1);
    }
  }

  lemma {:induction false} DecodeLong(bs: seq<Byte>)
    requires |bs| > 2 && Decode(Encode(bs[3..])) == Some(bs[3..])
    ensures Decode(Encode(bs)) == Some(bs)
  {
    var b0, b1, b2, more := bs[0], bs[1], bs[2], bs[3..];
    assert bs == [b0, b1, b2] + more;
    DecodeThree(b0, b1, b2, more);
  }

  /** Decoding undoes encoding, however the bytes end. */
  lemma {:induction false} DecodeEncode(bs: seq<Byte>)
    ensures Decode(Encode(bs)) == Some(bs)
  {
    if |bs| > 2 {
      DecodeEncode(bs[3..]);
      DecodeLong(bs);
    } else if bs != [] {
      DecodeShort(bs);
    }
  }

  /** The test vectors of RFC 4648, section 10, for three lengths of the last group. */
  lemma {:induction false} StandardVectors()
    ensures Encode([0x66]) == "Zg==" && Encode([0x66, 0x6F]) == "Zm8=" && Encode([0x66, 0x6F, 0x6F]) == "Zm9v"
  {
    GroupLetters(0x66, 0, 0, 25, 32, 0, 0);
    GroupLetters(0x66, 0x6F, 0, 25, 38, 60, 0);
    GroupLetters(0x66, 0x6F, 0x6F, 25, 38, 61, 47);
    var one, two, three: seq<Byte> := [0x66], [0x66, 0x6F], [0x66, 0x6F, 0x6F];
    assert Encode(one) == Group(0x66, 0, 0)[..2] + "==";
    assert Encode(two) == Group(0x66, 0x6F, 0)[..3] + "=";
    assert three[3..] == [] && Encode(three) == Group(0x66, 0x6F, 0x6F) + Encode([]);
  }

  lemma {:induction false} GroupLetters(b0: Byte, b1: Byte, b2: Byte, s0: Sextet, s1: Sextet, s2: Sextet, s3: Sextet)
    requires b0 * 65536 + b1 * 256 + b2 == s0 * 262144 + s1 * 4096 + s2 * 64 + s3
    ensures Group(b0, b1, b2) == [Letter(s0), Letter(s1), Letter(s2), Letter(s3)]
  {
    assert S0(b0) == s0;
    assert S1(b0, b1) == s1;
    assert S2(b1, b2) == s2;
  }

  predicate IsEncodedChar(c: char) {
    IsLetter(c) || c == '='
  }

  predicate AllEncoded(s: string) {
    forall i :: 0 <= i < |s| ==> IsEncodedChar(s[i])
  }

  lemma {:induction false} JoinEncoded(s: string, t: string)
    requires AllEncoded(s) && AllEncoded(t)
    ensures AllEncoded(s + t)
  {
  }

  lemma {:induction false} GroupEncoded(b0: Byte, b1: Byte, b2: Byte)
    ensures AllEncoded(Group(b0, b1, b2))
    ensures AllEncoded(Group(b0, b1, b2)[..2] + "==")
    ensures AllEncoded(Group(b0, b1, b2)[..3] + "=")
  {
  }

  lemma {:induction false} EncodeAlphabet(bs: seq<Byte>)
    ensures AllEncoded(Encode(bs))
  {
    if |bs| > 2 {
      EncodeAlphabet(bs[3..]);
      GroupEncoded(bs[0], bs[1], bs[2]);
      JoinEncoded(Group(bs[0], bs[1], bs[2]), Encode(bs[3..]));
    } else if |bs| == 2 {
      GroupEncoded(bs[0], bs[1], 0);
    } else if |bs| == 1 {
      GroupEncoded(bs[0], 0, 0);
    }
  }
}
