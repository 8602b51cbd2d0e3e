/**
 * Base64 as Go's `encoding/base64` does it: sections 3.2 and 4 of RFC 4648, without padding
 * (`RawStdEncoding`) and with it (`StdEncoding`). The decoder skips line breaks and does not look
 * at the unused low bits of the last digit.
 */
module Base64 {
  import opened Bytes
  import opened Sublists

  const PAD: byte := 61  // '='

  type digit = x: int | 0 <= x < 64

  predicate IsDigit(c: byte) {
    65 <= c <= 90 || 97 <= c <= 122 || 48 <= c <= 57 || c == 43 || c == 47
  }

  /** A-Z, a-z, 0-9, '+', '/'. */
  function Digit(v: digit): (c: byte)
    ensures IsDigit(c)
    ensures Value(c) == v
  {
    if v < 26 then 65 + v
    else if v < 52 then 97 + (v - 26)
    else if v < 62 then 48 + (v - 52)
    else if v == 62 then 43
    else 47
  }

  function Value(c: byte): (v: digit)
    requires IsDigit(c)
  {
    if 65 <= c <= 90 then c - 65
    else if 97 <= c <= 122 then c - 97 + 26
    else if 48 <= c <= 57 then c - 48 + 52
    else if c == 43 then 62
    else 63
  }

  function At(s: Str, i: nat): byte {
    if i < |s| then s[i] else 0
  }

  /** Bytes as one number, the first ones highest. */
  function Bits(bytes: Str): nat {
    if bytes == [] then 0 else 256 * Bits(bytes[..|bytes| - 1]) + bytes[|bytes| - 1]
  }

  /** The lowest 6k bits of `n` in parts of six, the high ones first. */
  function Sixes(n: nat, k: nat): (r: seq<digit>)
    ensures |r| == k
  {
    if k == 0 then [] else Sixes(n / 64, k - 1) + [n % 64]
  }

  function Digits(vs: seq<digit>): (r: Str)
    ensures |r| == |vs|
    ensures forall i :: 0 <= i < |vs| ==> r[i] == Digit(vs[i])
  {
    seq(|vs|, i requires 0 <= i < |vs| => Digit(vs[i]))
  }

  /** The `g`th three bytes, missing ones being zero. */
  function Three(b: Str, g: nat): (r: Str)
    ensures |r| == 3
  {
    [At(b, 3 * g), At(b, 3 * g + 1), At(b, 3 * g + 2)]
  }

  /** The digits of the first three bytes. */
  function FirstDigits(b: Str): (r: Str)
    ensures |r| == 4
  {
    Digits(Sixes(Bits(Three(b, 0)), 4))
  }

  function RawEncode(b: Str): Str {
    if |b| == 0 then []
    else if |b| < 3 then FirstDigits(b)[..|b| + 1]
    else FirstDigits(b) + RawEncode(b[3..])
  }

  function SkipLineBreaks(s: Str): Str {
    if s == [] then []
    else if s[0] == 10 || s[0] == 13 then SkipLineBreaks(s[1..])
    else [s[0]] + SkipLineBreaks(s[1..])
  }

  /** The value of a digit, zero where there is none. */
  function ValueAt(s: Str, i: nat): digit {
    if i < |s| && IsDigit(s[i]) then Value(s[i]) else 0
  }

  /** Digits as one number, the first ones highest. */
  function Joined(vs: seq<digit>): nat {
    if vs == [] then 0 else 64 * Joined(vs[..|vs| - 1]) + vs[|vs| - 1]
  }

  /** The lowest 8k bits of `n` in parts of eight, the high ones first. */
  function Eights(n: nat, k: nat): (r: Str)
    ensures |r| == k
  {
    if k == 0 then [] else Eights(n / 256, k - 1) + [n % 256]
  }

  /** The values of the `g`th four digits, missing ones being zero. */
  function Four(s: Str, g: nat): (r: seq<digit>)
    ensures |r| == 4
  {
    [ValueAt(s, 4 * g), ValueAt(s, 4 * g + 1), ValueAt(s, 4 * g + 2), ValueAt(s, 4 * g + 3)]
  }

  /** The bytes of the first four digits. */
  function FirstBytes(s: Str): (r: Str)
    ensures |r| == 3
  {
    Eights(Joined(Four(s, 0)), 3)
  }

  predicate AllDigits(s: Str) {
    forall i :: 0 <= i < |s| ==> IsDigit(s[i])
  }

  function DecodeDigits(s: Str): Option<Str> {
    if |s| == 0 then Some([])
    else if |s| == 1 then None
    else if |s| < 4 then if AllDigits(s) then Some(FirstBytes(s)[..|s| - 1]) else None
    else if !AllDigits(s[..4]) then None
    else
      var rest := DecodeDigits(s[4..]);
      if rest.None? then None else Some(FirstBytes(s) + rest.value)
  }

  function RawDecode(s: Str): Option<Str> {
    DecodeDigits(SkipLineBreaks(s))
  }

  function Padding(n: nat): (p: Str)
    requires n <= 2
    ensures |p| == n
  {
    if n == 2 then [PAD, PAD] else if n == 1 then [PAD] else []
  }

  /** How many padding characters the text of `n` bytes needs. */
  function PadCount(n: nat): (k: nat)
    ensures k <= 2
  {
    if n % 3 == 1 then 2 else if n % 3 == 2 then 1 else 0
  }

  function Encode(b: Str): Str {
    RawEncode(b) + Padding(PadCount(|b|))
  }

  /** The text without its padding, when there is any. */
  function Unpadded(t: Str): Str {
    if |t| >= 4 && t[|t| - 1] == PAD && t[|t| - 2] == PAD then t[..|t| - 2]
    else if |t| >= 4 && t[|t| - 1] == PAD then t[..|t| - 1]
    else t
  }

  function Decode(s: Str): Option<Str> {
    var t := SkipLineBreaks(s);
    if |t| % 4 != 0 then None else DecodeDigits(Unpadded(t))
  }

  // ----- properties

  lemma {:induction false} RawEncodeDigits(b: Str)
    ensures AllDigits(RawEncode(b))
    ensures |RawEncode(b)| == (4 * |b| + 2) / 3
  {
    if |b| >= 3 {
      RawEncodeDigits(b[3..]);
    }
  }

  lemma {:induction false} NoLineBreaks(s: Str)
    requires forall i :: 0 <= i < |s| ==> s[i] != 10 && s[i] != 13
    ensures SkipLineBreaks(s) == s
  {
    if s != [] {
      NoLineBreaks(s[1..]);
      assert s == [s[0]] + s[1..];
    }
  }

  lemma Div64(high: nat, low: digit)
    ensures (64 * high + low) / 64 == high && (64 * high + low) % 64 == low
  {
  }

  lemma Div256(high: nat, low: byte)
    ensures (256 * high + low) / 256 == high && (256 * high + low) % 256 == low
  {
  }

  lemma {:induction false} EightsBits(bytes: Str)
    ensures Eights(Bits(bytes), |bytes|) == bytes
  {
    if bytes != [] {
      var init, low := bytes[..|bytes| - 1], bytes[|bytes| - 1];
      Div256(Bits(init), low);
      EightsBits(init);
      assert bytes == init + [low];
    }
  }

  function Pow64(k: nat): nat {
    if k == 0 then 1 else 64 * Pow64(k - 1)
  }

  /** The sixes of a number make the number again. */
  lemma {:induction false} JoinedSixes(n: nat, k: nat)
    requires n < Pow64(k)
    ensures Joined(Sixes(n, k)) == n
  {
    if k > 0 {
      JoinedSixes(n / 64, k - 1);
      var vs := Sixes(n, k);
      assert vs[..k - 1] == Sixes(n / 64, k - 1) && vs[k - 1] == n % 64;
    }
  }

  /** The number of 24 bits with these bytes. */
  function OfBytes(b0: nat, b1: nat, b2: nat): nat {
    0x1_0000 * b0 + 0x100 * b1 + b2
  }

  /** The number of 24 bits with these sixes. */
  function OfSixes(v0: nat, v1: nat, v2: nat, v3: nat): nat {
    0x4_0000 * v0 + 0x1000 * v1 + 0x40 * v2 + v3
  }

  lemma ThreeBits(bytes: Str)
    requires |bytes| == 3
    ensures Bits(bytes) == OfBytes(bytes[0], bytes[1], bytes[2])
  {
    assert bytes[..1][..0] == [];
    assert Bits(bytes[..1]) == bytes[0];
    assert bytes[..2][..1] == bytes[..1] && bytes[..2][1] == bytes[1];
  }

  lemma FourJoined(vs: seq<digit>)
    requires |vs| == 4
    ensures Joined(vs) == OfSixes(vs[0], vs[1], vs[2], vs[3])
  {
    var v0: nat, v1: nat, v2: nat, v3: nat := vs[0], vs[1], vs[2], vs[3];
    assert vs[..1][..0] == [];
    assert Joined(vs[..1]) == v0;
    assert vs[..2][..1] == vs[..1] && vs[..2][1] == v1;
    assert Joined(vs[..2]) == 64 * v0 + v1;
    assert vs[..3][..2] == vs[..2] && vs[..3][2] == v2;
    assert Joined(vs[..3]) == 64 * (64 * v0 + v1) + v2;
  }

  lemma JoinedThree(bytes: Str)
    requires |bytes| == 3
    ensures Joined(Sixes(Bits(bytes), 4)) == Bits(bytes)
  {
    ThreeBits(bytes);
    assert Pow64(2) == 4096;
    assert Pow64(4) == 4096 * Pow64(2);
    JoinedSixes(Bits(bytes), 4);
  }

  /** What missing bytes leave at the end of the digits is zero. */
  lemma SixesEnd(bytes: Str)
    requires |bytes| == 3 && bytes[2] == 0
    ensures Sixes(Bits(bytes), 4)[3] == 0
    ensures bytes[1] == 0 ==> Sixes(Bits(bytes), 4)[2] == 0
  {
    ThreeBits(bytes);
    var n, b0: nat, b1: nat := Bits(bytes), bytes[0], bytes[1];
    Div64(4 * (256 * b0 + b1), 0);
    assert Sixes(n, 4) == Sixes(n / 64, 3) + [n % 64];
    if bytes[1] == 0 {
      Div64(16 * b0, 0);
      assert Sixes(n / 64, 3) == Sixes(n / 64 / 64, 2) + [n / 64 % 64];
    }
  }

  lemma DigitsValues(vs: seq<digit>, rest: Str, i: nat)
    requires i < |vs|
    ensures ValueAt(Digits(vs) + rest, i) == vs[i]
  {
    assert (Digits(vs) + rest)[i] == Digit(vs[i]);
  }

  /** The first digits of a text give back its first bytes. */
  lemma FirstBytesOfDigits(b: Str, rest: Str)
    ensures FirstBytes(FirstDigits(b) + rest) == Three(b, 0)
  {
    var vs := Sixes(Bits(Three(b, 0)), 4);
    forall i | 0 <= i < 4
      ensures ValueAt(FirstDigits(b) + rest, i) == vs[i]
    {
      DigitsValues(vs, rest, i);
    }
    assert Four(FirstDigits(b) + rest, 0) == vs;
    JoinedThree(Three(b, 0));
    EightsBits(Three(b, 0));
  }

  lemma DecodeFirst(b: Str, rest: Str)
    requires |b| >= 3
    ensures DecodeDigits(FirstDigits(b) + rest)
         == if DecodeDigits(rest).None? then None else Some(b[..3] + DecodeDigits(rest).value)
  {
    var s := FirstDigits(b) + rest;
    assert s[4..] == rest && s[..4] == FirstDigits(b);
    FirstBytesOfDigits(b, rest);
    assert b[..3] == Three(b, 0);
  }

  /** One or two bytes: leaving out the digits of the missing ones changes nothing, for these are zero. */
  lemma ShortValues(b: Str, i: nat)
    requires 1 <= |b| < 3 && i < 4
    ensures ValueAt(FirstDigits(b)[..|b| + 1], i) == Sixes(Bits(Three(b, 0)), 4)[i]
  {
    SixesEnd(Three(b, 0));
    var vs := Sixes(Bits(Three(b, 0)), 4);
    if i <= |b| {
      assert FirstDigits(b)[..|b| + 1][i] == Digit(vs[i]);
    }
  }

  lemma ShortFirstBytes(b: Str)
    requires 1 <= |b| < 3
    ensures FirstBytes(FirstDigits(b)[..|b| + 1]) == Three(b, 0)
  {
    var s, vs := FirstDigits(b)[..|b| + 1], Sixes(Bits(Three(b, 0)), 4);
    forall i | 0 <= i < 4
      ensures ValueAt(s, i) == vs[i]
    {
      ShortValues(b, i);
    }
    assert Four(s, 0) == vs;
    JoinedThree(Three(b, 0));
    EightsBits(Three(b, 0));
  }

  lemma DecodeLast(s: Str, bytes: Str)
    requires 2 <= |s| < 4 && AllDigits(s) && FirstBytes(s) == bytes
    ensures DecodeDigits(s) == Some(bytes[..|s| - 1])
  {
  }

  lemma DecodeShort(b: Str, s: Str)
    requires 1 <= |b| < 3 && s == FirstDigits(b)[..|b| + 1]
    ensures DecodeDigits(s) == Some(b)
  {
    ShortFirstBytes(b);
    DecodeLast(s, Three(b, 0));
    assert Three(b, 0)[..|b|] == b;
  }

  lemma {:induction false} DecodeEncodedDigits(b: Str)
    ensures DecodeDigits(RawEncode(b)) == Some(b)
  {
    if 1 <= |b| < 3 {
      DecodeShort(b, RawEncode(b));
    } else if |b| >= 3 {
      DecodeEncodedDigits(b[3..]);
      DecodeFirst(b, RawEncode(b[3..]));
      assert b == b[..3] + b[3..];
    }
  }

  /** Unpadded base64 round-trips for every length. */
  lemma RawRoundTrip(b: Str)
    ensures RawDecode(RawEncode(b)) == Some(b)
  {
    RawEncodeDigits(b);
    NoLineBreaks(RawEncode(b));
    DecodeEncodedDigits(b);
  }

  lemma PaddedHasNoLineBreaks(raw: Str, n: nat)
    requires n <= 2 && AllDigits(raw)
    ensures SkipLineBreaks(raw + Padding(n)) == raw + Padding(n)
  {
    NoLineBreaks(raw + Padding(n));
  }

  lemma UnpadPadded(raw: Str, n: nat)
    requires n <= 2 && (|raw| + n) % 4 == 0 && |raw| >= n
    requires AllDigits(raw)
    ensures Unpadded(raw + Padding(n)) == raw
  {
    var s := raw + Padding(n);
    if n == 0 {
      assert s == raw;
    } else {
      assert s[|s| - 1] == PAD && s[|s| - 2] == if n == 2 then PAD else raw[|raw| - 1];
      assert s[..|s| - n] == raw;
    }
  }

  lemma DecodeWhole(s: Str, raw: Str, n: nat)
    requires |s| == |raw| + n && (|raw| + n) % 4 == 0
    requires SkipLineBreaks(s) == s && Unpadded(s) == raw
    ensures Decode(s) == DecodeDigits(raw)
  {
  }

  lemma DecodePadded(raw: Str, n: nat)
    requires n <= 2 && (|raw| + n) % 4 == 0 && |raw| >= n && AllDigits(raw)
    ensures Decode(raw + Padding(n)) == DecodeDigits(raw)
  {
    PaddedHasNoLineBreaks(raw, n);
    UnpadPadded(raw, n);
    DecodeWhole(raw + Padding(n), raw, n);
  }

  lemma {:induction false} EncodedShape(b: Str)
    ensures var raw, n := RawEncode(b), PadCount(|b|); (|raw| + n) % 4 == 0 && |raw| >= n && AllDigits(raw)
  {
    if |b| >= 3 {
      EncodedShape(b[3..]);
    }
  }

  /** Padded base64 round-trips for every length. */
  lemma RoundTrip(b: Str)
    ensures Decode(Encode(b)) == Some(b)
  {
    EncodedShape(b);
    DecodePadded(RawEncode(b), PadCount(|b|));
    DecodeEncodedDigits(b);
  }

  // ----- the text, digit by digit

  const UPPER := "ABCDEFGHIJKLMNOPQRSTUVWXYZ"
  const LOWER := "abcdefghijklmnopqrstuvwxyz"
  const DECIMAL := "0123456789"
  const TABLE := UPPER + LOWER + DECIMAL + "+/"

  /** The digits are those of the table of section 4 of RFC 4648. */
  lemma TableExactly()
    ensures forall v: digit :: Digit(v) as char == TABLE[v]
    ensures forall c: byte :: IsDigit(c) ==> c as char == TABLE[Value(c)]
  {
    assert forall v: nat :: v < 26 ==> UPPER[v] == (65 + v) as char;
    assert forall v: nat :: v < 26 ==> LOWER[v] == (97 + v) as char;
    assert forall v: nat :: v < 10 ==> DECIMAL[v] == (48 + v) as char;
    assert forall c: byte :: IsDigit(c) ==> Digit(Value(c)) == c;
  }

  lemma ThreeShift(b: Str, g: nat)
    requires |b| >= 3 && g >= 1
    ensures Three(b[3..], g - 1) == Three(b, g)
  {
  }

  lemma {:induction false} DigitsOfGroups(b: Str, g: nat, i: nat)
    requires i < 4 && 4 * g + i < |RawEncode(b)|
    ensures RawEncode(b)[4 * g + i] == Digit(Sixes(Bits(Three(b, g)), 4)[i])
  {
    if g > 0 {
      DigitsOfGroups(b[3..], g - 1, i);
      ThreeShift(b, g);
      assert RawEncode(b)[4 * g + i] == RawEncode(b[3..])[4 * (g - 1) + i];
    }
  }

  /**
   * Each three bytes are written as the characters of the standard table for the four sixes of their 24
   * bits, the high ones first; at the end, missing bytes count as zero, and their digits are left out.
   */
  lemma RawEncodeGroup(b: Str, g: nat) returns (v: seq<digit>)
    requires 3 * g < |b|
    ensures |RawEncode(b)| == (4 * |b| + 2) / 3
    ensures |v| == 4
    ensures OfSixes(v[0], v[1], v[2], v[3]) == OfBytes(At(b, 3 * g), At(b, 3 * g + 1), At(b, 3 * g + 2))
    ensures forall i :: 0 <= i < 4 && 4 * g + i < |RawEncode(b)| ==> RawEncode(b)[4 * g + i] as char == TABLE[v[i]]
  {
    v := Sixes(Bits(Three(b, g)), 4);
    RawEncodeDigits(b);
    TableExactly();
    ThreeBits(Three(b, g));
    JoinedThree(Three(b, g));
    FourJoined(v);
    forall i | 0 <= i < 4 && 4 * g + i < |RawEncode(b)|
      ensures RawEncode(b)[4 * g + i] == Digit(v[i])
    {
      DigitsOfGroups(b, g, i);
    }
  }

  lemma EqualsSigns(raw: Str, n: nat)
    requires n <= 2
    ensures raw <= raw + Padding(n) && |raw + Padding(n)| == |raw| + n
    ensures forall i :: |raw| <= i < |raw| + n ==> (raw + Padding(n))[i] as char == '='
  {
  }

  /** With padding: equals signs, at most two, up to a multiple of four characters. */
  lemma EncodePadded(b: Str)
    ensures RawEncode(b) <= Encode(b) && |Encode(b)| % 4 == 0 && |Encode(b)| <= |RawEncode(b)| + 2
    ensures forall i :: |RawEncode(b)| <= i < |Encode(b)| ==> Encode(b)[i] as char == '='
  {
    EncodedShape(b);
    EqualsSigns(RawEncode(b), PadCount(|b|));
  }

  // ----- which texts decode, and to what

  lemma LengthTail(n: nat)
    requires n >= 4
    ensures (n - 4) % 4 == n % 4 && 3 * (n - 4) / 4 == 3 * n / 4 - 3
  {
  }

  lemma {:induction false} DecodesExactly(s: Str)
    ensures DecodeDigits(s).Some? <==> |s| % 4 != 1 && AllDigits(s)
    ensures DecodeDigits(s).Some? ==> |DecodeDigits(s).value| == 3 * |s| / 4
  {
    if |s| >= 4 {
      DecodesExactly(s[4..]);
      LengthTail(|s|);
      assert forall i :: 4 <= i < |s| ==> s[i] == s[4..][i - 4];
      assert AllDigits(s[..4]) <==> forall i :: 0 <= i < 4 ==> IsDigit(s[i]);
    }
  }

  lemma FourShift(s: Str, g: nat)
    requires |s| >= 4 && g >= 1
    ensures Four(s[4..], g - 1) == Four(s, g)
  {
  }

  lemma DecodedFirst(s: Str, i: nat)
    requires DecodeDigits(s).Some? && i < 3 && i < |DecodeDigits(s).value|
    ensures DecodeDigits(s).value[i] == Eights(Joined(Four(s, 0)), 3)[i]
  {
  }

  lemma DecodedTail(s: Str, g: nat, i: nat)
    requires DecodeDigits(s).Some? && g >= 1 && 3 * g + i < |DecodeDigits(s).value|
    ensures |s| >= 4 && DecodeDigits(s[4..]).Some? && 3 * (g - 1) + i < |DecodeDigits(s[4..]).value|
    ensures DecodeDigits(s).value[3 * g + i] == DecodeDigits(s[4..]).value[3 * (g - 1) + i]
  {
  }

  lemma {:induction false} DecodedAt(s: Str, g: nat, i: nat)
    requires DecodeDigits(s).Some? && i < 3 && 3 * g + i < |DecodeDigits(s).value|
    ensures DecodeDigits(s).value[3 * g + i] == Eights(Joined(Four(s, g)), 3)[i]
  {
    if g == 0 {
      DecodedFirst(s, i);
    } else {
      DecodedTail(s, g, i);
      DecodedAt(s[4..], g - 1, i);
      FourShift(s, g);
    }
  }

  function NoBreaks(): byte -> bool {
    (c: byte) => c != 10 && c != 13
  }

  lemma {:induction false} FilterCons(s: Str)
    requires s != []
    ensures Filter(s, NoBreaks()) == (if NoBreaks()(s[0]) then [s[0]] else []) + Filter(s[1..], NoBreaks())
  {
    if |s| > 1 {
      var init := s[..|s| - 1];
      FilterCons(init);
      assert s[1..][..|s| - 2] == init[1..];
    }
  }

  lemma {:induction false} SkipFilters(s: Str)
    ensures SkipLineBreaks(s) == Filter(s, NoBreaks())
  {
    if s != [] {
      FilterCons(s);
      SkipFilters(s[1..]);
    }
  }

  /** Line feeds and carriage returns are left out, and nothing else. */
  lemma LineBreaksSkipped(s: Str) returns (at: seq<nat>)
    ensures SublistAt(SkipLineBreaks(s), s, NoBreaks(), at)
  {
    SkipFilters(s);
    at := FilterInOrder(s, NoBreaks());
  }

  /** Without line breaks, an unpadded text is accepted exactly when it is made of digits, not of 4k + 1. */
  lemma RawDecodeExactly(s: Str)
    ensures var t := SkipLineBreaks(s);
            && (RawDecode(s).Some? <==> |t| % 4 != 1 && AllDigits(t))
            && (RawDecode(s).Some? ==> |RawDecode(s).value| == 3 * |t| / 4)
  {
    DecodesExactly(SkipLineBreaks(s));
  }

  lemma EightsWhole(n: nat)
    requires n < 0x100_0000
    ensures var w := Eights(n, 3); OfBytes(w[0], w[1], w[2]) == n
  {
    var a := n / 256;
    var b := a / 256;
    assert n == 256 * a + n % 256 && a == 256 * b + a % 256;
    assert Eights(n, 3) == Eights(a, 2) + [n % 256];
    assert Eights(a, 2) == Eights(b, 1) + [a % 256];
    assert Eights(b, 1) == Eights(b / 256, 0) + [b % 256];
  }

  /**
   * Each four digits of an accepted text are the three bytes of their 24 bits, the high ones first; at the
   * end, missing digits count as zero, their bytes are left out, and so are bits that fill no byte.
   */
  lemma RawDecodeGroup(s: Str, g: nat) returns (w: Str)
    requires RawDecode(s).Some?
    ensures var t, r := SkipLineBreaks(s), RawDecode(s).value;
            && |w| == 3
            && OfBytes(w[0], w[1], w[2])
               == OfSixes(ValueAt(t, 4 * g), ValueAt(t, 4 * g + 1), ValueAt(t, 4 * g + 2), ValueAt(t, 4 * g + 3))
            && forall i :: 0 <= i < 3 && 3 * g + i < |r| ==> r[3 * g + i] == w[i]
  {
    var t, r := SkipLineBreaks(s), RawDecode(s).value;
    FourJoined(Four(t, g));
    w := Eights(Joined(Four(t, g)), 3);
    EightsWhole(Joined(Four(t, g)));
    forall i | 0 <= i < 3 && 3 * g + i < |r|
      ensures r[3 * g + i] == w[i]
    {
      DecodedAt(t, g, i);
    }
  }

  /** A text is one that is made of digits only, and `n` equals signs. */
  ghost predicate PaddedBy(t: Str, raw: Str, n: nat) {
    && |t| == |raw| + n && raw <= t
    && AllDigits(raw)
    && (forall i :: |raw| <= i < |t| ==> t[i] as char == '=')
  }

  lemma UnpaddedExactly(t: Str, raw: Str, n: nat)
    requires |t| % 4 == 0 && n <= 2 && PaddedBy(t, raw, n)
    ensures Unpadded(t) == raw
  {
    UnpadPadded(raw, n);
    assert t == raw + Padding(n);
  }

  /**
   * A padded text is accepted exactly when, without line breaks, its length is a multiple of four and it
   * is an unpadded text with at most two equals signs behind it.
   */
  lemma DecodeExactly(s: Str, b: Str)
    ensures var t := SkipLineBreaks(s);
            Decode(s) == Some(b) <==>
              |t| % 4 == 0 && exists raw: Str, n: nat :: n <= 2 && PaddedBy(t, raw, n) && DecodeDigits(raw) == Some(b)
  {
    var t := SkipLineBreaks(s);
    if Decode(s) == Some(b) {
      DecodesExactly(Unpadded(t));
      assert PaddedBy(t, Unpadded(t), |t| - |Unpadded(t)|);
    }
    if |t| % 4 == 0 {
      forall raw: Str, n: nat | n <= 2 && PaddedBy(t, raw, n)
        ensures Unpadded(t) == raw
      {
        UnpaddedExactly(t, raw, n);
      }
    }
  }
}
