/** `encoding/hex`: section 8 of RFC 4648, written in lower case, read in either case. */
module Hex {
  import opened Bytes

  function Digit(v: int): (c: byte)
    requires 0 <= v < 16
    ensures Nibble(c) == Some(v)
    ensures 48 <= c <= 57 || 97 <= c <= 102
  {
    if v < 10 then 48 + v else 97 + (v - 10)
  }

  function Nibble(c: byte): (v: Option<int>)
    ensures v.Some? ==> 0 <= v.value < 16
  {
    if 48 <= c <= 57 then Some(c - 48)
    else if 97 <= c <= 102 then Some(c - 97 + 10)
    else if 65 <= c <= 70 then Some(c - 65 + 10)
    else None
  }

  function Encode(b: Str): (s: Str)
    ensures |s| == 2 * |b|
  {
    if b == [] then [] else [Digit(b[0] / 16), Digit(b[0] % 16)] + Encode(b[1..])
  }

  function Decode(s: Str): Option<Str> {
    if s == [] then Some([])
    else if |s| == 1 || Nibble(s[0]).None? || Nibble(s[1]).None? then None
    else
      var rest := Decode(s[2..]);
      if rest.None? then None else Some([Nibble(s[0]).value * 16 + Nibble(s[1]).value] + rest.value)
  }

  lemma {:induction false} RoundTrip(b: Str)
    ensures Decode(Encode(b)) == Some(b)
  {
    if b != [] {
      RoundTrip(b[1..]);
      assert Encode(b)[2..] == Encode(b[1..]);
      assert b == [b[0]] + b[1..];
    }
  }

  const LOWER := "0123456789abcdef"
  const UPPER := "0123456789ABCDEF"

  /** The digits are those of the table of section 8 of RFC 4648, in either case when read. */
  lemma TableExactly()
    ensures forall v: int :: 0 <= v < 16 ==> Digit(v) as char == LOWER[v]
    ensures forall c: byte, v: int :: Nibble(c) == Some(v) <==>
              0 <= v < 16 && (c as char == LOWER[v] || c as char == UPPER[v])
  {
  }

  /** Byte `i` is written as the digits of its two halves, the high one first. */
  lemma EncodeAt(b: Str, i: nat)
    requires i < |b|
    ensures Encode(b)[2 * i] as char == LOWER[b[i] / 16]
    ensures Encode(b)[2 * i + 1] as char == LOWER[b[i] % 16]
  {
    TableExactly();
    DigitsAt(b, i);
  }

  lemma {:induction false} DigitsAt(b: Str, i: nat)
    requires i < |b|
    ensures Encode(b)[2 * i] == Digit(b[i] / 16) && Encode(b)[2 * i + 1] == Digit(b[i] % 16)
  {
    if i > 0 {
      DigitsAt(b[1..], i - 1);
    }
  }

  /** A text is read exactly when it is made of pairs of digits, and each pair gives its byte. */
  lemma {:induction false} DecodeExactly(s: Str)
    ensures Decode(s).Some? <==> |s| % 2 == 0 && forall i :: 0 <= i < |s| ==> Nibble(s[i]).Some?
    ensures Decode(s).Some? ==> |Decode(s).value| == |s| / 2
    ensures Decode(s).Some? ==>
              forall i :: 0 <= i < |s| / 2 ==>
                Decode(s).value[i] == 16 * Nibble(s[2 * i]).value + Nibble(s[2 * i + 1]).value
  {
    if |s| >= 2 {
      DecodeExactly(s[2..]);
      assert forall i :: 0 <= i < |s| - 2 ==> s[i + 2] == s[2..][i];
    }
  }
}
