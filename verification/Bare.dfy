/** The parts of the BARE encoding that tokens use: section 2 of draft-devault-bare. */
module Bare {
  import opened Bytes

  const TWO_63 := 0x8000_0000_0000_0000
  const TWO_64 := 0x1_0000_0000_0000_0000

  type uint64 = x: int | 0 <= x < 0x1_0000_0000_0000_0000

  type int64 = x: int | -0x8000_0000_0000_0000 <= x < 0x8000_0000_0000_0000

  // ----- variable-length unsigned integers

  function WriteUint(x: nat): (s: Str)
    ensures |s| >= 1
  {
    if x < 128 then [x] else [x % 128 + 128] + WriteUint(x / 128)
  }

  /** Reads from the `i`th byte of a number on; at most ten bytes, the last at most 1. */
  function ReadUintFrom(s: Str, i: nat): Option<(nat, Str)> {
    if s == [] || i == 10 then None
    else if s[0] < 128 then
      if i == 9 && s[0] > 1 then None else Some((s[0], s[1..]))
    else
      var r := ReadUintFrom(s[1..], i + 1);
      if r.None? then None else Some((s[0] - 128 + 128 * r.value.0, r.value.1))
  }

  function ReadUint(s: Str): (r: Option<(nat, Str)>)
    ensures r.Some? ==> r.value.0 < TWO_64
  {
    var r := ReadUintFrom(s, 0);
    assert r.Some? ==> r.value.0 < TWO_64 by {
      if r.Some? {
        ReadUintBounded(s, 0);
        Pow128Of9();
      }
    }
    r
  }

  /** What the low seven bits of the bytes spell, the first ones lowest. */
  function Value128(s: Str): nat {
    if s == [] then 0 else s[0] % 128 + 128 * Value128(s[1..])
  }

  /** The high bit is set in every byte but the last. */
  predicate Terminated(s: Str) {
    s != [] && s[|s| - 1] < 128 && forall i :: 0 <= i < |s| - 1 ==> s[i] >= 128
  }

  /** A number is written as the shortest bytes that spell it; below 128, as itself. */
  lemma {:induction false} WriteUintExactly(x: nat)
    ensures var s := WriteUint(x);
            && Terminated(s) && Value128(s) == x
            && (|s| > 1 ==> s[|s| - 1] > 0)
            && (x < 128 ==> s == [x])
  {
    if x >= 128 {
      WriteUintExactly(x / 128);
    }
  }

  /** The first `n` bytes are a number that is accepted: at most ten bytes, of the tenth one bit. */
  predicate NumberAt(s: Str, n: nat, i: nat) {
    n <= |s| && Terminated(s[..n]) && i + n <= 10 && (i + n == 10 ==> s[n - 1] <= 1)
  }

  lemma NumberAtTail(s: Str, n: nat, i: nat)
    requires s != [] && s[0] >= 128 && n >= 1
    ensures NumberAt(s, n + 1, i) <==> NumberAt(s[1..], n, i + 1)
    ensures n + 1 <= |s| ==> Value128(s[..n + 1]) == s[0] - 128 + 128 * Value128(s[1..][..n])
  {
    if n + 1 <= |s| {
      assert s[..n + 1][1..] == s[1..][..n];
      assert s[..n + 1] == [s[0]] + s[1..][..n];
    }
  }

  /** The first `n` bytes are the number `x`, and `rest` follows. */
  predicate ReadsNumber(s: Str, i: nat, n: nat, x: nat, rest: Str) {
    NumberAt(s, n, i) && x == Value128(s[..n]) && rest == s[n..]
  }

  lemma {:induction false} ReadIsNumber(s: Str, i: nat) returns (n: nat)
    requires i <= 10 && ReadUintFrom(s, i).Some?
    ensures var r := ReadUintFrom(s, i).value; ReadsNumber(s, i, n, r.0, r.1)
  {
    if s[0] < 128 {
      n := 1;
      assert s[..1] == [s[0]] && [s[0]][1..] == [];
    } else {
      var m := ReadIsNumber(s[1..], i + 1);
      NumberAtTail(s, m, i);
      assert s[1..][m..] == s[m + 1..];
      n := m + 1;
    }
  }

  lemma {:induction false} NumberIsRead(s: Str, i: nat, n: nat)
    requires i <= 10 && NumberAt(s, n, i)
    ensures ReadUintFrom(s, i) == Some((Value128(s[..n]), s[n..]))
  {
    assert s[..n][n - 1] == s[n - 1];
    if n == 1 {
      assert s[..1] == [s[0]] && [s[0]][1..] == [];
    } else {
      assert s[..n][0] == s[0];
      NumberAtTail(s, n - 1, i);
      NumberIsRead(s[1..], i + 1, n - 1);
      assert s[1..][n - 1..] == s[n..];
    }
  }

  /** The whole text is a number that is accepted: at most ten bytes, of the tenth one bit. */
  predicate Spells(p: Str, x: nat) {
    Terminated(p) && |p| <= 10 && (|p| == 10 ==> p[9] <= 1) && Value128(p) == x
  }

  /** Which texts begin with a number, and with which one: shortest or not, but never of more than 64 bits. */
  lemma ReadUintSpells(s: Str, x: nat, rest: Str)
    ensures ReadUint(s) == Some((x, rest)) <==> exists p: Str :: Spells(p, x) && s == p + rest
  {
    if ReadUint(s) == Some((x, rest)) {
      var n := ReadIsNumber(s, 0);
      assert s[..n][n - 1] == s[n - 1];
      assert Spells(s[..n], x) && s == s[..n] + rest;
    }
    if p: Str :| Spells(p, x) && s == p + rest {
      assert s[..|p|] == p && s[|p|..] == rest;
      NumberIsRead(s, 0, |p|);
    }
  }

  function Pow128(n: nat): nat {
    if n == 0 then 1 else 128 * Pow128(n - 1)
  }

  lemma Pow128Of9()
    ensures 2 * Pow128(9) == TWO_64
  {
    assert Pow128(3) == 2097152;
    assert Pow128(6) == 2097152 * Pow128(3);
    assert Pow128(9) == 2097152 * Pow128(6);
  }

  lemma {:induction false} ReadWrittenUint(x: nat, i: nat, rest: Str)
    requires i <= 9 && x < 2 * Pow128(9 - i)
    ensures ReadUintFrom(WriteUint(x) + rest, i) == Some((x, rest))
  {
    if x >= 128 {
      assert i < 9;
      ReadWrittenUint(x / 128, i + 1, rest);
      assert (WriteUint(x) + rest)[1..] == WriteUint(x / 128) + rest;
    }
  }

  lemma UintRoundTrip(x: uint64, rest: Str)
    ensures ReadUint(WriteUint(x) + rest) == Some((x as nat, rest))
  {
    Pow128Of9();
    ReadWrittenUint(x, 0, rest);
  }

  /** A number that is read fits in 64 bits. */
  lemma {:induction false} ReadUintBounded(s: Str, i: nat)
    requires i <= 9 && ReadUintFrom(s, i).Some?
    ensures ReadUintFrom(s, i).value.0 < 2 * Pow128(9 - i)
  {
    if s[0] >= 128 {
      ReadUintBounded(s[1..], i + 1);
    } else if i < 9 {
      PowPositive(8 - i);
    }
  }

  lemma {:induction false} PowPositive(n: nat)
    ensures Pow128(n) >= 1
  {
    if n > 0 {
      PowPositive(n - 1);
    }
  }

  // ----- signed 64-bit integers

  function ToLE(u: nat, n: nat): (s: Str)
    ensures |s| == n
  {
    if n == 0 then [] else [u % 256] + ToLE(u / 256, n - 1)
  }

  function FromLE(s: Str): nat {
    if s == [] then 0 else s[0] + 256 * FromLE(s[1..])
  }

  function Pow256(n: nat): nat {
    if n == 0 then 1 else 256 * Pow256(n - 1)
  }

  lemma {:induction false} LittleEndian(u: nat, n: nat)
    requires u < Pow256(n)
    ensures FromLE(ToLE(u, n)) == u
  {
    if n > 0 {
      LittleEndian(u / 256, n - 1);
      assert ToLE(u, n)[1..] == ToLE(u / 256, n - 1);
    }
  }

  lemma Pow256Of8()
    ensures Pow256(8) == TWO_64
  {
    assert Pow256(4) == 4294967296;
    assert Pow256(8) == 4294967296 * Pow256(4);
  }

  lemma {:induction false} FromLEBounded(s: Str)
    ensures FromLE(s) < Pow256(|s|)
  {
    if s != [] {
      FromLEBounded(s[1..]);
    }
  }

  function WriteI64(v: int64): Str {
    ToLE(if v < 0 then v + TWO_64 else v, 8)
  }

  function Signed(u: nat): int {
    if u < TWO_63 then u else u - TWO_64
  }

  function ReadI64(s: Str): (r: Option<(int, Str)>)
    ensures r.Some? ==> -TWO_63 <= r.value.0 < TWO_63
  {
    if |s| < 8 then None
    else
      assert FromLE(s[..8]) < TWO_64 by {
        FromLEBounded(s[..8]);
        Pow256Of8();
      }
      Some((Signed(FromLE(s[..8])), s[8..]))
  }

  /** The number of 32 bits with these bytes, the lowest first. */
  function Four(a: nat, b: nat, c: nat, d: nat): nat {
    a + 0x100 * b + 0x1_0000 * c + 0x100_0000 * d
  }

  lemma FromLEFour(s: Str)
    requires |s| >= 4
    ensures FromLE(s) == Four(s[0], s[1], s[2], s[3]) + 0x1_0000_0000 * FromLE(s[4..])
  {
    assert s[1..][1..] == s[2..] && s[2..][1..] == s[3..] && s[3..][1..] == s[4..];
  }

  /** Eight bytes, the lowest first, spell the number modulo 2^64. */
  lemma WriteI64Exactly(v: int64)
    ensures var e := WriteI64(v);
            Spells64(e, v)
  {
    var e := WriteI64(v);
    Pow256Of8();
    LittleEndian(if v < 0 then v + TWO_64 else v, 8);
    FromLEFour(e);
    FromLEFour(e[4..]);
    assert e[4..][4..] == [];
  }

  /** Eight bytes that spell a number: two's complement, the lowest byte first. */
  predicate Spells64(e: Str, x: int64) {
    && |e| == 8
    && Four(e[0], e[1], e[2], e[3]) + 0x1_0000_0000 * Four(e[4], e[5], e[6], e[7])
       == if x < 0 then x + 0x1_0000_0000_0000_0000 else x
  }

  lemma ReadI64Spells(s: Str, x: int64, rest: Str)
    ensures ReadI64(s) == Some((x as int, rest)) <==> exists e: Str :: Spells64(e, x) && s == e + rest
  {
    if |s| >= 8 {
      var e := s[..8];
      FromLEFour(e);
      FromLEFour(e[4..]);
      assert e[4..][4..] == [];
      FromLEBounded(e);
      Pow256Of8();
      assert ReadI64(s).value.0 == x <==> Spells64(e, x);
      assert s == e + s[8..];
      forall e': Str | |e'| == 8 && s == e' + rest
        ensures e' == e && rest == s[8..]
      {
        assert (e' + rest)[..8] == e' && (e' + rest)[8..] == rest;
      }
    }
  }

  lemma I64RoundTrip(v: int64, rest: Str)
    ensures ReadI64(WriteI64(v) + rest) == Some((v as int, rest))
  {
    Pow256Of8();
    LittleEndian(if v < 0 then v + TWO_64 else v, 8);
    assert (WriteI64(v) + rest)[..8] == WriteI64(v);
    assert (WriteI64(v) + rest)[8..] == rest;
  }

  // ----- strings

  predicate Continues(s: Str, from: nat, n: nat) {
    from + n <= |s| && forall i :: from <= i < from + n ==> 0x80 <= s[i] < 0xc0
  }

  /** The number of bytes of the well-formed UTF-8 sequence at the head, 0 if there is none. */
  function RuneLength(s: Str): (n: nat)
    ensures n <= |s|
  {
    if s == [] then 0
    else if s[0] < 0x80 then 1
    else if 0xc2 <= s[0] <= 0xdf && Continues(s, 1, 1) then 2
    else if 0xe0 <= s[0] <= 0xef && Continues(s, 1, 2)
            && (s[0] == 0xe0 ==> s[1] >= 0xa0) && (s[0] == 0xed ==> s[1] < 0xa0) then 3
    else if 0xf0 <= s[0] <= 0xf4 && Continues(s, 1, 3)
            && (s[0] == 0xf0 ==> s[1] >= 0x90) && (s[0] == 0xf4 ==> s[1] < 0x90) then 4
    else 0
  }

  predicate ValidUtf8(s: Str) {
    s == [] || (RuneLength(s) > 0 && ValidUtf8(s[RuneLength(s)..]))
  }

  function WriteString(s: Str): Str {
    WriteUint(|s|) + s
  }

  /** The next `n` bytes as a string. */
  function Take(s: Str, n: nat): Option<(Str, Str)> {
    if n > |s| || !ValidUtf8(s[..n]) then None else Some((s[..n], s[n..]))
  }

  function ReadString(s: Str): Option<(Str, Str)> {
    var r := ReadUint(s);
    if r.None? then None else Take(r.value.1, r.value.0)
  }

  lemma TakeExactly(s: Str, rest: Str)
    ensures Take(s + rest, |s|) == if ValidUtf8(s) then Some((s, rest)) else None
  {
    assert (s + rest)[..|s|] == s && (s + rest)[|s|..] == rest;
  }

  /** A written string is read back exactly when it is valid UTF-8. */
  lemma StringRoundTrip(s: Str, rest: Str)
    requires |s| < TWO_64
    ensures ReadString(WriteString(s) + rest) == if ValidUtf8(s) then Some((s, rest)) else None
  {
    Associative(WriteUint(|s|), s, rest);
    UintRoundTrip(|s|, s + rest);
    TakeExactly(s, rest);
  }

  /** A string is read exactly where a number is followed by as many bytes, and these are valid UTF-8. */
  lemma ReadStringExactly(s: Str, v: Str, rest: Str)
    ensures ReadString(s) == Some((v, rest)) <==> ValidUtf8(v) && ReadUint(s) == Some((|v|, v + rest))
  {
    var r := ReadUint(s);
    if r.Some? && r.value.0 <= |r.value.1| {
      var n, t := r.value.0, r.value.1;
      assert t == t[..n] + t[n..];
      if t == v + rest && n == |v| {
        assert t[..n] == v && t[n..] == rest;
      }
    }
  }

  lemma ReadStringSpells(s: Str, v: Str, rest: Str)
    ensures ReadString(s) == Some((v, rest)) <==>
              ValidUtf8(v) && exists p: Str :: Spells(p, |v|) && s == p + (v + rest)
  {
    ReadStringExactly(s, v, rest);
    ReadUintSpells(s, |v|, v + rest);
  }

  // ----- UTF-8

  /** Unicode scalar values: section 3 of RFC 3629. */
  type rune = r: int | 0 <= r < 0x11_0000 && !(0xd800 <= r < 0xe000)

  /** The table of section 3 of RFC 3629. */
  function RuneBytes(r: rune): (s: Str)
    ensures 1 <= |s| <= 4
  {
    if r < 0x80 then [r]
    else if r < 0x800 then [0xc0 + r / 64, 0x80 + r % 64]
    else if r < 0x1_0000 then [0xe0 + r / 64 / 64, 0x80 + r / 64 % 64, 0x80 + r % 64]
    else [0xf0 + r / 64 / 64 / 64, 0x80 + r / 64 / 64 % 64, 0x80 + r / 64 % 64, 0x80 + r % 64]
  }

  function Utf8(runes: seq<rune>): Str {
    if runes == [] then [] else RuneBytes(runes[0]) + Utf8(runes[1..])
  }

  lemma RuneMeasured(r: rune, rest: Str)
    ensures RuneLength(RuneBytes(r) + rest) == |RuneBytes(r)|
  {
    var s := RuneBytes(r) + rest;
    assert forall i :: 0 <= i < |RuneBytes(r)| ==> s[i] == RuneBytes(r)[i];
  }

  /** `low` as six more bits. */
  function Joined(high: nat, low: nat): (r: nat)
    ensures low < 64 ==> r / 64 == high && r % 64 == low
  {
    64 * high + low
  }

  lemma RuneRead(s: Str) returns (r: rune)
    requires RuneLength(s) > 0
    ensures RuneBytes(r) == s[..RuneLength(s)]
  {
    var n := RuneLength(s);
    if n == 1 {
      r := s[0];
    } else if n == 2 {
      r := Joined(s[0] - 0xc0, s[1] - 0x80);
    } else if n == 3 {
      r := Joined(Joined(s[0] - 0xe0, s[1] - 0x80), s[2] - 0x80);
    } else {
      r := Joined(Joined(Joined(s[0] - 0xf0, s[1] - 0x80), s[2] - 0x80), s[3] - 0x80);
    }
  }

  lemma {:induction false} Utf8IsValid(runes: seq<rune>)
    ensures ValidUtf8(Utf8(runes))
  {
    if runes != [] {
      var head, rest := RuneBytes(runes[0]), Utf8(runes[1..]);
      RuneMeasured(runes[0], rest);
      assert (head + rest)[|head|..] == rest;
      Utf8IsValid(runes[1..]);
    }
  }

  lemma {:induction false} ValidIsUtf8(s: Str) returns (runes: seq<rune>)
    requires ValidUtf8(s)
    ensures Utf8(runes) == s
  {
    runes := [];
    if s != [] {
      var r := RuneRead(s);
      var rest := ValidIsUtf8(s[RuneLength(s)..]);
      runes := [r] + rest;
      assert s == s[..RuneLength(s)] + s[RuneLength(s)..];
    }
  }

  /** The byte checks accept exactly the encodings of lists of Unicode scalar values. */
  lemma ValidUtf8Exactly(s: Str)
    ensures ValidUtf8(s) <==> exists runes: seq<rune> :: Utf8(runes) == s
  {
    if ValidUtf8(s) {
      var _ := ValidIsUtf8(s);
    }
    if runes: seq<rune> :| Utf8(runes) == s {
      Utf8IsValid(runes);
    }
  }
}
