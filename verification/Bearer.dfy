/** OAuth 2.0 bearer tokens: `Encode` and `DecodeBearerToken` of auth/bearer.go. */
module Bearer {
  import opened Bytes
  import opened Bare
  import Base64

  const TOKEN_VERSION := 0

  /** Seconds from the first instant of Go's calendar to the Unix epoch. */
  const UNIX_TO_INTERNAL := 62135596800

  datatype BearerToken = BearerToken(version: uint64, expires: int64, grants: Str, clientID: Str, username: Str)

  /** Go strings are shorter than 2^63 bytes. */
  predicate GoString(s: Str) {
    |s| < TWO_63
  }

  predicate GoToken(bt: BearerToken) {
    GoString(bt.grants) && GoString(bt.clientID) && GoString(bt.username)
  }

  /** The code authenticator; its only known property is the length of the result. */
  type Digest = d: Str | |d| == 32 witness seq(32, _ => 0)

  type Mac = Str -> Digest

  // ----- time

  /** A point in time as Go compares it: seconds of its own calendar, and nanoseconds. */
  datatype Instant = Instant(sec: int, nsec: nat)

  function Wrap64(x: int): int {
    (x + TWO_63) % TWO_64 - TWO_63
  }

  /** `Timestamp.Time`: the shift to Go's calendar wraps around at 64 bits. */
  function TimeOf(t: int): Instant {
    Instant(Wrap64(t + UNIX_TO_INTERNAL), 0)
  }

  predicate After(a: Instant, b: Instant) {
    a.sec > b.sec || (a.sec == b.sec && a.nsec > b.nsec)
  }

  /** The instant `nsec` nanoseconds after second `unix` of the Unix era. */
  function UnixInstant(unix: int, nsec: nat): Instant {
    Instant(unix + UNIX_TO_INTERNAL, nsec)
  }

  /** A clock reading after the year 1, where Go's calendar starts, and before the end of that calendar. */
  predicate Plausible(unix: int, nsec: nat) {
    0 <= unix + UNIX_TO_INTERNAL < TWO_63 && nsec < 1_000_000_000
  }

  /** A token has expired once its second is over the top, or when its expiry lies beyond Go's calendar. */
  lemma ExpiredExactly(t: int64, unix: int, nsec: nat)
    requires Plausible(unix, nsec)
    ensures After(UnixInstant(unix, nsec), TimeOf(t)) <==>
              t + UNIX_TO_INTERNAL >= TWO_63 || unix > t || (unix == t && nsec > 0)
  {
    var x := t + UNIX_TO_INTERNAL;
    if x >= TWO_63 {
      assert Wrap64(x) == x - TWO_64;
    } else {
      assert Wrap64(x) == x;
    }
  }

  /** The last second of 64-bit Unix time counts as passed in 1970. */
  lemma FarExpiryHasPassed()
    ensures After(UnixInstant(0, 0), TimeOf(0x7fff_ffff_ffff_ffff))
  {
    ExpiredExactly(0x7fff_ffff_ffff_ffff, 0, 0);
  }

  // ----- serialization

  function Marshal(bt: BearerToken): Str {
    WriteUint(bt.version) + (WriteI64(bt.expires)
    + (WriteString(bt.grants) + (WriteString(bt.clientID) + WriteString(bt.username))))
  }

  /** Bytes after the last field are not looked at. */
  function Unmarshal(s: Str): Option<BearerToken> {
    var v := ReadUint(s);
    if v.None? then None else
      var e := ReadI64(v.value.1);
      if e.None? then None else
        var g := ReadString(e.value.1);
        if g.None? then None else
          var c := ReadString(g.value.1);
          if c.None? then None else
            var u := ReadString(c.value.1);
            if u.None? then None
            else Some(BearerToken(v.value.0, e.value.0, g.value.0, c.value.0, u.value.0))
  }

  predicate Utf8Token(bt: BearerToken) {
    ValidUtf8(bt.grants) && ValidUtf8(bt.clientID) && ValidUtf8(bt.username)
  }

  lemma AsciiIsUtf8(c: byte)
    requires c < 0x80
    ensures ValidUtf8([c]) && ValidUtf8([])
  {
    assert [c][1..] == [];
  }

  /** A number in the bytes that BARE prescribes: the shortest that spell it, below 128 the number itself. */
  predicate IsNumber(s: Str, x: nat) {
    && Terminated(s) && Value128(s) == x
    && (|s| > 1 ==> s[|s| - 1] > 0)
    && (x < 128 ==> s == [x])
  }

  lemma NumberWritten(x: nat)
    ensures IsNumber(WriteUint(x), x)
  {
    WriteUintExactly(x);
  }

  /** Fields one after the other, however the concatenations are nested. */
  lemma Flattened(v: Str, e: Str, a: Str, b: Str, c: Str, d: Str, g: Str, h: Str)
    ensures v + (e + ((a + b) + ((c + d) + (g + h)))) == v + e + a + b + c + d + g + h
  {
    Associative(a, b, (c + d) + (g + h));
    Associative(c, d, g + h);
    Associative(v, e, a + (b + (c + (d + (g + h)))));
    Associative(v + e, a, b + (c + (d + (g + h))));
    Associative(v + e + a, b, c + (d + (g + h)));
    Associative(v + e + a + b, c, d + (g + h));
    Associative(v + e + a + b + c, d, g + h);
    Associative(v + e + a + b + c + d, g, h);
  }

  /** A token on the wire: version, expiry, and with its length in front of each: grants, client, user name. */
  lemma MarshalLayout(bt: BearerToken) returns (v: Str, e: Str, g: Str, c: Str, u: Str)
    ensures Marshal(bt) == v + e + g + bt.grants + c + bt.clientID + u + bt.username
    ensures IsNumber(v, bt.version) && Spells64(e, bt.expires)
    ensures IsNumber(g, |bt.grants|) && IsNumber(c, |bt.clientID|) && IsNumber(u, |bt.username|)
  {
    v, e := WriteUint(bt.version), WriteI64(bt.expires);
    g, c, u := WriteUint(|bt.grants|), WriteUint(|bt.clientID|), WriteUint(|bt.username|);
    NumberWritten(bt.version);
    WriteI64Exactly(bt.expires);
    NumberWritten(|bt.grants|);
    NumberWritten(|bt.clientID|);
    NumberWritten(|bt.username|);
    Flattened(v, e, g, bt.grants, c, bt.clientID, u, bt.username);
  }

  lemma Nested(a: Str, b: Str, c: Str, d: Str, e: Str, f: Str)
    ensures a + (b + (c + (d + e))) + f == a + (b + (c + (d + (e + f))))
  {
    Associative(d, e, f);
    Associative(c, d + e, f);
    Associative(b, c + (d + e), f);
    Associative(a, b + (c + (d + e)), f);
  }

  /** A serialized token is read back exactly when its strings are valid UTF-8, whatever follows it. */
  lemma MarshalRoundTrip(bt: BearerToken, more: Str)
    requires GoToken(bt)
    ensures Unmarshal(Marshal(bt) + more) == if Utf8Token(bt) then Some(bt) else None
  {
    var s3 := WriteString(bt.username) + more;
    var s2 := WriteString(bt.clientID) + s3;
    var s1 := WriteString(bt.grants) + s2;
    UintRoundTrip(bt.version, WriteI64(bt.expires) + s1);
    I64RoundTrip(bt.expires, s1);
    StringRoundTrip(bt.grants, s2);
    StringRoundTrip(bt.clientID, s3);
    StringRoundTrip(bt.username, more);
    Nested(WriteUint(bt.version), WriteI64(bt.expires), WriteString(bt.grants), WriteString(bt.clientID),
           WriteString(bt.username), more);
  }

  /** A text is a token's wire form, and then more: the numbers need not be the shortest that spell them. */
  ghost predicate ReadsAs(s: Str, bt: BearerToken, v: Str, e: Str, g: Str, c: Str, u: Str, more: Str) {
    && s == v + (e + (g + (bt.grants + (c + (bt.clientID + (u + (bt.username + more)))))))
    && Spells(v, bt.version) && Spells64(e, bt.expires)
    && Spells(g, |bt.grants|) && Spells(c, |bt.clientID|) && Spells(u, |bt.username|)
    && Utf8Token(bt)
  }

  lemma UnmarshalReads(s: Str, bt: BearerToken) returns (v: Str, e: Str, g: Str, c: Str, u: Str, more: Str)
    requires Unmarshal(s) == Some(bt)
    ensures ReadsAs(s, bt, v, e, g, c, u, more)
  {
    var s1 := ReadUint(s).value.1;
    var s2 := ReadI64(s1).value.1;
    var s3 := ReadString(s2).value.1;
    var s4 := ReadString(s3).value.1;
    more := ReadString(s4).value.1;
    ReadUintSpells(s, bt.version, s1);
    ReadI64Spells(s1, bt.expires, s2);
    ReadStringSpells(s2, bt.grants, s3);
    ReadStringSpells(s3, bt.clientID, s4);
    ReadStringSpells(s4, bt.username, more);
    v :| Spells(v, bt.version) && s == v + s1;
    e :| Spells64(e, bt.expires) && s1 == e + s2;
    g :| Spells(g, |bt.grants|) && s2 == g + (bt.grants + s3);
    c :| Spells(c, |bt.clientID|) && s3 == c + (bt.clientID + s4);
    u :| Spells(u, |bt.username|) && s4 == u + (bt.username + more);
  }

  lemma ReadsUnmarshal(s: Str, bt: BearerToken, v: Str, e: Str, g: Str, c: Str, u: Str, more: Str)
    requires ReadsAs(s, bt, v, e, g, c, u, more)
    ensures Unmarshal(s) == Some(bt)
  {
    var s4 := u + (bt.username + more);
    var s3 := c + (bt.clientID + s4);
    var s2 := g + (bt.grants + s3);
    var s1 := e + s2;
    ReadUintSpells(s, bt.version, s1);
    ReadI64Spells(s1, bt.expires, s2);
    ReadStringSpells(s2, bt.grants, s3);
    ReadStringSpells(s3, bt.clientID, s4);
    ReadStringSpells(s4, bt.username, more);
  }

  /** Exactly which bytes are read as a token, and as which one. */
  lemma UnmarshalExactly(s: Str, bt: BearerToken)
    ensures Unmarshal(s) == Some(bt) <==>
              exists v: Str, e: Str, g: Str, c: Str, u: Str, more: Str :: ReadsAs(s, bt, v, e, g, c, u, more)
  {
    if Unmarshal(s) == Some(bt) {
      var v, e, g, c, u, more := UnmarshalReads(s, bt);
    }
    if v: Str, e: Str, g: Str, c: Str, u: Str, more: Str :| ReadsAs(s, bt, v, e, g, c, u, more) {
      ReadsUnmarshal(s, bt, v, e, g, c, u, more);
    }
  }

  lemma MarshalLength(bt: BearerToken)
    ensures |Marshal(bt)| >= 12
  {
  }

  // ----- tokens

  function Encode(mac: Mac, bt: BearerToken): Str {
    Base64.RawEncode(Marshal(bt) + mac(Marshal(bt)))
  }

  function Decode(mac: Mac, now: Instant, token: Str): Option<BearerToken> {
    var payload := Base64.RawDecode(token);
    if payload.None? || |payload.value| <= 32 then None else
      var n := |payload.value| - 32;
      var body, code := payload.value[..n], payload.value[n..];
      if mac(body) != code then None else
        var bt := Unmarshal(body);
        if bt.None? || bt.value.version != TOKEN_VERSION || After(now, TimeOf(bt.value.expires)) then None
        else bt
  }

  /** Decoding an encoded token gives that token, or nothing, and which of the two for every token. */
  lemma TokenRoundTrip(mac: Mac, now: Instant, bt: BearerToken)
    requires GoToken(bt)
    ensures Decode(mac, now, Encode(mac, bt))
         == if bt.version == 0 && Utf8Token(bt) && !After(now, TimeOf(bt.expires)) then Some(bt) else None
  {
    var body := Marshal(bt);
    var payload := body + mac(body);
    Base64.RawRoundTrip(payload);
    MarshalLength(bt);
    assert payload[..|payload| - 32] == body && payload[|payload| - 32..] == mac(body);
    assert body + [] == body;
    MarshalRoundTrip(bt, []);
  }

  /** The bytes of a token: its serialization, and behind that the serialization's authenticator. */
  lemma TokenBytes(mac: Mac, bt: BearerToken)
    ensures Base64.RawDecode(Encode(mac, bt)) == Some(Marshal(bt) + mac(Marshal(bt)))
  {
    Base64.RawRoundTrip(Marshal(bt) + mac(Marshal(bt)));
  }

  /** No two tokens share an encoding. */
  lemma EncodeInjective(mac: Mac, a: BearerToken, b: BearerToken)
    requires GoToken(a) && GoToken(b) && Utf8Token(a) && Utf8Token(b)
    requires Encode(mac, a) == Encode(mac, b)
    ensures a == b
  {
    var p, q := Marshal(a) + mac(Marshal(a)), Marshal(b) + mac(Marshal(b));
    Base64.RawRoundTrip(p);
    Base64.RawRoundTrip(q);
    assert Marshal(a) == p[..|p| - 32] == q[..|q| - 32] == Marshal(b);
    assert Marshal(a) + [] == Marshal(a);
    MarshalRoundTrip(a, []);
    MarshalRoundTrip(b, []);
  }

  /** A token is accepted only for a body that carries its own authenticator, and then says what the body says. */
  lemma AcceptedExactly(mac: Mac, now: Instant, token: Str, bt: BearerToken)
    ensures Decode(mac, now, token) == Some(bt) <==>
              exists body: Str ::
                && Base64.RawDecode(token) == Some(body + mac(body))
                && body != []
                && Unmarshal(body) == Some(bt)
                && bt.version == 0
                && !After(now, TimeOf(bt.expires))
  {
    var payload := Base64.RawDecode(token);
    if Decode(mac, now, token) == Some(bt) {
      var n := |payload.value| - 32;
      assert payload.value == payload.value[..n] + payload.value[n..];
    }
    if body: Str :|
      && payload == Some(body + mac(body))
      && body != []
      && Unmarshal(body) == Some(bt)
      && bt.version == TOKEN_VERSION
      && !After(now, TimeOf(bt.expires))
    {
      var all := body + mac(body);
      assert all[..|all| - 32] == body && all[|all| - 32..] == mac(body);
    }
  }

  // ----- the two kinds of bearer

  predicate OAuth2Char(c: byte) {
    48 <= c <= 57 || 97 <= c <= 122 || 65 <= c <= 90 || c == 95 || c == 43 || c == 47
  }

  predicate HexChar(c: byte) {
    48 <= c <= 57 || 97 <= c <= 102
  }

  /** `^[0-9a-zA-Z_+/]{33,}$` */
  predicate MatchesOAuth2(s: Str) {
    |s| >= 33 && forall i :: 0 <= i < |s| ==> OAuth2Char(s[i])
  }

  /** `^[0-9a-f]{32}$` */
  predicate MatchesLegacy(s: Str) {
    |s| == 32 && forall i :: 0 <= i < |s| ==> HexChar(s[i])
  }

  const LOWER := "abcdefghijklmnopqrstuvwxyz"
  const UPPER := "ABCDEFGHIJKLMNOPQRSTUVWXYZ"
  const DECIMAL := "0123456789"

  /** The two patterns, with their characters spelled out. */
  lemma PatternsExactly(s: Str)
    ensures MatchesOAuth2(s) <==>
              |s| >= 33 && forall i :: 0 <= i < |s| ==> s[i] as char in DECIMAL + LOWER + UPPER + "_+/"
    ensures MatchesLegacy(s) <==>
              |s| == 32 && forall i :: 0 <= i < |s| ==> s[i] as char in DECIMAL + "abcdef"
  {
    forall c: byte
      ensures OAuth2Char(c) <==> c as char in DECIMAL + LOWER + UPPER + "_+/"
      ensures HexChar(c) <==> c as char in DECIMAL + "abcdef"
    {
      CharacterClasses(c);
    }
  }

  lemma InDecimal(c: byte)
    ensures c as char in DECIMAL <==> 48 <= c <= 57
  {
    assert forall v: nat :: v < 10 ==> DECIMAL[v] == (48 + v) as char;
    assert 48 <= c <= 57 ==> DECIMAL[c - 48] == c as char;
  }

  lemma InLower(c: byte)
    ensures c as char in LOWER <==> 97 <= c <= 122
  {
    assert forall v: nat :: v < 26 ==> LOWER[v] == (97 + v) as char;
    assert 97 <= c <= 122 ==> LOWER[c - 97] == c as char;
  }

  lemma InUpper(c: byte)
    ensures c as char in UPPER <==> 65 <= c <= 90
  {
    assert forall v: nat :: v < 26 ==> UPPER[v] == (65 + v) as char;
    assert 65 <= c <= 90 ==> UPPER[c - 65] == c as char;
  }

  lemma CharacterClasses(c: byte)
    ensures OAuth2Char(c) <==> c as char in DECIMAL + LOWER + UPPER + "_+/"
    ensures HexChar(c) <==> c as char in DECIMAL + "abcdef"
  {
    InDecimal(c);
    InLower(c);
    InUpper(c);
    assert c as char in "_+/" <==> c == 95 || c == 43 || c == 47;
    assert c as char in "abcdef" <==> 97 <= c <= 102;
  }

  /** Every encoded token is at least 59 digits long, and takes the OAuth 2.0 branch only. */
  lemma EncodedTokenIsOAuth2(mac: Mac, bt: BearerToken)
    ensures var n := |Marshal(bt)| + 32; n >= 44 && |Encode(mac, bt)| == (4 * n + 2) / 3
    ensures |Encode(mac, bt)| >= 59
    ensures MatchesOAuth2(Encode(mac, bt)) && !MatchesLegacy(Encode(mac, bt))
  {
    MarshalLength(bt);
    Base64.RawEncodeDigits(Marshal(bt) + mac(Marshal(bt)));
  }
}
