/** Column names as SQL text: `pq.QuoteIdentifier` and `WithAlias` of database/ql.go. */
module Quoting {
  import opened Bytes

  const NUL: byte := 0
  const QUOTE: byte := 0x22
  const DOT: byte := 0x2e

  /** The name up to its first NUL byte. */
  function Truncate(s: Str): Str {
    if s == [] || s[0] == NUL then [] else [s[0]] + Truncate(s[1..])
  }

  /** Doubles every quotation mark. */
  function Escape(s: Str): Str {
    if s == [] then []
    else if s[0] == QUOTE then [QUOTE, QUOTE] + Escape(s[1..])
    else [s[0]] + Escape(s[1..])
  }

  function QuoteIdentifier(name: Str): Str {
    [QUOTE] + Escape(Truncate(name)) + [QUOTE]
  }

  function WithAlias(alias: Str, col: Str): Str {
    if alias != [] then QuoteIdentifier(alias) + [DOT] + QuoteIdentifier(col)
    else QuoteIdentifier(col)
  }

  // ----- reading quoted names back

  /** Reads a quoted identifier's text after the opening quotation mark, up to the closing one. */
  function ReadBody(s: Str): (r: Option<(Str, Str)>)
    ensures r.Some? ==> |r.value.1| < |s|
  {
    if s == [] then None
    else if s[0] != QUOTE then
      var r := ReadBody(s[1..]);
      if r.None? then None else Some(([s[0]] + r.value.0, r.value.1))
    else if |s| > 1 && s[1] == QUOTE then
      var r := ReadBody(s[2..]);
      if r.None? then None else Some(([QUOTE] + r.value.0, r.value.1))
    else Some(([], s[1..]))
  }

  /** Reads `"name"` at the head of the text, by SQL's rule for quoted identifiers. */
  function ReadIdentifier(s: Str): Option<(Str, Str)> {
    if s == [] || s[0] != QUOTE then None else ReadBody(s[1..])
  }

  lemma {:induction false} ReadBodyEscape(s: Str, rest: Str)
    requires rest == [] || rest[0] != QUOTE
    ensures ReadBody(Escape(s) + [QUOTE] + rest) == Some((s, rest))
  {
    var t := Escape(s) + [QUOTE] + rest;
    if s == [] {
      assert t == [QUOTE] + rest;
    } else {
      ReadBodyEscape(s[1..], rest);
      var u := Escape(s[1..]) + [QUOTE] + rest;
      assert s == [s[0]] + s[1..];
      if s[0] == QUOTE {
        assert t == [QUOTE, QUOTE] + u;
        assert t[2..] == u;
      } else {
        assert t == [s[0]] + u;
        assert t[1..] == u;
      }
    }
  }

  lemma ReadQuoted(name: Str, rest: Str)
    requires rest == [] || rest[0] != QUOTE
    ensures ReadIdentifier(QuoteIdentifier(name) + rest) == Some((Truncate(name), rest))
  {
    var e := Escape(Truncate(name));
    assert (QuoteIdentifier(name) + rest)[1..] == e + [QUOTE] + rest;
    ReadBodyEscape(Truncate(name), rest);
  }

  /** Reads a column, qualified or not, that is the whole text. */
  function ReadColumn(s: Str): Option<(Option<Str>, Str)> {
    var first := ReadIdentifier(s);
    if first.None? then None
    else if first.value.1 == [] then Some((None, first.value.0))
    else if first.value.1[0] != DOT then None
    else
      var second := ReadIdentifier(first.value.1[1..]);
      if second.None? || second.value.1 != [] then None
      else Some((Some(first.value.0), second.value.0))
  }

  lemma ReadFirst(a: Str, c: Str)
    ensures ReadIdentifier(WithAlias(a, c))
         == if a == [] then Some((Truncate(c), [])) else Some((Truncate(a), [DOT] + QuoteIdentifier(c)))
  {
    if a == [] {
      ReadQuoted(c, []);
      assert QuoteIdentifier(c) + [] == QuoteIdentifier(c);
    } else {
      ReadQuoted(a, [DOT] + QuoteIdentifier(c));
      assert QuoteIdentifier(a) + [DOT] + QuoteIdentifier(c) == QuoteIdentifier(a) + ([DOT] + QuoteIdentifier(c));
    }
  }

  /**
   * SQL reads an aliased column as that column of that alias, whatever bytes the names hold, up to
   * what `QuoteIdentifier` cuts off at a NUL byte.
   */
  lemma ReadWithAlias(alias: Str, col: Str)
    ensures ReadColumn(WithAlias(alias, col))
         == Some((if alias == [] then None else Some(Truncate(alias)), Truncate(col)))
  {
    ReadFirst(alias, col);
    if alias != [] {
      assert ([DOT] + QuoteIdentifier(col))[1..] == QuoteIdentifier(col);
      ReadQuoted(col, []);
      assert QuoteIdentifier(col) + [] == QuoteIdentifier(col);
    }
  }

  /** What is cut off begins with the first NUL byte. */
  lemma {:induction false} TruncateExactly(s: Str)
    ensures Truncate(s) <= s && 0 !in Truncate(s)
    ensures Truncate(s) == s || s[|Truncate(s)|] == 0
  {
    if s != [] && s[0] != NUL {
      TruncateExactly(s[1..]);
      assert s == [s[0]] + s[1..];
    }
  }

  lemma {:induction false} PlainName(s: Str)
    requires 0 !in s && 0x22 !in s
    ensures QuoteIdentifier(s) == [0x22] + s + [0x22]
  {
    if s != [] {
      assert s[0] in s;
      PlainName(s[1..]);
      assert s == [s[0]] + s[1..];
      assert Escape(Truncate(s[1..])) == QuoteIdentifier(s[1..])[1..|s|];
    }
  }

  /** Names without quotation mark and NUL: each in quotation marks, a full stop between. */
  lemma PlainWithAlias(alias: Str, col: Str)
    requires 0 !in alias + col && 0x22 !in alias + col
    ensures WithAlias(alias, col)
         == if alias == [] then [0x22] + col + [0x22] else [0x22] + alias + [0x22, 0x2e, 0x22] + col + [0x22]
  {
    assert forall b :: b in alias || b in col ==> b in alias + col;
    PlainName(alias);
    PlainName(col);
  }

  /** So `WithAlias` is injective up to NUL bytes. */
  lemma WithAliasInjective(a: Str, c: Str, b: Str, d: Str)
    requires WithAlias(a, c) == WithAlias(b, d)
    ensures a == [] <==> b == []
    ensures Truncate(a) == Truncate(b) && Truncate(c) == Truncate(d)
  {
    ReadWithAlias(a, c);
    ReadWithAlias(b, d);
  }

  // ----- the order of quoted names

  /** `s` goes on after `p` with a byte that sorts before the closing quotation mark. */
  predicate ExtendsLow(p: Str, s: Str) {
    p < s && s[|p|] < QUOTE
  }

  lemma {:induction false} EscapeOrder(a: Str, b: Str)
    requires Leq(a, b)
    ensures Leq(Escape(a) + [QUOTE], Escape(b) + [QUOTE]) <==> !ExtendsLow(a, b)
  {
    var s, t := Escape(a) + [QUOTE], Escape(b) + [QUOTE];
    if a == [] {
      assert s == [QUOTE];
      assert b != [] ==> t[0] == b[0];
    } else if a[0] != b[0] {
      assert s[0] == a[0] && t[0] == b[0];
    } else {
      EscapeOrder(a[1..], b[1..]);
      var head := if a[0] == QUOTE then [QUOTE, QUOTE] else [a[0]];
      assert s == head + (Escape(a[1..]) + [QUOTE]);
      assert t == head + (Escape(b[1..]) + [QUOTE]);
      LeqCommonPrefix(head, Escape(a[1..]) + [QUOTE], Escape(b[1..]) + [QUOTE]);
      assert a == [a[0]] + a[1..] && b == [b[0]] + b[1..];
      assert a < b <==> a[1..] < b[1..];
    }
  }

  lemma {:induction false} TruncateOrder(a: Str, b: Str)
    requires Leq(a, b)
    ensures Leq(Truncate(a), Truncate(b))
  {
    if a != [] && a[0] != NUL && a[0] == b[0] {
      TruncateOrder(a[1..], b[1..]);
    }
  }

  /** The text in front of the column's escaped name. */
  function AliasHead(alias: Str): Str {
    if alias == [] then [QUOTE] else QuoteIdentifier(alias) + [DOT] + [QUOTE]
  }

  lemma WithAliasShape(alias: Str, col: Str)
    ensures WithAlias(alias, col) == AliasHead(alias) + (Escape(Truncate(col)) + [QUOTE])
  {
    var e := Escape(Truncate(col));
    Associative([QUOTE], e, [QUOTE]);
    if alias != [] {
      Associative(QuoteIdentifier(alias) + [DOT], [QUOTE], e + [QUOTE]);
    }
  }

  /** Quoting and aliasing keep the order of two names exactly when neither extends the other by a low byte. */
  lemma WithAliasOrder(alias: Str, a: Str, b: Str)
    requires Leq(a, b)
    ensures Leq(WithAlias(alias, a), WithAlias(alias, b)) <==> !ExtendsLow(Truncate(a), Truncate(b))
  {
    TruncateOrder(a, b);
    EscapeOrder(Truncate(a), Truncate(b));
    WithAliasShape(alias, a);
    WithAliasShape(alias, b);
    LeqCommonPrefix(AliasHead(alias), Escape(Truncate(a)) + [QUOTE], Escape(Truncate(b)) + [QUOTE]);
  }

  /** A name that extends another by a low byte sorts strictly after it. */
  lemma {:induction false} ExtendsLowAfter(a: Str, b: Str)
    requires ExtendsLow(Truncate(a), Truncate(b))
    ensures Less(a, b)
  {
    if a != [] && a[0] != NUL {
      var p, s := Truncate(a), Truncate(b);
      assert p[0] == a[0] == s[0] == b[0];
      assert p[1..] == Truncate(a[1..]) && s[1..] == Truncate(b[1..]);
      ExtendsLowAfter(a[1..], b[1..]);
    }
  }

  lemma {:induction false} TruncateBytes(s: Str)
    ensures forall i :: 0 <= i < |Truncate(s)| ==> Truncate(s)[i] in s
  {
    if s != [] && s[0] != NUL {
      TruncateBytes(s[1..]);
    }
  }
}
