/** The grant language of auth/bearer.go: `DecodeGrants`, `Grants.Has`, `Grants.Encode`. */
module Grants {
  import opened Bytes
  import opened Text

  const SPACE: byte := 32
  const SLASH: byte := 47
  const COLON: byte := 58

  const RO: Str := [82, 79]
  const RW: Str := [82, 87]

  datatype Grants = Grants(readOnly: bool, all: bool, grants: map<Str, Str>, encoded: Str)

  /** One grant as the decoder reads it. */
  datatype Grant = Grant(service: Str, scope: Str, access: Str)

  // ----- the code, on values

  /** One piece of a grant string; None where the decoder panics. */
  function ParseGrant(piece: Str): Option<Grant> {
    var parts := Split(piece, SLASH);
    if |parts| != 2 then None
    else
      var sub := Split(parts[1], COLON);
      Some(Grant(parts[0], sub[0], if |sub| == 1 then RO else sub[1]))
  }

  function ParseGrants(pieces: seq<Str>): (r: Option<seq<Grant>>)
    ensures r.Some? ==> |r.value| == |pieces|
    ensures r.Some? ==> forall i :: 0 <= i < |pieces| ==> ParseGrant(pieces[i]) == Some(r.value[i])
  {
    if pieces == [] then Some([])
    else
      var init, last := ParseGrants(pieces[..|pieces| - 1]), ParseGrant(pieces[|pieces| - 1]);
      if init.None? || last.None? then None else Some(init.value + [last.value])
  }

  /** The access map after the listed grants, later grants of a scope overriding earlier ones. */
  function AccessMap(service: Str, grants: seq<Grant>): map<Str, Str> {
    if grants == [] then map[]
    else
      var m, g := AccessMap(service, grants[..|grants| - 1]), grants[|grants| - 1];
      if g.service == service then m[g.scope := g.access] else m
  }

  /** The outcome of `DecodeGrants`; None where it panics. */
  function Decoded(service: Str, text: Str): Option<Grants> {
    if text == [] then Some(Grants(false, true, map[], []))
    else
      var parsed := ParseGrants(Split(text, SPACE));
      if parsed.None? then None else Some(Grants(false, false, AccessMap(service, parsed.value), text))
  }

  lemma ParseGrantsStep(pieces: seq<Str>, i: nat)
    requires i < |pieces|
    ensures ParseGrants(pieces[..i + 1])
         == if ParseGrants(pieces[..i]).None? || ParseGrant(pieces[i]).None? then None
            else Some(ParseGrants(pieces[..i]).value + [ParseGrant(pieces[i]).value])
  {
    assert pieces[..i + 1][..i] == pieces[..i];
  }

  /** A list with an unreadable prefix is unreadable. */
  lemma {:induction false} ParseGrantsPrefix(pieces: seq<Str>, i: nat)
    requires i <= |pieces| && ParseGrants(pieces[..i]).None?
    ensures ParseGrants(pieces).None?
    decreases |pieces| - i
  {
    if i < |pieces| {
      ParseGrantsStep(pieces, i);
      ParseGrantsPrefix(pieces, i + 1);
    } else {
      assert pieces[..i] == pieces;
    }
  }

  /** One round of the loop of `DecodeGrants`. */
  lemma DecodeStep(service: Str, pieces: seq<Str>, i: nat)
    requires i < |pieces| && ParseGrants(pieces[..i]).Some? && ParseGrant(pieces[i]).Some?
    ensures ParseGrants(pieces[..i + 1]).Some?
    ensures var m, g := AccessMap(service, ParseGrants(pieces[..i]).value), ParseGrant(pieces[i]).value;
            AccessMap(service, ParseGrants(pieces[..i + 1]).value)
            == if g.service == service then m[g.scope := g.access] else m
  {
    ParseGrantsStep(pieces, i);
    var before := ParseGrants(pieces[..i]).value;
    assert (before + [ParseGrant(pieces[i]).value])[..|before|] == before;
  }

  lemma DecodeFails(pieces: seq<Str>, i: nat)
    requires i < |pieces| && ParseGrant(pieces[i]).None?
    ensures ParseGrants(pieces).None?
  {
    ParseGrantsStep(pieces, i);
    ParseGrantsPrefix(pieces, i + 1);
  }

  method DecodeGrants(service: Str, text: Str) returns (r: Option<Grants>)
    ensures r == Decoded(service, text)
  {
    if text == [] {
      return Some(Grants(false, true, map[], []));
    }
    var accessMap: map<Str, Str> := map[];
    var pieces := Split(text, SPACE);
    for i := 0 to |pieces|
      invariant ParseGrants(pieces[..i]).Some?
      invariant accessMap == AccessMap(service, ParseGrants(pieces[..i]).value)
    {
      var parts := Split(pieces[i], SLASH);
      if |parts| != 2 {
        DecodeFails(pieces, i);
        return None;
      }
      DecodeStep(service, pieces, i);
      var sub := Split(parts[1], COLON);
      var access := RO;
      if |sub| != 1 {
        access := sub[1];
      }
      assert ParseGrant(pieces[i]) == Some(Grant(parts[0], sub[0], access));
      if parts[0] == service {
        accessMap := accessMap[sub[0] := access];
      }
    }
    assert pieces[..|pieces|] == pieces;
    r := Some(Grants(false, false, accessMap, text));
  }

  /** `Grants.Has`; None where it panics. */
  function Has(g: Grants, scope: Str, mode: Str): Option<bool> {
    if mode != RO && mode != RW then None
    else if g.readOnly && mode == RW then Some(false)
    else if g.all then Some(true)
    else if scope !in g.grants then Some(false)
    else if mode == RO then Some(true)
    else Some(mode == g.grants[scope])
  }

  function Encode(g: Grants): Str {
    g.encoded
  }

  // ----- which strings decode

  ghost predicate OneSlashEach(pieces: seq<Str>) {
    forall i :: 0 <= i < |pieces| ==> Count(pieces[i], SLASH) == 1
  }

  /** Decoding panics exactly when the string is not empty and some piece does not hold exactly one slash. */
  lemma PanicsExactly(service: Str, text: Str)
    ensures Decoded(service, text).None? <==> text != [] && !OneSlashEach(Split(text, SPACE))
  {
    ParseGrantsFailExactly(Split(text, SPACE));
  }

  lemma {:induction false} ParseGrantsFailExactly(pieces: seq<Str>)
    ensures ParseGrants(pieces).Some? <==> OneSlashEach(pieces)
  {
    if pieces != [] {
      var init, last := pieces[..|pieces| - 1], pieces[|pieces| - 1];
      assert pieces == init + [last];
      ParseGrantsFailExactly(init);
      SplitCount(last, SLASH);
    }
  }

  /** A text of one letter, "a", does not decode. */
  lemma LoneLetterPanics(service: Str)
    ensures Decoded(service, [97]).None?
  {
    var text: Str := [97];
    SplitClean(text, SPACE);
    assert text[1..] == [];
    assert Count(Split(text, SPACE)[0], SLASH) == 0;
    PanicsExactly(service, text);
  }

  /** What a decoded grant list prints decodes to the same list. */
  lemma EncodeKeepsText(service: Str, text: Str)
    requires Decoded(service, text).Some?
    ensures Encode(Decoded(service, text).value) == text
    ensures Decoded(service, Encode(Decoded(service, text).value)) == Decoded(service, text)
  {
  }

  // ----- what the decoded list answers

  /** The access of the last grant for this service and scope. */
  function LastAccess(service: Str, scope: Str, grants: seq<Grant>): Option<Str> {
    if grants == [] then None
    else
      var g := grants[|grants| - 1];
      if g.service == service && g.scope == scope then Some(g.access)
      else LastAccess(service, scope, grants[..|grants| - 1])
  }

  /** It is the access of a grant for this service and scope that no later one is for. */
  lemma {:induction false} LastAccessExactly(service: Str, scope: Str, grants: seq<Grant>, access: Str)
    ensures LastAccess(service, scope, grants) == Some(access) <==>
              exists i :: 0 <= i < |grants| && grants[i] == Grant(service, scope, access)
                          && forall j :: i < j < |grants| ==> grants[j].service != service || grants[j].scope != scope
  {
    if grants != [] {
      var init, last := grants[..|grants| - 1], grants[|grants| - 1];
      LastAccessExactly(service, scope, init, access);
      if last.service == service && last.scope == scope {
        assert last == grants[|grants| - 1];
      } else {
        assert forall i :: 0 <= i < |init| ==> init[i] == grants[i];
        if i :| 0 <= i < |init| && init[i] == Grant(service, scope, access)
                && forall j :: i < j < |init| ==> init[j].service != service || init[j].scope != scope
        {
          assert grants[i] == Grant(service, scope, access);
        }
      }
    }
  }

  predicate Permits(access: Option<Str>, mode: Str) {
    access.Some? && (mode == RO || access.value == RW)
  }

  lemma {:induction false} AccessMapIsLast(service: Str, grants: seq<Grant>, scope: Str)
    ensures LastAccess(service, scope, grants)
         == if scope in AccessMap(service, grants) then Some(AccessMap(service, grants)[scope]) else None
  {
    if grants != [] {
      AccessMapIsLast(service, grants[..|grants| - 1], scope);
    }
  }

  /** For every string that decodes: the map answers what a scan from the right answers. */
  lemma HasScansFromRight(service: Str, text: Str, scope: Str, mode: Str)
    requires text != [] && Decoded(service, text).Some? && mode in {RO, RW}
    ensures Has(Decoded(service, text).value, scope, mode)
         == Some(Permits(LastAccess(service, scope, ParseGrants(Split(text, SPACE)).value), mode))
  {
    AccessMapIsLast(service, ParseGrants(Split(text, SPACE)).value, scope);
  }

  /** `Has` panics exactly on a mode that is neither of the two. */
  lemma HasPanicsExactly(g: Grants, scope: Str, mode: Str)
    ensures Has(g, scope, mode).None? <==> mode != Ascii("RO") && mode != Ascii("RW")
  {
    assert RO == Ascii("RO") && RW == Ascii("RW");
  }

  // ----- printing

  /** A grant as it is written: without an access it means read-only. */
  datatype Written = Written(service: Str, scope: Str, access: Option<Str>)

  predicate WellFormed(w: Written) {
    && SPACE !in w.service && SLASH !in w.service
    && SPACE !in w.scope && SLASH !in w.scope && COLON !in w.scope
    && (w.access.Some? ==> SPACE !in w.access.value && SLASH !in w.access.value && COLON !in w.access.value)
  }

  function Meaning(w: Written): Grant {
    Grant(w.service, w.scope, if w.access.None? then RO else w.access.value)
  }

  function Tail(w: Written): Str {
    if w.access.None? then w.scope else w.scope + [COLON] + w.access.value
  }

  function Print(w: Written): Str {
    w.service + [SLASH] + Tail(w)
  }

  function Meanings(ws: seq<Written>): (r: seq<Grant>)
    ensures |r| == |ws| && forall i :: 0 <= i < |ws| ==> r[i] == Meaning(ws[i])
  {
    seq(|ws|, i requires 0 <= i < |ws| => Meaning(ws[i]))
  }

  function Prints(ws: seq<Written>): (r: seq<Str>)
    ensures |r| == |ws| && forall i :: 0 <= i < |ws| ==> r[i] == Print(ws[i])
  {
    seq(|ws|, i requires 0 <= i < |ws| => Print(ws[i]))
  }

  function PrintAll(ws: seq<Written>): Str {
    Join(Prints(ws), SPACE)
  }

  lemma ParsePrinted(w: Written)
    requires WellFormed(w)
    ensures ParseGrant(Print(w)) == Some(Meaning(w)) && SPACE !in Print(w)
  {
    SplitAt(w.service, SLASH, Tail(w));
    SplitClean(Tail(w), SLASH);
    SplitClean(w.scope, COLON);
    if w.access.Some? {
      SplitAt(w.scope, COLON, w.access.value);
      SplitClean(w.access.value, COLON);
    }
  }

  /** A written grant says its service, its scope and its access, which is read-only unless it is written. */
  lemma WrittenMeans(w: Written)
    requires WellFormed(w)
    ensures ParseGrant(Print(w))
         == Some(Grant(w.service, w.scope, if w.access.Some? then w.access.value else Ascii("RO")))
    ensures Some(Meaning(w)) == ParseGrant(Print(w))
  {
    assert RO == Ascii("RO");
    ParsePrinted(w);
  }

  /** What follows a second colon is not looked at. */
  lemma ParseLongGrant(w: Written, junk: Str)
    requires WellFormed(w) && w.access.Some? && SLASH !in junk
    ensures ParseGrant(Print(w) + [COLON] + junk) == Some(Meaning(w))
  {
    var access := w.access.value + [COLON] + junk;
    var tail := w.scope + [COLON] + access;
    assert Print(w) + [COLON] + junk == w.service + [SLASH] + tail;
    SplitAt(w.service, SLASH, tail);
    SplitClean(tail, SLASH);
    SplitAt(w.scope, COLON, access);
    SplitAt(w.access.value, COLON, junk);
  }

  function Concat(texts: seq<Str>, between: Str): Str {
    if texts == [] then []
    else if |texts| == 1 then texts[0]
    else texts[0] + between + Concat(texts[1..], between)
  }

  /** Grants as they are written: `service/scope` or `service/scope:access`, with single spaces between. */
  lemma {:induction false} PrintedText(ws: seq<Written>)
    ensures forall i :: 0 <= i < |ws| ==>
              var w := ws[i];
              Prints(ws)[i] == w.service + Ascii("/") + w.scope
                               + if w.access.Some? then Ascii(":") + w.access.value else []
    ensures PrintAll(ws) == Concat(Prints(ws), Ascii(" "))
    ensures RO == Ascii("RO") && RW == Ascii("RW")
  {
    assert Ascii("/") == [SLASH] && Ascii(":") == [COLON] && Ascii(" ") == [SPACE];
    forall i | 0 <= i < |ws|
      ensures Prints(ws)[i] == ws[i].service + Ascii("/") + ws[i].scope
                               + if ws[i].access.Some? then Ascii(":") + ws[i].access.value else []
    {
      assert Prints(ws)[i] == Print(ws[i]);
    }
    JoinIsConcat(Prints(ws));
  }

  lemma {:induction false} JoinIsConcat(texts: seq<Str>)
    ensures Join(texts, SPACE) == Concat(texts, [SPACE])
  {
    if |texts| > 1 {
      JoinIsConcat(texts[1..]);
    }
  }

  ghost predicate AllWellFormed(ws: seq<Written>) {
    forall i :: 0 <= i < |ws| ==> WellFormed(ws[i])
  }

  lemma MeaningsConcat(a: seq<Written>, b: seq<Written>)
    ensures Meanings(a + b) == Meanings(a) + Meanings(b)
  {
  }

  lemma {:induction false} ParseAllPrinted(ws: seq<Written>)
    requires AllWellFormed(ws)
    ensures ParseGrants(Prints(ws)) == Some(Meanings(ws))
  {
    if ws != [] {
      var init, w := ws[..|ws| - 1], ws[|ws| - 1];
      assert ws == init + [w];
      var ps := Prints(ws);
      assert ps[..|ps| - 1] == Prints(init) && ps[|ps| - 1] == Print(w);
      assert Meanings([w]) == [Meaning(w)];
      MeaningsConcat(init, [w]);
      ParseAllPrinted(init);
      ParsePrinted(w);
    }
  }

  lemma PrintedNotEmpty(ws: seq<Written>)
    requires ws != []
    ensures PrintAll(ws) != []
  {
    assert |Print(ws[0])| > 0;
  }

  /** Printing well-formed grants and decoding them answers by the last grant for the scope. */
  lemma PrintedGrants(service: Str, ws: seq<Written>, scope: Str, mode: Str)
    requires ws != [] && AllWellFormed(ws)
    requires mode in {RO, RW}
    ensures Decoded(service, PrintAll(ws)).Some?
    ensures Has(Decoded(service, PrintAll(ws)).value, scope, mode)
         == Some(Permits(LastAccess(service, scope, Meanings(ws)), mode))
  {
    forall i | 0 <= i < |ws|
      ensures SPACE !in Prints(ws)[i]
    {
      ParsePrinted(ws[i]);
    }
    SplitJoin(Prints(ws), SPACE);
    ParseAllPrinted(ws);
    PrintedNotEmpty(ws);
    HasScansFromRight(service, PrintAll(ws), scope, mode);
  }

  lemma {:induction false} LastAccessConcat(service: Str, scope: Str, a: seq<Grant>, b: seq<Grant>)
    ensures LastAccess(service, scope, a + b)
         == if LastAccess(service, scope, b).Some? then LastAccess(service, scope, b) else LastAccess(service, scope, a)
  {
    if b == [] {
      assert a + b == a;
    } else {
      LastAccessConcat(service, scope, a, b[..|b| - 1]);
      assert (a + b)[..|a + b| - 1] == a + b[..|b| - 1];
    }
  }

  lemma {:induction false} OtherServicesSilent(service: Str, scope: Str, grants: seq<Grant>)
    requires forall i :: 0 <= i < |grants| ==> grants[i].service != service
    ensures LastAccess(service, scope, grants).None?
  {
    if grants != [] {
      OtherServicesSilent(service, scope, grants[..|grants| - 1]);
    }
  }

  lemma InsertSilent(service: Str, scope: Str, a: seq<Grant>, x: seq<Grant>, b: seq<Grant>)
    requires forall i :: 0 <= i < |x| ==> x[i].service != service
    ensures LastAccess(service, scope, a + x + b) == LastAccess(service, scope, a + b)
  {
    OtherServicesSilent(service, scope, x);
    LastAccessConcat(service, scope, a, b);
    LastAccessConcat(service, scope, a + x, b);
    LastAccessConcat(service, scope, a, x);
  }

  lemma InsertedSilent(service: Str, scope: Str, a: seq<Written>, x: seq<Written>, b: seq<Written>)
    requires forall i :: 0 <= i < |x| ==> x[i].service != service
    ensures LastAccess(service, scope, Meanings(a + x + b)) == LastAccess(service, scope, Meanings(a + b))
  {
    MeaningsConcat(a, b);
    MeaningsConcat(a, x);
    MeaningsConcat(a + x, b);
    InsertSilent(service, scope, Meanings(a), Meanings(x), Meanings(b));
  }

  /**
   * Grants for other services change no answer, wherever they are inserted into a list that is
   * not empty.
   */
  lemma OtherServicesIgnored(service: Str, a: seq<Written>, x: seq<Written>, b: seq<Written>, scope: Str, mode: Str)
    requires a + b != [] && mode in {RO, RW}
    requires AllWellFormed(a) && AllWellFormed(x) && AllWellFormed(b)
    requires forall i :: 0 <= i < |x| ==> x[i].service != service
    ensures Decoded(service, PrintAll(a + b)).Some? && Decoded(service, PrintAll(a + x + b)).Some?
    ensures Has(Decoded(service, PrintAll(a + x + b)).value, scope, mode)
         == Has(Decoded(service, PrintAll(a + b)).value, scope, mode)
  {
    PrintedGrants(service, a + b, scope, mode);
    PrintedGrants(service, a + x + b, scope, mode);
    InsertedSilent(service, scope, a, x, b);
  }

  /** The one list for which that fails: no grants at all is every permission, other services' grants are none. */
  lemma EmptyListIsAll(service: Str, x: seq<Written>, scope: Str, mode: Str)
    requires x != [] && mode in {RO, RW}
    requires AllWellFormed(x) && forall i :: 0 <= i < |x| ==> x[i].service != service
    ensures Has(Decoded(service, PrintAll([])).value, scope, mode) == Some(true)
    ensures Decoded(service, PrintAll(x)).Some?
    ensures Has(Decoded(service, PrintAll(x)).value, scope, mode) == Some(false)
  {
    assert PrintAll([]) == [];
    PrintedGrants(service, x, scope, mode);
    OtherServicesSilent(service, scope, Meanings(x));
  }

  /** Read-write access includes read-only access, and `ReadOnly` takes away the read-write answers alone. */
  lemma ReadOnlyRemovesWrites(g: Grants, scope: Str)
    ensures Has(g, scope, RW) == Some(true) ==> Has(g, scope, RO) == Some(true)
    ensures Has(g.(readOnly := true), scope, RW) == Some(false)
    ensures Has(g.(readOnly := true), scope, RO) == Has(g, scope, RO)
  {
    assert RO[1] != RW[1];
  }
}
