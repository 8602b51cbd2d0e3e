/**
 * Which legacy subscriptions an event goes to: `fetchSubscriptions` of webhooks/legacy.go asks the
 * database for `events LIKE '%event%'` and then checks the comma-separated list itself.
 */
module LegacyFilter {
  import opened Sublists
  import opened Text

  /** A row of the subscription table. */
  datatype Row = Row(id: nat, created: int, url: string, events: string)

  datatype Subscription = Subscription(id: nat, created: int, url: string, events: seq<string>)

  /** SQL `text LIKE pattern`: `%` any text, `_` any character, `\` takes the next character literally. */
  predicate Like(text: string, pattern: string)
    decreases |pattern|, |text|
  {
    if pattern == "" then text == ""
    else if pattern[0] == '%' then
      Like(text, pattern[1..]) || (text != "" && Like(text[1..], pattern))
    else if pattern[0] == '_' then text != "" && Like(text[1..], pattern[1..])
    else if pattern[0] == '\\' then
      |pattern| > 1 && text != "" && text[0] == pattern[1] && Like(text[1..], pattern[2..])
    else text != "" && text[0] == pattern[0] && Like(text[1..], pattern[1..])
  }

  function Pattern(event: string): string {
    "%" + event + "%"
  }

  /** The rows the database returns. */
  function Prefilter(table: seq<Row>, event: string): seq<Row> {
    if table == [] then []
    else
      var init, r := Prefilter(table[..|table| - 1], event), table[|table| - 1];
      if Like(r.events, Pattern(event)) then init + [r] else init
  }

  function Loaded(r: Row): Subscription {
    Subscription(r.id, r.created, r.url, Split(r.events, ','))
  }

  /** The subscriptions whose event list names the event, in table order. */
  function Listed(rows: seq<Row>, event: string): seq<Subscription> {
    if rows == [] then []
    else
      var init, r := Listed(rows[..|rows| - 1], event), rows[|rows| - 1];
      if event in Split(r.events, ',') then init + [Loaded(r)] else init
  }

  method FetchSubscriptions(table: seq<Row>, event: string) returns (subs: seq<Subscription>)
    ensures subs == Listed(Prefilter(table, event), event)
  {
    var rows := Prefilter(table, event);
    subs := [];
    for i := 0 to |rows|
      invariant subs == Listed(rows[..i], event)
    {
      assert rows[..i + 1][..i] == rows[..i];
      var sub := Loaded(rows[i]);
      var valid := false;
      for j := 0 to |sub.events|
        invariant valid <==> event in sub.events[..j]
      {
        if sub.events[j] == event {
          valid := true;
          assert event in sub.events;
          break;
        }
      }
      if valid {
        subs := subs + [sub];
      }
    }
    assert rows[..|rows|] == rows;
  }

  // ----- what the pattern matches

  lemma {:induction false} LikeAfterPercent(x: string, t: string, p: string)
    requires Like(t, "%" + p)
    ensures Like(x + t, "%" + p)
  {
    if x == "" {
      assert x + t == t;
    } else {
      LikeAfterPercent(x[1..], t, p);
      assert (x + t)[1..] == x[1..] + t;
    }
  }

  /** The text ends inside an escape, so that the next character would be taken literally. */
  predicate Dangling(q: string) {
    q != "" && if q[0] == '\\' then |q| == 1 || Dangling(q[2..]) else Dangling(q[1..])
  }

  lemma {:induction false} DanglingEnd(q: string)
    requires Dangling(q)
    ensures q[|q| - 1] == '\\'
  {
    if q[0] != '\\' {
      DanglingEnd(q[1..]);
    } else if |q| > 1 {
      DanglingEnd(q[2..]);
    }
  }

  lemma PercentMatchesAll(t: string)
    ensures Like(t, "%")
  {
    LikeAfterPercent(t, "", "");
    assert "%" + "" == "%" && t + "" == t;
  }

  /** A final `%` that is not escaped takes any more text. */
  lemma {:induction false} LikeBeforePercent(t: string, y: string, q: string)
    requires !Dangling(q) && Like(t, q + "%")
    ensures Like(t + y, q + "%")
    decreases |q|, |t|
  {
    var p := q + "%";
    if q == "" {
      PercentMatchesAll(t + y);
      assert p == "%";
    } else if q[0] == '\\' {
      assert p[2..] == q[2..] + "%" && p[1] == q[1];
      LikeBeforePercent(t[1..], y, q[2..]);
      assert (t + y)[1..] == t[1..] + y;
    } else {
      assert p[1..] == q[1..] + "%";
      if q[0] == '%' && Like(t, p[1..]) {
        LikeBeforePercent(t, y, q[1..]);
      } else {
        assert (t + y)[1..] == t[1..] + y;
        if q[0] == '%' {
          LikeBeforePercent(t[1..], y, q);
        } else {
          LikeBeforePercent(t[1..], y, q[1..]);
        }
      }
    }
  }

  /** A final `%` that is escaped matches only itself. */
  lemma {:induction false} LikeEscapedPercent(t: string, q: string)
    requires Dangling(q) && Like(t, q + "%")
    ensures t != "" && t[|t| - 1] == '%'
    decreases |q|, |t|
  {
    var p := q + "%";
    if q[0] == '\\' {
      assert |q| == 1 ==> p == "\\%" && p[2..] == "";
      if |q| > 1 {
        assert p[2..] == q[2..] + "%";
        LikeEscapedPercent(t[1..], q[2..]);
      }
    } else {
      assert p[1..] == q[1..] + "%";
      if q[0] == '%' && Like(t, p[1..]) {
        LikeEscapedPercent(t, q[1..]);
      } else if q[0] == '%' {
        LikeEscapedPercent(t[1..], q);
      } else {
        LikeEscapedPercent(t[1..], q[1..]);
      }
    }
  }

  /** Some suffix of a text that matches `%p` matches `p`. */
  lemma {:induction false} LikeSuffix(t: string, p: string) returns (k: nat)
    requires Like(t, "%" + p)
    ensures k <= |t| && Like(t[k..], p)
  {
    assert ("%" + p)[1..] == p;
    if Like(t, p) {
      k := 0;
      assert t[0..] == t;
    } else {
      k := LikeSuffix(t[1..], p);
      k := k + 1;
      assert t[1..][k - 1..] == t[k..];
    }
  }

  /** An event whose pattern finds the event itself is found inside every text that holds it. */
  lemma SelfMatchingFoundAnywhere(event: string, x: string, y: string)
    requires Like(event, Pattern(event))
    ensures Like(x + event + y, Pattern(event))
  {
    var p := event + "%";
    assert Pattern(event) == "%" + p;
    var k := LikeSuffix(event, p);
    if Dangling(event) {
      LikeEscapedPercent(event[k..], event);
      DanglingEnd(event);
      assert false;
    }
    LikeBeforePercent(event[k..], y, event);
    assert Like(event[k..] + y, "%" + p) by { assert ("%" + p)[1..] == p; }
    LikeAfterPercent(x + event[..k], event[k..] + y, p);
    assert event == event[..k] + event[k..];
    assert x + event + y == x + event[..k] + (event[k..] + y);
  }

  /** A piece of a split text is a contiguous part of the text. */
  lemma {:induction false} PieceIsInside(s: string, sep: char, i: nat) returns (x: string, y: string)
    requires i < |Split(s, sep)|
    ensures s == x + Split(s, sep)[i] + y
    ensures i == 0 ==> x == ""
  {
    if s == "" {
      x, y := "", "";
    } else if s[0] == sep {
      if i == 0 {
        x, y := "", s;
      } else {
        x, y := PieceIsInside(s[1..], sep, i - 1);
        x := [s[0]] + x;
        assert s == [s[0]] + s[1..];
      }
    } else {
      x, y := PieceIsInside(s[1..], sep, i);
      assert s == [s[0]] + s[1..];
      if i == 0 {
        assert s == x + ([s[0]] + Split(s[1..], sep)[0]) + y;
      } else {
        x := [s[0]] + x;
      }
    }
  }

  // ----- the two stages are the one filter

  lemma {:induction false} PrefilterLosesNothing(table: seq<Row>, event: string)
    requires ',' in event || Like(event, Pattern(event))
    ensures Listed(Prefilter(table, event), event) == Listed(table, event)
  {
    if table != [] {
      var init, r := table[..|table| - 1], table[|table| - 1];
      PrefilterLosesNothing(init, event);
      var kept := Prefilter(init, event);
      assert (kept + [r])[..|kept|] == kept;
      var pieces := Split(r.events, ',');
      if event in pieces {
        var i :| 0 <= i < |pieces| && pieces[i] == event;
        SplitPiecesClean(r.events, ',');
        var x, y := PieceIsInside(r.events, ',', i);
        SelfMatchingFoundAnywhere(event, x, y);
      }
    }
  }

  /**
   * The two stages select what the comma-separated list alone selects, on every table, exactly when
   * the event holds a comma (then neither selects anything) or its pattern finds the event itself.
   */
  lemma TwoStagesExactly(event: string)
    ensures (forall table :: Listed(Prefilter(table, event), event) == Listed(table, event))
       <==> (',' in event || Like(event, Pattern(event)))
  {
    if ',' in event || Like(event, Pattern(event)) {
      forall table
        ensures Listed(Prefilter(table, event), event) == Listed(table, event)
      {
        PrefilterLosesNothing(table, event);
      }
    } else {
      var r := Row(0, 0, "", event);
      SplitClean(event, ',');
      assert [r][..0] == [];
      assert Listed([r], event) == [Loaded(r)];
      assert Prefilter([r], event) == [];
      assert Listed(Prefilter([r], event), event) != Listed([r], event);
    }
  }

  lemma {:induction false} PlainPatternMatches(event: string)
    requires '\\' !in event
    ensures Like(event, event + "%")
  {
    var p := event + "%";
    if event == "" {
      PercentMatchesAll("");
      assert p == "%";
    } else {
      assert event[0] in event;
      PlainPatternMatches(event[1..]);
      assert p[1..] == event[1..] + "%";
      if event[0] == '%' {
        assert p == "%" + p[1..];
        assert Like(event[1..], p) by { LikeAfterPercent("", event[1..], p[1..]); }
      }
    }
  }

  /** No backslash is enough, whatever other wildcards the event holds. */
  lemma NoBackslashLosesNothing(table: seq<Row>, event: string)
    requires '\\' !in event
    ensures Listed(Prefilter(table, event), event) == Listed(table, event)
  {
    PlainPatternMatches(event);
    assert Pattern(event) == "%" + (event + "%");
    assert Pattern(event)[1..] == event + "%";
    PrefilterLosesNothing(table, event);
  }

  /** A backslash can lose a subscription to exactly this event. */
  lemma BackslashLoses()
    ensures var event, r := "a\\b", Row(1, 0, "u", "a\\b");
            Listed(Prefilter([r], event), event) == [] && Listed([r], event) == [Loaded(r)]
  {
    var event, r := "a\\b", Row(1, 0, "u", "a\\b");
    NoMatch();
    SplitClean(event, ',');
    assert [r][..0] == [];
  }

  lemma NoMatch()
    ensures !Like("a\\b", Pattern("a\\b"))
  {
    var p := "a\\b%";
    assert Pattern("a\\b") == "%" + p && ("%" + p)[1..] == p;
    assert p[1..] == "\\b%";
    var t := "a\\b";
    assert t[1..] == "\\b" && t[1..][1..] == "b" && t[1..][1..][1..] == "";
    assert !Like("\\b", "\\b%");
    assert !Like("a\\b", p) && !Like("\\b", p) && !Like("b", p) && !Like("", p);
    assert !Like("", "%" + p);
    assert !Like("b", "%" + p) by { assert "b"[1..] == ""; }
    assert !Like("\\b", "%" + p) by { assert "\\b"[1..] == "b"; }
  }

  /** The rows whose comma-separated list names the event. */
  function Naming(event: string): Row -> bool {
    (r: Row) => event in Split(r.events, ',')
  }

  /** The subscriptions are what the rows hold. */
  ghost predicate Holds(rows: seq<Row>, subs: seq<Subscription>) {
    && |subs| == |rows|
    && forall i :: 0 <= i < |subs| ==>
         && subs[i].id == rows[i].id && subs[i].created == rows[i].created && subs[i].url == rows[i].url
         && subs[i].events == Split(rows[i].events, ',')
  }

  lemma {:induction false} ListedHolds(rows: seq<Row>, event: string)
    ensures Holds(Filter(rows, Naming(event)), Listed(rows, event))
  {
    if rows != [] {
      ListedHolds(rows[..|rows| - 1], event);
    }
  }

  /** The result, in row order: what the rows hold whose list names the event, and no others. */
  lemma ListedInOrder(rows: seq<Row>, event: string) returns (kept: seq<Row>, at: seq<nat>)
    ensures SublistAt(kept, rows, Naming(event), at) && Holds(kept, Listed(rows, event))
  {
    kept := Filter(rows, Naming(event));
    at := FilterInOrder(rows, Naming(event));
    ListedHolds(rows, event);
  }

  /** Membership in the result, row by row. */
  lemma ListedMembers(rows: seq<Row>, event: string, sub: Subscription)
    ensures sub in Listed(rows, event) <==>
              exists i :: 0 <= i < |rows| && event in Split(rows[i].events, ',')
                          && sub == Subscription(rows[i].id, rows[i].created, rows[i].url, Split(rows[i].events, ','))
  {
    var kept, at := ListedInOrder(rows, event);
    if i :| 0 <= i < |rows| && event in Split(rows[i].events, ',')
            && sub == Subscription(rows[i].id, rows[i].created, rows[i].url, Split(rows[i].events, ','))
    {
      assert Naming(event)(rows[i]);
      var j :| 0 <= j < |at| && at[j] == i;
      assert Listed(rows, event)[j] == sub;
    }
    if sub in Listed(rows, event) {
      var j :| 0 <= j < |kept| && Listed(rows, event)[j] == sub;
      assert at[j] in at && Naming(event)(rows[at[j]]);
    }
  }

  function Matching(event: string): Row -> bool {
    (r: Row) => Like(r.events, "%" + event + "%")
  }

  lemma {:induction false} PrefilterFilters(table: seq<Row>, event: string)
    ensures Prefilter(table, event) == Filter(table, Matching(event))
  {
    if table != [] {
      PrefilterFilters(table[..|table| - 1], event);
    }
  }

  /** The rows that the database returns. */
  lemma PrefilterInOrder(table: seq<Row>, event: string) returns (at: seq<nat>)
    ensures SublistAt(Prefilter(table, event), table, Matching(event), at)
  {
    PrefilterFilters(table, event);
    at := FilterInOrder(table, Matching(event));
  }

  // ----- what `LIKE` means

  /** A pattern of one character. */
  lemma LikeOne(t: string, c: char)
    ensures Like(t, "") <==> t == ""
    ensures Like(t, "%")
    ensures Like(t, "_") <==> |t| == 1
    ensures c != '%' && c != '_' && c != '\\' ==> (Like(t, [c]) <==> t == [c])
    ensures Like(t, "\\" + [c]) <==> t == [c]
  {
    PercentMatchesAll(t);
    assert "_"[1..] == "" && [c][1..] == "" && ("\\" + [c])[2..] == "";
    assert |t| == 1 ==> t[1..] == "" && t == [t[0]];
  }

  lemma {:induction false} LikeSplit(t: string, p: string, q: string) returns (k: nat)
    requires !Dangling(p) && Like(t, p + q)
    ensures k <= |t| && Like(t[..k], p) && Like(t[k..], q)
    decreases |p|, |t|
  {
    if p == "" {
      k := 0;
      assert p + q == q && t[0..] == t;
    } else if p[0] == '%' && Like(t, p[1..] + q) {
      k := LikeSplit(t, p[1..], q);
    } else {
      var m := if p[0] == '%' then 0 else if p[0] == '\\' then 2 else 1;
      assert (p + q)[m..] == p[m..] + q && (p + q)[1..] == p[1..] + q;
      k := LikeSplit(t[1..], p[m..], q);
      k := k + 1;
      assert t[..k][1..] == t[1..][..k - 1] && t[1..][k - 1..] == t[k..];
    }
  }

  lemma {:induction false} LikeJoin(a: string, b: string, p: string, q: string)
    requires !Dangling(p) && Like(a, p) && Like(b, q)
    ensures Like(a + b, p + q)
    decreases |p|, |a|
  {
    if p == "" {
      assert p + q == q && a + b == b;
    } else if p[0] == '%' && Like(a, p[1..]) {
      LikeJoin(a, b, p[1..], q);
      assert (p + q)[1..] == p[1..] + q;
    } else {
      var m := if p[0] == '%' then 0 else if p[0] == '\\' then 2 else 1;
      assert (p + q)[m..] == p[m..] + q;
      LikeJoin(a[1..], b, p[m..], q);
      assert (a + b)[1..] == a[1..] + b;
    }
  }

  /** A longer pattern matches a text in two parts, wherever the pattern is cut outside an escape. */
  lemma LikeInParts(t: string, p: string, q: string)
    requires !Dangling(p)
    ensures Like(t, p + q) <==> exists k :: 0 <= k <= |t| && Like(t[..k], p) && Like(t[k..], q)
  {
    if Like(t, p + q) {
      var _ := LikeSplit(t, p, q);
    }
    if k :| 0 <= k <= |t| && Like(t[..k], p) && Like(t[k..], q) {
      LikeJoin(t[..k], t[k..], p, q);
      assert t == t[..k] + t[k..];
    }
  }
}
