/** `Columns` and `Scan` agree on every model and selection, and how often a query transfers each field. */
module RowAlignment {
  import opened Arithmetic
  import opened Bytes
  import opened Sorting
  import opened Sublists
  import opened Fields
  import opened RowQueries
  import opened FieldQueries

  /** A use of a model between the building of a query and the scanning of its rows. */
  datatype Use =
    | UseGQL(name: Str)
    | UseSQL(name: Str)
    | UseAnonymous
    | UseSelectAll
    | UseScanAll
    | UseColumns(ctx: GqlContext)
    | UseScan(ctx: GqlContext)

  lemma RowStable(built: seq<FieldMap>, a: seq<Str>, b: seq<Str>)
    requires multiset(a) == multiset(b)
    ensures Row(built, a) == Row(built, b)
  {
    SortedUnique(SortStrings(a), SortStrings(b));
  }

  lemma NamesPermute(ctx: GqlContext, a: seq<FieldMap>, b: seq<FieldMap>)
    requires multiset(a) == multiset(b)
    ensures multiset(Names(ctx, a)) == multiset(Names(ctx, b))
  {
    if Selected(ctx) == [] {
      KeysPermute(GqlOf, a, b);
    }
  }

  method Apply(m: Model, use: Use)
    requires m.fields.Valid()
    modifies m.fields, m.fields.Fields
    ensures m.fields.Kept()
  {
    match use
    case UseGQL(name) => var _ := m.fields.GQL(name);
    case UseSQL(name) => var _ := m.fields.SQL(name);
    case UseAnonymous => var _ := m.fields.AnonymousFields();
    case UseSelectAll => var _ := SelectAll(m);
    case UseScanAll => var _ := ScanAll(m);
    case UseColumns(ctx) => var _ := Columns(ctx, m);
    case UseScan(ctx) => var _ := Scan(ctx, m);
  }

  /** Any program of uses keeps the indexes, and keeps the fields up to their order. */
  method ApplyAll(m: Model, uses: seq<Use>)
    requires m.fields.Valid()
    modifies m.fields, m.fields.Fields
    ensures m.fields.Kept()
  {
    for i := 0 to |uses|
      invariant m.fields.Kept()
    {
      Apply(m, uses[i]);
    }
  }

  /**
   * The columns of a query and the pointers its rows are scanned into come from the same fields,
   * position by position, whatever uses of the same model run in between.
   */
  method ColumnsThenScan(ctx: GqlContext, m: Model, uses: seq<Use>) returns (cols: seq<Str>, ptrs: seq<Ptr>)
    requires m.fields.Valid()
    modifies m.fields, m.fields.Fields
    ensures m.fields.Kept() && m.fields.byGQL.Some?
    ensures var row := Row(m.fields.built, Names(ctx, old(m.fields.Fields[..])));
            cols == Texts(m.alias, m.table, row) && ptrs == Ptrs(row)
  {
    cols := Columns(ctx, m);
    ApplyAll(m, uses);
    ptrs := Scan(ctx, m);
    NamesPermute(ctx, m.fields.Fields[..], old(m.fields.Fields[..]));
    RowStable(m.fields.built, Names(ctx, m.fields.Fields[..]), Names(ctx, old(m.fields.Fields[..])));
  }

  // ----- how often a field is transferred

  lemma {:induction false} BucketCount(key: FieldMap -> Str, s: seq<FieldMap>, k: Str, f: FieldMap)
    ensures multiset(Bucket(key, s, k))[f] == if key(f) == k then multiset(s)[f] else 0
  {
    if s != [] {
      BucketCount(key, s[..|s| - 1], k, f);
      assert s == s[..|s| - 1] + [s[|s| - 1]];
    }
  }

  lemma ConcatCount<T>(a: seq<T>, b: seq<T>, x: T)
    ensures multiset(a + b)[x] == multiset(a)[x] + multiset(b)[x]
  {
  }

  lemma OneMore(n: nat, c: nat)
    ensures Times(n + 1, c) == Times(n, c) + c
  {
  }

  lemma LookupCount(built: seq<FieldMap>, n: Str, f: FieldMap)
    ensures multiset(Lookup(built, n))[f] == if n != [] && f.gql == n then multiset(built)[f] else 0
  {
    BucketCount(GqlOf, built, n, f);
  }

  lemma SnocCount(names: seq<Str>, n: Str, k: Str)
    ensures multiset(names + [n])[k] == multiset(names)[k] + if n == k then 1 else 0
  {
  }

  /** How often the lookups of the names hold a field. */
  function Expected(built: seq<FieldMap>, names: seq<Str>, f: FieldMap): nat {
    if f.gql == [] then 0 else Times(multiset(names)[f.gql], multiset(built)[f])
  }

  lemma ExpectedSnoc(built: seq<FieldMap>, names: seq<Str>, n: Str, f: FieldMap)
    ensures Expected(built, names + [n], f) == Expected(built, names, f) + multiset(Lookup(built, n))[f]
  {
    SnocCount(names, n, f.gql);
    LookupCount(built, n, f);
    OneMore(multiset(names)[f.gql], multiset(built)[f]);
  }

  lemma {:induction false} LookupsCount(built: seq<FieldMap>, names: seq<Str>, f: FieldMap)
    ensures multiset(Lookups(built, names))[f] == Expected(built, names, f)
  {
    if names != [] {
      var init, n := names[..|names| - 1], names[|names| - 1];
      assert names == init + [n];
      LookupsCount(built, init, f);
      ExpectedSnoc(built, init, n, f);
      ConcatCount(Lookups(built, init), Lookup(built, n), f);
    }
  }

  /** A field is transferred once for each request of its name; an anonymous field exactly once. */
  lemma RowCount(built: seq<FieldMap>, names: seq<Str>, f: FieldMap)
    ensures multiset(Row(built, names))[f]
         == if f.gql == [] then multiset(built)[f] else multiset(names)[f.gql] * multiset(built)[f]
  {
    LookupsCount(built, SortStrings(names), f);
    BucketCount(GqlOf, built, [], f);
    ConcatCount(Lookups(built, SortStrings(names)), Anonymous(built), f);
    assert multiset(SortStrings(names))[f.gql] == multiset(names)[f.gql];
    TimesIsProduct(multiset(names)[f.gql], multiset(built)[f]);
  }

  /** How many of the fields of a selection ask for a name. */
  function Requests(sel: seq<Collected>, name: Str): nat {
    if sel == [] then 0 else Requests(sel[..|sel| - 1], name) + if sel[|sel| - 1].name == name then 1 else 0
  }

  lemma {:induction false} RequestsCount(sel: seq<Collected>, name: Str)
    ensures multiset(Keys(NameOf, sel))[name] == Requests(sel, name)
  {
    if sel != [] {
      var init, c := sel[..|sel| - 1], sel[|sel| - 1];
      RequestsCount(init, name);
      assert Keys(NameOf, sel) == Keys(NameOf, init) + [c.name];
      SnocCount(Keys(NameOf, init), c.name, name);
    }
  }

  /**
   * While a GraphQL field is resolved whose selection asks for something: a field is transferred once
   * for each of the requests for its name in the unwrapped selection, an anonymous one exactly once.
   */
  lemma SelectionRow(cs: seq<Collected>, sel: seq<Collected>, fields: seq<FieldMap>, built: seq<FieldMap>, f: FieldMap)
    requires IsSelection(cs, sel) && sel != []
    ensures multiset(Row(built, Names(Resolving(cs), fields)))[f]
         == if f.gql == [] then multiset(built)[f] else Requests(sel, f.gql) * multiset(built)[f]
  {
    SelectedExactly(cs, sel);
    RequestsCount(sel, f.gql);
    RowCount(built, Keys(NameOf, sel), f);
  }

  lemma SortedConcat(a: seq<FieldMap>, b: seq<FieldMap>, n: Str)
    requires SortedBy(GqlOf, a) && (forall f :: f in a ==> Leq(f.gql, n)) && (forall f :: f in b ==> f.gql == n)
    ensures SortedBy(GqlOf, a + b)
  {
    LeqTotal(n, n);
    forall i, j | 0 <= i < j < |a + b|
      ensures Leq(Keys(GqlOf, a + b)[i], Keys(GqlOf, a + b)[j])
    {
      if j < |a| {
        assert Leq(Keys(GqlOf, a)[i], Keys(GqlOf, a)[j]);
      } else {
        assert (a + b)[j] in b && (if i < |a| then (a + b)[i] in a else (a + b)[i] in b);
      }
    }
  }

  lemma {:induction false} LookupsSorted(built: seq<FieldMap>, names: seq<Str>)
    requires Sorted(names)
    ensures SortedBy(GqlOf, Lookups(built, names))
    ensures forall f :: f in Lookups(built, names) ==> f.gql != [] && f.gql in names
  {
    if names != [] {
      var init, n := names[..|names| - 1], names[|names| - 1];
      LookupsSorted(built, init);
      BucketElements(GqlOf, built, n);
      forall f | f in Lookups(built, init)
        ensures Leq(f.gql, n)
      {
        var k :| 0 <= k < |init| && init[k] == f.gql;
        assert Leq(names[k], names[|names| - 1]);
      }
      SortedConcat(Lookups(built, init), Lookup(built, n), n);
    }
  }

  /** The named fields come first, by their GQL names, and then the anonymous ones in their own order. */
  lemma RowOrder(built: seq<FieldMap>, names: seq<Str>) returns (n: nat, at: seq<nat>)
    ensures var row := Row(built, names);
            && n <= |row|
            && SortedBy(GqlOf, row[..n]) && (forall f :: f in row[..n] ==> f.gql != [])
            && SublistAt(row[n..], built, Carrying(GqlOf, []), at)
  {
    var lookups := Lookups(built, SortStrings(names));
    n := |lookups|;
    LookupsSorted(built, SortStrings(names));
    at := BucketInOrder(GqlOf, built, []);
    assert Row(built, names)[..n] == lookups && Row(built, names)[n..] == Anonymous(built);
  }

  /** For each listed name, how often it is requested times how many fields carry it. */
  function Transfers(ks: seq<Str>, names: seq<Str>, built: seq<FieldMap>): nat {
    if ks == [] then 0 else
      var k := ks[|ks| - 1];
      Transfers(ks[..|ks| - 1], names, built) + Times(multiset(names)[k], |Bucket(GqlOf, built, k)|)
  }

  lemma {:induction false} TransfersOneMore(ks: seq<Str>, names: seq<Str>, n: Str, built: seq<FieldMap>)
    requires Distinct(ks)
    ensures Transfers(ks, names + [n], built)
         == Transfers(ks, names, built) + if n in ks then |Bucket(GqlOf, built, n)| else 0
  {
    if ks != [] {
      var init, k := ks[..|ks| - 1], ks[|ks| - 1];
      TransfersOneMore(init, names, n, built);
      assert ks == init + [k] && k !in init;
      assert multiset(names + [n])[k] == multiset(names)[k] + if n == k then 1 else 0;
    }
  }

  lemma {:induction false} LookupsLength(built: seq<FieldMap>, names: seq<Str>, ks: seq<Str>)
    requires Distinct(ks) && [] !in ks
    requires forall n :: n in names && n != [] ==> n in ks
    ensures |Lookups(built, names)| == Transfers(ks, names, built)
  {
    if names == [] {
      NoTransfers(ks, built);
    } else {
      var init, n := names[..|names| - 1], names[|names| - 1];
      assert names == init + [n];
      LookupsLength(built, init, ks);
      TransfersOneMore(ks, init, n, built);
    }
  }

  lemma {:induction false} NoTransfers(ks: seq<Str>, built: seq<FieldMap>)
    ensures Transfers(ks, [], built) == 0
  {
    if ks != [] {
      NoTransfers(ks[..|ks| - 1], built);
    }
  }

  function SumOfSquares(ks: seq<Str>, fields: seq<FieldMap>): nat {
    if ks == [] then 0 else
      var n := |Bucket(GqlOf, fields, ks[|ks| - 1])|;
      SumOfSquares(ks[..|ks| - 1], fields) + n * n
  }

  lemma {:induction false} KeyCount(key: FieldMap -> Str, s: seq<FieldMap>, k: Str)
    ensures multiset(Keys(key, s))[k] == |Bucket(key, s, k)|
  {
    if s != [] {
      var init, f := s[..|s| - 1], s[|s| - 1];
      KeyCount(key, init, k);
      assert Keys(key, s) == Keys(key, init) + [key(f)];
    }
  }

  lemma {:induction false} TransfersOfAll(ks: seq<Str>, names: seq<Str>, fields: seq<FieldMap>, built: seq<FieldMap>)
    requires names == Keys(GqlOf, fields) && multiset(fields) == multiset(built)
    ensures Transfers(ks, names, built) == SumOfSquares(ks, built)
  {
    if ks != [] {
      var k := ks[|ks| - 1];
      TransfersOfAll(ks[..|ks| - 1], names, fields, built);
      KeysPermute(GqlOf, fields, built);
      KeyCount(GqlOf, built, k);
      TimesIsProduct(|Bucket(GqlOf, built, k)|, |Bucket(GqlOf, built, k)|);
    }
  }

  /** Outside GraphQL, or for an empty selection: as often as the model has fields of its name. */
  lemma FullRow(ctx: GqlContext, fields: seq<FieldMap>, built: seq<FieldMap>, f: FieldMap)
    requires ctx.Outside? || IsSelection(ctx.collected, [])
    ensures multiset(Row(built, Names(ctx, fields)))[f]
         == if f.gql == [] then multiset(built)[f] else |Bucket(GqlOf, fields, f.gql)| * multiset(built)[f]
  {
    if ctx.Resolving? {
      SelectedExactly(ctx.collected, []);
    }
    KeyCount(GqlOf, fields, f.gql);
    RowCount(built, Keys(GqlOf, fields), f);
  }

  /**
   * Outside GraphQL, or for an empty selection, a query transfers, for each distinct name, the square
   * of the number of fields with that name, and each anonymous field once.
   */
  lemma FullRowLength(ctx: GqlContext, fields: seq<FieldMap>, built: seq<FieldMap>, ks: seq<Str>)
    requires ctx.Outside? || IsSelection(ctx.collected, [])
    requires multiset(fields) == multiset(built)
    requires Distinct(ks)
    requires forall k: Str :: k in ks <==> k != [] && k in Keys(GqlOf, fields)
    ensures |Row(built, Names(ctx, fields))| == SumOfSquares(ks, built) + |Anonymous(built)|
  {
    if ctx.Resolving? {
      SelectedExactly(ctx.collected, []);
    }
    var names := Keys(GqlOf, fields);
    var sorted := SortStrings(names);
    forall n | n in sorted && n != []
      ensures n in ks
    {
      assert n in multiset(sorted);
      assert n in multiset(names);
    }
    LookupsLength(built, sorted, ks);
    SameTransfers(ks, sorted, names, built);
    TransfersOfAll(ks, names, fields, built);
  }

  lemma {:induction false} SameTransfers(ks: seq<Str>, a: seq<Str>, b: seq<Str>, built: seq<FieldMap>)
    requires multiset(a) == multiset(b)
    ensures Transfers(ks, a, built) == Transfers(ks, b, built)
  {
    if ks != [] {
      SameTransfers(ks[..|ks| - 1], a, b, built);
    }
  }
}
