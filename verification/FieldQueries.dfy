/** `Columns` and `Scan` of database/ql.go: the columns a GraphQL selection needs, and where they go. */
module FieldQueries {
  import opened Bytes
  import opened Sorting
  import opened Quoting
  import opened Fields
  import opened RowQueries

  /** A collected GraphQL field with the fields its own selection set collects to. */
  datatype Collected = Collected(name: Str, children: seq<Collected>)

  /** Whether a GraphQL field is being resolved, and if so what its selection set collects to. */
  datatype GqlContext = Outside | Resolving(collected: seq<Collected>)

  const RESULTS: Str := Ascii("results")

  function NameOf(c: Collected): Str { c.name }

  // ----- specification

  /** The children of the first `results` field when there is one: the cursor pattern. */
  function Unwrap(all: seq<Collected>, rest: seq<Collected>): seq<Collected> {
    if rest == [] then all
    else if rest[0].name == RESULTS then rest[0].children
    else Unwrap(all, rest[1..])
  }

  function Selected(ctx: GqlContext): seq<Collected> {
    if ctx.Outside? then [] else Unwrap(ctx.collected, ctx.collected)
  }

  /** The name `results`, byte by byte. */
  predicate IsResults(name: Str) {
    name == [114, 101, 115, 117, 108, 116, 115]
  }

  /** The children of the first field that is named `results`, or all fields if none is. */
  ghost predicate IsSelection(cs: seq<Collected>, sel: seq<Collected>) {
    || (sel == cs && forall i :: 0 <= i < |cs| ==> !IsResults(cs[i].name))
    || (exists i :: 0 <= i < |cs| && sel == cs[i].children && IsResults(cs[i].name)
                    && forall j :: 0 <= j < i ==> !IsResults(cs[j].name))
  }

  lemma {:induction false} UnwrapSelects(cs: seq<Collected>, i: nat)
    requires i <= |cs| && forall j :: 0 <= j < i ==> !IsResults(cs[j].name)
    ensures IsSelection(cs, Unwrap(cs, cs[i..]))
    decreases |cs| - i
  {
    assert RESULTS == [114, 101, 115, 117, 108, 116, 115];
    if i < |cs| && !IsResults(cs[i].name) {
      UnwrapSelects(cs, i + 1);
      assert cs[i..][1..] == cs[i + 1..];
    }
  }

  /** A selection is unwrapped exactly at its first `results` field. */
  lemma SelectedExactly(cs: seq<Collected>, sel: seq<Collected>)
    ensures Selected(Resolving(cs)) == sel <==> IsSelection(cs, sel)
  {
    UnwrapSelects(cs, 0);
    assert cs[0..] == cs;
  }

  /** The requested GQL names; every field of the model when nothing is selected. */
  function Names(ctx: GqlContext, fields: seq<FieldMap>): seq<Str> {
    if Selected(ctx) == [] then Keys(GqlOf, fields) else Keys(NameOf, Selected(ctx))
  }

  function Lookup(built: seq<FieldMap>, name: Str): seq<FieldMap> {
    if name == [] then [] else Bucket(GqlOf, built, name)
  }

  function Lookups(built: seq<FieldMap>, names: seq<Str>): seq<FieldMap> {
    if names == [] then [] else Lookups(built, names[..|names| - 1]) + Lookup(built, names[|names| - 1])
  }

  /** The fields a query transfers, in order: those requested, sorted by name, then the anonymous ones. */
  function Row(built: seq<FieldMap>, names: seq<Str>): seq<FieldMap> {
    Lookups(built, SortStrings(names)) + Anonymous(built)
  }

  /** The SQL text for one field of a model. */
  function ColumnText(alias: Str, table: Str, f: FieldMap): Str {
    if f.gql == [] then WithAlias(if alias == [] then table else alias, f.sql)
    else if DOT in f.sql then f.sql
    else WithAlias(alias, f.sql)
  }

  function Texts(alias: Str, table: Str, s: seq<FieldMap>): (r: seq<Str>)
    ensures |r| == |s|
    ensures forall i :: 0 <= i < |s| ==> r[i] == ColumnText(alias, table, s[i])
  {
    seq(|s|, i requires 0 <= i < |s| => ColumnText(alias, table, s[i]))
  }

  /**
   * What SQL makes of a column: the field's own column, qualified by the alias, or for anonymous fields
   * by the table when there is no alias. Named fields whose SQL name holds a dot are taken as they are.
   */
  lemma ColumnReadBack(alias: Str, table: Str, f: FieldMap)
    ensures f.gql == [] || 0x2e !in f.sql ==>
              var owner := if f.gql == [] && alias == [] then table else alias;
              ReadColumn(ColumnText(alias, table, f))
              == Some((if owner == [] then None else Some(Truncate(owner)), Truncate(f.sql)))
    ensures f.gql != [] && 0x2e in f.sql ==> ColumnText(alias, table, f) == f.sql
  {
    ReadWithAlias(if f.gql == [] && alias == [] then table else alias, f.sql);
  }

  // ----- the code

  method CollectFields(ctx: GqlContext) returns (fields: seq<Collected>)
    ensures fields == Selected(ctx)
    ensures if ctx.Outside? then fields == [] else IsSelection(ctx.collected, fields)
  {
    fields := [];
    if ctx.Resolving? {
      SelectedExactly(ctx.collected, Selected(ctx));
    }
    if ctx.Resolving? {
      fields := ctx.collected;
      var all := fields;
      for i := 0 to |all|
        invariant fields == all
        invariant Selected(ctx) == Unwrap(all, all[i..])
      {
        if all[i].name == RESULTS {
          fields := all[i].children;
          break;
        }
      }
    }
  }

  /** The start of `Columns` and of `Scan`: the selection sorted by name, ties in any order. */
  method SortedSelection(ctx: GqlContext, m: Model) returns (fields: seq<Collected>)
    ensures Keys(NameOf, fields) == SortStrings(Names(ctx, m.fields.Fields[..]))
  {
    fields := CollectFields(ctx);
    if |fields| == 0 {
      var fms := m.fields.All();
      for i := 0 to fms.Length
        invariant Keys(NameOf, fields) == Keys(GqlOf, fms[..i])
      {
        fields := fields + [Collected(fms[i].gql, [])];
      }
      assert fms[..fms.Length] == fms[..];
    }
    ghost var unsorted := fields;
    fields := SortSlice(fields, NameOf);
    SortedKeysUnique(NameOf, unsorted, fields);
  }

  lemma LookupsStep(built: seq<FieldMap>, fields: seq<Collected>, i: nat)
    requires i < |fields|
    ensures Lookups(built, Keys(NameOf, fields)[..i + 1])
         == Lookups(built, Keys(NameOf, fields)[..i]) + Lookup(built, fields[i].name)
  {
    var names := Keys(NameOf, fields);
    assert names[..i + 1][..i] == names[..i];
  }

  lemma PtrsConcat(a: seq<FieldMap>, b: seq<FieldMap>)
    ensures Ptrs(a + b) == Ptrs(a) + Ptrs(b)
  {
  }

  lemma TextsConcat(m: Model, a: seq<FieldMap>, b: seq<FieldMap>)
    ensures Texts(m.alias, m.table, a + b) == Texts(m.alias, m.table, a) + Texts(m.alias, m.table, b)
  {
  }

  /** The loop of `Scan` over the sorted selection. */
  method LookupPtrs(m: Model, fields: seq<Collected>, ghost built: seq<FieldMap>) returns (ptrs: seq<Ptr>)
    requires m.fields.Valid()
    requires built == if m.fields.byGQL.Some? then m.fields.built else m.fields.Fields[..]
    modifies m.fields
    ensures m.fields.Kept() && (m.fields.byGQL.Some? ==> m.fields.built == built)
    ensures ptrs == Ptrs(Lookups(built, Keys(NameOf, fields)))
  {
    var mf := m.fields;
    ptrs := [];
    for i := 0 to |fields|
      invariant mf.Kept() && (mf.byGQL.Some? ==> mf.built == built)
      invariant ptrs == Ptrs(Lookups(built, Keys(NameOf, fields)[..i]))
    {
      var found := mf.GQL(fields[i].name);
      LookupsStep(built, fields, i);
      PtrsConcat(Lookups(built, Keys(NameOf, fields)[..i]), Lookup(built, fields[i].name));
      if found.Some? {
        ptrs := ptrs + Ptrs(found.value);
      }
    }
    assert Keys(NameOf, fields)[..|fields|] == Keys(NameOf, fields);
  }

  method Scan(ctx: GqlContext, m: Model) returns (ptrs: seq<Ptr>)
    requires m.fields.Valid()
    modifies m.fields
    ensures m.fields.Kept() && m.fields.byGQL.Some?
    ensures old(m.fields.byGQL.None?) ==> m.fields.built == m.fields.Fields[..]
    ensures ptrs == Ptrs(Row(m.fields.built, Names(ctx, m.fields.Fields[..])))
  {
    var fields := SortedSelection(ctx, m);
    ghost var built := if m.fields.byGQL.Some? then m.fields.built else m.fields.Fields[..];
    ptrs := LookupPtrs(m, fields, built);
    var anonymous := m.fields.AnonymousFields();
    PtrsConcat(Lookups(built, Keys(NameOf, fields)), anonymous);
    ptrs := ptrs + Ptrs(anonymous);
  }

  /** The columns of one bucket: names that hold a dot are used as they are. */
  method BucketColumns(m: Model, bucket: seq<FieldMap>) returns (cols: seq<Str>)
    requires forall f :: f in bucket ==> f.gql != []
    ensures cols == Texts(m.alias, m.table, bucket)
  {
    cols := [];
    for i := 0 to |bucket|
      invariant cols == Texts(m.alias, m.table, bucket[..i])
    {
      assert bucket[i] in bucket && bucket[..i + 1] == bucket[..i] + [bucket[i]];
      TextsConcat(m, bucket[..i], [bucket[i]]);
      var sql := bucket[i].sql;
      if DOT !in sql {
        sql := WithAlias(m.alias, bucket[i].sql);
      }
      cols := cols + [sql];
    }
    assert bucket[..|bucket|] == bucket;
  }

  method AnonymousColumns(m: Model, fields: seq<FieldMap>) returns (cols: seq<Str>)
    requires forall f :: f in fields ==> f.gql == []
    ensures cols == Texts(m.alias, m.table, fields)
  {
    cols := [];
    for i := 0 to |fields|
      invariant cols == Texts(m.alias, m.table, fields[..i])
    {
      assert fields[i] in fields && fields[..i + 1] == fields[..i] + [fields[i]];
      TextsConcat(m, fields[..i], [fields[i]]);
      var alias := m.alias;
      if alias == [] {
        alias := m.table;
      }
      cols := cols + [WithAlias(alias, fields[i].sql)];
    }
    assert fields[..|fields|] == fields;
  }

  /** The loop of `Columns` over the sorted selection. */
  method LookupColumns(m: Model, fields: seq<Collected>, ghost built: seq<FieldMap>) returns (cols: seq<Str>)
    requires m.fields.Valid()
    requires built == if m.fields.byGQL.Some? then m.fields.built else m.fields.Fields[..]
    modifies m.fields
    ensures m.fields.Kept() && (m.fields.byGQL.Some? ==> m.fields.built == built)
    ensures cols == Texts(m.alias, m.table, Lookups(built, Keys(NameOf, fields)))
  {
    var mf := m.fields;
    cols := [];
    for i := 0 to |fields|
      invariant mf.Kept() && (mf.byGQL.Some? ==> mf.built == built)
      invariant cols == Texts(m.alias, m.table, Lookups(built, Keys(NameOf, fields)[..i]))
    {
      var found := mf.GQL(fields[i].name);
      LookupsStep(built, fields, i);
      TextsConcat(m, Lookups(built, Keys(NameOf, fields)[..i]), Lookup(built, fields[i].name));
      if found.Some? {
        BucketElements(GqlOf, built, fields[i].name);
        var more := BucketColumns(m, found.value);
        cols := cols + more;
      }
    }
    assert Keys(NameOf, fields)[..|fields|] == Keys(NameOf, fields);
  }

  method Columns(ctx: GqlContext, m: Model) returns (cols: seq<Str>)
    requires m.fields.Valid()
    modifies m.fields
    ensures m.fields.Kept() && m.fields.byGQL.Some?
    ensures old(m.fields.byGQL.None?) ==> m.fields.built == m.fields.Fields[..]
    ensures cols == Texts(m.alias, m.table, Row(m.fields.built, Names(ctx, m.fields.Fields[..])))
  {
    var fields := SortedSelection(ctx, m);
    ghost var built := if m.fields.byGQL.Some? then m.fields.built else m.fields.Fields[..];
    cols := LookupColumns(m, fields, built);
    var anonymous := m.fields.AnonymousFields();
    BucketElements(GqlOf, built, []);
    var more := AnonymousColumns(m, anonymous);
    TextsConcat(m, Lookups(built, Keys(NameOf, fields)), anonymous);
    cols := cols + more;
  }
}
