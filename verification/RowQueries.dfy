/** `SelectAll` and `ScanAll` of database/sq.go: a column list and a pointer list built independently. */
module RowQueries {
  import opened Bytes
  import opened Sorting
  import opened Sublists
  import opened Quoting
  import opened Fields

  function AliasedKey(alias: Str): FieldMap -> Str {
    (f: FieldMap) => WithAlias(alias, f.sql)
  }

  /** The aliased column of each field. */
  function Aliased(alias: Str, s: seq<FieldMap>): seq<Str> {
    Keys(AliasedKey(alias), s)
  }

  function Ptrs(s: seq<FieldMap>): (r: seq<Ptr>)
    ensures |r| == |s|
    ensures forall i :: 0 <= i < |s| ==> r[i] == s[i].ptr
  {
    seq(|s|, i requires 0 <= i < |s| => s[i].ptr)
  }

  /** The fields that have an SQL column. */
  function WithColumn(s: seq<FieldMap>): (r: seq<FieldMap>)
    ensures |r| <= |s|
  {
    if s == [] then []
    else WithColumn(s[..|s| - 1]) + if s[|s| - 1].sql != [] then [s[|s| - 1]] else []
  }

  predicate HasColumn(f: FieldMap) {
    f.sql != []
  }

  lemma {:induction false} WithColumnFilters(s: seq<FieldMap>)
    ensures WithColumn(s) == Filter(s, HasColumn)
  {
    if s != [] {
      WithColumnFilters(s[..|s| - 1]);
    }
  }

  /** Only the fields without SQL name are left out, and the others keep their order. */
  lemma WithColumnInOrder(s: seq<FieldMap>) returns (at: seq<nat>)
    ensures SublistAt(WithColumn(s), s, HasColumn, at)
  {
    WithColumnFilters(s);
    at := FilterInOrder(s, HasColumn);
  }

  lemma AliasedConcat(alias: Str, m: Index, ks: seq<Str>, k: Str)
    requires k in m && forall k :: k in ks ==> k in m
    ensures Aliased(alias, Concat(m, ks + [k])) == Aliased(alias, Concat(m, ks)) + Aliased(alias, m[k])
  {
    assert (ks + [k])[..|ks|] == ks;
  }

  /** The inner loop of `SelectAll`: the same column once for each field of the bucket. */
  method RepeatColumn(cols: seq<Str>, alias: Str, col: Str, bucket: seq<FieldMap>) returns (r: seq<Str>)
    requires forall f :: f in bucket ==> f.sql == col
    ensures r == cols + Aliased(alias, bucket)
  {
    r := cols;
    for i := 0 to |bucket|
      invariant r == cols + Aliased(alias, bucket[..i])
    {
      assert bucket[i] in bucket;
      assert bucket[..i + 1] == bucket[..i] + [bucket[i]];
      r := r + [WithAlias(alias, col)];
    }
    assert bucket[..|bucket|] == bucket;
  }

  /** The `range` over the SQL index, in any order. */
  method RangeColumns(alias: Str, bySQL: Index, ghost built: seq<FieldMap>) returns (cols: seq<Str>)
    requires IsIndex(bySQL, SqlOf, built, true)
    ensures multiset(cols) == multiset(Aliased(alias, built))
  {
    cols := [];
    var pending := bySQL.Keys;
    ghost var done: seq<Str> := [];
    while pending != {}
      invariant pending <= bySQL.Keys
      invariant Distinct(done) && forall k :: k in done <==> k in bySQL && k !in pending
      invariant cols == Aliased(alias, Concat(bySQL, done))
      decreases |pending|
    {
      var col :| col in pending;
      pending := pending - {col};
      BucketElements(SqlOf, built, col);
      cols := RepeatColumn(cols, alias, col, bySQL[col]);
      AliasedConcat(alias, bySQL, done, col);
      done := done + [col];
    }
    SqlIndexPartitions(bySQL, built, done);
    KeysPermute(AliasedKey(alias), Concat(bySQL, done), built);
  }

  method SelectAll(m: Model) returns (cols: seq<Str>)
    requires m.fields.Valid()
    modifies m.fields
    ensures m.fields.Kept() && m.fields.byGQL.Some?
    ensures old(m.fields.byGQL.None?) ==> m.fields.built == m.fields.Fields[..]
    ensures Sorted(cols)
    ensures multiset(cols) == multiset(Aliased(m.alias, m.fields.Fields[..]))
  {
    var mf := m.fields;
    mf.BuildCache();
    IndexOfIsIndex(SqlOf, mf.built, true);
    cols := RangeColumns(m.alias, mf.bySQL.value, mf.built);
    KeysPermute(AliasedKey(m.alias), mf.built, mf.Fields[..]);
    cols := SortSlice(cols, Self);
    assert Keys(Self, cols) == cols;
  }

  method ScanAll(m: Model) returns (ptrs: seq<Ptr>)
    requires m.fields.Valid()
    modifies m.fields.Fields
    ensures m.fields.Kept()
    ensures SortedBy(SqlOf, m.fields.Fields[..])
    ensures ptrs == Ptrs(WithColumn(m.fields.Fields[..]))
  {
    var fms := m.fields.All();
    SortArray(fms, SqlOf);
    ptrs := [];
    for i := 0 to fms.Length
      invariant ptrs == Ptrs(WithColumn(fms[..i]))
    {
      assert fms[..i + 1][..i] == fms[..i];
      if fms[i].sql != [] {
        ptrs := ptrs + [fms[i].ptr];
      }
    }
    assert fms[..fms.Length] == fms[..];
  }

  // ----- when the two lists line up

  /** Column `i` names the field whose pointer is `i`, for every `i`. */
  ghost predicate Aligned(alias: Str, cols: seq<Str>, fields: seq<FieldMap>) {
    && |cols| == |fields|
    && forall i :: 0 <= i < |cols| ==> cols[i] == WithAlias(alias, fields[i].sql)
  }

  /** Every field has a column, and no column name extends another by a byte below the quotation mark. */
  ghost predicate Alignable(fields: seq<FieldMap>) {
    && (forall f :: f in fields ==> f.sql != [])
    && (forall f, g :: f in fields && g in fields ==> !ExtendsLow(Truncate(f.sql), Truncate(g.sql)))
  }

  lemma {:induction false} WithColumnAll(s: seq<FieldMap>)
    ensures WithColumn(s) == s <==> forall f :: f in s ==> f.sql != []
    ensures |WithColumn(s)| == |s| <==> forall f :: f in s ==> f.sql != []
  {
    if s != [] {
      var init, f := s[..|s| - 1], s[|s| - 1];
      WithColumnAll(init);
      assert s == init + [f];
      assert f in s && forall g :: g in init ==> g in s;
    }
  }

  lemma AliasedSorted(alias: Str, fields: seq<FieldMap>)
    requires SortedBy(SqlOf, fields) && Alignable(fields)
    ensures Sorted(Aliased(alias, fields))
  {
    forall i, j | 0 <= i < j < |fields|
      ensures Leq(Aliased(alias, fields)[i], Aliased(alias, fields)[j])
    {
      assert Leq(Keys(SqlOf, fields)[i], Keys(SqlOf, fields)[j]);
      assert fields[i] in fields && fields[j] in fields;
      WithAliasOrder(alias, fields[i].sql, fields[j].sql);
    }
  }

  lemma AliasedUnsorted(alias: Str, fields: seq<FieldMap>, f: FieldMap, g: FieldMap)
    requires SortedBy(SqlOf, fields)
    requires f in fields && g in fields && ExtendsLow(Truncate(f.sql), Truncate(g.sql))
    ensures !Sorted(Aliased(alias, fields))
  {
    ExtendsLowAfter(f.sql, g.sql);
    var i :| 0 <= i < |fields| && fields[i] == f;
    var j :| 0 <= j < |fields| && fields[j] == g;
    if j < i {
      assert Leq(Keys(SqlOf, fields)[j], Keys(SqlOf, fields)[i]);
      LeqAntisymmetric(f.sql, g.sql);
    }
    WithAliasOrder(alias, f.sql, g.sql);
    assert !Leq(Aliased(alias, fields)[i], Aliased(alias, fields)[j]);
  }

  /** When every field has a column: the two lists line up exactly when quoting keeps the order of the names. */
  lemma AlignedWhenNamed(alias: Str, cols: seq<Str>, fields: seq<FieldMap>)
    requires Sorted(cols) && multiset(cols) == multiset(Aliased(alias, fields))
    requires SortedBy(SqlOf, fields)
    requires forall f :: f in fields ==> f.sql != []
    ensures cols == Aliased(alias, fields) <==> Alignable(fields)
  {
    if Alignable(fields) {
      AliasedSorted(alias, fields);
      SortedUnique(cols, Aliased(alias, fields));
    } else {
      var f, g :| f in fields && g in fields && ExtendsLow(Truncate(f.sql), Truncate(g.sql));
      AliasedUnsorted(alias, fields, f, g);
    }
  }

  /**
   * The sorted columns of a model and its fields sorted by name line up exactly when the model is
   * alignable, whatever order the index was ranged over and however the two sorts broke ties.
   */
  lemma AlignedExactly(alias: Str, cols: seq<Str>, fields: seq<FieldMap>)
    requires Sorted(cols) && multiset(cols) == multiset(Aliased(alias, fields))
    requires SortedBy(SqlOf, fields)
    ensures Aligned(alias, cols, WithColumn(fields)) <==> Alignable(fields)
  {
    assert |cols| == |multiset(cols)| == |multiset(Aliased(alias, fields))| == |fields|;
    WithColumnAll(fields);
    if forall f :: f in fields ==> f.sql != [] {
      AlignedWhenNamed(alias, cols, fields);
      AlignedIsEqual(alias, cols, fields);
    }
  }

  lemma AlignedIsEqual(alias: Str, cols: seq<Str>, fields: seq<FieldMap>)
    ensures Aligned(alias, cols, fields) <==> cols == Aliased(alias, fields)
  {
  }

  const EXTENDED := [FieldMap([97], [97], 0), FieldMap([97, 33], [98], 1)]
  const NAMELESS := [FieldMap([], [97], 0)]

  lemma NotAlignable()
    ensures !Alignable(EXTENDED) && !Alignable(NAMELESS)
  {
    assert EXTENDED[0] in EXTENDED && EXTENDED[1] in EXTENDED && NAMELESS[0] in NAMELESS;
    assert Truncate([97]) == [97] && Truncate([97, 33]) == [97, 33];
  }

  /** The columns `a` and `a!` do not line up under any alias, and neither does a field without column. */
  lemma MisalignedFields(alias: Str)
    ensures !Aligned(alias, SortStrings(Aliased(alias, EXTENDED)), WithColumn(EXTENDED))
    ensures !Aligned(alias, SortStrings(Aliased(alias, NAMELESS)), WithColumn(NAMELESS))
  {
    NotAlignable();
    assert SortedBy(SqlOf, EXTENDED);
    AlignedExactly(alias, SortStrings(Aliased(alias, EXTENDED)), EXTENDED);
    AlignedExactly(alias, SortStrings(Aliased(alias, NAMELESS)), NAMELESS);
  }

  /** Names without bytes below the quotation mark line up. */
  lemma PrintableNamesAlignable(fields: seq<FieldMap>)
    requires forall f :: f in fields ==> f.sql != [] && forall b :: b in f.sql ==> b > QUOTE
    ensures Alignable(fields)
  {
    forall f, g | f in fields && g in fields
      ensures !ExtendsLow(Truncate(f.sql), Truncate(g.sql))
    {
      TruncateBytes(g.sql);
    }
  }

  lemma AlignablePermute(a: seq<FieldMap>, b: seq<FieldMap>)
    requires multiset(a) == multiset(b)
    ensures Alignable(a) <==> Alignable(b)
  {
    assert forall f :: f in a <==> f in multiset(a);
    assert forall f :: f in b <==> f in multiset(b);
  }

  /** A row query: `SelectAll` for the columns, `ScanAll` for where the row goes. */
  method SelectThenScan(m: Model) returns (cols: seq<Str>, ptrs: seq<Ptr>)
    requires m.fields.Valid()
    modifies m.fields, m.fields.Fields
    ensures m.fields.Kept()
    ensures ptrs == Ptrs(WithColumn(m.fields.Fields[..]))
    ensures Aligned(m.alias, cols, WithColumn(m.fields.Fields[..])) <==> Alignable(old(m.fields.Fields[..]))
  {
    cols := SelectAll(m);
    ghost var before := m.fields.Fields[..];
    ptrs := ScanAll(m);
    KeysPermute(AliasedKey(m.alias), before, m.fields.Fields[..]);
    AlignedExactly(m.alias, cols, m.fields.Fields[..]);
    AlignablePermute(old(m.fields.Fields[..]), m.fields.Fields[..]);
  }
}
