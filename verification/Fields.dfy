/** The field map of a model and its lazily built indexes: `ModelFields` of database/sq.go. */
module Fields {
  import opened Bytes
  import opened Sorting
  import opened Sublists

  /** Where the database driver puts a value. */
  type Ptr = nat

  datatype FieldMap = FieldMap(sql: Str, gql: Str, ptr: Ptr)

  type Index = map<Str, seq<FieldMap>>

  function SqlOf(f: FieldMap): Str { f.sql }

  function GqlOf(f: FieldMap): Str { f.gql }

  /** The fields whose key is `k`, in order. */
  function Bucket(key: FieldMap -> Str, s: seq<FieldMap>, k: Str): seq<FieldMap> {
    if s == [] then []
    else Bucket(key, s[..|s| - 1], k) + if key(s[|s| - 1]) == k then [s[|s| - 1]] else []
  }

  function Anonymous(s: seq<FieldMap>): seq<FieldMap> {
    Bucket(GqlOf, s, [])
  }

  /** `m` holds the bucket of every key that occurs in `s`, leaving the empty key out unless `withEmpty`. */
  ghost predicate IsIndex(m: Index, key: FieldMap -> Str, s: seq<FieldMap>, withEmpty: bool) {
    && (forall k: Str :: k in m <==> (withEmpty || k != []) && Bucket(key, s, k) != [])
    && (forall k :: k in m ==> m[k] == Bucket(key, s, k))
  }

  lemma BucketSnoc(key: FieldMap -> Str, s: seq<FieldMap>, f: FieldMap, k: Str)
    ensures Bucket(key, s + [f], k) == Bucket(key, s, k) + if key(f) == k then [f] else []
  {
    assert (s + [f])[..|s|] == s;
  }

  lemma {:induction false} BucketElements(key: FieldMap -> Str, s: seq<FieldMap>, k: Str)
    ensures forall f :: f in Bucket(key, s, k) <==> f in s && key(f) == k
  {
    if s != [] {
      BucketElements(key, s[..|s| - 1], k);
      assert s == s[..|s| - 1] + [s[|s| - 1]];
    }
  }

  function Carrying(key: FieldMap -> Str, k: Str): FieldMap -> bool {
    (f: FieldMap) => key(f) == k
  }

  lemma {:induction false} BucketFilters(key: FieldMap -> Str, s: seq<FieldMap>, k: Str)
    ensures Bucket(key, s, k) == Filter(s, Carrying(key, k))
  {
    if s != [] {
      BucketFilters(key, s[..|s| - 1], k);
    }
  }

  /** A bucket holds the fields with its key, each once, in the order of the fields. */
  lemma BucketInOrder(key: FieldMap -> Str, s: seq<FieldMap>, k: Str) returns (at: seq<nat>)
    ensures SublistAt(Bucket(key, s, k), s, Carrying(key, k), at)
  {
    BucketFilters(key, s, k);
    at := FilterInOrder(s, Carrying(key, k));
  }

  /** One round of the loop of `buildCache` for one of the maps. */
  function AddTo(m: Index, k: Str, f: FieldMap): Index {
    m[k := (if k in m then m[k] else []) + [f]]
  }

  /** The map that `buildCache` ends with for the fields `s`. */
  function IndexOf(key: FieldMap -> Str, s: seq<FieldMap>, withEmpty: bool): Index {
    if s == [] then map[] else
      var m, f := IndexOf(key, s[..|s| - 1], withEmpty), s[|s| - 1];
      if withEmpty || key(f) != [] then AddTo(m, key(f), f) else m
  }

  lemma IndexOfSnoc(key: FieldMap -> Str, s: seq<FieldMap>, f: FieldMap, e: bool)
    ensures IndexOf(key, s + [f], e)
         == if e || key(f) != [] then AddTo(IndexOf(key, s, e), key(f), f) else IndexOf(key, s, e)
  {
    assert (s + [f])[..|s|] == s;
  }

  /** The map holds, for each key, the ordered sublist of the fields with that key, and no empty list. */
  lemma {:induction false} IndexOfIsIndex(key: FieldMap -> Str, s: seq<FieldMap>, e: bool)
    ensures IsIndex(IndexOf(key, s, e), key, s, e)
  {
    if s != [] {
      IndexOfIsIndex(key, s[..|s| - 1], e);
    }
  }

  // ----- the buckets partition the fields

  ghost predicate Distinct<T>(s: seq<T>) {
    forall i, j :: 0 <= i < j < |s| ==> s[i] != s[j]
  }

  /** The buckets of the listed keys, one after the other. */
  function Gather(key: FieldMap -> Str, s: seq<FieldMap>, ks: seq<Str>): seq<FieldMap> {
    if ks == [] then [] else Gather(key, s, ks[..|ks| - 1]) + Bucket(key, s, ks[|ks| - 1])
  }

  lemma GatherSnoc(key: FieldMap -> Str, s: seq<FieldMap>, ks: seq<Str>, k: Str)
    ensures Gather(key, s, ks + [k]) == Gather(key, s, ks) + Bucket(key, s, k)
  {
    assert (ks + [k])[..|ks|] == ks;
  }

  lemma ConcatAdds<T>(g: seq<T>, g': seq<T>, b: seq<T>, b': seq<T>, x: multiset<T>, y: multiset<T>)
    requires multiset(g') == multiset(g) + x && multiset(b') == multiset(b) + y
    ensures multiset(g' + b') == multiset(g + b) + (x + y)
  {
  }

  lemma {:induction false} GatherOneMore(key: FieldMap -> Str, s: seq<FieldMap>, f: FieldMap, ks: seq<Str>)
    requires Distinct(ks)
    ensures multiset(Gather(key, s + [f], ks))
         == multiset(Gather(key, s, ks)) + if key(f) in ks then multiset{f} else multiset{}
  {
    if ks != [] {
      var init, k := ks[..|ks| - 1], ks[|ks| - 1];
      assert ks == init + [k] && k !in init;
      GatherOneMore(key, s, f, init);
      BucketSnoc(key, s, f, k);
      var x := if key(f) in init then multiset{f} else multiset{};
      var y := if key(f) == k then multiset{f} else multiset{};
      assert x + y == if key(f) in ks then multiset{f} else multiset{};
      ConcatAdds(Gather(key, s, init), Gather(key, s + [f], init), Bucket(key, s, k), Bucket(key, s + [f], k), x, y);
    }
  }

  /** Listing each occurring key once lists each field once. */
  lemma {:induction false} GatherAll(key: FieldMap -> Str, s: seq<FieldMap>, ks: seq<Str>)
    requires Distinct(ks)
    requires forall f :: f in s ==> key(f) in ks
    ensures multiset(Gather(key, s, ks)) == multiset(s)
  {
    if s == [] {
      GatherNothing(key, ks);
    } else {
      var t, f := s[..|s| - 1], s[|s| - 1];
      assert s == t + [f];
      GatherAll(key, t, ks);
      GatherOneMore(key, t, f, ks);
    }
  }

  lemma {:induction false} GatherNothing(key: FieldMap -> Str, ks: seq<Str>)
    ensures Gather(key, [], ks) == []
  {
    if ks != [] {
      GatherNothing(key, ks[..|ks| - 1]);
    }
  }

  /** The stored lists of an index in some order of its keys, as a `range` over the map gives them. */
  function Concat(m: Index, ks: seq<Str>): seq<FieldMap>
    requires forall k :: k in ks ==> k in m
  {
    if ks == [] then [] else Concat(m, ks[..|ks| - 1]) + m[ks[|ks| - 1]]
  }

  ghost predicate Enumerates<V>(ks: seq<Str>, m: map<Str, V>) {
    Distinct(ks) && forall k :: k in ks <==> k in m
  }

  lemma {:induction false} ConcatIsGather(m: Index, key: FieldMap -> Str, s: seq<FieldMap>, e: bool, ks: seq<Str>)
    requires IsIndex(m, key, s, e)
    requires forall k :: k in ks ==> k in m
    ensures Concat(m, ks) == Gather(key, s, ks)
  {
    if ks != [] {
      ConcatIsGather(m, key, s, e, ks[..|ks| - 1]);
    }
  }

  /** In whatever order the map is ranged over, the SQL index holds every field exactly once. */
  lemma SqlIndexPartitions(m: Index, s: seq<FieldMap>, ks: seq<Str>)
    requires IsIndex(m, SqlOf, s, true) && Enumerates(ks, m)
    ensures multiset(Concat(m, ks)) == multiset(s)
  {
    ConcatIsGather(m, SqlOf, s, true, ks);
    forall f | f in s
      ensures SqlOf(f) in ks
    {
      BucketElements(SqlOf, s, f.sql);
    }
    GatherAll(SqlOf, s, ks);
  }

  /** The GQL index and the anonymous list together hold every field exactly once. */
  lemma GqlIndexPartitions(m: Index, s: seq<FieldMap>, ks: seq<Str>)
    requires IsIndex(m, GqlOf, s, false) && Enumerates(ks, m)
    ensures multiset(Concat(m, ks)) + multiset(Anonymous(s)) == multiset(s)
  {
    ConcatIsGather(m, GqlOf, s, false, ks);
    var all: seq<Str> := ks + [[]];
    forall f | f in s
      ensures GqlOf(f) in all
    {
      BucketElements(GqlOf, s, f.gql);
      assert all[|ks|] == [];
      assert f.gql in ks ==> f.gql in all;
    }
    assert [] !in ks;
    GatherAll(GqlOf, s, all);
    GatherSnoc(GqlOf, s, ks, []);
  }

  // ----- the object

  class ModelFields {
    const Fields: array<FieldMap>
    var byGQL: Option<Index>
    var bySQL: Option<Index>
    var anon: seq<FieldMap>
    /** The fields, in their order at the time the indexes were built. */
    ghost var built: seq<FieldMap>

    ghost predicate Valid()
      reads this, Fields
    {
      && (byGQL.None? <==> bySQL.None?)
      && (byGQL.None? ==> anon == [])
      && (byGQL.Some? ==>
            && byGQL.value == IndexOf(GqlOf, built, false)
            && bySQL.value == IndexOf(SqlOf, built, true)
            && anon == Anonymous(built)
            && multiset(built) == multiset(Fields[..]))
    }

    ghost function Cache(): (Option<Index>, Option<Index>, seq<FieldMap>, seq<FieldMap>)
      reads this
    {
      (byGQL, bySQL, anon, built)
    }

    /** What every operation on the object keeps. */
    twostate predicate Kept()
      reads this, Fields
    {
      && Valid()
      && multiset(Fields[..]) == old(multiset(Fields[..]))
      && (old(byGQL.Some?) ==> Cache() == old(Cache()))
    }

    constructor (fields: array<FieldMap>)
      ensures Valid() && Fields == fields && byGQL.None?
    {
      Fields := fields;
      byGQL, bySQL, anon, built := None, None, [], [];
    }

    /** The body of the loop of `BuildCache`. */
    method AddField(f: FieldMap)
      requires byGQL.Some? && bySQL.Some?
      modifies `byGQL, `bySQL, `anon
      ensures byGQL.Some? && byGQL.value == if f.gql != [] then AddTo(old(byGQL.value), f.gql, f) else old(byGQL.value)
      ensures bySQL.Some? && bySQL.value == AddTo(old(bySQL.value), f.sql, f)
      ensures anon == old(anon) + if f.gql == [] then [f] else []
    {
      if f.gql != [] {
        if f.gql !in byGQL.value {
          byGQL := Some(byGQL.value[f.gql := []]);
        }
        byGQL := Some(byGQL.value[f.gql := byGQL.value[f.gql] + [f]]);
      } else {
        anon := anon + [f];
      }
      if f.sql !in bySQL.value {
        bySQL := Some(bySQL.value[f.sql := []]);
      }
      bySQL := Some(bySQL.value[f.sql := bySQL.value[f.sql] + [f]]);
    }

    method BuildCache()
      requires Valid()
      modifies this
      ensures Kept() && byGQL.Some?
      ensures old(byGQL.None?) ==> built == Fields[..]
    {
      if byGQL.Some? && bySQL.Some? {
        return;
      }
      byGQL, bySQL, built := Some(map[]), Some(map[]), Fields[..];
      for i := 0 to Fields.Length
        invariant built == Fields[..]
        invariant byGQL.Some? && byGQL.value == IndexOf(GqlOf, Fields[..i], false)
        invariant bySQL.Some? && bySQL.value == IndexOf(SqlOf, Fields[..i], true)
        invariant anon == Anonymous(Fields[..i])
      {
        var f := Fields[i];
        assert Fields[..i + 1] == Fields[..i] + [f];
        IndexOfSnoc(GqlOf, Fields[..i], f, false);
        IndexOfSnoc(SqlOf, Fields[..i], f, true);
        BucketSnoc(GqlOf, Fields[..i], f, []);
        AddField(f);
      }
      assert Fields[..Fields.Length] == Fields[..];
    }

    method GQL(name: Str) returns (r: Option<seq<FieldMap>>)
      requires Valid()
      modifies this
      ensures Kept() && byGQL.Some?
      ensures old(byGQL.None?) ==> built == Fields[..]
      ensures r == if name != [] && Bucket(GqlOf, built, name) != [] then Some(Bucket(GqlOf, built, name)) else None
    {
      BuildCache();
      IndexOfIsIndex(GqlOf, built, false);
      r := if name in byGQL.value then Some(byGQL.value[name]) else None;
    }

    method SQL(name: Str) returns (r: Option<seq<FieldMap>>)
      requires Valid()
      modifies this
      ensures Kept() && byGQL.Some?
      ensures old(byGQL.None?) ==> built == Fields[..]
      ensures r == if Bucket(SqlOf, built, name) != [] then Some(Bucket(SqlOf, built, name)) else None
    {
      BuildCache();
      IndexOfIsIndex(SqlOf, built, true);
      r := if name in bySQL.value then Some(bySQL.value[name]) else None;
    }

    /** The list itself, not a copy: sorting the result reorders the fields. */
    method All() returns (r: array<FieldMap>)
      ensures r == Fields
    {
      r := Fields;
    }

    method AnonymousFields() returns (r: seq<FieldMap>)
      requires Valid()
      modifies this
      ensures Kept() && byGQL.Some?
      ensures old(byGQL.None?) ==> built == Fields[..]
      ensures r == Anonymous(built)
    {
      BuildCache();
      r := anon;
    }
  }

  /**
   * In every valid state whose indexes are built, for every order of ranging over the maps, the
   * GQL lists with the anonymous list, and separately the SQL lists, hold the current fields
   * exactly once each, however the fields have been reordered since.
   */
  lemma IndexesHoldFields(mf: ModelFields, gqlKeys: seq<Str>, sqlKeys: seq<Str>)
    requires mf.Valid() && mf.byGQL.Some?
    requires Enumerates(gqlKeys, mf.byGQL.value) && Enumerates(sqlKeys, mf.bySQL.value)
    ensures multiset(Concat(mf.byGQL.value, gqlKeys)) + multiset(mf.anon) == multiset(mf.Fields[..])
    ensures multiset(Concat(mf.bySQL.value, sqlKeys)) == multiset(mf.Fields[..])
  {
    IndexOfIsIndex(GqlOf, mf.built, false);
    IndexOfIsIndex(SqlOf, mf.built, true);
    GqlIndexPartitions(mf.byGQL.value, mf.built, gqlKeys);
    SqlIndexPartitions(mf.bySQL.value, mf.built, sqlKeys);
  }

  datatype Model = Model(alias: Str, table: Str, fields: ModelFields)
}
