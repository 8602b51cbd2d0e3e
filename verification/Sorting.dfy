/**
 * `sort.Slice` and `sort.Strings`: callers may rely on a sorted permutation and on nothing about
 * the order of entries whose keys are equal.
 */
module Sorting {
  import opened Bytes

  ghost predicate Sorted(s: seq<Str>) {
    forall i, j :: 0 <= i < j < |s| ==> Leq(s[i], s[j])
  }

  function Keys<T>(key: T -> Str, s: seq<T>): (r: seq<Str>)
    ensures |r| == |s|
    ensures forall i :: 0 <= i < |s| ==> r[i] == key(s[i])
  {
    seq(|s|, i requires 0 <= i < |s| => key(s[i]))
  }

  ghost predicate SortedBy<T>(key: T -> Str, s: seq<T>) {
    Sorted(Keys(key, s))
  }

  function Insert<T>(key: T -> Str, x: T, s: seq<T>): (r: seq<T>)
    requires SortedBy(key, s)
    ensures SortedBy(key, r)
    ensures multiset(r) == multiset(s) + multiset{x}
  {
    if s == [] then [x]
    else if Leq(key(x), key(s[0])) then
      assert SortedBy(key, [x] + s) by {
        assert Keys(key, s)[0] == key(s[0]);
        forall i, j | 0 <= i < j < |s| + 1
          ensures Leq(Keys(key, [x] + s)[i], Keys(key, [x] + s)[j])
        {
          if i == 0 && j > 1 {
            assert Leq(Keys(key, s)[0], Keys(key, s)[j - 1]);
            LeqTransitive(key(x), key(s[0]), key(s[j - 1]));
          } else if i > 0 {
            assert Leq(Keys(key, s)[i - 1], Keys(key, s)[j - 1]);
          }
        }
      }
      [x] + s
    else
      assert SortedBy(key, s[1..]) by { TailSorted(key, s); }
      var t := Insert(key, x, s[1..]);
      assert s == [s[0]] + s[1..];
      assert SortedBy(key, [s[0]] + t) by { ConsSorted(key, s, x, t); }
      [s[0]] + t
  }

  lemma TailSorted<T>(key: T -> Str, s: seq<T>)
    requires SortedBy(key, s) && s != []
    ensures SortedBy(key, s[1..])
  {
    var k := Keys(key, s);
    assert Keys(key, s[1..]) == k[1..];
    forall i, j | 0 <= i < j < |k| - 1
      ensures Leq(k[1..][i], k[1..][j])
    {
      assert k[1..][i] == k[i + 1] && k[1..][j] == k[j + 1];
    }
  }

  lemma ConsSorted<T>(key: T -> Str, s: seq<T>, x: T, t: seq<T>)
    requires SortedBy(key, s) && s != [] && !Leq(key(x), key(s[0]))
    requires SortedBy(key, t) && multiset(t) == multiset(s[1..]) + multiset{x}
    ensures SortedBy(key, [s[0]] + t)
  {
    var u := [s[0]] + t;
    forall i, j | 0 <= i < j < |u|
      ensures Leq(Keys(key, u)[i], Keys(key, u)[j])
    {
      if i == 0 {
        LeqTotal(key(x), key(s[0]));
        assert t[j - 1] in multiset(t);
        if t[j - 1] != x {
          assert t[j - 1] in multiset(s[1..]);
          var m :| 0 <= m < |s[1..]| && s[1..][m] == t[j - 1];
          assert Leq(Keys(key, s)[0], Keys(key, s)[m + 1]);
        }
      } else {
        assert Leq(Keys(key, t)[i - 1], Keys(key, t)[j - 1]);
      }
    }
  }

  /** One of the sorted permutations of `s`. */
  function SortBy<T>(key: T -> Str, s: seq<T>): (r: seq<T>)
    ensures SortedBy(key, r)
    ensures multiset(r) == multiset(s)
  {
    if s == [] then [] else
      assert s == s[..|s| - 1] + [s[|s| - 1]];
      Insert(key, s[|s| - 1], SortBy(key, s[..|s| - 1]))
  }

  function Self(s: Str): Str { s }

  /** The sorted list of strings with the elements of `s`. */
  function SortStrings(s: seq<Str>): (r: seq<Str>)
    ensures Sorted(r)
    ensures multiset(r) == multiset(s)
  {
    var r := SortBy(Self, s);
    assert Keys(Self, r) == r;
    r
  }

  /** The first entry of a sorted list is at most every entry. */
  lemma SortedHead(s: seq<Str>, x: Str)
    requires Sorted(s) && x in s
    ensures Leq(s[0], x)
  {
    var i :| 0 <= i < |s| && s[i] == x;
    LeqTotal(x, x);
  }

  lemma TailMultiset<T>(s: seq<T>)
    requires s != []
    ensures multiset(s) == multiset{s[0]} + multiset(s[1..])
  {
    assert s == [s[0]] + s[1..];
  }

  lemma SameHead(a: seq<Str>, b: seq<Str>)
    requires Sorted(a) && Sorted(b) && multiset(a) == multiset(b) && a != [] && b != []
    ensures a[0] == b[0]
  {
    assert a[0] in multiset(b) && b[0] in multiset(a);
    SortedHead(b, a[0]);
    SortedHead(a, b[0]);
    LeqAntisymmetric(a[0], b[0]);
  }

  /** Sorted lists with the same elements are equal: the outcome of a sort of strings is unique. */
  lemma {:induction false} SortedUnique(a: seq<Str>, b: seq<Str>)
    requires Sorted(a) && Sorted(b)
    requires multiset(a) == multiset(b)
    ensures a == b
  {
    assert |a| == |multiset(a)| == |multiset(b)| == |b|;
    if a != [] {
      SameHead(a, b);
      TailMultiset(a);
      TailMultiset(b);
      Cancel(multiset{a[0]}, multiset(a[1..]), multiset(b[1..]));
      SortedUnique(a[1..], b[1..]);
      assert a == [a[0]] + a[1..] && b == [b[0]] + b[1..];
    }
  }

  function Without<T>(s: seq<T>, i: nat): seq<T>
    requires i < |s|
  {
    s[..i] + s[i + 1..]
  }

  lemma WithoutMultiset<T>(s: seq<T>, i: nat)
    requires i < |s|
    ensures multiset(s) == multiset{s[i]} + multiset(Without(s, i))
  {
    assert s == s[..i] + [s[i]] + s[i + 1..];
  }

  lemma Cancel<T>(x: multiset<T>, a: multiset<T>, b: multiset<T>)
    requires x + a == x + b
    ensures a == b
  {
    assert a == (x + a) - x && b == (x + b) - x;
  }

  lemma KeysWithout<T>(key: T -> Str, s: seq<T>, i: nat)
    requires i < |s|
    ensures multiset(Keys(key, s)) == multiset{key(s[i])} + multiset(Keys(key, Without(s, i)))
  {
    assert Without(Keys(key, s), i) == Keys(key, Without(s, i));
    WithoutMultiset(Keys(key, s), i);
  }

  /** A permutation of a list permutes its keys. */
  lemma {:induction false} KeysPermute<T>(key: T -> Str, a: seq<T>, b: seq<T>)
    requires multiset(a) == multiset(b)
    ensures multiset(Keys(key, a)) == multiset(Keys(key, b))
  {
    if a == [] {
      assert |b| == |multiset(b)| == 0;
    } else {
      var x := a[0];
      assert x in multiset(b);
      var i: nat :| i < |b| && b[i] == x;
      WithoutMultiset(a, 0);
      WithoutMultiset(b, i);
      Cancel(multiset{x}, multiset(Without(a, 0)), multiset(Without(b, i)));
      KeysPermute(key, Without(a, 0), Without(b, i));
      KeysWithout(key, a, 0);
      KeysWithout(key, b, i);
    }
  }

  /** However ties fall, sorting a list by a key gives the one sorted list of its keys. */
  lemma SortedKeysUnique<T>(key: T -> Str, s: seq<T>, r: seq<T>)
    requires SortedBy(key, r) && multiset(r) == multiset(s)
    ensures Keys(key, r) == SortStrings(Keys(key, s))
  {
    KeysPermute(key, r, s);
    SortedUnique(Keys(key, r), SortStrings(Keys(key, s)));
  }

  /** `sort.Slice` on a slice that nothing else can see. */
  method SortSlice<T>(s: seq<T>, key: T -> Str) returns (r: seq<T>)
    ensures SortedBy(key, r)
    ensures multiset(r) == multiset(s)
  {
    r := SortBy(key, s);
  }

  /** `sort.Slice` on a shared backing array. */
  method SortArray<T>(a: array<T>, key: T -> Str)
    modifies a
    ensures SortedBy(key, a[..])
    ensures multiset(a[..]) == multiset(old(a[..]))
  {
    var r := SortBy(key, a[..]);
    assert |r| == |multiset(r)| == |multiset(a[..])| == a.Length;
    forall i | 0 <= i < a.Length { a[i] := r[i]; }
    assert a[..] == r;
  }
}
