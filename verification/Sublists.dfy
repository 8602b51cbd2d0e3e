/** What a filtering loop leaves: the kept elements of a list, each once, in their order. */
module Sublists {
  ghost predicate Increasing(at: seq<nat>) {
    forall i, j :: 0 <= i < j < |at| ==> at[i] < at[j]
  }

  /** Element `i` of `r` is at position `at[i]` of `s`, and to be kept. */
  ghost predicate Kept<T>(r: seq<T>, s: seq<T>, keep: T -> bool, at: seq<nat>) {
    && |r| == |at|
    && forall i :: 0 <= i < |at| ==> at[i] < |s| && r[i] == s[at[i]] && keep(r[i])
  }

  /** No position that is to be kept is missing. */
  ghost predicate Complete<T>(s: seq<T>, keep: T -> bool, at: seq<nat>) {
    forall k: nat :: k < |s| && keep(s[k]) ==> k in at
  }

  /** `r` is made of exactly the elements of `s` that are to be kept, at the positions `at`. */
  ghost predicate SublistAt<T>(r: seq<T>, s: seq<T>, keep: T -> bool, at: seq<nat>) {
    Increasing(at) && Kept(r, s, keep, at) && Complete(s, keep, at)
  }

  lemma CompleteSnoc<T>(s: seq<T>, keep: T -> bool, at: seq<nat>, x: T)
    requires Complete(s, keep, at)
    ensures !keep(x) ==> Complete(s + [x], keep, at)
    ensures Complete(s + [x], keep, at + [|s|])
  {
    var t := s + [x];
    forall k: nat | k < |t| && keep(t[k])
      ensures k in at + [|s|]
      ensures !keep(x) ==> k in at
    {
      if k < |s| {
        assert k in at;
      } else {
        assert (at + [|s|])[|at|] == k;
      }
    }
  }

  lemma SublistSnoc<T>(r: seq<T>, s: seq<T>, keep: T -> bool, at: seq<nat>, x: T) returns (more: seq<nat>)
    requires SublistAt(r, s, keep, at)
    ensures SublistAt(if keep(x) then r + [x] else r, s + [x], keep, more)
  {
    more := if keep(x) then at + [|s|] else at;
    CompleteSnoc(s, keep, at, x);
    assert Increasing(more);
    assert Kept(if keep(x) then r + [x] else r, s + [x], keep, more);
  }

  function Filter<T>(s: seq<T>, keep: T -> bool): seq<T> {
    if s == [] then []
    else
      var init, x := Filter(s[..|s| - 1], keep), s[|s| - 1];
      if keep(x) then init + [x] else init
  }

  lemma {:induction false} FilterInOrder<T>(s: seq<T>, keep: T -> bool) returns (at: seq<nat>)
    ensures SublistAt(Filter(s, keep), s, keep, at)
  {
    at := [];
    if s != [] {
      var init, x := s[..|s| - 1], s[|s| - 1];
      at := FilterInOrder(init, keep);
      at := SublistSnoc(Filter(init, keep), init, keep, at, x);
      assert s == init + [x];
    }
  }
}
