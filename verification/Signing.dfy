/**
 * Signing of webhook payloads: `SignWebhook` and `VerifyWebhook` of crypto/crypto.go, on Go slices,
 * whose `append` writes behind the visible bytes when the backing array has room.
 */
module Signing {
  import opened Bytes
  import Base64
  import Hex

  // ----- slices

  datatype Slice = Slice(base: array<byte>, offset: nat, length: nat, capacity: nat) {
    predicate Valid() {
      length <= capacity && offset + capacity <= base.Length
    }

    /** The visible bytes. */
    function Contents(): Str
      reads base
      requires Valid()
    {
      base[offset..offset + length]
    }

    /** The first index of the backing array behind the visible bytes. */
    function End(): nat {
      offset + length
    }
  }

  /** `append(s, more...)`: in place when the capacity allows, otherwise in a new array of any sufficient size. */
  method Append(s: Slice, more: Str) returns (r: Slice)
    requires s.Valid()
    modifies s.base
    ensures r.Valid() && r.Contents() == old(s.Contents()) + more
    ensures r.base == s.base || fresh(r.base)
    ensures r.base == s.base <==> s.length + |more| <= s.capacity
    ensures forall i :: 0 <= i < s.base.Length && !(s.End() <= i < s.End() + |more|) ==> s.base[i] == old(s.base[i])
    ensures fresh(r.base) ==> s.base[..] == old(s.base[..])
  {
    if s.length + |more| <= s.capacity {
      for i := 0 to |more|
        invariant forall j :: 0 <= j < i ==> s.base[s.End() + j] == more[j]
        invariant forall j :: 0 <= j < s.base.Length && !(s.End() <= j < s.End() + i) ==> s.base[j] == old(s.base[j])
      {
        s.base[s.End() + i] := more[i];
      }
      r := s.(length := s.length + |more|);
      assert r.Contents()[..s.length] == old(s.Contents());
      assert r.Contents()[s.length..] == more;
      assert r.Contents() == r.Contents()[..s.length] + r.Contents()[s.length..];
    } else {
      var capacity: nat :| capacity >= s.length + |more|;
      var both := s.Contents() + more;
      var base := new byte[capacity](i => if 0 <= i < |both| then both[i] else 0);
      assert base[..|both|] == both;
      r := Slice(base, 0, |both|, capacity);
      assert r.Contents() == base[..|both|];
    }
  }

  // ----- signatures

  /** A signature scheme under one key pair. */
  datatype Scheme = Scheme(sign: Str -> Str, verify: (Str, Str) -> bool) {
    /** Section 5.1 of RFC 8032: verification accepts what signing makes. */
    ghost predicate Correct() {
      forall m: Str :: verify(m, sign(m))
    }
  }

  /** Whether a receiver of these bytes and these two headers accepts them. */
  predicate Verified(scheme: Scheme, payload: Str, nonce: Str, signature: Str) {
    var s := Base64.Decode(signature);
    s.Some? && scheme.verify(payload + nonce, s.value)
  }

  /** A signed payload verifies, and it verifies for these bytes and this nonce as signed. */
  lemma SignedVerifies(scheme: Scheme, payload: Str, nonce: Str)
    requires scheme.Correct()
    ensures Verified(scheme, payload, nonce, Base64.Encode(scheme.sign(payload + nonce)))
  {
    Base64.RoundTrip(scheme.sign(payload + nonce));
  }

  method SignWebhook(scheme: Scheme, payload: Slice, seed: Str) returns (nonce: Str, signature: Str)
    requires payload.Valid() && |seed| == 8 && scheme.Correct()
    modifies payload.base
    ensures payload.Contents() == old(payload.Contents())
    ensures Hex.Decode(nonce) == Some(seed)
    ensures signature == Base64.Encode(scheme.sign(payload.Contents() + nonce))
    ensures Verified(scheme, payload.Contents(), nonce, signature)
    ensures forall i :: 0 <= i < payload.base.Length && !(payload.End() <= i < payload.End() + 16) ==>
              payload.base[i] == old(payload.base[i])
  {
    nonce := Hex.Encode(seed);
    Hex.RoundTrip(seed);
    var message := Append(payload, nonce);
    signature := Base64.Encode(scheme.sign(message.Contents()));
    SignedVerifies(scheme, payload.Contents(), nonce);
  }

  method VerifyWebhook(scheme: Scheme, payload: Slice, nonce: Str, signature: Str) returns (ok: bool)
    requires payload.Valid()
    modifies payload.base
    ensures payload.Contents() == old(payload.Contents())
    ensures ok == Verified(scheme, payload.Contents(), nonce, signature)
    ensures ok <==>
              exists sig :: Base64.Decode(signature) == Some(sig) && scheme.verify(payload.Contents() + nonce, sig)
  {
    var s := Base64.Decode(signature);
    if s.None? {
      return false;
    }
    var message := Append(payload, nonce);
    ok := scheme.verify(message.Contents(), s.value);
  }

  /** What one delivery attempt sends. */
  datatype Sent = Sent(body: Str, nonce: Str, signature: Str)

  /**
   * The attempts of all tasks that share one payload, one after the other. The request reads the
   * payload after it was signed, so each attempt sends the bytes then visible.
   */
  method Attempts(scheme: Scheme, payload: Slice, seeds: seq<Str>) returns (sent: seq<Sent>)
    requires payload.Valid() && scheme.Correct()
    requires forall i :: 0 <= i < |seeds| ==> |seeds[i]| == 8
    modifies payload.base
    ensures payload.Contents() == old(payload.Contents())
    ensures |sent| == |seeds|
    ensures forall i :: 0 <= i < |sent| ==>
              && sent[i].body == old(payload.Contents())
              && Hex.Decode(sent[i].nonce) == Some(seeds[i])
              && Verified(scheme, sent[i].body, sent[i].nonce, sent[i].signature)
  {
    sent := [];
    for k := 0 to |seeds|
      invariant payload.Contents() == old(payload.Contents())
      invariant |sent| == k
      invariant forall i :: 0 <= i < k ==>
                  && sent[i].body == old(payload.Contents())
                  && Hex.Decode(sent[i].nonce) == Some(seeds[i])
                  && Verified(scheme, sent[i].body, sent[i].nonce, sent[i].signature)
    {
      var nonce, signature := SignWebhook(scheme, payload, seeds[k]);
      sent := sent + [Sent(payload.Contents(), nonce, signature)];
    }
  }
}
