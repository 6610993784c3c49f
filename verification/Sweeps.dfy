/** What a sweep of block removals means, without positions in a changing file: afl-tmin and the
    trimmer of afl-fuzz both walk through a file and drop the blocks that are not needed. */
module Sweeps {
  import opened Bytes

  /** The blocks of `rest` one after the other: a block goes exactly if what was kept before it, together
      with all that is behind it, is accepted. */
  ghost function Kept(done: seq<byte>, rest: seq<byte>, d: nat, goes: seq<byte> -> bool): (r: seq<byte>)
    requires d > 0
    ensures |done| <= |r| <= |done| + |rest| && r[..|done|] == done
    decreases |rest|
  {
    if rest == [] then done
    else
      var block, tail := Block(rest, d), Behind(rest, d);
      if goes(done + tail) then Kept(done, tail, d, goes) else Kept(done + block, tail, d, goes)
  }

  function Block(rest: seq<byte>, d: nat): seq<byte> { if d < |rest| then rest[..d] else rest }

  function Behind(rest: seq<byte>, d: nat): seq<byte> { if d < |rest| then rest[d..] else [] }

  /** The files tried on the way. */
  ghost function Tried(done: seq<byte>, rest: seq<byte>, d: nat, goes: seq<byte> -> bool): seq<seq<byte>>
    requires d > 0
    decreases |rest|
  {
    if rest == [] then []
    else
      var block, tail := Block(rest, d), Behind(rest, d);
      [done + tail] + Tried(if goes(done + tail) then done else done + block, tail, d, goes)
  }

  /** Is p one of the positions from, from + len, from + 2 * len, ...? */
  ghost predicate Aligned(p: nat, from: nat, len: nat)
    requires len > 0
    decreases p - from
  {
    p == from || (p > from && Aligned(p, from + len, len))
  }

  lemma {:induction false} AlignedIsMultiple(p: nat, from: nat, len: nat)
    requires len > 0 && from <= p
    ensures Aligned(p, from, len) <==> (p - from) % len == 0
    decreases p - from
  {
    var a := p - from;
    if a == 0 {
    } else if a < len {
      assert a % len == a;
      assert from + len > p;
    } else {
      AlignedIsMultiple(p, from + len, len);
      DivStep(a, len);
    }
  }

  lemma {:induction false} AlignedIsBehind(p: nat, from: nat, len: nat)
    requires len > 0 && Aligned(p, from, len)
    ensures p >= from
  {
  }

  /** A sweep changes nothing exactly if no block can go from the file as it is. */
  lemma {:induction false} NothingGoes(done: seq<byte>, rest: seq<byte>, d: nat, goes: seq<byte> -> bool, s: seq<byte>)
    requires d > 0 && s == done + rest
    ensures Kept(done, rest, d, goes) == s <==>
      forall p: nat :: p < |s| && Aligned(p, |done|, d) ==> !goes(s[..p] + Behind(s[p..], d))
    decreases |rest|
  {
    if rest == [] {
      forall p: nat | p < |s| && Aligned(p, |done|, d) ensures false { AlignedIsBehind(p, |done|, d); }
    } else {
      var block, tail := Block(rest, d), Behind(rest, d);
      assert s[..|done|] == done && s[|done|..] == rest;
      if goes(done + tail) {
        assert Aligned(|done|, |done|, d);
        assert |Kept(done, tail, d, goes)| <= |done| + |tail| < |s|;
      } else {
        assert s == (done + block) + tail;
        NothingGoes(done + block, tail, d, goes, s);
        forall p: nat | p < |s| ensures Aligned(p, |done|, d) <==> p == |done| || Aligned(p, |done + block|, d) {
          if Aligned(p, |done + block|, d) { AlignedIsBehind(p, |done + block|, d); }
          if Aligned(p, |done|, d) && p != |done| { AlignedIsBehind(p, |done| + d, d); }
        }
      }
    }
  }
}
