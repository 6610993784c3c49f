/** The detector of syntax tokens in the first bit-flip stage of afl-fuzz: a run of consecutive
    bytes whose low-bit flips all lead to one and the same new trace checksum. */
module AutoTokens {
  import opened Redundancy
  import opened Config

  predicate TokenLength(n: nat) { MIN_AUTO_EXTRA <= n <= MAX_AUTO_EXTRA }

  // ---------- What counts as a token ----------

  /** `ck` holds the checksum for every byte position, `exec` the one of the unmodified file.  Do
      the bytes [p, q) form a longest run with equal checksums other than `exec`? */
  ghost predicate MaximalRun(ck: seq<u32>, exec: u32, p: nat, q: nat) {
    && p < q <= |ck| && ck[p] != exec
    && (forall i :: p <= i < q ==> ck[i] == ck[p])
    && (p > 0 ==> ck[p - 1] != ck[p])
    && (q < |ck| ==> ck[q] != ck[p])
  }

  /** Where the run of equal checksums that includes position m - 1 starts. */
  function RunStart(ck: seq<u32>, m: nat): (p: nat)
    requires 0 < m <= |ck|
    ensures p < m
  {
    if m > 1 && ck[m - 2] == ck[m - 1] then RunStart(ck, m - 1) else m - 1
  }

  lemma {:induction false} RunStartIsMaximal(ck: seq<u32>, m: nat, p: nat)
    requires 0 < m <= |ck| && p == RunStart(ck, m)
    ensures forall i :: p <= i < m ==> ck[i] == ck[m - 1]
    ensures p > 0 ==> ck[p - 1] != ck[m - 1]
  {
    if m > 1 && ck[m - 2] == ck[m - 1] { RunStartIsMaximal(ck, m - 1, p); }
  }

  /** The tokens that end by position m, in the order of the file. */
  function TokensBefore(s: seq<u8>, ck: seq<u32>, exec: u32, m: nat): seq<seq<u8>>
    requires m <= |s| == |ck|
  {
    if m == 0 then [] else TokensBefore(s, ck, exec, m - 1) + TokenEnding(s, ck, exec, m)
  }

  function TokenEnding(s: seq<u8>, ck: seq<u32>, exec: u32, m: nat): seq<seq<u8>>
    requires 0 < m <= |s| == |ck|
  {
    if RunEnds(ck, exec, m) && TokenLength(m - RunStart(ck, m)) then [s[RunStart(ck, m)..m]] else []
  }

  predicate RunEnds(ck: seq<u32>, exec: u32, m: nat)
    requires 0 < m <= |ck|
  {
    ck[m - 1] != exec && (m < |ck| ==> ck[m] != ck[m - 1])
  }

  lemma RunEndsAtMaximalRun(ck: seq<u32>, exec: u32, m: nat, q: nat)
    requires 0 < m <= |ck| && q == RunStart(ck, m)
    ensures RunEnds(ck, exec, m) <==> MaximalRun(ck, exec, q, m)
    ensures forall p: nat :: MaximalRun(ck, exec, p, m) ==> p == q
  {
    RunStartIsMaximal(ck, m, q);
    assert ck[q] == ck[m - 1];
    forall p: nat | MaximalRun(ck, exec, p, m) ensures p == q {
      assert ck[p] == ck[m - 1];
      var shared := if p < q then q else p;
      assert ck[shared] == ck[p];
    }
  }

  ghost predicate IsToken(ck: seq<u32>, exec: u32, m: nat, p: nat, q: nat) {
    MaximalRun(ck, exec, p, q) && 3 <= q - p <= 32 && q <= m
  }

  /** `runs` are the places of `tokens`: all maximal runs of token length that end by m, each once
      and in order. */
  ghost predicate AreTheRuns(tokens: seq<seq<u8>>, runs: seq<(nat, nat)>, s: seq<u8>, ck: seq<u32>, exec: u32, m: nat) {
    && |ck| == |s| && |tokens| == |runs|
    && (forall k :: 0 <= k < |runs| ==> IsToken(ck, exec, m, runs[k].0, runs[k].1)
                                        && tokens[k] == s[runs[k].0..runs[k].1])
    && (forall j, k :: 0 <= j < k < |runs| ==> runs[j].1 < runs[k].1)
    && (forall p: nat, q: nat :: IsToken(ck, exec, m, p, q) ==> (p, q) in runs)
  }

  /** The tokens passed on are exactly the maximal runs of 3 to 32 bytes. */
  lemma {:induction false} TokensAreMaximalRuns(s: seq<u8>, ck: seq<u32>, exec: u32, m: nat) returns (runs: seq<(nat, nat)>)
    requires m <= |s| == |ck|
    ensures AreTheRuns(TokensBefore(s, ck, exec, m), runs, s, ck, exec, m)
  {
    runs := [];
    if m > 0 {
      runs := TokensAreMaximalRuns(s, ck, exec, m - 1);
      var p := RunStart(ck, m);
      RunEndsAtMaximalRun(ck, exec, m, p);
      var before, last := TokensBefore(s, ck, exec, m - 1), TokenEnding(s, ck, exec, m);
      var runs' := if last == [] then runs else runs + [(p, m)];
      OneMoreEnd(before, runs, last, runs', s, ck, exec, m, p);
      runs := runs';
    }
  }

  lemma OneMoreEnd(before: seq<seq<u8>>, runs: seq<(nat, nat)>, last: seq<seq<u8>>, runs': seq<(nat, nat)>,
                   s: seq<u8>, ck: seq<u32>, exec: u32, m: nat, p: nat)
    requires 0 < m <= |s| && p < m && AreTheRuns(before, runs, s, ck, exec, m - 1)
    requires last == if IsToken(ck, exec, m, p, m) then [s[p..m]] else []
    requires runs' == if last == [] then runs else runs + [(p, m)]
    requires forall a: nat :: MaximalRun(ck, exec, a, m) ==> a == p
    ensures AreTheRuns(before + last, runs', s, ck, exec, m)
  {
    forall k | 0 <= k < |runs'|
      ensures IsToken(ck, exec, m, runs'[k].0, runs'[k].1) && (before + last)[k] == s[runs'[k].0..runs'[k].1]
    {
      if k < |runs| { assert runs'[k] == runs[k] && IsToken(ck, exec, m - 1, runs[k].0, runs[k].1); }
    }
    forall a: nat, z: nat | IsToken(ck, exec, m, a, z) ensures (a, z) in runs' {
      if z < m {
        assert IsToken(ck, exec, m - 1, a, z);
      } else {
        assert (a, z) == (p, m) == runs'[|runs|];
      }
    }
  }

  // ---------- The detector ----------

  /** The state of the detector: the bytes collected so far and the tokens passed on. */
  datatype Detector = Detector(held: seq<u8>, aLen: nat, prevCksum: u32, passed: seq<seq<u8>>) {
    /** The first aLen bytes from s[p] on, as far as they fit, are in the buffer. */
    ghost predicate Holds(s: seq<u8>, p: nat) {
      && |held| == MAX_AUTO_EXTRA && p + aLen <= |s|
      && forall i :: 0 <= i < aLen && i < MAX_AUTO_EXTRA ==> held[i] == s[p + i]
    }

    /** The state after the checksums of m bytes: the run that reaches position m is collected, and the
        tokens before it are passed on. */
    ghost predicate Collecting(s: seq<u8>, ck: seq<u32>, exec: u32, m: nat) {
      && m <= |s| == |ck|
      && prevCksum == (if m == 0 then exec else ck[m - 1])
      && aLen == (if prevCksum == exec then 0 else m - RunStart(ck, m))
      && Holds(s, m - aLen)
      && passed == TokensBefore(s, ck, exec, if m == 0 then 0 else m - 1)
    }
  }

  class Collector {
    const aCollect: array<u8>
    var aLen: nat
    var prevCksum: u32
    /** The tokens passed on to `maybe_add_auto`. */
    var passed: seq<seq<u8>>

    constructor (execCksum: u32)
      ensures fresh(aCollect) && passed == []
      ensures forall s, ck :: |s| == |ck| ==> Now().Collecting(s, ck, execCksum, 0)
    {
      aCollect := new u8[MAX_AUTO_EXTRA];
      aLen, prevCksum, passed := 0, execCksum, [];
    }

    ghost function Now(): Detector
      reads this, aCollect
    {
      Detector(aCollect[..], aLen, prevCksum, passed)
    }

    method Collect(b: u8, ghost s: seq<u8>, ghost p: nat)
      requires Now().Holds(s, p) && p + aLen < |s| && b == s[p + aLen]
      modifies `aLen, aCollect
      ensures aLen == old(aLen) + 1 && Now().Holds(s, p)
    {
      if aLen < MAX_AUTO_EXTRA { aCollect[aLen] := b; }
      aLen := aLen + 1;
    }

    method Pass(ghost s: seq<u8>, ghost p: nat)
      requires Now().Holds(s, p)
      modifies `passed
      ensures passed == old(passed) + if TokenLength(aLen) then [s[p..p + aLen]] else []
    {
      if aLen >= MIN_AUTO_EXTRA && aLen <= MAX_AUTO_EXTRA {
        assert aCollect[..aLen] == s[p..p + aLen];
        passed := passed + [aCollect[..aLen]];
      }
    }

    /** The checksum after the low bit of byte i was flipped.  At the last byte a run that is still
        being collected ends with it. */
    method Observe(ghost s: seq<u8>, ghost ck: seq<u32>, i: nat, last: bool, b: u8, cksum: u32, exec: u32)
      requires Now().Collecting(s, ck, exec, i) && i < |s| && b == s[i] && cksum == ck[i] && last == (i == |s| - 1)
      modifies this, aCollect
      ensures !last ==> Now().Collecting(s, ck, exec, i + 1)
      ensures last ==> passed == TokensBefore(s, ck, exec, |s|)
    {
      if last && cksum == prevCksum {
        FinishRun(s, ck, i, b, cksum, exec);
        return;
      }
      if cksum != prevCksum { StartRun(s, ck, i, cksum, exec); }
      if cksum != exec { Collect(b, s, i - aLen); }
    }

    method StartRun(ghost s: seq<u8>, ghost ck: seq<u32>, i: nat, cksum: u32, exec: u32)
      requires Now().Collecting(s, ck, exec, i) && i < |s| && cksum == ck[i] != prevCksum
      modifies `aLen, `prevCksum, `passed
      ensures aLen == 0 && prevCksum == cksum && Now().Holds(s, i) && passed == TokensBefore(s, ck, exec, i)
    {
      Pass(s, i - aLen);
      aLen := 0;
      prevCksum := cksum;
    }

    method FinishRun(ghost s: seq<u8>, ghost ck: seq<u32>, i: nat, b: u8, cksum: u32, exec: u32)
      requires Now().Collecting(s, ck, exec, i) && i == |s| - 1 && b == s[i] && cksum == ck[i] == prevCksum
      modifies this, aCollect
      ensures passed == TokensBefore(s, ck, exec, |s|)
    {
      ghost var p := i - aLen;
      Collect(b, s, p);
      Pass(s, p);
      if cksum != exec {
        if aLen < MAX_AUTO_EXTRA { aCollect[aLen] := b; }
        aLen := aLen + 1;
      }
    }
  }
}
