/** The walking bit and byte flips of afl-fuzz, the token detector that rides on the first of them
    and the effector map that the byte flips fill in. */
module Stages {
  import opened Redundancy
  import opened Bytes
  import opened AutoTokens

  type Input = seq<u8>

  /** What the session does with one execution: whether the entry is to be given up now, and the
      checksum of the trace it leaves. */
  datatype Outcome = Outcome(abandon: bool, cksum: u32)

  /** The part of `fuzz_one` shared by all deterministic stages: the scratch buffer, the progress
      counters and the executions so far.  Nothing is assumed about the outcomes. */
  class Bench {
    const outBuf: array<u8>
    const world: nat -> Outcome
    const execCksum: u32
    const dumbMode: bool
    var stageCur: int
    var stageMax: int
    var log: seq<Input>

    constructor (len: nat, world: nat -> Outcome, execCksum: u32, dumbMode: bool)
      ensures fresh(outBuf) && outBuf.Length == len && log == []
      ensures this.world == world && this.execCksum == execCksum && this.dumbMode == dumbMode
    {
      outBuf := new u8[len];
      this.world, this.execCksum, this.dumbMode := world, execCksum, dumbMode;
      stageCur, stageMax, log := 0, 0, [];
    }

    /** Since the first n executions the entry was given up as soon as an execution asked for it, and
        only then. */
    ghost predicate Obeyed(n: nat, abandon: bool)
      reads `log
    {
      && n + (if abandon then 1 else 0) <= |log|
      && forall k: nat :: n <= k < |log| ==> (Asked(k) <==> abandon && k == |log| - 1)
    }

    /** Did execution k ask for the entry to be given up? */
    predicate Asked(k: nat) { world(k).abandon }

    /** One execution of the target (`common_fuzz_stuff`). */
    method Run(file: Input) returns (abandon: bool, cksum: u32)
      modifies `log
      ensures log == old(log) + [file]
      ensures Outcome(abandon, cksum) == world(|old(log)|) && Obeyed(|old(log)|, abandon)
    {
      var outcome := world(|log|);
      log := log + [file];
      return outcome.abandon, outcome.cksum;
    }

    /** A stage over `input` is complete: the buffer is back to normal and the counters agree with
        the executions, which were `ran`. */
    ghost predicate Complete(input: Input, before: seq<Input>, ran: seq<Input>)
      reads this, outBuf
    {
      && outBuf[..] == input
      && log == before + ran
      && stageCur == stageMax == |ran|
    }

    method FlipBit(b: nat)
      requires b < 8 * outBuf.Length
      modifies outBuf
      ensures outBuf[..] == Flip(old(outBuf[..]), b)
    {
      outBuf[b / 8] := outBuf[b / 8] ^ FlipMask(b % 8);
    }

    /** FLIP_BIT for n consecutive bits. */
    method FlipBits(b: nat, n: nat)
      requires b + n <= 8 * outBuf.Length
      modifies outBuf
      ensures outBuf[..] == FlipRun(old(outBuf[..]), b, n)
    {
      for k := 0 to n
        invariant outBuf[..] == FlipRun(old(outBuf[..]), b, k)
      {
        FlipBit(b + k);
      }
    }

    /** Flips n bits, runs the target and flips them back. */
    method TryFlip(b: nat, n: nat, ghost input: Input) returns (abandon: bool, cksum: u32)
      requires outBuf[..] == input && b + n <= 8 * |input|
      modifies `log, outBuf
      ensures log == old(log) + [FlipRun(input, b, n)]
      ensures Outcome(abandon, cksum) == world(|old(log)|) && Obeyed(|old(log)|, abandon)
      ensures !abandon ==> outBuf[..] == input
    {
      FlipBits(b, n);
      abandon, cksum := Run(outBuf[..]);
      if abandon { return; }
      FlipBits(b, n);
      FlipRunTwice(input, b, n);
    }

    /** The stages bitflip 2/1 and 4/1, and without the detector also 1/1. */
    method WalkingBits(n: nat, ghost input: Input) returns (abandon: bool)
      requires outBuf[..] == input && 1 <= n <= 4 && |input| > 0
      modifies this, outBuf
      ensures Obeyed(|old(log)|, abandon)
      ensures !abandon ==> Complete(input, old(log), BitStage(input, n))
    {
      stageMax := 8 * outBuf.Length - (n - 1);
      stageCur := 0;
      abandon := false;
      while stageCur < stageMax
        invariant 0 <= stageCur <= stageMax == 8 * |input| - (n - 1)
        invariant outBuf[..] == input
        invariant log == old(log) + BitRuns(input, n, stageCur) && Obeyed(|old(log)|, false)
      {
        var cksum;
        abandon, cksum := TryFlip(stageCur, n, input);
        if abandon { return; }
        stageCur := stageCur + 1;
      }
    }

    /** The checksums seen after flipping the low bits of n bytes, when the stage starts after
        `base` executions. */
    ghost function LowBitSums(base: nat, n: nat): seq<u32> {
      seq(n, i requires 0 <= i < n => world(base + 8 * i + 7).cksum)
    }

    lemma LowBitSum(base: nat, n: nat, t: nat, sums: seq<u32>)
      requires t < 8 * n && t % 8 == 7 && sums == LowBitSums(base, n)
      ensures t / 8 < |sums| && sums[t / 8] == world(base + t).cksum
    {
      assert base + 8 * (t / 8) + 7 == base + t;
    }

    /** The token detector after i bytes. */
    ghost predicate Detecting(d: Detector, input: Input, sums: seq<u32>, i: nat) {
      && |sums| == |input|
      && (i < |input| ==> d.Collecting(input, sums, execCksum, i))
      && (i == |input| ==> d.passed == TokensBefore(input, sums, execCksum, |input|))
    }

    /** The token detector after t bits. */
    ghost predicate DetectingBit(d: Detector, input: Input, sums: seq<u32>, t: nat) {
      forall i: nat :: 8 * i <= t < 8 * i + 8 ==> Detecting(d, input, sums, i)
    }

    lemma ByteOfBit(d: Detector, input: Input, sums: seq<u32>, t: nat)
      ensures DetectingBit(d, input, sums, t) <==> Detecting(d, input, sums, t / 8)
    {
      assert 8 * (t / 8) <= t < 8 * (t / 8) + 8;
    }

    method Detect(collector: Collector, t: nat, cksum: u32, ghost input: Input, ghost sums: seq<u32>)
      requires outBuf[..] == input && t < 8 * |input| && collector.aCollect != outBuf
      requires DetectingBit(collector.Now(), input, sums, t)
      requires t % 8 == 7 ==> t / 8 < |sums| && cksum == sums[t / 8]
      modifies collector, collector.aCollect
      ensures DetectingBit(collector.Now(), input, sums, t + 1)
    {
      ByteOfBit(collector.Now(), input, sums, t);
      if t % 8 == 7 {
        var i := t / 8;
        collector.Observe(input, sums, i, t == 8 * outBuf.Length - 1, outBuf[i], cksum, execCksum);
      }
      ByteOfBit(collector.Now(), input, sums, t + 1);
    }

    /** Bit t of the stage that started after the executions `before`. */
    method TryFlipWithTokens(collector: Collector, t: nat, ghost input: Input, ghost before: seq<Input>, ghost sums: seq<u32>)
      returns (abandon: bool)
      requires outBuf[..] == input && t < 8 * |input| && collector.aCollect != outBuf
      requires log == before + BitRuns(input, 1, t) && sums == LowBitSums(|before|, |input|)
      requires dumbMode || DetectingBit(collector.Now(), input, sums, t)
      modifies `log, outBuf, collector, collector.aCollect
      ensures abandon == Asked(|old(log)|)
      ensures log == before + BitRuns(input, 1, t + 1)
      ensures !abandon ==> outBuf[..] == input
      ensures !abandon ==> dumbMode || DetectingBit(collector.Now(), input, sums, t + 1)
    {
      var cksum;
      if t % 8 == 7 { LowBitSum(|before|, |input|, t, sums); }
      abandon, cksum := TryFlip(t, 1, input);
      assert log == before + BitRuns(input, 1, t + 1);
      if abandon { return; }
      if !dumbMode { Detect(collector, t, cksum, input, sums); }
    }

    /** After t bits of the stage that started after the executions `before`. */
    ghost predicate BitsWalked(collector: Collector, input: Input, before: seq<Input>, sums: seq<u32>, t: nat)
      reads this, outBuf, collector, collector.aCollect
    {
      && t <= 8 * |input| && stageCur == t && stageMax == 8 * |input|
      && outBuf[..] == input && log == before + BitRuns(input, 1, t)
      && Obeyed(|before|, false)
      && (dumbMode || DetectingBit(collector.Now(), input, sums, t))
    }

    /** One step of the stage. */
    method NextBitWithTokens(collector: Collector, t: nat, ghost input: Input, ghost before: seq<Input>, ghost sums: seq<u32>)
      returns (abandon: bool)
      requires BitsWalked(collector, input, before, sums, t) && t < 8 * |input|
      requires collector.aCollect != outBuf && sums == LowBitSums(|before|, |input|)
      modifies `log, `stageCur, outBuf, collector, collector.aCollect
      ensures Obeyed(|before|, abandon)
      ensures !abandon ==> BitsWalked(collector, input, before, sums, t + 1)
    {
      abandon := TryFlipWithTokens(collector, t, input, before, sums);
      if abandon { return; }
      CountFlip(collector, t, input, sums);
    }

    /** The progress counter is no part of what the detector works on. */
    method CountFlip(collector: Collector, ghost t: nat, ghost input: Input, ghost sums: seq<u32>)
      requires stageCur == t && (dumbMode || DetectingBit(collector.Now(), input, sums, t + 1))
      modifies `stageCur
      ensures stageCur == t + 1 && (dumbMode || DetectingBit(collector.Now(), input, sums, t + 1))
    {
      stageCur := stageCur + 1;
    }

    method WalkBits(collector: Collector, ghost input: Input, ghost before: seq<Input>, ghost sums: seq<u32>)
      returns (abandon: bool)
      requires BitsWalked(collector, input, before, sums, 0)
      requires collector.aCollect != outBuf && sums == LowBitSums(|before|, |input|)
      modifies `log, `stageCur, outBuf, collector, collector.aCollect
      ensures Obeyed(|before|, abandon)
      ensures !abandon ==> BitsWalked(collector, input, before, sums, 8 * |input|)
    {
      abandon := false;
      ghost var t := 0;
      while stageCur < stageMax
        invariant BitsWalked(collector, input, before, sums, t)
        decreases 8 * |input| - t
      {
        abandon := NextBitWithTokens(collector, stageCur, input, before, sums);
        if abandon { return; }
        t := t + 1;
      }
    }

    /** The stage bitflip 1/1 with the token detector. */
    method WalkingBitWithTokens(collector: Collector, ghost input: Input) returns (abandon: bool)
      requires outBuf[..] == input && |input| > 0 && collector.aCollect != outBuf
      requires collector.Now().Collecting(input, LowBitSums(|log|, |input|), execCksum, 0)
      modifies this, outBuf, collector, collector.aCollect
      ensures Obeyed(|old(log)|, abandon)
      ensures !abandon ==> Complete(input, old(log), BitStage(input, 1))
      ensures !abandon && !dumbMode ==>
        collector.passed == TokensBefore(input, LowBitSums(|old(log)|, |input|), execCksum, |input|)
    {
      stageMax := 8 * outBuf.Length;
      stageCur := 0;
      ghost var sums := LowBitSums(|log|, |input|);
      ByteOfBit(collector.Now(), input, sums, 0);
      abandon := WalkBits(collector, input, log, sums);
      ByteOfBit(collector.Now(), input, sums, 8 * |input|);
    }

    // ---------- Walking bytes and the effector map ----------

    /** Does flipping byte i count as having an effect? */
    predicate Reacts(base: nat, i: nat) {
      dumbMode || outBuf.Length < EFF_MIN_LEN || world(base + i).cksum != execCksum
    }

    /** The blocks that the byte flips of the bytes before n mark: the first, the last and those
        with a byte that reacts. */
    ghost predicate Marks(base: nat, n: nat, k: nat)
      requires outBuf.Length > 0
    {
      k == 0 || k == (outBuf.Length - 1) / 8 || exists i: nat :: i < n && i / 8 == k && Reacts(base, i)
    }

    /** The effector map after the flips of n bytes. */
    ghost predicate Marked(effMap: array<bool>, base: nat, n: nat)
      reads effMap
    {
      && outBuf.Length > 0 && effMap.Length == EffLen(outBuf.Length)
      && forall k :: 0 <= k < effMap.Length ==> (effMap[k] <==> Marks(base, n, k))
    }

    /** Block k is marked in the end: the first, the last, every block of a short file or in dumb mode, and
        those with a byte whose flip leads to another checksum. */
    ghost predicate MarkedBlock(base: nat, k: nat)
      requires outBuf.Length > 0
    {
      || k == 0 || k == (outBuf.Length - 1) / 8 || dumbMode || outBuf.Length < 128
      || exists i: nat :: i < outBuf.Length && i / 8 == k && world(base + i).cksum != execCksum
    }

    lemma MarksAll(base: nat, k: nat)
      requires outBuf.Length > 0 && k < EffLen(outBuf.Length)
      ensures Marks(base, outBuf.Length, k) <==> MarkedBlock(base, k)
    {
      BlocksCoverFile(outBuf.Length);
      if dumbMode || outBuf.Length < 128 { assert Reacts(base, 8 * k) && 8 * k / 8 == k && 8 * k < outBuf.Length; }
      forall i: nat | i < outBuf.Length && i / 8 == k && world(base + i).cksum != execCksum
        ensures Marks(base, outBuf.Length, k)
      {
        assert Reacts(base, i);
      }
    }

    lemma OneMoreMark(base: nat, n: nat, k: nat)
      requires outBuf.Length > 0
      ensures Marks(base, n + 1, k) <==> Marks(base, n, k) || (n / 8 == k && Reacts(base, n))
    {
    }

    /** The stage bitflip 8/8. */
    method WalkingBytes(ghost input: Input) returns (abandon: bool, effMap: array<bool>, effCnt: nat)
      requires outBuf[..] == input && |input| > 0
      modifies this, outBuf
      ensures Obeyed(|old(log)|, abandon)
      ensures fresh(effMap)
      ensures !abandon ==> Complete(input, old(log), ByteRuns(input, |input|))
      ensures !abandon ==> Marked(effMap, |old(log)|, |input|)
      ensures !abandon ==> effCnt == Count(effMap[..])
      ensures !abandon ==> forall k: nat :: k < effMap.Length ==> (effMap[k] <==> MarkedBlock(|old(log)|, k))
    {
      effMap, effCnt := NewEffMap(outBuf.Length);
      stageMax := outBuf.Length;
      stageCur := 0;
      abandon := false;
      ghost var base := |log|;
      while stageCur < stageMax
        invariant 0 <= stageCur <= stageMax == |input|
        invariant outBuf[..] == input && effMap as object != outBuf
        invariant log == old(log) + ByteRuns(input, stageCur) && Obeyed(|old(log)|, false)
        invariant effCnt == Count(effMap[..])
        invariant Marked(effMap, base, stageCur)
      {
        abandon, effCnt := TryByte(effMap, effCnt, stageCur, input, base);
        if abandon { return; }
        stageCur := stageCur + 1;
      }
      forall k | 0 <= k < effMap.Length ensures Marks(base, |input|, k) <==> MarkedBlock(base, k) {
        MarksAll(base, k);
      }
    }

    /** Byte i flipped and run. */
    method RunFlippedByte(i: nat, ghost input: Input) returns (abandon: bool, sum: u32)
      requires outBuf[..] == input && i < |input|
      modifies `log, outBuf
      ensures outBuf[..] == FlippedByte(input, i) && log == old(log) + [FlippedByte(input, i)]
      ensures Outcome(abandon, sum) == world(|old(log)|)
    {
      FlipByte(i);
      abandon, sum := Run(outBuf[..]);
    }

    /** Byte i flipped, run, marked in the map if need be, and flipped back. */
    method TryByte(effMap: array<bool>, effCnt: nat, i: nat, ghost input: Input, ghost base: nat)
      returns (abandon: bool, effCnt': nat)
      requires outBuf[..] == input && i < |input| && effCnt == Count(effMap[..])
      requires |log| == base + i && effMap as object != outBuf
      requires Marked(effMap, base, i)
      modifies `log, outBuf, effMap
      ensures log == old(log) + [FlippedByte(input, i)] && abandon == Asked(|old(log)|)
      ensures !abandon ==> outBuf[..] == input && effCnt' == Count(effMap[..])
      ensures !abandon ==> Marked(effMap, base, i + 1)
    {
      var sum;
      abandon, sum := RunFlippedByte(i, input);
      effCnt' := effCnt;
      if abandon { return; }
      effCnt' := MarkByte(effMap, effCnt, i, sum, base);
      FlipByte(i);
      assert outBuf[..] == input;
    }

    method FlipByte(i: nat)
      requires i < outBuf.Length
      modifies outBuf
      ensures outBuf[..] == old(outBuf[..])[i := old(outBuf[i]) ^ 0xff]
    {
      outBuf[i] := outBuf[i] ^ 0xff;
    }

    method MarkByte(effMap: array<bool>, effCnt: nat, i: nat, sum: u32, ghost base: nat) returns (effCnt': nat)
      requires i < outBuf.Length && effCnt == Count(effMap[..])
      requires sum == world(base + i).cksum
      requires Marked(effMap, base, i)
      modifies effMap
      ensures effCnt' == Count(effMap[..])
      ensures Marked(effMap, base, i + 1)
    {
      effCnt' := effCnt;
      forall k | 0 <= k < effMap.Length
        ensures Marks(base, i + 1, k) <==> effMap[k] || (i / 8 == k && Reacts(base, i))
      {
        OneMoreMark(base, i, k);
      }
      if !effMap[i / 8] {
        var cksum := if !dumbMode && outBuf.Length >= EFF_MIN_LEN then sum else !execCksum;
        if cksum != execCksum {
          CountOneMore(effMap[..], i / 8);
          effMap[i / 8] := true;
          effCnt' := effCnt + 1;
        }
      }
    }
  }

  // ---------- The effector map ----------

  const EFF_MIN_LEN: nat := 128
  const EFF_MAX_PERC: nat := 90

  function EffLen(len: nat): nat { len / 8 + if len % 8 != 0 then 1 else 0 }

  function Count(s: seq<bool>): nat {
    if |s| == 0 then 0 else Count(s[..|s| - 1]) + if s[|s| - 1] then 1 else 0
  }

  /** The map has one entry for every eight bytes or part of them. */
  lemma BlocksCoverFile(len: nat)
    ensures len <= 8 * EffLen(len) < len + 8
  {
  }

  /** What is counted are the entries that are set. */
  lemma {:induction false} CountIsSize(s: seq<bool>)
    ensures Count(s) == |set k | 0 <= k < |s| && s[k]|
  {
    if |s| > 0 {
      var n := |s| - 1;
      CountIsSize(s[..n]);
      assert (set k | 0 <= k < |s| && s[k]) == (set k | 0 <= k < n && s[..n][k]) + if s[n] then {n} else {};
    }
  }

  lemma {:induction false} CountOneMore(s: seq<bool>, k: nat)
    requires k < |s| && !s[k]
    ensures Count(s[k := true]) == Count(s) + 1
  {
    var t := s[k := true];
    if k == |s| - 1 {
      assert t[..|s| - 1] == s[..|s| - 1];
    } else {
      assert t[..|s| - 1] == s[..|s| - 1][k := true];
      CountOneMore(s[..|s| - 1], k);
    }
  }

  lemma {:induction false} CountConstant(s: seq<bool>, b: bool)
    requires forall k :: 0 <= k < |s| ==> s[k] == b
    ensures Count(s) == if b then |s| else 0
  {
    if |s| > 0 { CountConstant(s[..|s| - 1], b); }
  }

  /** A new map with the first and the last block flagged. */
  method NewEffMap(len: nat) returns (effMap: array<bool>, effCnt: nat)
    requires len > 0
    ensures fresh(effMap) && effMap.Length == EffLen(len)
    ensures forall k :: 0 <= k < effMap.Length ==> (effMap[k] <==> k == 0 || k == (len - 1) / 8)
    ensures effCnt == Count(effMap[..])
  {
    effMap := new bool[EffLen(len)](_ => false);
    effCnt := 1;
    CountConstant(effMap[..], false);
    CountOneMore(effMap[..], 0);
    effMap[0] := true;
    if (len - 1) / 8 != 0 {
      CountOneMore(effMap[..], (len - 1) / 8);
      effMap[(len - 1) / 8] := true;
      effCnt := effCnt + 1;
    }
  }

  /** A map that is mostly set is set completely; the statistics count what is set in the end. */
  method FillDenseMap(effMap: array<bool>, effCnt: nat) returns (selected: nat)
    requires effMap.Length > 0 && effCnt == Count(effMap[..])
    modifies effMap
    ensures selected == Count(effMap[..])
    ensures effCnt * 100 / effMap.Length > 90 ==> forall k :: 0 <= k < effMap.Length ==> effMap[k]
    ensures effCnt * 100 / effMap.Length <= 90 ==> effMap[..] == old(effMap[..])
  {
    if effCnt != effMap.Length && effCnt * 100 / effMap.Length > EFF_MAX_PERC {
      Memset(effMap, 0, true, effMap.Length);
      CountConstant(effMap[..], true);
      selected := effMap.Length;
    } else {
      selected := effCnt;
      if effCnt == effMap.Length { CountFull(effMap[..]); }
    }
  }

  lemma {:induction false} CountFull(s: seq<bool>)
    ensures Count(s) <= |s|
    ensures Count(s) == |s| ==> forall k :: 0 <= k < |s| ==> s[k]
  {
    if |s| > 0 { CountFull(s[..|s| - 1]); }
  }

  function FlippedByte(s: Input, i: nat): Input
    requires i < |s|
  {
    s[i := s[i] ^ 0xff]
  }

  /** The files run by the first k steps of the stage bitflip 8/8. */
  function ByteRuns(s: Input, k: nat): (r: seq<Input>)
    requires k <= |s|
    ensures |r| == k
  {
    if k == 0 then [] else ByteRuns(s, k - 1) + [FlippedByte(s, k - 1)]
  }

  lemma {:induction false} ByteRunsAt(s: Input, k: nat, i: nat)
    requires i < k <= |s|
    ensures ByteRuns(s, k)[i] == FlippedByte(s, i)
  {
    if i < k - 1 { ByteRunsAt(s, k - 1, i); }
  }

  // ---------- Flipping bits ----------

  /** 128 >> k */
  function FlipMask(k: nat): u8
    requires k < 8
  {
    if k == 0 then 0x80 else if k == 1 then 0x40 else if k == 2 then 0x20 else if k == 3 then 0x10
    else if k == 4 then 8 else if k == 5 then 4 else if k == 6 then 2 else 1
  }

  function Flip(s: Input, b: nat): Input
    requires b < 8 * |s|
  {
    s[b / 8 := s[b / 8] ^ FlipMask(b % 8)]
  }

  function FlipRun(s: Input, b: nat, n: nat): (r: Input)
    requires b + n <= 8 * |s|
    ensures |r| == |s|
  {
    if n == 0 then s else Flip(FlipRun(s, b, n - 1), b + n - 1)
  }

  /** The files run by the first k steps of the stage that flips n bits at a time. */
  function BitRuns(s: Input, n: nat, k: nat): (r: seq<Input>)
    requires 1 <= n && k + n - 1 <= 8 * |s|
    ensures |r| == k
  {
    if k == 0 then [] else BitRuns(s, n, k - 1) + [FlipRun(s, k - 1, n)]
  }

  function BitStage(s: Input, n: nat): seq<Input>
    requires 1 <= n <= 8 * |s|
  {
    BitRuns(s, n, 8 * |s| - (n - 1))
  }

  lemma {:induction false} BitRunsAt(s: Input, n: nat, k: nat, b: nat)
    requires 1 <= n && k + n - 1 <= 8 * |s| && b < k
    ensures BitRuns(s, n, k)[b] == FlipRun(s, b, n)
  {
    if b < k - 1 { BitRunsAt(s, n, k - 1, b); }
  }

  /** Bit b as part of byte i. */
  function Bit(i: nat, b: nat): u8 { if b / 8 == i then FlipMask(b % 8) else 0 }

  /** The bits of byte i among the bits b..b+n-1. */
  function RunMask(i: nat, b: nat, n: nat): u8 {
    if n == 0 then 0 else RunMask(i, b, n - 1) ^ Bit(i, b + n - 1)
  }

  lemma {:induction false} FlipRunBytes(s: Input, b: nat, n: nat, i: nat)
    requires b + n <= 8 * |s| && i < |s|
    ensures FlipRun(s, b, n)[i] == s[i] ^ RunMask(i, b, n)
  {
    if n > 0 { FlipRunBytes(s, b, n - 1, i); }
  }

  lemma FlipRunTwice(s: Input, b: nat, n: nat)
    requires b + n <= 8 * |s|
    ensures FlipRun(FlipRun(s, b, n), b, n) == s
  {
    var once := FlipRun(s, b, n);
    var twice := FlipRun(once, b, n);
    forall i | 0 <= i < |s| ensures twice[i] == s[i] {
      FlipRunBytes(s, b, n, i);
      FlipRunBytes(once, b, n, i);
    }
  }
}
