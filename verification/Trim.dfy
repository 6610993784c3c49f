/** The trimmer of afl-fuzz: blocks are removed from a queue entry as long as the checksum of
    its execution trace stays the same. */
module Trim {
  import opened Bytes
  import opened Config
  import opened Sweeps

  const TRIM_MIN_BYTES: nat := 4
  const TRIM_END_STEPS: nat := 1024

  type Trace = seq<byte>

  /** One execution of the target: its trace, and whether the session is to stop now. */
  datatype Run = Run(stop: bool, trace: Trace)

  /** The target and the checksum, as functions of the input and of the trace. */
  datatype Target = Target(exec: seq<byte> -> Run, hash: Trace -> bv32) {
    predicate Same(input: seq<byte>, cksum: bv32) { hash(exec(input).trace) == cksum }

    function Goes(cksum: bv32): seq<byte> -> bool { c => Same(c, cksum) }
  }

  // ---------- The trimmer as a function ----------

  function CutOut(s: seq<byte>, pos: nat, n: nat): seq<byte>
    requires pos + n <= |s|
  {
    s[..pos] + s[pos + n..]
  }

  /** One sweep with blocks of `step` bytes: a block goes if the checksum stays the same. */
  function Sweep(s: seq<byte>, pos: nat, step: nat, t: Target, cksum: bv32): (r: seq<byte>)
    requires step > 0
    ensures |r| <= |s|
    decreases |s| - pos
  {
    if pos >= |s| then s
    else
      var candidate := CutOut(s, pos, Min(step, |s| - pos));
      if t.Same(candidate, cksum) then Sweep(candidate, pos, step, t, cksum)
      else Sweep(s, pos + step, step, t, cksum)
  }

  /** Does such a sweep come upon an execution that stops the session? */
  function SweepStops(s: seq<byte>, pos: nat, step: nat, t: Target, cksum: bv32): bool
    requires step > 0
    decreases |s| - pos
  {
    if pos >= |s| then false
    else
      var candidate := CutOut(s, pos, Min(step, |s| - pos));
      if t.exec(candidate).stop then true
      else if t.Same(candidate, cksum) then SweepStops(candidate, pos, step, t, cksum)
      else SweepStops(s, pos + step, step, t, cksum)
  }

  function Rounds(s: seq<byte>, removeLen: nat, t: Target, cksum: bv32): seq<byte>
    decreases removeLen
  {
    if removeLen >= Max(NextP2(|s|) / TRIM_END_STEPS, TRIM_MIN_BYTES)
    then Rounds(Sweep(s, removeLen, removeLen, t, cksum), removeLen / 2, t, cksum)
    else s
  }

  function RoundsStop(s: seq<byte>, removeLen: nat, t: Target, cksum: bv32): bool
    decreases removeLen
  {
    if removeLen < Max(NextP2(|s|) / TRIM_END_STEPS, TRIM_MIN_BYTES) then false
    else
      SweepStops(s, removeLen, removeLen, t, cksum)
      || RoundsStop(Sweep(s, removeLen, removeLen, t, cksum), removeLen / 2, t, cksum)
  }

  /** Is the trimmer interrupted? */
  predicate Interrupted(s: seq<byte>, t: Target, cksum: bv32) {
    |s| >= 5 && RoundsStop(s, Max(NextP2(|s|) / TRIM_START_STEPS, TRIM_MIN_BYTES), t, cksum)
  }

  function Trimmed(s: seq<byte>, t: Target, cksum: bv32): seq<byte> {
    if |s| < 5 then s
    else Rounds(s, Max(NextP2(|s|) / TRIM_START_STEPS, TRIM_MIN_BYTES), t, cksum)
  }

  // ---------- What trimming keeps ----------

  /** `f` shows where each byte of `t` comes from in `s`. */
  ghost predicate Embeds(f: seq<nat>, t: seq<byte>, s: seq<byte>) {
    Ascending(f, |t|, |s|) && forall i :: 0 <= i < |f| ==> t[i] == s[f[i]]
  }

  ghost predicate Subsequence(t: seq<byte>, s: seq<byte>) {
    exists f: seq<nat> :: Embeds(f, t, s)
  }

  /** `r` came out of `s` by removing bytes from position `keep` on, and unless it is `s`
      itself its checksum is the wanted one. */
  ghost predicate TrimOf(r: seq<byte>, s: seq<byte>, keep: nat, t: Target, cksum: bv32) {
    && Subsequence(r, s)
    && (keep <= |s| ==> keep <= |r| && r[..keep] == s[..keep])
    && (r != s ==> |r| < |s| && t.Same(r, cksum))
  }

  lemma TrimOfItself(s: seq<byte>, keep: nat, t: Target, cksum: bv32)
    ensures TrimOf(s, s, keep, t, cksum)
  {
    var f: seq<nat> := seq(|s|, i => i);
    assert Embeds(f, s, s);
  }

  lemma TrimOfCut(s: seq<byte>, pos: nat, n: nat, keep: nat, t: Target, cksum: bv32)
    requires 0 < n && keep <= pos && pos + n <= |s| && t.Same(CutOut(s, pos, n), cksum)
    ensures TrimOf(CutOut(s, pos, n), s, keep, t, cksum)
  {
    var r := CutOut(s, pos, n);
    var f: seq<nat> := seq(|r|, i requires i >= 0 => if i < pos then i else i + n);
    assert Embeds(f, r, s);
  }

  lemma TrimOfTransitive(r: seq<byte>, m: seq<byte>, s: seq<byte>, keep: nat, t: Target, cksum: bv32)
    requires TrimOf(r, m, keep, t, cksum) && TrimOf(m, s, keep, t, cksum)
    ensures TrimOf(r, s, keep, t, cksum)
  {
    var f: seq<nat> :| Embeds(f, r, m);
    var g: seq<nat> :| Embeds(g, m, s);
    var h: seq<nat> := seq(|f|, i requires 0 <= i < |f| => g[f[i]]);
    assert Embeds(h, r, s);
  }

  lemma {:induction false} SweepTrims(s: seq<byte>, pos: nat, step: nat, keep: nat, t: Target, cksum: bv32, r: seq<byte>)
    requires step > 0 && keep <= pos && r == Sweep(s, pos, step, t, cksum)
    ensures TrimOf(r, s, keep, t, cksum)
    decreases |s| - pos
  {
    if pos >= |s| {
      TrimOfItself(s, keep, t, cksum);
    } else {
      var n: nat := Min(step, |s| - pos);
      var candidate := CutOut(s, pos, n);
      if t.Same(candidate, cksum) {
        SweepTrims(candidate, pos, step, keep, t, cksum, r);
        TrimOfCut(s, pos, n, keep, t, cksum);
        TrimOfTransitive(r, candidate, s, keep, t, cksum);
      } else {
        SweepTrims(s, pos + step, step, keep, t, cksum, r);
      }
    }
  }

  lemma {:induction false} RoundsTrim(s: seq<byte>, removeLen: nat, t: Target, cksum: bv32, r: seq<byte>)
    requires r == Rounds(s, removeLen, t, cksum)
    ensures TrimOf(r, s, TRIM_MIN_BYTES, t, cksum)
    decreases removeLen
  {
    if removeLen >= Max(NextP2(|s|) / TRIM_END_STEPS, TRIM_MIN_BYTES) {
      var m := Sweep(s, removeLen, removeLen, t, cksum);
      SweepTrims(s, removeLen, removeLen, TRIM_MIN_BYTES, t, cksum, m);
      RoundsTrim(m, removeLen / 2, t, cksum, r);
      TrimOfTransitive(r, m, s, TRIM_MIN_BYTES, t, cksum);
    } else {
      TrimOfItself(s, TRIM_MIN_BYTES, t, cksum);
    }
  }

  /** The trimmed entry is a subsequence with the first four bytes intact, and if anything was
      removed its execution still has the checksum of the original. */
  lemma TrimmedIsTrim(s: seq<byte>, t: Target, cksum: bv32)
    ensures TrimOf(Trimmed(s, t, cksum), s, TRIM_MIN_BYTES, t, cksum)
  {
    if |s| < 5 {
      TrimOfItself(s, TRIM_MIN_BYTES, t, cksum);
    } else {
      RoundsTrim(s, Max(NextP2(|s|) / TRIM_START_STEPS, TRIM_MIN_BYTES), t, cksum, Trimmed(s, t, cksum));
    }
  }

  // ---------- What goes and what stays ----------

  ghost predicate SomeStops(tried: seq<seq<byte>>, t: Target) {
    exists k :: 0 <= k < |tried| && t.exec(tried[k]).stop
  }

  lemma {:induction false} SweepKeepsNeeded(s: seq<byte>, pos: nat, step: nat, t: Target, cksum: bv32, r: seq<byte>)
    requires step > 0 && pos <= |s| && r == Sweep(s, pos, step, t, cksum)
    ensures r == Kept(s[..pos], s[pos..], step, t.Goes(cksum))
    decreases |s| - pos
  {
    if pos == |s| {
      assert s[..pos] == s;
    } else {
      var e: nat := Min(pos + step, |s|);
      NextBlock(s, pos, step, e);
      if t.Same(s[..pos] + s[e..], cksum) {
        var u := CutOut(s, pos, e - pos);
        assert u[..pos] == s[..pos] && u[pos..] == s[e..];
        SweepKeepsNeeded(u, pos, step, t, cksum, r);
      } else {
        assert Sweep(s, pos + step, step, t, cksum) == Sweep(s, e, step, t, cksum);
        SweepKeepsNeeded(s, e, step, t, cksum, r);
      }
    }
  }

  lemma NextBlock(s: seq<byte>, pos: nat, step: nat, e: nat)
    requires step > 0 && pos < |s| && e == Min(pos + step, |s|)
    ensures Block(s[pos..], step) == s[pos..e] && Behind(s[pos..], step) == s[e..]
    ensures CutOut(s, pos, e - pos) == s[..pos] + s[e..] && s[..pos] + s[pos..e] == s[..e]
  {
  }

  lemma {:induction false} SweepStopsMeans(s: seq<byte>, pos: nat, step: nat, t: Target, cksum: bv32)
    requires step > 0 && pos <= |s|
    ensures SweepStops(s, pos, step, t, cksum) <==> SomeStops(Tried(s[..pos], s[pos..], step, t.Goes(cksum)), t)
    decreases |s| - pos
  {
    if pos < |s| {
      var e: nat := Min(pos + step, |s|);
      NextBlock(s, pos, step, e);
      var c, goes := CutOut(s, pos, e - pos), t.Goes(cksum);
      var next, at := if goes(c) then c else s, if goes(c) then pos else e;
      assert next[..at] == if goes(c) then s[..pos] else s[..pos] + s[pos..e];
      assert next[at..] == s[e..];
      assert SweepStops(s, pos, step, t, cksum) <==> t.exec(c).stop || SweepStops(next, at, step, t, cksum);
      SweepStopsMeans(next, at, step, t, cksum);
      OneMoreTried(c, Tried(next[..at], next[at..], step, goes), t);
    }
  }

  lemma OneMoreTried(c: seq<byte>, more: seq<seq<byte>>, t: Target)
    ensures SomeStops([c] + more, t) <==> t.exec(c).stop || SomeStops(more, t)
  {
    var all := [c] + more;
    if t.exec(c).stop { assert all[0] == c; }
    if SomeStops(more, t) {
      var k :| 0 <= k < |more| && t.exec(more[k]).stop;
      assert all[k + 1] == more[k];
    }
  }

  /** Sweeps with blocks of e, e/2, ... bytes lead from s to r: each leaves the first block alone and keeps
      what is needed, as long as a block has at least four bytes and a 1024th of the length, rounded up
      to a power of two.  `stops` tells whether some execution on the way stops the session. */
  ghost predicate Rounded(s: seq<byte>, e: nat, t: Target, cksum: bv32, r: seq<byte>, stops: bool)
    decreases e
  {
    exists d: nat :: LeastPow2(d, |s|) &&
      if e < 4 || e < d / 1024 then r == s && !stops
      else
        var first, rest := Block(s, e), Behind(s, e);
        exists later: bool :: Rounded(Kept(first, rest, e, t.Goes(cksum)), e / 2, t, cksum, r, later)
          && (stops <==> SomeStops(Tried(first, rest, e, t.Goes(cksum)), t) || later)
  }

  lemma OneSweep(s: seq<byte>, e: nat, t: Target, cksum: bv32)
    requires e > 0
    ensures Sweep(s, e, e, t, cksum) == Kept(Block(s, e), Behind(s, e), e, t.Goes(cksum))
    ensures SweepStops(s, e, e, t, cksum) <==> SomeStops(Tried(Block(s, e), Behind(s, e), e, t.Goes(cksum)), t)
  {
    if e <= |s| {
      SweepKeepsNeeded(s, e, e, t, cksum, Sweep(s, e, e, t, cksum));
      SweepStopsMeans(s, e, e, t, cksum);
      if e == |s| { assert s[..e] == s; }
    }
  }

  lemma {:induction false} RoundsRound(s: seq<byte>, e: nat, t: Target, cksum: bv32, r: seq<byte>, stops: bool)
    requires r == Rounds(s, e, t, cksum) && stops == RoundsStop(s, e, t, cksum)
    ensures Rounded(s, e, t, cksum, r, stops)
    decreases e
  {
    var d := NextP2(|s|);
    NextP2IsLeast(|s|);
    if e >= Max(d / TRIM_END_STEPS, TRIM_MIN_BYTES) {
      OneSweep(s, e, t, cksum);
      var m := Sweep(s, e, e, t, cksum);
      RoundsRound(m, e / 2, t, cksum, r, RoundsStop(m, e / 2, t, cksum));
    }
  }

  /** The trimmer in terms of the target and the bytes. */
  lemma TrimmedMeans(s: seq<byte>, t: Target, cksum: bv32) returns (d: nat)
    ensures LeastPow2(d, |s|)
    ensures if |s| < 5 then Trimmed(s, t, cksum) == s && !Interrupted(s, t, cksum)
            else Rounded(s, Max(d / 16, 4), t, cksum, Trimmed(s, t, cksum), Interrupted(s, t, cksum))
  {
    d := NextP2(|s|);
    NextP2IsLeast(|s|);
    if |s| >= 5 {
      var e: nat := Max(d / TRIM_START_STEPS, TRIM_MIN_BYTES);
      RoundsRound(s, e, t, cksum, Trimmed(s, t, cksum), Interrupted(s, t, cksum));
    }
  }

  /** No block of e bytes, from the second on, can go. */
  ghost predicate NoneGoes(s: seq<byte>, e: nat, t: Target, cksum: bv32) {
    forall p: nat :: e <= p < |s| && e > 0 && p % e == 0 ==> !t.Same(s[..p] + s[Min(p + e, |s|)..], cksum)
  }

  lemma NoneGoesByAlignment(s: seq<byte>, e: nat, t: Target, cksum: bv32)
    requires 0 < e < |s|
    ensures NoneGoes(s, e, t, cksum) <==>
      forall p: nat :: p < |s| && Aligned(p, e, e) ==> !t.Goes(cksum)(s[..p] + Behind(s[p..], e))
  {
    forall p: nat | p < |s|
      ensures Aligned(p, e, e) <==> p >= e && p % e == 0
      ensures s[..p] + Behind(s[p..], e) == s[..p] + s[Min(p + e, |s|)..]
    {
      AlignedToItself(p, e);
    }
  }

  lemma SweepIdlesIffNoneGoes(s: seq<byte>, e: nat, t: Target, cksum: bv32, m: seq<byte>)
    requires e > 0 && m == Sweep(s, e, e, t, cksum)
    ensures m == s <==> NoneGoes(s, e, t, cksum)
    ensures m != s ==> |m| < |s|
  {
    SweepTrims(s, e, e, 0, t, cksum, m);
    if e < |s| {
      OneSweep(s, e, t, cksum);
      NothingGoes(s[..e], s[e..], e, t.Goes(cksum), s);
      NoneGoesByAlignment(s, e, t, cksum);
    }
  }

  lemma AlignedToItself(p: nat, e: nat)
    requires e > 0
    ensures Aligned(p, e, e) <==> p >= e && p % e == 0
  {
    if p >= e {
      AlignedIsMultiple(p, e, e);
      DivStep(p, e);
    } else if Aligned(p, e, e) {
      AlignedIsBehind(p, e, e);
    }
  }

  lemma {:induction false} RoundsIdle(s: seq<byte>, e: nat, t: Target, cksum: bv32, low: nat)
    requires IsPow2(e) && low == Max(NextP2(|s|) / TRIM_END_STEPS, TRIM_MIN_BYTES)
    ensures Rounds(s, e, t, cksum) == s <==> forall b: nat :: IsPow2(b) && low <= b <= e ==> NoneGoes(s, b, t, cksum)
    decreases e
  {
    if e >= low {
      var m := Sweep(s, e, e, t, cksum);
      SweepIdlesIffNoneGoes(s, e, t, cksum, m);
      RoundsTrim(m, e / 2, t, cksum, Rounds(m, e / 2, t, cksum));
      if m == s { RoundsIdle(s, e / 2, t, cksum, low); }
      forall b: nat | IsPow2(b) && b < e ensures b <= e / 2 { Pow2Gap(b, e); }
    }
  }

  /** The trimmer leaves an entry of at least five bytes as it is exactly if no block can go: for no power of
      two from a 1024th to a 16th of the length, rounded up to a power of two, and at least four, and at
      no multiple of it. */
  lemma NothingTrimmedIffNoneGoes(s: seq<byte>, t: Target, cksum: bv32, d: nat)
    requires |s| >= 5 && LeastPow2(d, |s|)
    ensures Trimmed(s, t, cksum) == s <==>
      forall e: nat :: IsPow2(e) && Max(d / 1024, 4) <= e <= Max(d / 16, 4) ==> NoneGoes(s, e, t, cksum)
  {
    NextP2IsLeast(|s|);
    assert d == NextP2(|s|);
    StartIsPow2(d);
    RoundsIdle(s, Max(d / 16, 4), t, cksum, Max(d / 1024, 4));
  }

  lemma StartIsPow2(d: nat)
    requires IsPow2(d)
    ensures IsPow2(Max(d / 16, 4))
  {
    assert IsPow2(4) by { assert IsPow2(2) && IsPow2(1); }
    if d / 16 > 4 {
      assert IsPow2(d / 2) && IsPow2(d / 2 / 2) && IsPow2(d / 2 / 2 / 2) && IsPow2(d / 2 / 2 / 2 / 2);
      assert d / 2 / 2 / 2 / 2 == d / 16;
    }
  }

  // ---------- The number of executions ----------

  /** How many executions a sweep of `rest` remaining bytes takes, whatever their outcome. */
  function SweepRuns(rest: int, step: nat): nat
    requires step > 0
    decreases rest
  {
    if rest <= 0 then 0 else 1 + SweepRuns(rest - step, step)
  }

  /** The display shows floor(len/step) as the maximum; the sweep from `step` on makes that many
      executions, or one less when `step` divides the length. */
  lemma {:induction false} SweepRunsAgainstMax(len: nat, step: nat)
    requires step > 0
    ensures SweepRuns(len - step, step) == if len % step == 0 && len > 0 then len / step - 1 else len / step
    decreases len
  {
    if len > step {
      SweepRunsAgainstMax(len - step, step);
      DivStep(len, step);
    }
  }

  // ---------- The trimmer as it runs ----------

  /** The file the target reads: the buffer with a gap. */
  method WriteWithGap(mem: array<byte>, len: nat, skipAt: nat, skipLen: nat) returns (file: seq<byte>)
    requires skipAt + skipLen <= len <= mem.Length
    ensures file == CutOut(mem[..len], skipAt, skipLen)
  {
    var tailLen := len - skipAt - skipLen;
    file := [];
    if skipAt != 0 { file := file + mem[..skipAt]; }
    if tailLen != 0 { file := file + mem[skipAt + skipLen..skipAt + skipLen + tailLen]; }
  }

  /** One block: run without it, and take it out of the buffer for good if nothing changed. */
  method TryRemove(inBuf: array<byte>, len: nat, pos: nat, avail: nat, t: Target, cksum: bv32)
    returns (stop: bool, removed: bool, trace: Trace)
    requires 0 < avail && pos + avail <= len <= inBuf.Length
    modifies inBuf
    ensures stop == t.exec(CutOut(old(inBuf[..len]), pos, avail)).stop
    ensures stop ==> !removed && inBuf[..] == old(inBuf[..])
    ensures !stop ==> removed == t.Same(CutOut(old(inBuf[..len]), pos, avail), cksum)
    ensures !stop && removed ==> inBuf[..len - avail] == CutOut(old(inBuf[..len]), pos, avail)
    ensures !stop && removed ==> t.hash(trace) == cksum
    ensures !stop && !removed ==> inBuf[..] == old(inBuf[..])
  {
    var file := WriteWithGap(inBuf, len, pos, avail);
    var run := t.exec(file);
    stop, removed, trace := run.stop, false, run.trace;
    if stop { return; }
    if t.hash(run.trace) == cksum {
      removed := true;
      ghost var s := inBuf[..];
      var moveTail := len - pos - avail;
      MoveDown(inBuf, pos, pos + avail, moveTail);
      assert inBuf[..len - avail] == inBuf[..pos] + inBuf[pos..pos + moveTail];
      assert inBuf[..pos] == s[..pos] && inBuf[pos..pos + moveTail] == s[pos + avail..len];
      assert CutOut(s[..len], pos, avail) == s[..pos] + s[pos + avail..len];
    }
  }

  /** Where a sweep over `s` stands: the buffer is `cur` and the next block is at `pos`. */
  ghost predicate Sweeping(cur: seq<byte>, pos: nat, s: seq<byte>, step: nat, t: Target, cksum: bv32) {
    && TRIM_MIN_BYTES <= step <= pos
    && TrimOf(cur, s, TRIM_MIN_BYTES, t, cksum)
    && Sweep(cur, pos, step, t, cksum) == Sweep(s, step, step, t, cksum)
    && SweepStops(cur, pos, step, t, cksum) == SweepStops(s, step, step, t, cksum)
  }

  lemma SweepingBlock(cur: seq<byte>, pos: nat, n: nat, s: seq<byte>, step: nat, t: Target, cksum: bv32)
    requires Sweeping(cur, pos, s, step, t, cksum) && pos < |cur| && n == Min(step, |cur| - pos)
    ensures t.exec(CutOut(cur, pos, n)).stop ==> SweepStops(s, step, step, t, cksum)
    ensures !t.exec(CutOut(cur, pos, n)).stop && t.Same(CutOut(cur, pos, n), cksum) ==>
      Sweeping(CutOut(cur, pos, n), pos, s, step, t, cksum)
    ensures !t.exec(CutOut(cur, pos, n)).stop && !t.Same(CutOut(cur, pos, n), cksum) ==>
      Sweeping(cur, pos + step, s, step, t, cksum)
  {
    if t.Same(CutOut(cur, pos, n), cksum) {
      TrimOfCut(cur, pos, n, TRIM_MIN_BYTES, t, cksum);
      TrimOfTransitive(CutOut(cur, pos, n), cur, s, TRIM_MIN_BYTES, t, cksum);
    }
  }

  lemma SweepRunsStep(rest: int, next: int, step: nat)
    requires 0 < step && 0 < rest && (next == rest - step || next == Max(rest - step, 0))
    ensures SweepRuns(rest, step) == 1 + SweepRuns(next, step)
  {
  }

  /** The step of a sweep at `pos`. */
  method TrimBlock(inBuf: array<byte>, qLen: nat, p2: nat, pos: nat, step: nat, t: Target, cksum: bv32,
                   ghost s: seq<byte>)
    returns (stop: bool, removed: bool, len: nat, lenP2: nat, next: nat, trace: Trace)
    requires qLen <= MAX_FILE && p2 == NextP2(qLen)
    requires pos < qLen <= inBuf.Length && Sweeping(inBuf[..qLen], pos, s, step, t, cksum)
    modifies inBuf
    ensures len == if removed then qLen - Min(step, qLen - pos) else qLen
    ensures lenP2 == NextP2(len)
    ensures stop ==> !removed && inBuf[..] == old(inBuf[..])
    ensures next == if removed || stop then pos else pos + step
    ensures Sweeping(inBuf[..len], next, s, step, t, cksum)
    ensures stop ==> SweepStops(s, step, step, t, cksum)
    ensures removed ==> t.hash(trace) == cksum
  {
    ghost var m := inBuf[..qLen];
    len, lenP2, next := qLen, p2, pos;
    var trimAvail: nat := Min(step, qLen - pos);
    ghost var cut := CutOut(m, pos, trimAvail);
    SweepingBlock(m, pos, trimAvail, s, step, t, cksum);
    stop, removed, trace := TryRemove(inBuf, qLen, pos, trimAvail, t, cksum);
    if removed {
      len := qLen - trimAvail;
      lenP2 := ComputeNextP2(len);
      assert inBuf[..len] == cut;
    } else {
      assert inBuf[..len] == m;
      if !stop { next := pos + step; }
    }
  }

  /** One sweep in place.  `first` is the trace saved at the first removal of the whole call, if
      there was one before. */
  method TrimSweep(inBuf: array<byte>, qLen: nat, p2: nat, step: nat, t: Target, cksum: bv32, first: Option<Trace>)
    returns (stop: bool, len: nat, lenP2: nat, clean: Option<Trace>, stageCur: nat)
    requires step >= TRIM_MIN_BYTES && qLen <= inBuf.Length && qLen <= MAX_FILE && p2 == NextP2(qLen)
    requires first.Some? ==> t.hash(first.value) == cksum
    modifies inBuf
    ensures len <= qLen && lenP2 == NextP2(len)
    ensures TrimOf(inBuf[..len], old(inBuf[..qLen]), TRIM_MIN_BYTES, t, cksum)
    ensures stop == SweepStops(old(inBuf[..qLen]), step, step, t, cksum)
    ensures !stop ==> inBuf[..len] == Sweep(old(inBuf[..qLen]), step, step, t, cksum)
    ensures !stop ==> stageCur == SweepRuns(qLen - step, step)
    ensures clean.Some? ==> t.hash(clean.value) == cksum
    ensures clean.Some? <==> first.Some? || len < qLen
  {
    ghost var s := inBuf[..qLen];
    stop, len, lenP2, clean, stageCur := false, qLen, p2, first, 0;
    var removePos: nat := step;
    TrimOfItself(s, TRIM_MIN_BYTES, t, cksum);
    while removePos < len
      invariant len <= qLen && lenP2 == NextP2(len)
      invariant Sweeping(inBuf[..len], removePos, s, step, t, cksum)
      invariant stageCur + SweepRuns(len - removePos, step) == SweepRuns(qLen - step, step)
      invariant clean.Some? ==> t.hash(clean.value) == cksum
      invariant clean.Some? <==> first.Some? || len < qLen
      decreases len - removePos
    {
      var removed, trace := false, [];
      ghost var was := len - removePos;
      stop, removed, len, lenP2, removePos, trace := TrimBlock(inBuf, len, lenP2, removePos, step, t, cksum, s);
      if stop { return; }
      if removed && clean.None? { clean := Some(trace); }
      SweepRunsStep(was, len - removePos, step);
      stageCur := stageCur + 1;
    }
  }

  /** The whole trimmer.  It is interrupted exactly if an execution it comes upon stops the session.
      When it is not, it leaves exactly the trimmed entry; when it is, what it leaves is still a trim of the
      original.  The saved trace has the checksum of the entry, and there is one exactly when the entry
      changed. */
  method TrimCase(inBuf: array<byte>, qLen: nat, t: Target, cksum: bv32)
    returns (stop: bool, len: nat, clean: Option<Trace>)
    requires qLen <= inBuf.Length && qLen <= MAX_FILE
    modifies inBuf
    ensures len <= qLen
    ensures TrimOf(inBuf[..len], old(inBuf[..qLen]), TRIM_MIN_BYTES, t, cksum)
    ensures stop == Interrupted(old(inBuf[..qLen]), t, cksum)
    ensures !stop ==> inBuf[..len] == Trimmed(old(inBuf[..qLen]), t, cksum)
    ensures clean.Some? ==> t.hash(clean.value) == cksum
    ensures clean.Some? <==> inBuf[..len] != old(inBuf[..qLen])
  {
    ghost var s := inBuf[..qLen];
    stop, len, clean := false, qLen, None;
    TrimOfItself(s, TRIM_MIN_BYTES, t, cksum);
    if qLen < 5 { return; }
    var lenP2 := ComputeNextP2(len);
    var removeLen: nat := Max(lenP2 / TRIM_START_STEPS, TRIM_MIN_BYTES);
    while removeLen >= Max(lenP2 / TRIM_END_STEPS, TRIM_MIN_BYTES)
      invariant len <= qLen && lenP2 == NextP2(len)
      invariant TrimOf(inBuf[..len], s, TRIM_MIN_BYTES, t, cksum)
      invariant Rounds(inBuf[..len], removeLen, t, cksum) == Trimmed(s, t, cksum)
      invariant RoundsStop(inBuf[..len], removeLen, t, cksum) == Interrupted(s, t, cksum)
      invariant clean.Some? ==> t.hash(clean.value) == cksum
      invariant clean.Some? <==> len < qLen
      decreases removeLen
    {
      ghost var m := inBuf[..len];
      var stageCur: nat;
      stop, len, lenP2, clean, stageCur := TrimSweep(inBuf, len, lenP2, removeLen, t, cksum, clean);
      TrimOfTransitive(inBuf[..len], m, s, TRIM_MIN_BYTES, t, cksum);
      if stop { return; }
      removeLen := removeLen / 2;
    }
  }
}
