/** The deterministic stages of afl-fuzz that overwrite a byte, a half word or a word at every
    effective position: long flips, arithmetic and interesting values. */
module WordStages {
  import opened Redundancy
  import opened Stages

  datatype Kind = Flip16 | Flip32 | Arith8 | Arith16 | Arith32 | Interest8 | Interest16 | Interest32

  /** What is done with one candidate value: nothing, or store it and run the target. */
  datatype Try = Skip | Put(w: seq<u8>)

  function Width(kind: Kind): nat {
    match kind
    case Arith8 | Interest8 => 1
    case Flip16 | Arith16 | Interest16 => 2
    case Flip32 | Arith32 | Interest32 => 4
  }

  // ---------- The candidate values ----------

  /** The candidates for one position that holds o, in the order in which they are tried. */
  ghost function Tries(kind: Kind, o: seq<u8>): seq<Try>
    requires |o| == Width(kind)
  {
    match kind
    case Flip16 => [Put([!o[0], !o[1]])]
    case Flip32 => [Put([!o[0], !o[1], !o[2], !o[3]])]
    case Interest8 => Interest8Tries(o[0], INTERESTING_8, |INTERESTING_8|)
    case Interest16 => Interest16Tries(o, INTERESTING_16, |INTERESTING_16|)
    case Interest32 => Interest32Tries(o, INTERESTING_32, |INTERESTING_32|)
    case _ => ArithTries(kind, o, ARITH_STEPS)
  }

  const ARITH_STEPS: nat := ARITH_MAX as nat

  /** The candidates with the steps 1 to n. */
  ghost function ArithTries(kind: Kind, o: seq<u8>, n: nat): seq<Try>
    requires |o| == Width(kind) && n <= ARITH_STEPS
  {
    Flatten(ArithSteps(kind, o), n)
  }

  ghost function Flatten(steps: nat -> seq<Try>, n: nat): seq<Try> {
    if n == 0 then [] else Flatten(steps, n - 1) + steps(n)
  }

  /** The candidates for every step. */
  ghost function ArithSteps(kind: Kind, o: seq<u8>): nat -> seq<Try>
    requires |o| == Width(kind)
  {
    (n: nat) => if n <= ARITH_STEPS then ArithStep(kind, o, n) else []
  }

  ghost function ArithStep(kind: Kind, o: seq<u8>, n: nat): seq<Try>
    requires |o| == Width(kind) && n <= ARITH_STEPS
  {
    match kind
    case Arith8 => Arith8Step(o[0], n as u8)
    case Arith16 => Arith16Step(Load16(o[0], o[1]), n as u16)
    case Arith32 => Arith32Step(Load32(o[0], o[1], o[2], o[3]), n as u32)
    case _ => []
  }

  ghost function Unless(skip: bool, w: seq<u8>): Try { if skip then Skip else Put(w) }

  /** The value v instead of o, unless a bit flip makes the same change. */
  ghost function Filtered8(o: u8, v: u8): Try { Unless(FlipPattern((o ^ v) as u32), [v]) }

  ghost function Filtered16(o: u16, v: u16, skip: bool): Try {
    Unless(skip || FlipPattern((o ^ v) as u32), Store16(v))
  }

  ghost function Filtered32(o: u32, v: u32, skip: bool): Try {
    Unless(skip || FlipPattern(o ^ v), Store32(v))
  }

  ghost function Arith8Step(o: u8, j: u8): seq<Try> { [Filtered8(o, o + j), Filtered8(o, o - j)] }

  /** Only changes that reach beyond the low byte, in either byte order. */
  ghost function Arith16Step(o: u16, j: u16): seq<Try> {
    [Filtered16(o, o + j, (o & 0xff) + j <= 0xff),
     Filtered16(o, o - j, o & 0xff >= j),
     Filtered16(o, Swap16(Swap16(o) + j), (o >> 8) + j <= 0xff),
     Filtered16(o, Swap16(Swap16(o) - j), o >> 8 >= j)]
  }

  /** Only changes that reach beyond the low half, in either byte order. */
  ghost function Arith32Step(o: u32, j: u32): seq<Try> {
    Arith32Low(o, j) + Arith32High(o, Swap32(o), j)
  }

  ghost function Arith32Low(o: u32, j: u32): seq<Try> {
    [Filtered32(o, o + j, (o & 0xffff) + j <= 0xffff), Filtered32(o, o - j, o & 0xffff >= j)]
  }

  ghost function Arith32High(o: u32, swapped: u32, j: u32): seq<Try> {
    [Filtered32(o, Swap32(swapped + j), (swapped & 0xffff) + j <= 0xffff),
     Filtered32(o, Swap32(swapped - j), swapped & 0xffff >= j)]
  }

  ghost function Interest8Tries(o: u8, vals: seq<u8>, n: nat): seq<Try>
    requires n <= |vals|
  {
    if n == 0 then [] else Interest8Tries(o, vals, n - 1) + [Interest8Try(o, vals[n - 1])]
  }

  ghost function Interest8Try(o: u8, v: u8): Try {
    Unless(FlipPattern((o ^ v) as u32) || ArithPattern([o], [v]), [v])
  }

  ghost function Interest16Tries(o: seq<u8>, vals: seq<u16>, n: nat): seq<Try>
    requires |o| == 2 && n <= |vals|
  {
    if n == 0 then [] else Interest16Tries(o, vals, n - 1) + Interest16Pair(o, vals[n - 1])
  }

  /** One value, low byte first and high byte first. */
  ghost function Interest16Pair(o: seq<u8>, v: u16): (r: seq<Try>)
    requires |o| == 2
    ensures |r| == 2
  {
    [Unless(Redundant16(o, v, false), Store16(v)),
     Unless(v == Swap16(v) || Redundant16(o, Swap16(v), true), Store16(Swap16(v)))]
  }

  ghost predicate Redundant16(o: seq<u8>, v: u16, checkLe: bool)
    requires |o| == 2
  {
    FlipPattern((Load16(o[0], o[1]) ^ v) as u32) || ArithPattern(o, Store16(v)) || InterestPattern(o, Store16(v), checkLe)
  }

  ghost function Interest32Tries(o: seq<u8>, vals: seq<u32>, n: nat): seq<Try>
    requires |o| == 4 && n <= |vals|
  {
    if n == 0 then [] else Interest32Tries(o, vals, n - 1) + Interest32Pair(o, vals[n - 1])
  }

  /** One value, low byte first and high byte first. */
  ghost function Interest32Pair(o: seq<u8>, v: u32): (r: seq<Try>)
    requires |o| == 4
    ensures |r| == 2
  {
    [Unless(Redundant32(o, v, false), Store32(v)),
     Unless(v == Swap32(v) || Redundant32(o, Swap32(v), true), Store32(Swap32(v)))]
  }

  ghost predicate Redundant32(o: seq<u8>, v: u32, checkLe: bool)
    requires |o| == 4
  {
    || FlipPattern(Load32(o[0], o[1], o[2], o[3]) ^ v)
    || ArithPattern(o, Store32(v)) || InterestPattern(o, Store32(v), checkLe)
  }

  /** The number of candidates per position. */
  function PerPosition(kind: Kind): nat {
    match kind
    case Flip16 | Flip32 => 1
    case Arith8 => 2 * ARITH_STEPS
    case Arith16 | Arith32 => 4 * ARITH_STEPS
    case Interest8 => |INTERESTING_8|
    case Interest16 => 2 * |INTERESTING_16|
    case Interest32 => 2 * |INTERESTING_32|
  }

  // ---------- A whole stage ----------

  /** s with w stored at offset i, if it fits. */
  function Overwrite(s: Input, i: nat, w: seq<u8>): Input {
    if i + |w| <= |s| then s[..i] + w + s[i + |w|..] else s
  }

  /** s with w inserted at offset i. */
  function Inserted(s: Input, i: nat, w: seq<u8>): Input {
    if i <= |s| then s[..i] + w + s[i..] else s
  }

  /** The files run for the candidates at position i. */
  ghost function Ran(s: Input, i: nat, tries: seq<Try>): (r: seq<Input>)
    ensures |r| <= |tries|
  {
    if |tries| == 0 then []
    else
      var last := tries[|tries| - 1];
      Ran(s, i, tries[..|tries| - 1]) + if last.Put? then [Overwrite(s, i, last.w)] else []
  }

  /** Is some byte of the word at position i in a block of the effector map that is set? */
  predicate Effective(eff: seq<bool>, i: nat, n: nat)
    requires n > 0 && (i + n - 1) / 8 < |eff|
  {
    || eff[i / 8] || (n > 1 && eff[(i + 1) / 8])
    || (n > 2 && (eff[(i + 2) / 8] || (n > 3 && eff[(i + 3) / 8])))
  }

  /** The candidates for position i: all are skipped if the word has no effect. */
  ghost function TriesAt(s: Input, kind: Kind, eff: seq<bool>, i: nat): seq<Try>
    requires i + Width(kind) <= |s| && |eff| == EffLen(|s|)
  {
    if Effective(eff, i, Width(kind)) then Tries(kind, s[i..i + Width(kind)])
    else seq(PerPosition(kind), _ => Skip)
  }

  /** The candidates for all positions of a stage. */
  ghost function Plan(s: Input, kind: Kind, eff: seq<bool>): seq<seq<Try>>
    requires Width(kind) <= |s| && |eff| == EffLen(|s|)
  {
    seq(|s| - Width(kind) + 1, i requires 0 <= i < |s| - Width(kind) + 1 => TriesAt(s, kind, eff, i))
  }

  ghost predicate IsPlan(plan: seq<seq<Try>>, s: Input, kind: Kind, eff: seq<bool>) {
    && |eff| == EffLen(|s|) && |plan| + Width(kind) == |s| + 1
    && forall i {:trigger TriesAt(s, kind, eff, i)} :: 0 <= i < |plan| ==> TriesAt(s, kind, eff, i) == plan[i]
  }

  /** The files run for the first n positions of a plan. */
  ghost function PlanRuns(s: Input, plan: seq<seq<Try>>, n: nat): seq<Input>
    requires n <= |plan|
  {
    if n == 0 then [] else PlanRuns(s, plan, n - 1) + Ran(s, n - 1, plan[n - 1])
  }

  /** The files run by a stage. */
  ghost function StageRuns(s: Input, kind: Kind, eff: seq<bool>): seq<Input>
    requires Width(kind) <= |s| && |eff| == EffLen(|s|)
  {
    var plan := Plan(s, kind, eff);
    PlanRuns(s, plan, |plan|)
  }

  ghost predicate Fit(tries: seq<Try>, n: nat) {
    forall k :: 0 <= k < |tries| && tries[k].Put? ==> |tries[k].w| == n
  }

  lemma TriesPerPosition(kind: Kind, o: seq<u8>)
    requires |o| == Width(kind)
    ensures |Tries(kind, o)| == PerPosition(kind) && Fit(Tries(kind, o), Width(kind))
  {
    match kind
    case Arith8 => ArithTriesCount(kind, o, ARITH_STEPS);
    case Arith16 => ArithTriesCount(kind, o, ARITH_STEPS);
    case Arith32 => ArithTriesCount(kind, o, ARITH_STEPS);
    case Interest8 => Interest8TriesCount(o[0], INTERESTING_8, |INTERESTING_8|);
    case Interest16 => Interest16TriesCount(o, INTERESTING_16, |INTERESTING_16|);
    case Interest32 => Interest32TriesCount(o, INTERESTING_32, |INTERESTING_32|);
    case _ =>
  }

  lemma {:induction false} ArithTriesCount(kind: Kind, o: seq<u8>, n: nat)
    requires |o| == Width(kind) && (kind.Arith8? || kind.Arith16? || kind.Arith32?) && n <= ARITH_STEPS
    ensures |ArithTries(kind, o, n)| == (n * if kind.Arith8? then 2 else 4) && Fit(ArithTries(kind, o, n), Width(kind))
  {
    if n > 0 {
      ArithTriesCount(kind, o, n - 1);
      ArithStepCount(kind, o, n);
    }
  }

  lemma ArithStepCount(kind: Kind, o: seq<u8>, n: nat)
    requires |o| == Width(kind) && (kind.Arith8? || kind.Arith16? || kind.Arith32?) && n <= ARITH_STEPS
    ensures |ArithStep(kind, o, n)| == (if kind.Arith8? then 2 else 4) && Fit(ArithStep(kind, o, n), Width(kind))
  {
  }

  lemma {:induction false} Interest8TriesCount(o: u8, vals: seq<u8>, n: nat)
    requires n <= |vals|
    ensures |Interest8Tries(o, vals, n)| == n && Fit(Interest8Tries(o, vals, n), 1)
  {
    if n > 0 { Interest8TriesCount(o, vals, n - 1); }
  }

  lemma {:induction false} Interest16TriesCount(o: seq<u8>, vals: seq<u16>, n: nat)
    requires |o| == 2 && n <= |vals|
    ensures |Interest16Tries(o, vals, n)| == 2 * n && Fit(Interest16Tries(o, vals, n), 2)
  {
    if n > 0 { Interest16TriesCount(o, vals, n - 1); }
  }

  lemma {:induction false} Interest32TriesCount(o: seq<u8>, vals: seq<u32>, n: nat)
    requires |o| == 4 && n <= |vals|
    ensures |Interest32Tries(o, vals, n)| == 2 * n && Fit(Interest32Tries(o, vals, n), 4)
  {
    if n > 0 { Interest32TriesCount(o, vals, n - 1); }
  }

  // ---------- The stages in place ----------

  /** One position of a stage: the file, the place, and the state on arrival. */
  datatype Spot = Spot(s: Input, i: nat, n: nat, before: seq<Input>, cur: int, max: int)

  /** The bench after some candidates of a position: only the word itself may differ from the file,
      and the counters reflect what was run and what was skipped. */
  ghost predicate Trying(b: Bench, p: Spot, tries: seq<Try>)
    reads b, b.outBuf
  {
    && p.i + p.n <= |p.s| == b.outBuf.Length
    && b.outBuf[..p.i] == p.s[..p.i] && b.outBuf[p.i + p.n..] == p.s[p.i + p.n..]
    && b.log == p.before + Ran(p.s, p.i, tries)
    && b.stageCur == p.cur + |Ran(p.s, p.i, tries)|
    && b.stageMax == p.max - (|tries| - |Ran(p.s, p.i, tries)|)
  }

  /** Stores a word into the buffer. */
  method Store(buf: array<u8>, i: nat, w: seq<u8>)
    requires i + |w| <= buf.Length
    modifies buf
    ensures buf[..] == Overwrite(old(buf[..]), i, w)
  {
    for k := 0 to |w|
      invariant buf[..i] == old(buf[..i]) && buf[i + |w|..] == old(buf[i + |w|..]) && buf[i..i + k] == w[..k]
    {
      buf[i + k] := w[k];
    }
    assert buf[..] == buf[..i] + buf[i..i + |w|] + buf[i + |w|..];
  }

  /** One candidate: skipped, or stored and run. */
  method Attempt(b: Bench, i: nat, try: Try, ghost p: Spot, ghost tries: seq<Try>)
    returns (abandon: bool)
    requires Trying(b, p, tries) && i == p.i && (try.Put? ==> |try.w| == p.n)
    modifies b, b.outBuf
    ensures b.Obeyed(|old(b.log)|, abandon)
    ensures !abandon ==> Trying(b, p, tries + [try])
  {
    abandon := false;
    assert (tries + [try])[..|tries|] == tries;
    if try.Skip? {
      b.stageMax := b.stageMax - 1;
    } else {
      var w := try.w;
      ghost var was := b.outBuf[..];
      Store(b.outBuf, i, w);
      assert was[..i] == p.s[..i] && was[i + |w|..] == p.s[i + |w|..];
      assert b.outBuf[..] == Overwrite(p.s, i, w);
      var cksum;
      abandon, cksum := b.Run(b.outBuf[..]);
      if abandon { return; }
      b.stageCur := b.stageCur + 1;
    }
  }

  /** The word at a position is put back. */
  method Restore(b: Bench, i: nat, orig: seq<u8>, ghost p: Spot, ghost tries: seq<Try>)
    requires Trying(b, p, tries) && i == p.i && orig == p.s[i..i + p.n]
    modifies b.outBuf
    ensures b.outBuf[..] == p.s && Trying(b, p, tries)
  {
    ghost var was := b.outBuf[..];
    Store(b.outBuf, i, orig);
    assert was[..i] == p.s[..i] && was[i + p.n..] == p.s[i + p.n..];
    assert b.outBuf[..] == p.s;
  }

  /** Runs the candidates of a position one after the other and puts the original word back. */
  method RunTries(b: Bench, i: nat, n: nat, tries: seq<Try>, ghost p: Spot) returns (abandon: bool)
    requires Trying(b, p, []) && b.outBuf[..] == p.s && i == p.i && n == p.n
    requires Fit(tries, n)
    modifies b, b.outBuf
    ensures b.Obeyed(|old(b.log)|, abandon)
    ensures !abandon ==> b.outBuf[..] == p.s && Trying(b, p, tries)
  {
    abandon := false;
    var orig := b.outBuf[i..i + n];
    for k := 0 to |tries|
      invariant b.Obeyed(|old(b.log)|, false)
      invariant Trying(b, p, tries[..k])
    {
      abandon := Attempt(b, i, tries[k], p, tries[..k]);
      if abandon { return; }
      assert tries[..k + 1] == tries[..k] + [tries[k]];
    }
    assert tries[..|tries|] == tries;
    Restore(b, i, orig, p, tries);
  }

  // ---------- Choosing the candidates ----------

  method Filter8(o: u8, v: u8) returns (t: Try)
    ensures t == Filtered8(o, v)
  {
    var dup := CouldBeBitflip((o ^ v) as u32);
    t := if dup then Skip else Put([v]);
  }

  method Filter16(o: u16, v: u16, skip: bool) returns (t: Try)
    ensures t == Filtered16(o, v, skip)
  {
    var dup := CouldBeBitflip((o ^ v) as u32);
    t := if !skip && !dup then Put(Store16(v)) else Skip;
  }

  method Filter32(o: u32, v: u32, skip: bool) returns (t: Try)
    ensures t == Filtered32(o, v, skip)
  {
    var dup := CouldBeBitflip(o ^ v);
    t := if !skip && !dup then Put(Store32(v)) else Skip;
  }

  method ArithCandidates(kind: Kind, w: seq<u8>) returns (tries: seq<Try>)
    requires |w| == Width(kind) && (kind.Arith8? || kind.Arith16? || kind.Arith32?)
    ensures tries == ArithTries(kind, w, ARITH_STEPS)
  {
    tries := [];
    for n := 1 to ARITH_STEPS + 1
      invariant tries == ArithTries(kind, w, n - 1)
    {
      var step := ArithStepCandidates(kind, w, n);
      tries := tries + step;
    }
  }

  /** The candidates with step n. */
  method ArithStepCandidates(kind: Kind, w: seq<u8>, n: nat) returns (step: seq<Try>)
    requires |w| == Width(kind) && (kind.Arith8? || kind.Arith16? || kind.Arith32?) && n <= ARITH_STEPS
    ensures step == ArithStep(kind, w, n)
  {
    match kind
    case Arith8 => step := Arith8StepCandidates(w[0], n as u8);
    case Arith16 => step := Arith16StepCandidates(Load16(w[0], w[1]), n as u16);
    case Arith32 => step := Arith32StepCandidates(Load32(w[0], w[1], w[2], w[3]), n as u32);
  }

  method Arith8StepCandidates(orig: u8, j: u8) returns (step: seq<Try>)
    ensures step == Arith8Step(orig, j)
  {
    var up := Filter8(orig, orig + j);
    var down := Filter8(orig, orig - j);
    step := [up, down];
  }

  method Arith16StepCandidates(orig: u16, j: u16) returns (step: seq<Try>)
    ensures step == Arith16Step(orig, j)
  {
    var r1 := Filter16(orig, orig + j, (orig & 0xff) + j <= 0xff);
    var r2 := Filter16(orig, orig - j, orig & 0xff >= j);
    var r3 := Filter16(orig, Swap16(Swap16(orig) + j), (orig >> 8) + j <= 0xff);
    var r4 := Filter16(orig, Swap16(Swap16(orig) - j), orig >> 8 >= j);
    step := [r1, r2, r3, r4];
  }

  method Arith32StepCandidates(orig: u32, j: u32) returns (step: seq<Try>)
    ensures step == Arith32Step(orig, j)
  {
    var low := Arith32LowCandidates(orig, j);
    var high := Arith32HighCandidates(orig, Swap32(orig), j);
    step := low + high;
  }

  method Arith32LowCandidates(orig: u32, j: u32) returns (step: seq<Try>)
    ensures step == Arith32Low(orig, j)
  {
    var r1 := Filter32(orig, orig + j, (orig & 0xffff) + j <= 0xffff);
    var r2 := Filter32(orig, orig - j, orig & 0xffff >= j);
    step := [r1, r2];
  }

  method Arith32HighCandidates(orig: u32, swapped: u32, j: u32) returns (step: seq<Try>)
    ensures step == Arith32High(orig, swapped, j)
  {
    var r3 := Filter32(orig, Swap32(swapped + j), (swapped & 0xffff) + j <= 0xffff);
    var r4 := Filter32(orig, Swap32(swapped - j), swapped & 0xffff >= j);
    step := [r3, r4];
  }

  method Interest8Candidates(orig: u8) returns (tries: seq<Try>)
    ensures tries == Interest8Tries(orig, INTERESTING_8, |INTERESTING_8|)
  {
    tries := [];
    for n := 0 to |INTERESTING_8|
      invariant tries == Interest8Tries(orig, INTERESTING_8, n)
    {
      var try := FilterInterest8(orig, INTERESTING_8[n]);
      tries := tries + [try];
    }
  }

  method FilterInterest8(orig: u8, v: u8) returns (t: Try)
    ensures t == Interest8Try(orig, v)
  {
    var dup := CouldBeBitflip((orig ^ v) as u32);
    if !dup { dup := CouldBeArith([orig], [v]); }
    t := if dup then Skip else Put([v]);
  }

  method Interest16Candidates(w: seq<u8>, vals: seq<u16>) returns (tries: seq<Try>)
    requires |w| == 2
    ensures tries == Interest16Tries(w, vals, |vals|)
  {
    tries := [];
    for n := 0 to |vals|
      invariant tries == Interest16Tries(w, vals, n)
    {
      var pair := Interest16PairCandidates(w, vals[n]);
      tries := tries + pair;
    }
  }

  method Interest16PairCandidates(w: seq<u8>, v: u16) returns (pair: seq<Try>)
    requires |w| == 2
    ensures pair == Interest16Pair(w, v)
  {
    var low := FilterInterest16(w, v, false, false);
    var high := FilterInterest16(w, Swap16(v), v == Swap16(v), true);
    pair := [low, high];
  }

  method FilterInterest16(w: seq<u8>, v: u16, skip: bool, checkLe: bool) returns (t: Try)
    requires |w| == 2
    ensures t == Unless(skip || Redundant16(w, v, checkLe), Store16(v))
  {
    if skip { return Skip; }
    var dup := CouldBeBitflip((Load16(w[0], w[1]) ^ v) as u32);
    if !dup { dup := CouldBeArith(w, Store16(v)); }
    if !dup { dup := CouldBeInterest(w, Store16(v), checkLe); }
    t := if dup then Skip else Put(Store16(v));
  }

  method Interest32Candidates(w: seq<u8>, vals: seq<u32>) returns (tries: seq<Try>)
    requires |w| == 4
    ensures tries == Interest32Tries(w, vals, |vals|)
  {
    tries := [];
    for n := 0 to |vals|
      invariant tries == Interest32Tries(w, vals, n)
    {
      var pair := Interest32PairCandidates(w, vals[n]);
      tries := tries + pair;
    }
  }

  method Interest32PairCandidates(w: seq<u8>, v: u32) returns (pair: seq<Try>)
    requires |w| == 4
    ensures pair == Interest32Pair(w, v)
  {
    var low := FilterInterest32(w, v, false, false);
    var high := FilterInterest32(w, Swap32(v), v == Swap32(v), true);
    pair := [low, high];
  }

  method FilterInterest32(w: seq<u8>, v: u32, skip: bool, checkLe: bool) returns (t: Try)
    requires |w| == 4
    ensures t == Unless(skip || Redundant32(w, v, checkLe), Store32(v))
  {
    if skip { return Skip; }
    var dup := CouldBeBitflip(Load32(w[0], w[1], w[2], w[3]) ^ v);
    if !dup { dup := CouldBeArith(w, Store32(v)); }
    if !dup { dup := CouldBeInterest(w, Store32(v), checkLe); }
    t := if dup then Skip else Put(Store32(v));
  }

  method Candidates(kind: Kind, w: seq<u8>) returns (tries: seq<Try>)
    requires |w| == Width(kind)
    ensures tries == Tries(kind, w)
  {
    match kind
    case Flip16 => tries := [Put([!w[0], !w[1]])];
    case Flip32 => tries := [Put([!w[0], !w[1], !w[2], !w[3]])];
    case Interest8 => tries := Interest8Candidates(w[0]);
    case Interest16 => tries := Interest16Candidates(w, INTERESTING_16);
    case Interest32 => tries := Interest32Candidates(w, INTERESTING_32);
    case _ => tries := ArithCandidates(kind, w);
  }

  // ---------- Walking over the file ----------

  lemma {:induction false} NothingRan(s: Input, i: nat, tries: seq<Try>)
    requires forall k :: 0 <= k < |tries| ==> tries[k] == Skip
    ensures Ran(s, i, tries) == []
  {
    if |tries| > 0 { NothingRan(s, i, tries[..|tries| - 1]); }
  }

  /** What a position without effect is, and one with effect. */
  lemma TriedAt(s: Input, kind: Kind, eff: seq<bool>, i: nat, tries: seq<Try>)
    requires i + Width(kind) <= |s| && |eff| == EffLen(|s|) && tries == TriesAt(s, kind, eff, i)
    ensures Effective(eff, i, Width(kind)) ==> tries == Tries(kind, s[i..i + Width(kind)])
    ensures !Effective(eff, i, Width(kind)) ==> Ran(s, i, tries) == []
  {
    if !Effective(eff, i, Width(kind)) { NothingRan(s, i, tries); }
  }

  method HasEffect(kind: Kind, eff: seq<bool>, i: nat, ghost s: Input, ghost plan: seq<seq<Try>>) returns (effect: bool)
    requires i < |plan| && IsPlan(plan, s, kind, eff)
    ensures effect ==> plan[i] == Tries(kind, s[i..i + Width(kind)])
    ensures !effect ==> Ran(s, i, plan[i]) == []
  {
    assert plan[i] == TriesAt(s, kind, eff, i);
    TriedAt(s, kind, eff, i, plan[i]);
    effect := Effective(eff, i, Width(kind));
  }

  /** A position with effect. */
  method TryAt(b: Bench, kind: Kind, i: nat, n: nat, ghost s: Input, ghost tries: seq<Try>) returns (abandon: bool)
    requires b.outBuf[..] == s && n == Width(kind) && i + n <= |s| && tries == Tries(kind, s[i..i + n])
    modifies b, b.outBuf
    ensures b.Obeyed(|old(b.log)|, abandon)
    ensures !abandon ==> b.outBuf[..] == s && b.log == old(b.log) + Ran(s, i, tries)
    ensures !abandon ==> b.stageCur == old(b.stageCur) + |Ran(s, i, tries)|
    ensures !abandon ==> b.stageMax == old(b.stageMax) - PerPosition(kind) + |Ran(s, i, tries)|
  {
    assert b.outBuf[i..i + n] == s[i..i + n];
    var chosen := Candidates(kind, b.outBuf[i..i + n]);
    TriesPerPosition(kind, s[i..i + n]);
    abandon := RunTries(b, i, n, chosen, Spot(s, i, n, b.log, b.stageCur, b.stageMax));
  }

  method WalkAt(b: Bench, kind: Kind, eff: seq<bool>, i: nat, ghost s: Input, ghost plan: seq<seq<Try>>)
    returns (abandon: bool)
    requires b.outBuf[..] == s && i < |plan| && IsPlan(plan, s, kind, eff)
    modifies b, b.outBuf
    ensures b.Obeyed(|old(b.log)|, abandon)
    ensures !abandon ==> b.outBuf[..] == s && b.log == old(b.log) + Ran(s, i, plan[i])
    ensures !abandon ==> b.stageCur == old(b.stageCur) + |Ran(s, i, plan[i])|
    ensures !abandon ==> b.stageMax == old(b.stageMax) - PerPosition(kind) + |Ran(s, i, plan[i])|
  {
    var n := Width(kind);
    var effect := HasEffect(kind, eff, i, s, plan);
    if !effect {
      b.stageMax := b.stageMax - PerPosition(kind);
      return false;
    }
    abandon := TryAt(b, kind, i, n, s, plan[i]);
  }

  /** k times per. */
  ghost function Share(per: nat, k: nat): nat { if k == 0 then 0 else per + Share(per, k - 1) }

  lemma {:induction false} ShareIsProduct(per: nat, k: nat)
    ensures Share(per, k) == per * k
  {
    if k > 0 {
      ShareIsProduct(per, k - 1);
      assert per * (k - 1) == per * k - per;
    }
  }

  method WalkPlan(b: Bench, kind: Kind, eff: seq<bool>, ghost s: Input, ghost plan: seq<seq<Try>>)
    returns (abandon: bool)
    requires b.outBuf[..] == s && IsPlan(plan, s, kind, eff)
    modifies b, b.outBuf
    ensures b.Obeyed(|old(b.log)|, abandon)
    ensures !abandon ==> b.Complete(s, old(b.log), PlanRuns(s, plan, |plan|))
  {
    var per, positions := PerPosition(kind), b.outBuf.Length - Width(kind) + 1;
    b.stageCur, b.stageMax := 0, per * positions;
    ShareIsProduct(per, positions);
    abandon := false;
    for i := 0 to positions
      invariant b.Obeyed(|old(b.log)|, false)
      invariant b.outBuf[..] == s && b.log == old(b.log) + PlanRuns(s, plan, i)
      invariant b.stageCur == |PlanRuns(s, plan, i)|
      invariant b.stageMax == Share(per, positions - i) + b.stageCur
    {
      abandon := WalkAt(b, kind, eff, i, s, plan);
      if abandon { return; }
    }
  }

  lemma PlanIsPlan(s: Input, kind: Kind, eff: seq<bool>, plan: seq<seq<Try>>)
    requires Width(kind) <= |s| && |eff| == EffLen(|s|) && plan == Plan(s, kind, eff)
    ensures IsPlan(plan, s, kind, eff)
  {
    forall i {:trigger TriesAt(s, kind, eff, i)} | 0 <= i < |plan| ensures TriesAt(s, kind, eff, i) == plan[i] {
      PlanAt(s, kind, eff, plan, i);
    }
  }

  lemma PlanAt(s: Input, kind: Kind, eff: seq<bool>, plan: seq<seq<Try>>, i: nat)
    requires Width(kind) <= |s| && |eff| == EffLen(|s|) && plan == Plan(s, kind, eff) && i < |plan|
    ensures TriesAt(s, kind, eff, i) == plan[i]
  {
  }

  /** A whole stage: the buffer is restored and the counter, corrected for everything that was
      skipped, ends at the number of executions. */
  method Walk(b: Bench, kind: Kind, eff: seq<bool>, ghost s: Input) returns (abandon: bool)
    requires b.outBuf[..] == s && Width(kind) <= |s| && |eff| == EffLen(|s|)
    modifies b, b.outBuf
    ensures b.Obeyed(|old(b.log)|, abandon)
    ensures !abandon ==> b.Complete(s, old(b.log), StageRuns(s, kind, eff))
  {
    ghost var plan := Plan(s, kind, eff);
    PlanIsPlan(s, kind, eff, plan);
    abandon := WalkPlan(b, kind, eff, s, plan);
  }
}
