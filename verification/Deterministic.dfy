/** The deterministic stages of afl-fuzz in a row, and what skipping redundant values loses. */
module Deterministic {
  import opened Redundancy
  import opened AutoTokens
  import opened Stages
  import opened WordStages

  // ---------- Which one-byte changes the bit flips make ----------

  function XorAll(bits: nat -> u8, n: nat): u8 {
    if n == 0 then 0 else XorAll(bits, n - 1) ^ bits(n - 1)
  }

  lemma {:induction false} XorSame(f: nat -> u8, g: nat -> u8, n: nat)
    requires forall j: nat :: j < n ==> f(j) == g(j)
    ensures XorAll(f, n) == XorAll(g, n)
  {
    if n > 0 { XorSame(f, g, n - 1); }
  }

  lemma XorFew(f: nat -> u8)
    ensures XorAll(f, 1) == f(0)
    ensures XorAll(f, 2) == f(0) ^ f(1)
    ensures XorAll(f, 4) == f(0) ^ f(1) ^ f(2) ^ f(3)
  {
    assert XorAll(f, 2) == XorAll(f, 1) ^ f(1);
    assert XorAll(f, 3) == XorAll(f, 2) ^ f(2);
    assert XorAll(f, 4) == XorAll(f, 3) ^ f(3);
  }

  /** The bits of byte k from bit b on. */
  function BitsFrom(k: nat, b: nat): nat -> u8 { (j: nat) => Bit(k, b + j) }

  lemma {:induction false} RunMaskIsXor(k: nat, b: nat, n: nat)
    ensures RunMask(k, b, n) == XorAll(BitsFrom(k, b), n)
  {
    if n > 0 { RunMaskIsXor(k, b, n - 1); }
  }

  /** n ones from bit p of a byte on, counted from the highest. */
  function OnesFrom(p: nat, n: nat): u8
    requires p + n <= 8 && (n == 1 || n == 2 || n == 4)
  {
    if n == 1 then FlipMask(p)
    else if n == 2 then FlipMask(p) ^ FlipMask(p + 1)
    else FlipMask(p) ^ FlipMask(p + 1) ^ FlipMask(p + 2) ^ FlipMask(p + 3)
  }

  /** Bit p of byte q, where the bits from 8 on belong to the next byte. */
  function BitOfPair(q: nat, p: nat, k: nat): u8
    requires p < 16
  {
    if p < 8 then if k == q then FlipMask(p) else 0
    else if k == q + 1 then FlipMask(p - 8) else 0
  }

  lemma BitInPair(q: nat, p: nat, k: nat)
    requires p < 16
    ensures Bit(k, 8 * q + p) == BitOfPair(q, p, k)
  {
  }

  function PairBits(q: nat, p: nat, k: nat): nat -> u8 {
    (j: nat) => if p + j < 16 then BitOfPair(q, p + j, k) else 0
  }

  lemma FourPairBits(q: nat, p: nat, k: nat)
    requires p < 8
    ensures PairBits(q, p, k)(0) == BitOfPair(q, p, k) && PairBits(q, p, k)(1) == BitOfPair(q, p + 1, k)
    ensures PairBits(q, p, k)(2) == BitOfPair(q, p + 2, k) && PairBits(q, p, k)(3) == BitOfPair(q, p + 3, k)
  {
  }

  lemma PairBitAt(q: nat, p: nat, k: nat, j: nat)
    requires p + j < 16
    ensures BitsFrom(k, 8 * q + p)(j) == PairBits(q, p, k)(j)
  {
    BitInPair(q, p + j, k);
    assert 8 * q + p + j == 8 * q + (p + j);
  }

  lemma RunInPair(q: nat, p: nat, n: nat, k: nat)
    requires p < 8 && n <= 4
    ensures RunMask(k, 8 * q + p, n) == XorAll(PairBits(q, p, k), n)
  {
    var b := 8 * q + p;
    var f, g := BitsFrom(k, b), PairBits(q, p, k);
    forall j: nat | j < n ensures f(j) == g(j) { PairBitAt(q, p, k, j); }
    XorSame(f, g, n);
    RunMaskIsXor(k, b, n);
  }

  lemma RunInsideByte(q: nat, p: nat, n: nat, k: nat)
    requires p + n <= 8 && (n == 1 || n == 2 || n == 4)
    ensures RunMask(k, 8 * q + p, n) == if k == q then OnesFrom(p, n) else 0
  {
    RunInPair(q, p, n, k);
    XorFew(PairBits(q, p, k));
    FourPairBits(q, p, k);
  }

  lemma RunAcrossBytes(q: nat, p: nat, n: nat)
    requires p < 8 < p + n && (n == 2 || n == 4)
    ensures RunMask(q, 8 * q + p, n) != 0 && RunMask(q + 1, 8 * q + p, n) != 0
  {
    RunInPair(q, p, n, q);
    RunInPair(q, p, n, q + 1);
    XorFew(PairBits(q, p, q));
    XorFew(PairBits(q, p, q + 1));
    FourPairBits(q, p, q);
    FourPairBits(q, p, q + 1);
  }

  lemma OnesArePatterns(p: nat, n: nat)
    requires p + n <= 8 && (n == 1 || n == 2 || n == 4)
    ensures OnesFrom(p, n) != 0 && FlipPattern8(OnesFrom(p, n))
  {
  }

  lemma PatternsAreOnes(x: u8) returns (p: nat, n: nat)
    requires FlipPattern8(x) && x != 0 && x != 0xff
    ensures p + n <= 8 && (n == 1 || n == 2 || n == 4) && x == OnesFrom(p, n)
  {
    p, n := 0, 1;
    while p < 8 && x != OnesFrom(p, 1)
      invariant p <= 8 && forall k: nat :: k < p ==> x != OnesFrom(k, 1)
    {
      p := p + 1;
    }
    if p < 8 { return; }
    p, n := 0, 2;
    while p < 7 && x != OnesFrom(p, 2)
      invariant p <= 7 && forall k: nat :: k < p ==> x != OnesFrom(k, 2)
    {
      p := p + 1;
    }
    if p < 7 { return; }
    p, n := 0, 4;
    while p < 5 && x != OnesFrom(p, 4)
      invariant p <= 5 && forall k: nat :: k < p ==> x != OnesFrom(k, 4)
    {
      p := p + 1;
    }
    if p == 5 { NoMorePatterns(x); }
  }

  lemma NoMorePatterns(x: u8)
    requires forall k: nat :: k < 8 ==> x != OnesFrom(k, 1)
    requires forall k: nat :: k < 7 ==> x != OnesFrom(k, 2)
    requires forall k: nat :: k < 5 ==> x != OnesFrom(k, 4)
    ensures !FlipPattern8(x) || x == 0 || x == 0xff
  {
    var a := [OnesFrom(0, 1), OnesFrom(1, 1), OnesFrom(2, 1), OnesFrom(3, 1), OnesFrom(4, 1), OnesFrom(5, 1), OnesFrom(6, 1), OnesFrom(7, 1)];
    var b := [OnesFrom(0, 2), OnesFrom(1, 2), OnesFrom(2, 2), OnesFrom(3, 2), OnesFrom(4, 2), OnesFrom(5, 2), OnesFrom(6, 2)];
    var c := [OnesFrom(0, 4), OnesFrom(1, 4), OnesFrom(2, 4), OnesFrom(3, 4), OnesFrom(4, 4)];
  }

  /** Is f among the files run by the walking bit and byte flips? */
  ghost predicate RunByFlips(s: Input, f: Input)
    requires |s| > 0
  {
    f in BitStage(s, 1) || f in BitStage(s, 2) || f in BitStage(s, 4) || f in ByteRuns(s, |s|)
  }

  lemma BitStageOrigin(s: Input, n: nat, f: Input) returns (b: nat)
    requires 1 <= n <= 8 * |s| && f in BitStage(s, n)
    ensures b + n <= 8 * |s| && f == FlipRun(s, b, n)
  {
    b :| 0 <= b < |BitStage(s, n)| && BitStage(s, n)[b] == f;
    BitRunsAt(s, n, |BitStage(s, n)|, b);
  }

  lemma BitStageMember(s: Input, n: nat, b: nat)
    requires 1 <= n && b + n <= 8 * |s|
    ensures FlipRun(s, b, n) in BitStage(s, n)
  {
    BitRunsAt(s, n, |BitStage(s, n)|, b);
  }

  /** A flip of n bits that changes nothing but byte i changes it by a flip pattern. */
  lemma FlipOfOneByte(s: Input, i: nat, v: u8, n: nat, b: nat)
    requires i < |s| && v != s[i] && b + n <= 8 * |s| && (n == 1 || n == 2 || n == 4)
    requires FlipRun(s, b, n) == s[i := v]
    ensures FlipPattern8(s[i] ^ v)
  {
    var q, p := b / 8, b % 8;
    FlipRunBytes(s, b, n, i);
    FlipRunBytes(s, b, n, q);
    if p + n <= 8 {
      RunInsideByte(q, p, n, i);
      RunInsideByte(q, p, n, q);
      OnesArePatterns(p, n);
    } else {
      RunAcrossBytes(q, p, n);
      FlipRunBytes(s, b, n, q + 1);
    }
  }

  lemma OnesAreFlipped(s: Input, i: nat, p: nat, n: nat)
    requires i < |s| && p + n <= 8 && (n == 1 || n == 2 || n == 4)
    ensures s[i := s[i] ^ OnesFrom(p, n)] in BitStage(s, n)
  {
    var b := 8 * i + p;
    BitStageMember(s, n, b);
    OnesOfFile(s, i, p, n, b);
  }

  lemma OnesOfFile(s: Input, i: nat, p: nat, n: nat, b: nat)
    requires i < |s| && p + n <= 8 && (n == 1 || n == 2 || n == 4) && b == 8 * i + p
    ensures FlipRun(s, b, n) == s[i := s[i] ^ OnesFrom(p, n)]
  {
    var f, r := s[i := s[i] ^ OnesFrom(p, n)], FlipRun(s, b, n);
    forall k | 0 <= k < |s| ensures r[k] == f[k] {
      OnesInByte(s, i, p, n, k, b, r);
    }
  }

  lemma OnesInByte(s: Input, i: nat, p: nat, n: nat, k: nat, b: nat, r: Input)
    requires i < |s| && k < |s| && p + n <= 8 && (n == 1 || n == 2 || n == 4)
    requires b == 8 * i + p && r == FlipRun(s, b, n)
    ensures r[k] == if k == i then s[i] ^ OnesFrom(p, n) else s[k]
  {
    FlipRunBytes(s, b, n, k);
    RunInsideByte(i, p, n, k);
  }

  lemma PatternIsFlipped(s: Input, i: nat, x: u8)
    requires i < |s| && FlipPattern8(x) && x != 0
    ensures RunByFlips(s, s[i := s[i] ^ x])
  {
    if x == 0xff {
      ByteRunsAt(s, |s|, i);
      assert s[i := s[i] ^ x] == ByteRuns(s, |s|)[i];
    } else {
      var p, n := PatternsAreOnes(x);
      OnesAreFlipped(s, i, p, n);
    }
  }

  lemma FlippedByteIsPattern(s: Input, i: nat, v: u8)
    requires i < |s| && v != s[i] && s[i := v] in ByteRuns(s, |s|)
    ensures s[i] ^ v == 0xff
  {
    var f := s[i := v];
    var k :| 0 <= k < |s| && ByteRuns(s, |s|)[k] == f;
    ByteRunsAt(s, |s|, k);
    assert f == s[k := s[k] ^ 0xff];
    NotItself(s[k]);
    assert f[k] != s[k];
    XorBack(s[i], 0xff, s[i] ^ 0xff);
  }

  lemma NotItself(b: u8)
    ensures b ^ 0xff != b
  {
  }

  lemma FlippedIsPattern(s: Input, i: nat, v: u8)
    requires i < |s| && v != s[i] && RunByFlips(s, s[i := v])
    ensures FlipPattern8(s[i] ^ v)
  {
    var f := s[i := v];
    if f in ByteRuns(s, |s|) {
      FlippedByteIsPattern(s, i, v);
    } else {
      var n := if f in BitStage(s, 1) then 1 else if f in BitStage(s, 2) then 2 else 4;
      var b := BitStageOrigin(s, n, f);
      FlipOfOneByte(s, i, v, n, b);
    }
  }

  lemma XorBack(a: u8, b: u8, x: u8)
    requires x == a ^ b
    ensures a ^ x == b && (x == 0 <==> a == b)
  {
  }

  /** The bit-flip filter is exact on one-byte changes: a different value v for byte i was already
      run by a flip stage if and only if the filter says so. */
  lemma FlipFilterIsExact(s: Input, i: nat, v: u8)
    requires i < |s| && v != s[i]
    ensures RunByFlips(s, s[i := v]) <==> FlipPattern((s[i] ^ v) as u32)
  {
    var x := s[i] ^ v;
    FlipPatternOfByte(x);
    XorBack(s[i], v, x);
    if FlipPattern8(x) { PatternIsFlipped(s, i, x); }
    if RunByFlips(s, s[i := v]) { FlippedIsPattern(s, i, v); }
  }

  // ---------- Which one-byte changes the 8-bit stages make ----------

  lemma {:induction false} RanOrigin(s: Input, i: nat, tries: seq<Try>, f: Input) returns (k: nat)
    requires f in Ran(s, i, tries)
    ensures k < |tries| && tries[k].Put? && f == Overwrite(s, i, tries[k].w)
  {
    var rest := tries[..|tries| - 1];
    if f in Ran(s, i, rest) {
      k := RanOrigin(s, i, rest, f);
    } else {
      k := |tries| - 1;
    }
  }

  lemma {:induction false} RanMember(s: Input, i: nat, tries: seq<Try>, k: nat)
    requires k < |tries| && tries[k].Put?
    ensures Overwrite(s, i, tries[k].w) in Ran(s, i, tries)
  {
    if k < |tries| - 1 { RanMember(s, i, tries[..|tries| - 1], k); }
  }

  lemma {:induction false} PlanOrigin(s: Input, plan: seq<seq<Try>>, n: nat, f: Input) returns (i: nat)
    requires n <= |plan| && f in PlanRuns(s, plan, n)
    ensures i < n && f in Ran(s, i, plan[i])
  {
    if f in PlanRuns(s, plan, n - 1) {
      i := PlanOrigin(s, plan, n - 1, f);
    } else {
      i := n - 1;
    }
  }

  lemma {:induction false} PlanMember(s: Input, plan: seq<seq<Try>>, n: nat, f: Input, i: nat)
    requires i < n <= |plan| && f in Ran(s, i, plan[i])
    ensures f in PlanRuns(s, plan, n)
  {
    if i < n - 1 { PlanMember(s, plan, n - 1, f, i); }
  }

  /** The candidates of every position are single bytes. */
  ghost predicate OfBytes(plan: seq<seq<Try>>) {
    forall j :: 0 <= j < |plan| ==> Fit(plan[j], 1)
  }

  lemma ByteOverwritten(s: Input, i: nat, v: u8)
    requires i < |s|
    ensures Overwrite(s, i, [v]) == s[i := v]
  {
  }

  lemma ByteIsRun(s: Input, plan: seq<seq<Try>>, i: nat, v: u8)
    requires i < |s| == |plan| && Put([v]) in plan[i]
    ensures s[i := v] in PlanRuns(s, plan, |s|)
  {
    var k: nat :| k < |plan[i]| && plan[i][k] == Put([v]);
    RanMember(s, i, plan[i], k);
    ByteOverwritten(s, i, v);
    PlanMember(s, plan, |s|, s[i := v], i);
  }

  lemma RunIsByte(s: Input, plan: seq<seq<Try>>, i: nat, v: u8)
    requires i < |s| == |plan| && OfBytes(plan) && v != s[i] && s[i := v] in PlanRuns(s, plan, |s|)
    ensures Put([v]) in plan[i]
  {
    var f := s[i := v];
    var j := PlanOrigin(s, plan, |s|, f);
    var k := RanOrigin(s, j, plan[j], f);
    assert Fit(plan[j], 1);
    var w := plan[j][k].w;
    assert Overwrite(s, j, w) == s[j := w[0]];
    assert f[i] == v;
    assert w == [v];
  }

  lemma PlanIsOfBytes(s: Input, kind: Kind, eff: seq<bool>, plan: seq<seq<Try>>)
    requires kind == Arith8 || kind == Interest8
    requires |s| > 0 && |eff| == EffLen(|s|) && plan == Plan(s, kind, eff)
    ensures OfBytes(plan)
  {
    forall j | 0 <= j < |plan| ensures Fit(plan[j], 1) {
      PlanAt(s, kind, eff, plan, j);
      TriesPerPosition(kind, s[j..j + 1]);
    }
  }

  lemma ByteOfPlan(s: Input, kind: Kind, eff: seq<bool>, i: nat, t: Try)
    requires kind == Arith8 || kind == Interest8
    requires i < |s| && |eff| == EffLen(|s|) && t.Put?
    ensures t in TriesAt(s, kind, eff, i) <==> eff[i / 8] && t in Tries(kind, [s[i]])
  {
    assert s[i..i + 1] == [s[i]];
  }

  /** A stage of single bytes runs a change of byte i exactly when the byte is effective and the
      new value is among its candidates. */
  lemma ByteStageRuns(s: Input, kind: Kind, eff: seq<bool>, i: nat, v: u8)
    requires kind == Arith8 || kind == Interest8
    requires i < |s| && v != s[i] && |eff| == EffLen(|s|)
    ensures s[i := v] in StageRuns(s, kind, eff) <==> eff[i / 8] && Put([v]) in Tries(kind, [s[i]])
  {
    var plan := Plan(s, kind, eff);
    PlanIsOfBytes(s, kind, eff, plan);
    PlanAt(s, kind, eff, plan, i);
    ByteOfPlan(s, kind, eff, i, Put([v]));
    if Put([v]) in plan[i] { ByteIsRun(s, plan, i, v); }
    if s[i := v] in PlanRuns(s, plan, |s|) { RunIsByte(s, plan, i, v); }
  }

  lemma InConcatenation<T>(x: T, a: seq<T>, b: seq<T>)
    ensures x in a + b <==> x in a || x in b
  {
  }

  lemma {:induction false} FlattenOrigin(steps: nat -> seq<Try>, n: nat, t: Try) returns (m: nat)
    requires t in Flatten(steps, n)
    ensures 1 <= m <= n && t in steps(m)
  {
    if t in steps(n) {
      m := n;
    } else {
      InConcatenation(t, Flatten(steps, n - 1), steps(n));
      m := FlattenOrigin(steps, n - 1, t);
    }
  }

  lemma {:induction false} FlattenMember(steps: nat -> seq<Try>, n: nat, t: Try, m: nat)
    requires 1 <= m <= n && t in steps(m)
    ensures t in Flatten(steps, n)
  {
    if m < n { FlattenMember(steps, n - 1, t, m); }
  }

  lemma StepUpIs(o: u8, v: u8, d: u8, up: u8)
    requires up == v - o
    ensures v == o + d <==> up == d
  {
  }

  lemma StepDownIs(o: u8, v: u8, d: u8, down: u8)
    requires down == o - v
    ensures v == o - d <==> down == d
  {
  }

  lemma SameNumber(a: u8, b: u8, n: nat)
    requires n <= ARITH_STEPS && b == n as u8
    ensures a == b <==> a as nat == n
  {
  }

  lemma Arith8StepHas(o: u8, v: u8, n: nat, up: u8, down: u8, flip: bool)
    requires n <= ARITH_STEPS && flip == FlipPattern((o ^ v) as u32)
    requires up == v - o && down == o - v
    ensures Put([v]) in ArithStep(Arith8, [o], n) <==> (up as nat == n || down as nat == n) && !flip
  {
    var j := n as u8;
    StepUpIs(o, v, j, up);
    StepDownIs(o, v, j, down);
    SameNumber(up, j, n);
    SameNumber(down, j, n);
    StepHas(o, v, j);
  }

  lemma StepHas(o: u8, v: u8, j: u8)
    ensures Put([v]) in Arith8Step(o, j) <==> (v == o + j || v == o - j) && !FlipPattern((o ^ v) as u32)
  {
    Filtered8Is(o, o + j, v);
    Filtered8Is(o, o - j, v);
    var step := Arith8Step(o, j);
    assert step == [step[0], step[1]];
  }

  /** The stage arith 8/8 tries v for a byte o exactly if v is at most ARITH_MAX away and no bit
      flip has tried it. */
  lemma Arith8Has(o: u8, v: u8)
    ensures Put([v]) in ArithTries(Arith8, [o], ARITH_STEPS) <==>
              v != o && Within8(o, v) && !FlipPattern((o ^ v) as u32)
  {
    var t, flip, up: nat, down: nat := Put([v]), FlipPattern((o ^ v) as u32), (v - o) as nat, (o - v) as nat;
    var steps := ArithSteps(Arith8, [o]);
    forall m: nat | 1 <= m <= ARITH_STEPS ensures t in steps(m) <==> (up == m || down == m) && !flip {
      Arith8StepHas(o, v, m, v - o, o - v, flip);
    }
    StepsReach(steps, t, up, down, flip);
    WithinIsDistance(o, v, up, down);
  }

  lemma StepsReach(steps: nat -> seq<Try>, t: Try, up: nat, down: nat, flip: bool)
    requires forall m: nat :: 1 <= m <= ARITH_STEPS ==> (t in steps(m) <==> (up == m || down == m) && !flip)
    ensures t in Flatten(steps, ARITH_STEPS) <==> (1 <= up <= ARITH_STEPS || 1 <= down <= ARITH_STEPS) && !flip
  {
    if t in Flatten(steps, ARITH_STEPS) {
      var m := FlattenOrigin(steps, ARITH_STEPS, t);
    }
    if (1 <= up <= ARITH_STEPS || 1 <= down <= ARITH_STEPS) && !flip {
      FlattenMember(steps, ARITH_STEPS, t, if 1 <= up <= ARITH_STEPS then up else down);
    }
  }

  lemma WithinIsDistance(o: u8, v: u8, up: nat, down: nat)
    requires up == (v - o) as nat && down == (o - v) as nat
    ensures v != o && Within8(o, v) <==> 1 <= up <= ARITH_STEPS || 1 <= down <= ARITH_STEPS
  {
  }

  lemma Filtered8Is(o: u8, u: u8, v: u8)
    ensures Put([v]) == Filtered8(o, u) <==> v == u && !FlipPattern((o ^ v) as u32)
  {
    if Filtered8(o, u).Put? { assert Filtered8(o, u).w == [u]; }
  }

  lemma {:induction false} Interest8Has(o: u8, v: u8, vals: seq<u8>, n: nat)
    requires n <= |vals|
    ensures Put([v]) in Interest8Tries(o, vals, n) <==>
              v in vals[..n] && !FlipPattern((o ^ v) as u32) && !Within8(o, v)
  {
    if n > 0 {
      Interest8Has(o, v, vals, n - 1);
      assert vals[..n] == vals[..n - 1] + [vals[n - 1]];
      Interest8TryIs(o, vals[n - 1], v);
    }
  }

  lemma Interest8TryIs(o: u8, u: u8, v: u8)
    ensures Put([v]) == Interest8Try(o, u) <==> v == u && !FlipPattern((o ^ v) as u32) && !Within8(o, v)
  {
    ArithPatternOfByte(o, u);
    if Interest8Try(o, u).Put? { assert Interest8Try(o, u).w == [u]; }
  }

  // ---------- What the 8-bit stages skip ----------

  /** Arith 8/8 skips a value within reach exactly when a flip stage has run it: nothing is lost
      and nothing is run twice. */
  lemma Arith8SkipsOnlyRepeats(s: Input, eff: seq<bool>, i: nat, v: u8)
    requires i < |s| && |eff| == EffLen(|s|) && eff[i / 8]
    requires v != s[i] && Within8(s[i], v)
    ensures s[i := v] in StageRuns(s, Arith8, eff) <==> !RunByFlips(s, s[i := v])
  {
    ByteStageRuns(s, Arith8, eff, i, v);
    Arith8Has(s[i], v);
    FlipFilterIsExact(s, i, v);
  }

  /** After the arithmetic stage, interest 8/8 runs exactly those of its values that neither the
      flips nor the arithmetic have run. */
  lemma Interest8SkipsOnlyRepeats(s: Input, eff: seq<bool>, i: nat, v: u8)
    requires i < |s| && |eff| == EffLen(|s|) && eff[i / 8]
    requires v != s[i] && v in INTERESTING_8
    ensures s[i := v] in StageRuns(s, Interest8, eff) <==>
              !RunByFlips(s, s[i := v]) && s[i := v] !in StageRuns(s, Arith8, eff)
  {
    ByteStageRuns(s, Arith8, eff, i, v);
    Arith8Has(s[i], v);
    FlipFilterIsExact(s, i, v);
    Interest8Runs(s, eff, i, v);
  }

  lemma Interest8Runs(s: Input, eff: seq<bool>, i: nat, v: u8)
    requires i < |s| && |eff| == EffLen(|s|) && eff[i / 8]
    requires v != s[i] && v in INTERESTING_8
    ensures s[i := v] in StageRuns(s, Interest8, eff) <==> !FlipPattern((s[i] ^ v) as u32) && !Within8(s[i], v)
  {
    ByteStageRuns(s, Interest8, eff, i, v);
    Interest8HasAll(s[i], v, INTERESTING_8);
  }

  lemma Interest8HasAll(o: u8, v: u8, vals: seq<u8>)
    ensures Put([v]) in Interest8Tries(o, vals, |vals|) <==>
              v in vals && !FlipPattern((o ^ v) as u32) && !Within8(o, v)
  {
    Interest8Has(o, v, vals, |vals|);
    assert vals[..|vals|] == vals;
  }

  /** Without the arithmetic stages the same filter does lose values: an interesting value is run
      at all exactly if it is a bit flip or further than ARITH_MAX away. */
  lemma Interest8WithoutArith(s: Input, eff: seq<bool>, i: nat, v: u8)
    requires i < |s| && |eff| == EffLen(|s|) && eff[i / 8]
    requires v != s[i] && v in INTERESTING_8
    ensures RunByFlips(s, s[i := v]) || s[i := v] in StageRuns(s, Interest8, eff) <==>
              FlipPattern((s[i] ^ v) as u32) || !Within8(s[i], v)
  {
    FlipFilterIsExact(s, i, v);
    Interest8Runs(s, eff, i, v);
  }

  /** The value 0 is never tried for a byte 5 when the arithmetic stages are off. */
  lemma LostInterestingValue()
    ensures !RunByFlips([5], [0]) && [0] !in StageRuns([5], Interest8, [true])
  {
    assert INTERESTING_8[2] == 0;
    assert [5][0 := 0] == [0 as u8];
    FlipPatternOfByte(5);
    Interest8WithoutArith([5], [true], 0, 0);
  }

  // ---------- All stages in a row ----------

  /** The word stages that are performed, in order. */
  function Kinds(len: nat, noArith: bool): seq<Kind> {
    (if len < 2 then [] else if len < 4 then [Flip16] else [Flip16, Flip32])
    + (if noArith then [] else if len < 2 then [Arith8] else if len < 4 then [Arith8, Arith16]
       else [Arith8, Arith16, Arith32])
    + [Interest8]
    + (if noArith || len < 2 then [] else if len < 4 then [Interest16] else [Interest16, Interest32])
  }

  /** A stage is performed if the file is long enough for it and, without arithmetic, if it is one of
      the long flips or interest 8/8. */
  predicate IsPerformed(kind: Kind, len: nat, noArith: bool) {
    Width(kind) <= len && (noArith ==> kind.Flip16? || kind.Flip32? || kind.Interest8?)
  }

  lemma PerformedKinds(kind: Kind, len: nat, noArith: bool)
    requires len > 0
    ensures kind in Kinds(len, noArith) <==> Width(kind) <= len && (noArith ==> kind.Flip16? || kind.Flip32? || kind.Interest8?)
  {
  }

  /** The place of a stage in the order of the program. */
  function Place(kind: Kind): nat {
    match kind
    case Flip16 => 1
    case Flip32 => 2
    case Arith8 => 3
    case Arith16 => 4
    case Arith32 => 5
    case Interest8 => 6
    case Interest16 => 7
    case Interest32 => 8
  }

  lemma KindsInOrder(len: nat, noArith: bool, j: nat, k: nat)
    requires j < k < |Kinds(len, noArith)|
    ensures Place(Kinds(len, noArith)[j]) < Place(Kinds(len, noArith)[k])
  {
  }

  lemma KindsFit(len: nat, noArith: bool, k: nat)
    requires len > 0 && k < |Kinds(len, noArith)|
    ensures Width(Kinds(len, noArith)[k]) <= len
  {
    PerformedKinds(Kinds(len, noArith)[k], len, noArith);
  }

  ghost function RunsOf(s: Input, eff: seq<bool>, kind: Kind): seq<Input>
    requires |eff| == EffLen(|s|)
  {
    if Width(kind) <= |s| then StageRuns(s, kind, eff) else []
  }

  ghost function Parts(s: Input, eff: seq<bool>, kinds: seq<Kind>): seq<seq<Input>>
    requires |eff| == EffLen(|s|)
  {
    seq(|kinds|, k requires 0 <= k < |kinds| => RunsOf(s, eff, kinds[k]))
  }

  ghost predicate AreParts(parts: seq<seq<Input>>, s: Input, eff: seq<bool>, kinds: seq<Kind>)
    requires |eff| == EffLen(|s|)
  {
    && |parts| == |kinds|
    && forall k {:trigger RunsOf(s, eff, kinds[k])} :: 0 <= k < |kinds| ==> RunsOf(s, eff, kinds[k]) == parts[k]
  }

  ghost function Concatenated(parts: seq<seq<Input>>, n: nat): seq<Input>
    requires n <= |parts|
  {
    if n == 0 then [] else Concatenated(parts, n - 1) + parts[n - 1]
  }

  /** The files run by the word stages. */
  ghost function WordRuns(s: Input, eff: seq<bool>, kinds: seq<Kind>): seq<Input>
    requires |eff| == EffLen(|s|)
  {
    Concatenated(Parts(s, eff, kinds), |kinds|)
  }

  lemma {:induction false} InPart(parts: seq<seq<Input>>, n: nat, f: Input) returns (k: nat)
    requires n <= |parts| && f in Concatenated(parts, n)
    ensures k < n && f in parts[k]
  {
    if f in parts[n - 1] {
      k := n - 1;
    } else {
      InConcatenation(f, Concatenated(parts, n - 1), parts[n - 1]);
      k := InPart(parts, n - 1, f);
    }
  }

  lemma {:induction false} PartIsConcatenated(parts: seq<seq<Input>>, n: nat, k: nat, f: Input)
    requires k < n <= |parts| && f in parts[k]
    ensures f in Concatenated(parts, n)
  {
    if k < n - 1 { PartIsConcatenated(parts, n - 1, k, f); }
    InConcatenation(f, Concatenated(parts, n - 1), parts[n - 1]);
  }

  /** The word stages run exactly the files of the stages that are performed. */
  lemma WordRunsAreOfStages(s: Input, eff: seq<bool>, noArith: bool, f: Input)
    requires |s| > 0 && |eff| == EffLen(|s|)
    ensures f in WordRuns(s, eff, Kinds(|s|, noArith))
       <==> exists kind :: IsPerformed(kind, |s|, noArith) && f in StageRuns(s, kind, eff)
  {
    var kinds, parts := Kinds(|s|, noArith), Parts(s, eff, Kinds(|s|, noArith));
    if f in WordRuns(s, eff, kinds) {
      var k := InPart(parts, |kinds|, f);
      PerformedKinds(kinds[k], |s|, noArith);
      assert IsPerformed(kinds[k], |s|, noArith) && f in StageRuns(s, kinds[k], eff);
    }
    forall kind | IsPerformed(kind, |s|, noArith) && f in StageRuns(s, kind, eff) ensures f in WordRuns(s, eff, kinds) {
      PerformedKinds(kind, |s|, noArith);
      var k: nat :| k < |kinds| && kinds[k] == kind;
      PartIsConcatenated(parts, |kinds|, k, f);
    }
  }

  lemma {:induction false} PartsOfPrefix(parts: seq<seq<Input>>, more: seq<seq<Input>>, n: nat)
    requires n <= |parts| && parts <= more
    ensures Concatenated(parts, n) == Concatenated(more, n)
  {
    if n > 0 { PartsOfPrefix(parts, more, n - 1); }
  }

  /** The executions of a further stage come behind those of the others. */
  lemma OneMoreStage(s: Input, eff: seq<bool>, kinds: seq<Kind>, kind: Kind)
    requires |eff| == EffLen(|s|) && Width(kind) <= |s|
    ensures WordRuns(s, eff, []) == []
    ensures WordRuns(s, eff, kinds + [kind]) == WordRuns(s, eff, kinds) + StageRuns(s, kind, eff)
  {
    PartsOfPrefix(Parts(s, eff, kinds), Parts(s, eff, kinds + [kind]), |kinds|);
  }

  /** Are all files of all stages that are long enough, without arithmetic of the long flips and
      interest 8/8, among the executions? */
  ghost predicate AllAreRun(s: Input, eff: seq<bool>, noArith: bool, log: seq<Input>)
    requires |eff| == EffLen(|s|)
  {
    forall kind, f :: IsPerformed(kind, |s|, noArith) && f in StageRuns(s, kind, eff) ==> f in log
  }

  lemma AllRunInLog(s: Input, eff: seq<bool>, noArith: bool, before: seq<Input>, log: seq<Input>)
    requires |s| > 0 && |eff| == EffLen(|s|) && log == before + WordRuns(s, eff, Kinds(|s|, noArith))
    ensures AllAreRun(s, eff, noArith, log)
  {
    forall kind, f | IsPerformed(kind, |s|, noArith) && f in StageRuns(s, kind, eff) ensures f in log {
      WordRunsAreOfStages(s, eff, noArith, f);
      InConcatenation(f, before, WordRuns(s, eff, Kinds(|s|, noArith)));
    }
  }

  method Perform(b: Bench, kinds: seq<Kind>, k: nat, eff: seq<bool>, ghost s: Input, ghost parts: seq<seq<Input>>)
    returns (abandon: bool)
    requires b.outBuf[..] == s && |eff| == EffLen(|s|) && k < |kinds| && Width(kinds[k]) <= |s|
    requires AreParts(parts, s, eff, kinds)
    modifies b, b.outBuf
    ensures b.Obeyed(|old(b.log)|, abandon)
    ensures !abandon ==> b.outBuf[..] == s && b.log == old(b.log) + parts[k]
  {
    abandon := Walk(b, kinds[k], eff, s);
    assert RunsOf(s, eff, kinds[k]) == parts[k];
  }

  /** The stages that follow the effector map. */
  method PerformAllOf(b: Bench, kinds: seq<Kind>, eff: seq<bool>, ghost s: Input, ghost parts: seq<seq<Input>>)
    returns (abandon: bool)
    requires b.outBuf[..] == s && |s| > 0 && |eff| == EffLen(|s|) && AreParts(parts, s, eff, kinds)
    requires forall k :: 0 <= k < |kinds| ==> Width(kinds[k]) <= |s|
    modifies b, b.outBuf
    ensures b.Obeyed(|old(b.log)|, abandon)
    ensures !abandon ==> b.outBuf[..] == s && b.log == old(b.log) + Concatenated(parts, |parts|)
  {
    abandon := false;
    for k := 0 to |kinds|
      invariant b.Obeyed(|old(b.log)|, false)
      invariant b.outBuf[..] == s
      invariant b.log == old(b.log) + Concatenated(parts, k)
    {
      abandon := Perform(b, kinds, k, eff, s, parts);
      if abandon { return; }
    }
  }

  method PerformWordStages(b: Bench, eff: seq<bool>, noArith: bool, ghost s: Input) returns (abandon: bool)
    requires b.outBuf[..] == s && |s| > 0 && |eff| == EffLen(|s|)
    modifies b, b.outBuf
    ensures b.Obeyed(|old(b.log)|, abandon)
    ensures !abandon ==> b.outBuf[..] == s && b.log == old(b.log) + WordRuns(s, eff, Kinds(|s|, noArith))
  {
    var kinds := Kinds(b.outBuf.Length, noArith);
    forall k | 0 <= k < |kinds| ensures Width(kinds[k]) <= |s| { KindsFit(|s|, noArith, k); }
    abandon := PerformAllOf(b, kinds, eff, s, Parts(s, eff, kinds));
  }

  /** The files run by the walking bits and bytes. */
  function FlipRuns(s: Input): seq<Input>
    requires |s| > 0
  {
    BitStage(s, 1) + BitStage(s, 2) + BitStage(s, 4) + ByteRuns(s, |s|)
  }

  /** The walking bits. */
  method PerformBitFlips(b: Bench, collector: Collector, ghost s: Input) returns (abandon: bool)
    requires b.outBuf[..] == s && |s| > 0 && collector.aCollect != b.outBuf
    requires collector.Now().Collecting(s, b.LowBitSums(|b.log|, |s|), b.execCksum, 0)
    modifies b, b.outBuf, collector, collector.aCollect
    ensures b.Obeyed(|old(b.log)|, abandon)
    ensures !abandon ==> b.outBuf[..] == s && b.log == old(b.log) + (BitStage(s, 1) + BitStage(s, 2) + BitStage(s, 4))
    ensures !abandon && !b.dumbMode ==>
      collector.passed == TokensBefore(s, b.LowBitSums(|old(b.log)|, |s|), b.execCksum, |s|)
  {
    abandon := b.WalkingBitWithTokens(collector, s);
    if abandon { return; }
    abandon := b.WalkingBits(2, s);
    if abandon { return; }
    assert b.log == old(b.log) + (BitStage(s, 1) + BitStage(s, 2));
    abandon := b.WalkingBits(4, s);
  }

  /** The walking bits and bytes with the effector map they leave. */
  method PerformFlips(b: Bench, collector: Collector, ghost s: Input)
    returns (abandon: bool, effMap: array<bool>, effCnt: nat)
    requires b.outBuf[..] == s && |s| > 0 && collector.aCollect != b.outBuf
    requires collector.Now().Collecting(s, b.LowBitSums(|b.log|, |s|), b.execCksum, 0)
    modifies b, b.outBuf, collector, collector.aCollect
    ensures fresh(effMap) && b.Obeyed(|old(b.log)|, abandon)
    ensures !abandon ==> b.outBuf[..] == s && b.log == old(b.log) + FlipRuns(s)
    ensures !abandon && !b.dumbMode ==>
      collector.passed == TokensBefore(s, b.LowBitSums(|old(b.log)|, |s|), b.execCksum, |s|)
    ensures !abandon ==> b.Marked(effMap, |old(b.log)| + 24 * |s| - 4, |s|) && effCnt == Count(effMap[..])
  {
    effMap, effCnt := new bool[0], 0;
    abandon := PerformBitFlips(b, collector, s);
    if abandon { return; }
    abandon, effMap, effCnt := b.WalkingBytes(s);
  }

  /** From the first bit flip to the last interesting value.  An entry that is not abandoned leaves
      the buffer as it was; the word stages run the files given by the effector map, which flags the
      blocks with an effect or, if those are dense, all; the statistics count the flagged blocks. */
  method PerformAll(b: Bench, collector: Collector, noArith: bool, ghost s: Input)
    returns (abandon: bool, eff: seq<bool>, selected: nat)
    requires b.outBuf[..] == s && |s| > 0 && collector.aCollect != b.outBuf
    requires collector.Now().Collecting(s, b.LowBitSums(|b.log|, |s|), b.execCksum, 0)
    modifies b, b.outBuf, collector, collector.aCollect
    ensures b.Obeyed(|old(b.log)|, abandon)
    ensures !abandon && !b.dumbMode ==>
      collector.passed == TokensBefore(s, b.LowBitSums(|old(b.log)|, |s|), b.execCksum, |s|)
    ensures !abandon ==> |eff| == EffLen(|s|) && selected == Count(eff) && b.outBuf[..] == s
    ensures !abandon ==> b.log == old(b.log) + FlipRuns(s) + WordRuns(s, eff, Kinds(|s|, noArith))
    ensures !abandon ==> AllAreRun(s, eff, noArith, b.log)
    ensures !abandon ==> forall k :: 0 <= k < |eff| && b.Marks(|old(b.log)| + 24 * |s| - 4, |s|, k) ==> eff[k]
    ensures !abandon ==> (exists k :: 0 <= k < |eff| && !eff[k]) ==>
      forall k :: 0 <= k < |eff| && eff[k] ==> b.Marks(|old(b.log)| + 24 * |s| - 4, |s|, k)
  {
    eff, selected := [], 0;
    var effMap, effCnt;
    abandon, effMap, effCnt := PerformFlips(b, collector, s);
    if abandon { return; }
    selected := FillDenseMap(effMap, effCnt);
    eff := effMap[..];
    ghost var before := b.log;
    abandon := PerformWordStages(b, eff, noArith, s);
    if !abandon { AllRunInLog(s, eff, noArith, before, b.log); }
  }
}
