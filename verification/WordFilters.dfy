/** How far the bit-flip filter of afl-fuzz is right about half words.  Walking flips go from the
    highest bit of each byte to the lowest, while half words are stored low byte first: what looks
    like a run of bits in the number need not be one in the file.  Four changes straddle the bytes in
    this way; four others cross them in the file and are no runs in the number. */
module WordFilters {
  import opened Redundancy
  import opened Stages
  import opened WordStages
  import opened Deterministic
  import opened WordValues

  /** Patterns that the filter takes for a bit flip although they reach over the border between the
      two bytes. */
  predicate Straddles(d: u16) {
    FlipPattern(d as u32) && d & 0xff != 0 && d & 0xff00 != 0 && d != 0xffff
  }

  /** What walking flips of two and four bits do to the end of one byte and the start of the next. */
  predicate Crosses(d: u16) { d == 0x8001 || d == 0x8007 || d == 0xc003 || d == 0xe001 }

  lemma StraddlesListed(d: u16)
    ensures Straddles(d) <==> d == 0x0180 || d == 0x0780 || d == 0x03c0 || d == 0x01e0
  {
  }

  predicate IsXor(a: u8, b: u8, x: u8) { x == a ^ b }

  /** a and b differ in the pattern m. */
  ghost predicate Differ(a: u8, b: u8, m: u8) {
    forall x {:trigger IsXor(a, b, x)} :: IsXor(a, b, x) ==> x == m
  }

  lemma XorSides(a: u8, b: u8, m: u8)
    ensures m == a ^ b <==> b == a ^ m
    ensures m == a ^ b ==> (m == 0 <==> a == b)
  {
  }

  lemma DifferIs(a: u8, b: u8, m: u8)
    ensures Differ(a, b, m) <==> m == a ^ b
    ensures Differ(a, b, m) <==> b == a ^ m
    ensures Differ(a, b, m) ==> (m == 0 <==> a == b)
  {
    var x := a ^ b;
    assert IsXor(a, b, x);
    assert Differ(a, b, m) <==> m == x;
    XorSides(a, b, m);
  }

  lemma SamePattern(a: u8, b: u8, m: u8, n: u8)
    requires Differ(a, b, m) && Differ(a, b, n)
    ensures m == n
  {
    DifferIs(a, b, m);
    DifferIs(a, b, n);
  }

  /** f differs from s in the bytes i and i + 1, in these patterns, and nowhere else. */
  ghost predicate PairChanged(s: Input, f: Input, i: nat, lo: u8, hi: u8) {
    && i + 1 < |s| == |f| && f[i] != s[i] && f[i + 1] != s[i + 1]
    && Differ(s[i], f[i], lo) && Differ(s[i + 1], f[i + 1], hi)
    && forall k :: 0 <= k < |s| && k != i && k != i + 1 ==> f[k] == s[k]
  }

  // ---------- What the flips do to two bytes ----------

  /** The last bits of a byte from bit p on, and the first m bits. */
  function LastBits(p: nat): u8 { if p == 7 then 1 else if p == 6 then 3 else 7 }

  function FirstBits(m: nat): u8 { if m == 1 then 0x80 else if m == 2 then 0xc0 else 0xe0 }

  lemma AcrossMask(q: nat, p: nat, n: nat, k: nat)
    requires p < 8 < p + n && (n == 2 || n == 4)
    ensures RunMask(k, 8 * q + p, n) ==
              if k == q then LastBits(p) else if k == q + 1 then FirstBits(p + n - 8) else 0
  {
    RunInPair(q, p, n, k);
    XorFew(PairBits(q, p, k));
    FourPairBits(q, p, k);
  }

  lemma CrossingMask(p: nat, n: nat, lo: u8, hi: u8)
    requires p < 8 < p + n && (n == 2 || n == 4) && lo == LastBits(p) && hi == FirstBits(p + n - 8)
    ensures Crosses(Load16(lo, hi))
  {
  }

  lemma MaskOfPair(q: nat, p: nat, n: nat, i: nat, b: nat, lo: u8, hi: u8)
    requires p < 8 && (n == 1 || n == 2 || n == 4) && b == 8 * q + p
    requires lo == RunMask(i, b, n) && hi == RunMask(i + 1, b, n) && lo != 0 && hi != 0
    ensures Crosses(Load16(lo, hi))
  {
    if p + n <= 8 {
      RunInsideByte(q, p, n, i);
      RunInsideByte(q, p, n, i + 1);
    } else {
      AcrossMask(q, p, n, i);
      AcrossMask(q, p, n, i + 1);
      CrossingMask(p, n, lo, hi);
    }
  }

  lemma FlippedByteMask(s: Input, f: Input, k: nat, n: nat, b: nat) returns (mask: u8)
    requires k < |s| && b + n <= 8 * |s| && f == FlipRun(s, b, n) && f[k] != s[k]
    ensures mask == RunMask(k, b, n) && Differ(s[k], f[k], mask) && mask != 0
  {
    mask := RunMask(k, b, n);
    FlipRunBytes(s, b, n, k);
    DifferIs(s[k], f[k], mask);
  }

  /** A walking flip that changes both bytes makes a crossing. */
  lemma FlippedPair(s: Input, f: Input, i: nat, n: nat, b: nat) returns (lo: u8, hi: u8)
    requires i + 1 < |s| && b + n <= 8 * |s| && (n == 1 || n == 2 || n == 4) && f == FlipRun(s, b, n)
    requires f[i] != s[i] && f[i + 1] != s[i + 1]
    ensures Differ(s[i], f[i], lo) && Differ(s[i + 1], f[i + 1], hi) && Crosses(Load16(lo, hi))
  {
    lo := FlippedByteMask(s, f, i, n, b);
    hi := FlippedByteMask(s, f, i + 1, n, b);
    MaskOfPair(b / 8, b % 8, n, i, b, lo, hi);
  }

  lemma CrossingBits(lo: u8, hi: u8) returns (p: nat, n: nat)
    requires Crosses(Load16(lo, hi))
    ensures p < 8 < p + n && (n == 2 || n == 4) && lo == LastBits(p) && hi == FirstBits(p + n - 8)
  {
    p := if lo == 7 then 5 else if lo == 3 then 6 else 7;
    n := if hi == 0x80 && lo == 1 then 2 else 4;
  }

  lemma CrossingByte(s: Input, i: nat, p: nat, n: nat, k: nat, b: nat, r: Input)
    requires i + 1 < |s| && k < |s| && p < 8 < p + n && (n == 2 || n == 4)
    requires b == 8 * i + p && r == FlipRun(s, b, n)
    ensures r[k] == s[k] ^ if k == i then LastBits(p) else if k == i + 1 then FirstBits(p + n - 8) else 0
  {
    FlipRunBytes(s, b, n, k);
    AcrossMask(i, p, n, k);
  }

  lemma CrossingFile(s: Input, f: Input, i: nat, p: nat, n: nat, b: nat, lo: u8, hi: u8)
    requires PairChanged(s, f, i, lo, hi) && p < 8 < p + n && (n == 2 || n == 4) && b == 8 * i + p
    requires lo == LastBits(p) && hi == FirstBits(p + n - 8)
    ensures FlipRun(s, b, n) == f
  {
    var r := FlipRun(s, b, n);
    forall k | 0 <= k < |s| ensures r[k] == f[k] {
      CrossingByte(s, i, p, n, k, b, r);
      DifferIs(s[k], f[k], if k == i then lo else if k == i + 1 then hi else 0);
    }
  }

  /** Every crossing is a walking flip. */
  lemma CrossingIsFlipped(s: Input, f: Input, i: nat, lo: u8, hi: u8)
    requires PairChanged(s, f, i, lo, hi) && Crosses(Load16(lo, hi))
    ensures RunByFlips(s, f)
  {
    var p, n := CrossingBits(lo, hi);
    var b := 8 * i + p;
    CrossingFile(s, f, i, p, n, b, lo, hi);
    BitStageMember(s, n, b);
  }

  lemma NoByteRun(s: Input, f: Input, i: nat, lo: u8, hi: u8)
    requires PairChanged(s, f, i, lo, hi)
    ensures f !in ByteRuns(s, |s|)
  {
    forall k | 0 <= k < |s| ensures ByteRuns(s, |s|)[k] != f {
      ByteRunsAt(s, |s|, k);
    }
  }

  lemma FlipIsCrossing(s: Input, f: Input, i: nat, lo: u8, hi: u8, n: nat)
    requires PairChanged(s, f, i, lo, hi) && (n == 1 || n == 2 || n == 4) && f in BitStage(s, n)
    ensures Crosses(Load16(lo, hi))
  {
    var b := BitStageOrigin(s, n, f);
    var x, y := FlippedPair(s, f, i, n, b);
    SamePattern(s[i], f[i], lo, x);
    SamePattern(s[i + 1], f[i + 1], hi, y);
  }

  /** Of the changes to both bytes the walking flips make exactly the crossings. */
  lemma PairIsFlippedIffCrosses(s: Input, f: Input, i: nat, lo: u8, hi: u8)
    requires PairChanged(s, f, i, lo, hi)
    ensures RunByFlips(s, f) <==> Crosses(Load16(lo, hi))
  {
    NoByteRun(s, f, i, lo, hi);
    if Crosses(Load16(lo, hi)) {
      CrossingIsFlipped(s, f, i, lo, hi);
    } else if RunByFlips(s, f) {
      FlipIsCrossing(s, f, i, lo, hi, if f in BitStage(s, 1) then 1 else if f in BitStage(s, 2) then 2 else 4);
    }
  }

  // ---------- What the stages of half words try ----------

  /** A value considered by a stage of half words, and whether a test rules it out. */
  datatype Choice16 = Choice16(v: u16, skip: bool)

  lemma Stored16IsLoaded(v: u16, u: u16)
    ensures Store16(v) == Store16(u) <==> v == u
  {
    assert Store16(v) == Store16(u) ==> v == Load16(Store16(v)[0], Store16(v)[1]) == u;
  }

  lemma Filtered16Is(o: u16, u: u16, skip: bool, v: u16, flip: bool)
    requires flip == FlipPattern((o ^ v) as u32)
    ensures Put(Store16(v)) == Filtered16(o, u, skip) <==> v == u && !skip && !flip
  {
    Stored16IsLoaded(v, u);
  }

  lemma OneOfFour(x: Try, a: Try, b: Try, c: Try, d: Try)
    ensures x in [a, b, c, d] <==> x == a || x == b || x == c || x == d
  {
  }

  lemma StepOfFour(o: u16, v: u16, flip: bool, p: u16, k: bool, q: u16, l: bool, r: u16, m: bool, t: u16, n: bool)
    requires flip == FlipPattern((o ^ v) as u32)
    ensures Put(Store16(v)) in [Filtered16(o, p, k), Filtered16(o, q, l), Filtered16(o, r, m), Filtered16(o, t, n)]
       <==> !flip && ((v == p && !k) || (v == q && !l) || (v == r && !m) || (v == t && !n))
  {
    OneOfFour(Put(Store16(v)), Filtered16(o, p, k), Filtered16(o, q, l), Filtered16(o, r, m), Filtered16(o, t, n));
    Filtered16Is(o, p, k, v, flip);
    Filtered16Is(o, q, l, v, flip);
    Filtered16Is(o, r, m, v, flip);
    Filtered16Is(o, t, n, v, flip);
  }

  function Sum(a: u16, b: u16): u16 { a + b }

  function Difference(a: u16, b: u16): u16 { a - b }

  /** The four choices of arith 16/8, with their carry tests. */
  lemma Arith16StepIs(o: u16, j: u16, p: u16, k: bool, q: u16, l: bool, r: u16, m: bool, t: u16, n: bool)
    requires p == o + j && k == ((o & 0xff) + j <= 0xff) && q == o - j && l == (o & 0xff >= j)
    requires r == Swap16(Sum(Swap16(o), j)) && m == ((o >> 8) + j <= 0xff)
    requires t == Swap16(Difference(Swap16(o), j)) && n == (o >> 8 >= j)
    ensures Arith16Step(o, j) == [Filtered16(o, p, k), Filtered16(o, q, l), Filtered16(o, r, m), Filtered16(o, t, n)]
  {
  }

  lemma Arith16StepHas(o: u16, j: u16, v: u16, flip: bool,
                       p: u16, k: bool, q: u16, l: bool, r: u16, m: bool, t: u16, n: bool)
    requires flip == FlipPattern((o ^ v) as u32)
    requires p == o + j && k == ((o & 0xff) + j <= 0xff) && q == o - j && l == (o & 0xff >= j)
    requires r == Swap16(Sum(Swap16(o), j)) && m == ((o >> 8) + j <= 0xff)
    requires t == Swap16(Difference(Swap16(o), j)) && n == (o >> 8 >= j)
    ensures Put(Store16(v)) in Arith16Step(o, j)
       <==> !flip && ((v == p && !k) || (v == q && !l) || (v == r && !m) || (v == t && !n))
  {
    Arith16StepIs(o, j, p, k, q, l, r, m, t, n);
    StepOfFour(o, v, flip, p, k, q, l, r, m, t, n);
  }

  lemma Arith16Choices(o: u16, j: u16) returns (a: Choice16, b: Choice16, c: Choice16, d: Choice16)
    ensures Arith16Step(o, j) == [Filtered16(o, a.v, a.skip), Filtered16(o, b.v, b.skip),
                                  Filtered16(o, c.v, c.skip), Filtered16(o, d.v, d.skip)]
  {
    var p, k, q, l := o + j, (o & 0xff) + j <= 0xff, o - j, o & 0xff >= j;
    var r, m, t, n := Swap16(Sum(Swap16(o), j)), (o >> 8) + j <= 0xff, Swap16(Difference(Swap16(o), j)), o >> 8 >= j;
    Arith16StepIs(o, j, p, k, q, l, r, m, t, n);
    a, b, c, d := Choice16(p, k), Choice16(q, l), Choice16(r, m), Choice16(t, n);
  }

  lemma NoFlipInStep16(o: u16, j: u16, v: u16)
    requires FlipPattern((o ^ v) as u32)
    ensures Put(Store16(v)) !in Arith16Step(o, j)
  {
    var a, b, c, d := Arith16Choices(o, j);
    StepOfFour(o, v, true, a.v, a.skip, b.v, b.skip, c.v, c.skip, d.v, d.skip);
  }

  lemma Unless16Is(skip: bool, u: u16, v: u16)
    ensures Put(Store16(v)) == Unless(skip, Store16(u)) <==> v == u && !skip
  {
    Stored16IsLoaded(v, u);
  }

  lemma FlipIsRedundant16(o: seq<u8>, x: u16, v: u16, checkLe: bool)
    requires |o| == 2 && x == Load16(o[0], o[1]) && FlipPattern((x ^ v) as u32)
    ensures Redundant16(o, v, checkLe)
  {
  }

  lemma NoFlipInPair16(o: seq<u8>, x: u16, u: u16, v: u16, w: u16)
    requires |o| == 2 && x == Load16(o[0], o[1]) && FlipPattern((x ^ v) as u32) && w == Swap16(u)
    ensures Put(Store16(v)) !in Interest16Pair(o, u)
  {
    FlipIsRedundant16(o, x, v, false);
    FlipIsRedundant16(o, x, v, true);
    Unless16Is(Redundant16(o, u, false), u, v);
    Unless16Is(u == w || Redundant16(o, w, true), w, v);
  }

  lemma {:induction false} NoFlipInInterest16(o: seq<u8>, x: u16, v: u16, vals: seq<u16>, n: nat)
    requires |o| == 2 && x == Load16(o[0], o[1]) && FlipPattern((x ^ v) as u32) && n <= |vals|
    ensures Put(Store16(v)) !in Interest16Tries(o, vals, n)
  {
    if n > 0 {
      NoFlipInInterest16(o, x, v, vals, n - 1);
      NoFlipInPair16(o, x, vals[n - 1], v, Swap16(vals[n - 1]));
      InConcatenation(Put(Store16(v)), Interest16Tries(o, vals, n - 1), Interest16Pair(o, vals[n - 1]));
    }
  }

  /** The stages of half words after the flips never try what the filter takes for a flip. */
  lemma NoFlipIsTried16(kind: Kind, o: seq<u8>, x: u16, v: u16)
    requires (kind.Arith16? || kind.Interest16?) && |o| == 2 && x == Load16(o[0], o[1]) && FlipPattern((x ^ v) as u32)
    ensures Put(Store16(v)) !in Tries(kind, o)
  {
    var t := Put(Store16(v));
    if kind.Interest16? {
      NoFlipInInterest16(o, x, v, INTERESTING_16, |INTERESTING_16|);
    } else if t in Tries(kind, o) {
      var m := FlattenOrigin(ArithSteps(kind, o), ARITH_STEPS, t);
      NoFlipInStep16(x, m as u16, v);
    }
  }

  // ---------- What the stages of words try ----------

  lemma NotFiltered32(o: u32, u: u32, skip: bool, v: u32)
    requires FlipPattern(o ^ v)
    ensures Put(Store32(v)) != Filtered32(o, u, skip)
  {
    var w, x := Store32(v), Store32(u);
    assert w == x ==> v == Load32(w[0], w[1], w[2], w[3]) == u;
  }

  lemma Arith32Choices(o: u32, s: u32, j: u32)
    returns (p: u32, k: bool, q: u32, l: bool, r: u32, m: bool, t: u32, n: bool)
    ensures Arith32Low(o, j) == [Filtered32(o, p, k), Filtered32(o, q, l)]
    ensures Arith32High(o, s, j) == [Filtered32(o, r, m), Filtered32(o, t, n)]
  {
    p, k, q, l := o + j, (o & 0xffff) + j <= 0xffff, o - j, o & 0xffff >= j;
    r, m, t, n := Swap32(s + j), (s & 0xffff) + j <= 0xffff, Swap32(s - j), s & 0xffff >= j;
  }

  lemma NoFlipInStep32(o: u32, s: u32, j: u32, v: u32)
    requires FlipPattern(o ^ v)
    ensures Put(Store32(v)) !in Arith32Low(o, j) && Put(Store32(v)) !in Arith32High(o, s, j)
  {
    var p, k, q, l, r, m, t, n := Arith32Choices(o, s, j);
    NotFiltered32(o, p, k, v);
    NotFiltered32(o, q, l, v);
    NotFiltered32(o, r, m, v);
    NotFiltered32(o, t, n, v);
  }

  lemma NotUnless32(skip: bool, u: u32, v: u32)
    requires u == v ==> skip
    ensures Put(Store32(v)) != Unless(skip, Store32(u))
  {
    var w, x := Store32(v), Store32(u);
    assert w == x ==> v == Load32(w[0], w[1], w[2], w[3]) == u;
  }

  lemma FlipIsRedundant32(o: seq<u8>, x: u32, v: u32, checkLe: bool)
    requires |o| == 4 && x == Load32(o[0], o[1], o[2], o[3]) && FlipPattern(x ^ v)
    ensures Redundant32(o, v, checkLe)
  {
  }

  lemma NoFlipInPair32(o: seq<u8>, x: u32, u: u32, v: u32, w: u32)
    requires |o| == 4 && x == Load32(o[0], o[1], o[2], o[3]) && FlipPattern(x ^ v) && w == Swap32(u)
    ensures Put(Store32(v)) !in Interest32Pair(o, u)
  {
    FlipIsRedundant32(o, x, v, false);
    FlipIsRedundant32(o, x, v, true);
    NotUnless32(Redundant32(o, u, false), u, v);
    NotUnless32(u == w || Redundant32(o, w, true), w, v);
  }

  lemma {:induction false} NoFlipInInterest32(o: seq<u8>, x: u32, v: u32, vals: seq<u32>, n: nat)
    requires |o| == 4 && x == Load32(o[0], o[1], o[2], o[3]) && FlipPattern(x ^ v) && n <= |vals|
    ensures Put(Store32(v)) !in Interest32Tries(o, vals, n)
  {
    if n > 0 {
      NoFlipInInterest32(o, x, v, vals, n - 1);
      NoFlipInPair32(o, x, vals[n - 1], v, Swap32(vals[n - 1]));
      InConcatenation(Put(Store32(v)), Interest32Tries(o, vals, n - 1), Interest32Pair(o, vals[n - 1]));
    }
  }

  /** Nor do the stages of words. */
  lemma NoFlipIsTried32(kind: Kind, o: seq<u8>, x: u32, v: u32)
    requires (kind.Arith32? || kind.Interest32?) && |o| == 4 && x == Load32(o[0], o[1], o[2], o[3]) && FlipPattern(x ^ v)
    ensures Put(Store32(v)) !in Tries(kind, o)
  {
    var t := Put(Store32(v));
    if kind.Interest32? {
      NoFlipInInterest32(o, x, v, INTERESTING_32, |INTERESTING_32|);
    } else if t in Tries(kind, o) {
      var m := FlattenOrigin(ArithSteps(kind, o), ARITH_STEPS, t);
      InConcatenation(t, Arith32Low(x, m as u32), Arith32High(x, Swap32(x), m as u32));
      NoFlipInStep32(x, Swap32(x), m as u32, v);
    }
  }

  // ---------- Files ----------

  lemma OnlyEffectiveIsTried(s: Input, kind: Kind, eff: seq<bool>, j: nat, x: Try)
    requires j + Width(kind) <= |s| && |eff| == EffLen(|s|) && x in TriesAt(s, kind, eff, j) && x.Put?
    ensures x in Tries(kind, s[j..j + Width(kind)])
  {
  }

  lemma PlanFits(s: Input, kind: Kind, eff: seq<bool>, j: nat, x: Try)
    requires j + Width(kind) <= |s| && |eff| == EffLen(|s|) && x in TriesAt(s, kind, eff, j) && x.Put?
    ensures |x.w| == Width(kind) && x in Tries(kind, s[j..j + Width(kind)])
  {
    OnlyEffectiveIsTried(s, kind, eff, j, x);
    TriesPerPosition(kind, s[j..j + Width(kind)]);
  }

  lemma RunOrigin(s: Input, kind: Kind, eff: seq<bool>, plan: seq<seq<Try>>, f: Input) returns (j: nat, x: Try)
    requires IsPlan(plan, s, kind, eff) && f in PlanRuns(s, plan, |plan|)
    ensures j + Width(kind) <= |s| && x in TriesAt(s, kind, eff, j) && x.Put? && f == Overwrite(s, j, x.w)
  {
    j := PlanOrigin(s, plan, |plan|, f);
    assert TriesAt(s, kind, eff, j) == plan[j];
    var k := RanOrigin(s, j, plan[j], f);
    x := plan[j][k];
  }

  /** Where a file run by a stage comes from. */
  lemma WordOrigin(s: Input, kind: Kind, eff: seq<bool>, f: Input) returns (j: nat, w: seq<u8>)
    requires Width(kind) <= |s| && |eff| == EffLen(|s|) && f in StageRuns(s, kind, eff)
    ensures |w| == Width(kind) && j + |w| <= |s| && f == Overwrite(s, j, w)
    ensures Put(w) in Tries(kind, s[j..j + |w|])
  {
    var plan, x := Plan(s, kind, eff), Skip;
    PlanIsPlan(s, kind, eff, plan);
    j, x := RunOrigin(s, kind, eff, plan, f);
    PlanFits(s, kind, eff, j, x);
    w := x.w;
  }

  lemma WordCoversPair(s: Input, f: Input, i: nat, lo: u8, hi: u8, j: nat, w: seq<u8>)
    requires PairChanged(s, f, i, lo, hi) && j + |w| <= |s| && f == Overwrite(s, j, w)
    ensures j <= i && i + 1 < j + |w| && w == f[j..j + |w|]
  {
  }

  lemma PairInPart(s: Input, f: Input, i: nat, lo: u8, hi: u8, j: nat, n: nat)
    requires PairChanged(s, f, i, lo, hi) && j <= i && i + 1 < j + n <= |s|
    ensures PairChanged(s[j..j + n], f[j..j + n], i - j, lo, hi)
  {
    var o, w := s[j..j + n], f[j..j + n];
    assert o[i - j] == s[i] && w[i - j] == f[i] && o[i - j + 1] == s[i + 1] && w[i - j + 1] == f[i + 1];
  }

  /** A stage that runs a change of two bytes tries a word around them. */
  lemma PairOrigin(s: Input, f: Input, i: nat, lo: u8, hi: u8, kind: Kind, eff: seq<bool>) returns (j: nat)
    requires PairChanged(s, f, i, lo, hi) && Width(kind) <= |s| && |eff| == EffLen(|s|) && f in StageRuns(s, kind, eff)
    ensures j <= i && i + 1 < j + Width(kind) <= |s|
    ensures PairChanged(s[j..j + Width(kind)], f[j..j + Width(kind)], i - j, lo, hi)
    ensures Put(f[j..j + Width(kind)]) in Tries(kind, s[j..j + Width(kind)])
  {
    var w;
    j, w := WordOrigin(s, kind, eff, f);
    WordCoversPair(s, f, i, lo, hi, j, w);
    PairInPart(s, f, i, lo, hi, j, |w|);
  }

  lemma HalfChange(a: u8, b: u8, c: u8, d: u8, lo: u8, hi: u8)
    requires Differ(a, c, lo) && Differ(b, d, hi)
    ensures Load16(a, b) ^ Load16(c, d) == Load16(lo, hi)
  {
    DifferIs(a, c, lo);
    DifferIs(b, d, hi);
  }

  lemma StoredHalf(w: seq<u8>, v: u16)
    requires |w| == 2 && v == Load16(w[0], w[1])
    ensures Store16(v) == w
  {
    StoredBytes16(w[0], w[1], v);
    var u := Store16(v);
    assert u == [u[0], u[1]];
  }

  lemma StoredBytes16(a: u8, b: u8, v: u16)
    requires v == Load16(a, b)
    ensures (v & 0xff) as u8 == a && (v >> 8) as u8 == b
  {
  }

  lemma StoredWord(w: seq<u8>, v: u32)
    requires |w| == 4 && v == Load32(w[0], w[1], w[2], w[3])
    ensures Store32(v) == w
  {
    StoredBytes32(w[0], w[1], w[2], w[3], v);
    var u := Store32(v);
    assert u == [u[0], u[1], u[2], u[3]];
  }

  lemma StoredBytes32(a: u8, b: u8, c: u8, d: u8, v: u32)
    requires v == Load32(a, b, c, d)
    ensures (v & 0xff) as u8 == a && ((v >> 8) & 0xff) as u8 == b && ((v >> 16) & 0xff) as u8 == c && (v >> 24) as u8 == d
  {
  }

  lemma LowChange(a: u8, b: u8, c: u8, d: u8, p: u8, q: u8, lo: u8, hi: u8, x: u32, v: u32, y: u32, delta: u32)
    requires x == Load32(a, b, c, d) && v == Load32(p, q, c, d) && Differ(a, p, lo) && Differ(b, q, hi)
    requires delta == Load16(lo, hi) as u32 && y == x ^ v
    ensures y == delta
  {
    DifferIs(a, p, lo);
    DifferIs(b, q, hi);
  }

  lemma MiddleChange(a: u8, b: u8, c: u8, d: u8, p: u8, q: u8, lo: u8, hi: u8, x: u32, v: u32, y: u32, delta: u32)
    requires x == Load32(a, b, c, d) && v == Load32(a, p, q, d) && Differ(b, p, lo) && Differ(c, q, hi)
    requires delta == Load16(lo, hi) as u32 && y == x ^ v
    ensures y == delta << 8
  {
    DifferIs(b, p, lo);
    DifferIs(c, q, hi);
  }

  lemma HighChange(a: u8, b: u8, c: u8, d: u8, p: u8, q: u8, lo: u8, hi: u8, x: u32, v: u32, y: u32, delta: u32)
    requires x == Load32(a, b, c, d) && v == Load32(a, b, p, q) && Differ(c, p, lo) && Differ(d, q, hi)
    requires delta == Load16(lo, hi) as u32 && y == x ^ v
    ensures y == delta << 16
  {
    DifferIs(c, p, lo);
    DifferIs(d, q, hi);
  }

  lemma ShiftedStraddler(d: u16, delta: u32, e: u32)
    requires Straddles(d) && delta == d as u32 && (e == delta || e == delta << 8 || e == delta << 16)
    ensures FlipPattern(e)
  {
    StraddlesListed(d);
  }

  lemma HalfIsNotTried(kind: Kind, o: seq<u8>, w: seq<u8>, a: u8, b: u8, c: u8, d: u8, lo: u8, hi: u8)
    requires (kind.Arith16? || kind.Interest16?) && o == [a, b] && w == [c, d] && Differ(a, c, lo) && Differ(b, d, hi)
    requires FlipPattern(Load16(lo, hi) as u32)
    ensures Put(w) !in Tries(kind, o)
  {
    var x, v := Load16(a, b), Load16(c, d);
    HalfChange(a, b, c, d, lo, hi);
    StoredHalf(w, v);
    NoFlipIsTried16(kind, o, x, v);
  }

  lemma PairIsNotTried(kind: Kind, o: seq<u8>, w: seq<u8>, lo: u8, hi: u8)
    requires (kind.Arith16? || kind.Interest16?) && |o| == 2 && PairChanged(o, w, 0, lo, hi)
    requires FlipPattern(Load16(lo, hi) as u32)
    ensures Put(w) !in Tries(kind, o)
  {
    HalfIsNotTried(kind, o, w, o[0], o[1], w[0], w[1], lo, hi);
  }

  lemma WordIsNotTried(kind: Kind, o: seq<u8>, w: seq<u8>, x: u32, v: u32)
    requires (kind.Arith32? || kind.Interest32?) && |o| == |w| == 4 && FlipPattern(x ^ v)
    requires x == Load32(o[0], o[1], o[2], o[3]) && v == Load32(w[0], w[1], w[2], w[3])
    ensures Put(w) !in Tries(kind, o)
  {
    StoredWord(w, v);
    NoFlipIsTried32(kind, o, x, v);
  }

  lemma ChangeInWord(o: seq<u8>, w: seq<u8>, k: nat, lo: u8, hi: u8, x: u32, v: u32, y: u32, delta: u32)
    requires |o| == 4 && PairChanged(o, w, k, lo, hi) && delta == Load16(lo, hi) as u32 && y == x ^ v
    requires x == Load32(o[0], o[1], o[2], o[3]) && v == Load32(w[0], w[1], w[2], w[3])
    ensures y == delta || y == delta << 8 || y == delta << 16
  {
    if k == 0 {
      LowChange(o[0], o[1], o[2], o[3], w[0], w[1], lo, hi, x, v, y, delta);
    } else if k == 1 {
      MiddleChange(o[0], o[1], o[2], o[3], w[1], w[2], lo, hi, x, v, y, delta);
    } else {
      HighChange(o[0], o[1], o[2], o[3], w[2], w[3], lo, hi, x, v, y, delta);
    }
  }

  /** To the filter the change of two bytes is one of a word, wherever in the word they are. */
  lemma StraddlerInWord(o: seq<u8>, w: seq<u8>, k: nat, lo: u8, hi: u8, x: u32, v: u32, d: u16)
    requires |o| == 4 && PairChanged(o, w, k, lo, hi) && Straddles(d) && d == Load16(lo, hi)
    requires x == Load32(o[0], o[1], o[2], o[3]) && v == Load32(w[0], w[1], w[2], w[3])
    ensures FlipPattern(x ^ v)
  {
    ChangeInWord(o, w, k, lo, hi, x, v, x ^ v, d as u32);
    ShiftedStraddler(d, d as u32, x ^ v);
  }

  lemma StraddlerIsNotTried(kind: Kind, o: seq<u8>, w: seq<u8>, k: nat, lo: u8, hi: u8)
    requires (kind.Arith32? || kind.Interest32?) && |o| == 4 && PairChanged(o, w, k, lo, hi)
    requires Straddles(Load16(lo, hi))
    ensures Put(w) !in Tries(kind, o)
  {
    var x, v := Load32(o[0], o[1], o[2], o[3]), Load32(w[0], w[1], w[2], w[3]);
    StraddlerInWord(o, w, k, lo, hi, x, v, Load16(lo, hi));
    WordIsNotTried(kind, o, w, x, v);
  }

  // ---------- Which stages change two bytes ----------

  lemma NotByBytes(s: Input, f: Input, i: nat, lo: u8, hi: u8, kind: Kind, eff: seq<bool>)
    requires PairChanged(s, f, i, lo, hi) && Width(kind) == 1 && |eff| == EffLen(|s|)
    ensures f !in StageRuns(s, kind, eff)
  {
    if f in StageRuns(s, kind, eff) {
      var j := PairOrigin(s, f, i, lo, hi, kind, eff);
    }
  }

  lemma HalfOrigin(s: Input, f: Input, i: nat, lo: u8, hi: u8, kind: Kind, eff: seq<bool>)
    requires PairChanged(s, f, i, lo, hi) && Width(kind) == 2 && |eff| == EffLen(|s|) && f in StageRuns(s, kind, eff)
    ensures i + 2 <= |s| == |f| && PairChanged(s[i..i + 2], f[i..i + 2], 0, lo, hi)
    ensures Put(f[i..i + 2]) in Tries(kind, s[i..i + 2])
  {
    var j := PairOrigin(s, f, i, lo, hi, kind, eff);
    assert j == i;
  }

  /** A half word that the filter takes for a flip is not run by a later stage of half words. */
  lemma NotByHalves(s: Input, f: Input, i: nat, lo: u8, hi: u8, kind: Kind, eff: seq<bool>)
    requires PairChanged(s, f, i, lo, hi) && (kind.Arith16? || kind.Interest16?) && |eff| == EffLen(|s|)
    requires FlipPattern(Load16(lo, hi) as u32)
    ensures f !in StageRuns(s, kind, eff)
  {
    if f in StageRuns(s, kind, eff) {
      HalfOrigin(s, f, i, lo, hi, kind, eff);
      PairIsNotTried(kind, s[i..i + 2], f[i..i + 2], lo, hi);
    }
  }

  lemma NotByWords(s: Input, f: Input, i: nat, lo: u8, hi: u8, kind: Kind, eff: seq<bool>)
    requires PairChanged(s, f, i, lo, hi) && (kind.Arith32? || kind.Interest32?) && |eff| == EffLen(|s|) && |s| >= 4
    requires Straddles(Load16(lo, hi))
    ensures f !in StageRuns(s, kind, eff)
  {
    if f in StageRuns(s, kind, eff) {
      var j := PairOrigin(s, f, i, lo, hi, kind, eff);
      StraddlerIsNotTried(kind, s[j..j + 4], f[j..j + 4], i - j, lo, hi);
    }
  }

  lemma InvertedByte(a: u8, c: u8, m: u8)
    requires c == !a && Differ(a, c, m)
    ensures m == 0xff
  {
    DifferIs(a, c, m);
  }

  lemma InvertedDiffers(a: u8)
    ensures !a != a
  {
  }

  lemma FullyInverted(o: seq<u8>, w: seq<u8>, lo: u8, hi: u8)
    requires |o| == 2 && Put(w) in Tries(Flip16, o) && PairChanged(o, w, 0, lo, hi)
    ensures lo == 0xff && hi == 0xff
  {
    assert w == [!o[0], !o[1]];
    InvertedByte(o[0], w[0], lo);
    InvertedByte(o[1], w[1], hi);
  }

  lemma OnlyFullFlip16(s: Input, f: Input, i: nat, lo: u8, hi: u8, eff: seq<bool>)
    requires PairChanged(s, f, i, lo, hi) && |eff| == EffLen(|s|) && f in StageRuns(s, Flip16, eff)
    ensures lo == 0xff && hi == 0xff
  {
    var j := PairOrigin(s, f, i, lo, hi, Flip16, eff);
    FullyInverted(s[j..j + 2], f[j..j + 2], lo, hi);
  }

  lemma AllInverted(o: seq<u8>, w: seq<u8>)
    requires |o| == 4 && Put(w) in Tries(Flip32, o)
    ensures |w| == 4 && w[0] != o[0] && w[1] != o[1] && w[2] != o[2] && w[3] != o[3]
  {
    assert w == [!o[0], !o[1], !o[2], !o[3]];
    InvertedDiffers(o[0]);
    InvertedDiffers(o[1]);
    InvertedDiffers(o[2]);
    InvertedDiffers(o[3]);
  }

  lemma Flip32Changes(s: Input, eff: seq<bool>, f: Input) returns (j: nat)
    requires |s| >= 4 && |eff| == EffLen(|s|) && f in StageRuns(s, Flip32, eff)
    ensures j + 3 < |s| == |f|
    ensures f[j] != s[j] && f[j + 1] != s[j + 1] && f[j + 2] != s[j + 2] && f[j + 3] != s[j + 3]
  {
    var w;
    j, w := WordOrigin(s, Flip32, eff, f);
    AllInverted(s[j..j + 4], w);
  }

  lemma NotByFlip32(s: Input, f: Input, i: nat, lo: u8, hi: u8, eff: seq<bool>)
    requires PairChanged(s, f, i, lo, hi) && |eff| == EffLen(|s|) && |s| >= 4
    ensures f !in StageRuns(s, Flip32, eff)
  {
    if f in StageRuns(s, Flip32, eff) {
      var j := Flip32Changes(s, eff, f);
    }
  }

  // ---------- What is lost ----------

  lemma FullPattern(lo: u8, hi: u8)
    ensures Load16(lo, hi) == 0xffff <==> lo == 0xff && hi == 0xff
  {
  }

  lemma StraddlerIsNotFull(d: u16)
    requires Straddles(d)
    ensures FlipPattern(d as u32) && d != 0xffff && !Crosses(d)
  {
    StraddlesListed(d);
  }

  lemma NotByKind(s: Input, f: Input, i: nat, lo: u8, hi: u8, kind: Kind, eff: seq<bool>)
    requires PairChanged(s, f, i, lo, hi) && Straddles(Load16(lo, hi)) && |eff| == EffLen(|s|) && Width(kind) <= |s|
    ensures f !in StageRuns(s, kind, eff)
  {
    StraddlerIsNotFull(Load16(lo, hi));
    match kind
    case Arith8 => NotByBytes(s, f, i, lo, hi, kind, eff);
    case Interest8 => NotByBytes(s, f, i, lo, hi, kind, eff);
    case Arith16 => NotByHalves(s, f, i, lo, hi, kind, eff);
    case Interest16 => NotByHalves(s, f, i, lo, hi, kind, eff);
    case Arith32 => NotByWords(s, f, i, lo, hi, kind, eff);
    case Interest32 => NotByWords(s, f, i, lo, hi, kind, eff);
    case Flip32 => NotByFlip32(s, f, i, lo, hi, eff);
    case Flip16 =>
      if f in StageRuns(s, Flip16, eff) {
        OnlyFullFlip16(s, f, i, lo, hi, eff);
        FullPattern(lo, hi);
      }
  }

  lemma {:induction false} NotConcatenated(parts: seq<seq<Input>>, n: nat, f: Input)
    requires n <= |parts| && forall k :: 0 <= k < n ==> f !in parts[k]
    ensures f !in Concatenated(parts, n)
  {
    if n > 0 { NotConcatenated(parts, n - 1, f); }
  }

  lemma NotByFlips(s: Input, f: Input)
    requires |s| > 0 && !RunByFlips(s, f)
    ensures f !in FlipRuns(s)
  {
    InConcatenation(f, BitStage(s, 1), BitStage(s, 2));
    InConcatenation(f, BitStage(s, 1) + BitStage(s, 2), BitStage(s, 4));
    InConcatenation(f, BitStage(s, 1) + BitStage(s, 2) + BitStage(s, 4), ByteRuns(s, |s|));
  }

  lemma NotByWordStages(s: Input, f: Input, i: nat, lo: u8, hi: u8, eff: seq<bool>, kinds: seq<Kind>)
    requires PairChanged(s, f, i, lo, hi) && Straddles(Load16(lo, hi)) && |eff| == EffLen(|s|)
    ensures f !in WordRuns(s, eff, kinds)
  {
    var parts := Parts(s, eff, kinds);
    forall k | 0 <= k < |kinds| ensures f !in parts[k] {
      if Width(kinds[k]) <= |s| { NotByKind(s, f, i, lo, hi, kinds[k], eff); }
    }
    NotConcatenated(parts, |kinds|, f);
  }

  lemma SplitHalf(d: u16, lo: u8, hi: u8)
    requires lo == (d & 0xff) as u8 && hi == (d >> 8) as u8
    ensures Load16(lo, hi) == d && (d & 0xff == 0 <==> lo == 0) && (d & 0xff00 == 0 <==> hi == 0)
  {
  }

  lemma LowByteChange(a: u8, b: u8, v: u16, c: u8, d: u16, lo: u8)
    requires c == (v & 0xff) as u8 && d == Load16(a, b) ^ v && lo == (d & 0xff) as u8
    ensures lo == a ^ c
  {
  }

  lemma HighByteChange(a: u8, b: u8, v: u16, e: u8, d: u16, hi: u8)
    requires e == (v >> 8) as u8 && d == Load16(a, b) ^ v && hi == (d >> 8) as u8
    ensures hi == b ^ e
  {
  }

  lemma HalfParts(a: u8, b: u8, v: u16, c: u8, e: u8, d: u16, lo: u8, hi: u8)
    requires c == (v & 0xff) as u8 && e == (v >> 8) as u8 && d == Load16(a, b) ^ v
    requires lo == (d & 0xff) as u8 && hi == (d >> 8) as u8
    ensures Load16(lo, hi) == d && Differ(a, c, lo) && Differ(b, e, hi)
    ensures d & 0xff == 0 <==> c == a
    ensures d & 0xff00 == 0 <==> e == b
  {
    SplitHalf(d, lo, hi);
    LowByteChange(a, b, v, c, d, lo);
    HighByteChange(a, b, v, e, d, hi);
    DifferIs(a, c, lo);
    DifferIs(b, e, hi);
  }

  lemma StoredParts(v: u16, w: seq<u8>)
    requires w == Store16(v)
    ensures |w| == 2 && w[0] == (v & 0xff) as u8 && w[1] == (v >> 8) as u8
  {
  }

  /** The half word v at position i, as a change of the file. */
  lemma HalfIsChanged(s: Input, i: nat, o: u16, v: u16, d: u16, w: seq<u8>, lo: u8, hi: u8, f: Input)
    requires i + 1 < |s| && o == Load16(s[i], s[i + 1]) && d == o ^ v && w == Store16(v) && f == Overwrite(s, i, w)
    requires lo == (d & 0xff) as u8 && hi == (d >> 8) as u8
    ensures |w| == 2 && f == s[i := w[0]][i + 1 := w[1]]
    ensures Load16(lo, hi) == d && Differ(s[i], w[0], lo) && Differ(s[i + 1], w[1], hi)
    ensures d & 0xff == 0 <==> w[0] == s[i]
    ensures d & 0xff00 == 0 <==> w[1] == s[i + 1]
  {
    StoredParts(v, w);
    HalfParts(s[i], s[i + 1], v, w[0], w[1], d, lo, hi);
  }

  lemma ChangedPair(s: Input, i: nat, w: seq<u8>, lo: u8, hi: u8, f: Input)
    requires i + 1 < |s| && |w| == 2 && f == s[i := w[0]][i + 1 := w[1]] && w[0] != s[i] && w[1] != s[i + 1]
    requires Differ(s[i], w[0], lo) && Differ(s[i + 1], w[1], hi)
    ensures PairChanged(s, f, i, lo, hi)
  {
  }

  /** The filter takes them for bit flips, and no deterministic stage ever runs them. */
  lemma StraddlersAreNeverRun(s: Input, eff: seq<bool>, i: nat, o: u16, v: u16, d: u16, noArith: bool)
    requires i + 1 < |s| && |eff| == EffLen(|s|) && o == Load16(s[i], s[i + 1]) && d == o ^ v && Straddles(d)
    ensures Overwrite(s, i, Store16(v)) !in FlipRuns(s)
    ensures Overwrite(s, i, Store16(v)) !in WordRuns(s, eff, Kinds(|s|, noArith))
  {
    var w := Store16(v);
    var lo, hi, f := (d & 0xff) as u8, (d >> 8) as u8, Overwrite(s, i, w);
    StraddlerIsNotFull(d);
    HalfIsChanged(s, i, o, v, d, w, lo, hi, f);
    ChangedPair(s, i, w, lo, hi, f);
    PairIsFlippedIffCrosses(s, f, i, lo, hi);
    NotByFlips(s, f);
    NotByWordStages(s, f, i, lo, hi, eff, Kinds(|s|, noArith));
  }

  // ---------- What the filter is right about ----------

  /** Run by the walking flips or by bitflip 16/8. */
  ghost predicate RunByFlipStages(s: Input, eff: seq<bool>, f: Input)
    requires |s| >= 2 && |eff| == EffLen(|s|)
  {
    RunByFlips(s, f) || f in StageRuns(s, Flip16, eff)
  }

  /** The changes of a half word that these stages make. */
  predicate MadeByFlips(d: u16) { (FlipPattern(d as u32) && !Straddles(d)) || Crosses(d) }

  lemma WordIsRun(s: Input, kind: Kind, eff: seq<bool>, i: nat, w: seq<u8>)
    requires i + Width(kind) <= |s| && |eff| == EffLen(|s|) && Effective(eff, i, Width(kind))
    requires Put(w) in Tries(kind, s[i..i + Width(kind)])
    ensures Overwrite(s, i, w) in StageRuns(s, kind, eff)
  {
    var plan := Plan(s, kind, eff);
    PlanAt(s, kind, eff, plan, i);
    var k: nat :| k < |plan[i]| && plan[i][k] == Put(w);
    RanMember(s, i, plan[i], k);
    PlanMember(s, plan, |plan|, Overwrite(s, i, w), i);
  }

  lemma BothInverted(o: seq<u8>, w: seq<u8>)
    requires |o| == 2 && Put(w) in Tries(Flip16, o)
    ensures |w| == 2 && w[0] != o[0] && w[1] != o[1]
  {
    assert w == [!o[0], !o[1]];
    InvertedDiffers(o[0]);
    InvertedDiffers(o[1]);
  }

  lemma Flip16Changes(s: Input, eff: seq<bool>, f: Input) returns (j: nat)
    requires |s| >= 2 && |eff| == EffLen(|s|) && f in StageRuns(s, Flip16, eff)
    ensures j + 1 < |s| == |f| && f[j] != s[j] && f[j + 1] != s[j + 1]
  {
    var w;
    j, w := WordOrigin(s, Flip16, eff, f);
    BothInverted(s[j..j + 2], w);
  }

  lemma NoByteByFlip16(s: Input, eff: seq<bool>, i: nat, v: u8)
    requires i < |s| && |s| >= 2 && |eff| == EffLen(|s|)
    ensures s[i := v] !in StageRuns(s, Flip16, eff)
  {
    if s[i := v] in StageRuns(s, Flip16, eff) {
      var j := Flip16Changes(s, eff, s[i := v]);
    }
  }

  lemma Flip16Tries(o: seq<u8>, w: seq<u8>, a: u8, b: u8, c: u8, d: u8)
    requires o == [a, b] && w == [c, d] && c == !a && d == !b
    ensures Put(w) in Tries(Flip16, o)
  {
  }

  lemma FullFlipIsRun(s: Input, eff: seq<bool>, i: nat, lo: u8, hi: u8, f: Input)
    requires PairChanged(s, f, i, lo, hi) && lo == 0xff && hi == 0xff && |eff| == EffLen(|s|) && Effective(eff, i, 2)
    ensures f in StageRuns(s, Flip16, eff)
  {
    Inverted(s[i], f[i], lo);
    Inverted(s[i + 1], f[i + 1], hi);
    Flip16Tries(s[i..i + 2], f[i..i + 2], s[i], s[i + 1], f[i], f[i + 1]);
    assert f == Overwrite(s, i, f[i..i + 2]);
    WordIsRun(s, Flip16, eff, i, f[i..i + 2]);
  }

  lemma Inverted(a: u8, c: u8, m: u8)
    requires Differ(a, c, m) && m == 0xff
    ensures c == !a
  {
    DifferIs(a, c, m);
  }

  lemma ByteOfHalf(d: u16, x: u8)
    requires (d & 0xff00 == 0 && x == (d & 0xff) as u8) || (d & 0xff == 0 && x == (d >> 8) as u8)
    ensures FlipPattern(x as u32) <==> FlipPattern(d as u32) && !Straddles(d)
    ensures !Crosses(d)
  {
  }

  lemma BothBytes(d: u16)
    requires d & 0xff != 0 && d & 0xff00 != 0
    ensures FlipPattern(d as u32) && !Straddles(d) <==> d == 0xffff
  {
  }

  lemma ByteCase(s: Input, eff: seq<bool>, i: nat, c: u8, d: u16, x: u8)
    requires i < |s| && |s| >= 2 && |eff| == EffLen(|s|) && c != s[i] && Differ(s[i], c, x)
    requires (d & 0xff00 == 0 && x == (d & 0xff) as u8) || (d & 0xff == 0 && x == (d >> 8) as u8)
    ensures RunByFlipStages(s, eff, s[i := c]) <==> MadeByFlips(d)
  {
    ByteOfHalf(d, x);
    DifferIs(s[i], c, x);
    FlipFilterIsExact(s, i, c);
    NoByteByFlip16(s, eff, i, c);
  }

  lemma PairCase(s: Input, eff: seq<bool>, i: nat, f: Input, d: u16, lo: u8, hi: u8)
    requires PairChanged(s, f, i, lo, hi) && d == Load16(lo, hi) && d & 0xff != 0 && d & 0xff00 != 0
    requires |eff| == EffLen(|s|) && Effective(eff, i, 2)
    ensures RunByFlipStages(s, eff, f) <==> MadeByFlips(d)
  {
    BothBytes(d);
    FullPattern(lo, hi);
    PairIsFlippedIffCrosses(s, f, i, lo, hi);
    if d == 0xffff { FullFlipIsRun(s, eff, i, lo, hi, f); }
    if f in StageRuns(s, Flip16, eff) { OnlyFullFlip16(s, f, i, lo, hi, eff); }
  }

  lemma HalfCases(s: Input, eff: seq<bool>, i: nat, w: seq<u8>, d: u16, lo: u8, hi: u8, f: Input)
    requires i + 1 < |s| && |eff| == EffLen(|s|) && Effective(eff, i, 2)
    requires |w| == 2 && f == s[i := w[0]][i + 1 := w[1]] && (w[0] != s[i] || w[1] != s[i + 1])
    requires Load16(lo, hi) == d && Differ(s[i], w[0], lo) && Differ(s[i + 1], w[1], hi)
    requires lo == (d & 0xff) as u8 && hi == (d >> 8) as u8
    requires d & 0xff == 0 <==> w[0] == s[i]
    requires d & 0xff00 == 0 <==> w[1] == s[i + 1]
    ensures RunByFlipStages(s, eff, f) <==> MadeByFlips(d)
  {
    if w[1] == s[i + 1] {
      assert f == s[i := w[0]];
      ByteCase(s, eff, i, w[0], d, lo);
    } else if w[0] == s[i] {
      assert f == s[i + 1 := w[1]];
      ByteCase(s, eff, i + 1, w[1], d, hi);
    } else {
      ChangedPair(s, i, w, lo, hi, f);
      PairCase(s, eff, i, f, d, lo, hi);
    }
  }

  /** Of the half words at an effective position the flip stages run those that the filter takes for
      flips, except the straddlers, and the crossings, which it does not know. */
  lemma FlipFilter16(s: Input, eff: seq<bool>, i: nat, o: u16, v: u16, d: u16)
    requires i + 1 < |s| && |eff| == EffLen(|s|) && Effective(eff, i, 2)
    requires o == Load16(s[i], s[i + 1]) && v != o && d == o ^ v
    ensures RunByFlipStages(s, eff, Overwrite(s, i, Store16(v))) <==> MadeByFlips(d)
  {
    var w := Store16(v);
    var lo, hi, f := (d & 0xff) as u8, (d >> 8) as u8, Overwrite(s, i, w);
    HalfIsChanged(s, i, o, v, d, w, lo, hi, f);
    SomeByteChanged(o, v, d);
    HalfCases(s, eff, i, w, d, lo, hi, f);
  }

  lemma SomeByteChanged(o: u16, v: u16, d: u16)
    requires v != o && d == o ^ v
    ensures d & 0xff != 0 || d & 0xff00 != 0
  {
  }

  // ---------- What arith 16/8 loses ----------

  /** Addition and subtraction, low byte first or high byte first. */
  datatype Way = Up | Down | BigUp | BigDown

  function Stepped(way: Way, o: u16, j: u16): u16 {
    match way
    case Up => o + j
    case Down => o - j
    case BigUp => Swap16(Sum(Swap16(o), j))
    case BigDown => Swap16(Difference(Swap16(o), j))
  }

  /** Does the step reach beyond the byte it starts in? */
  predicate Carries(way: Way, o: u16, j: u16) {
    match way
    case Up => !((o & 0xff) + j <= 0xff)
    case Down => !(o & 0xff >= j)
    case BigUp => !((o >> 8) + j <= 0xff)
    case BigDown => !(o >> 8 >= j)
  }

  lemma CarryIsTried(way: Way, o: u16, j: u16, v: u16)
    requires v == Stepped(way, o, j) && Carries(way, o, j) && !FlipPattern((o ^ v) as u32)
    ensures Put(Store16(v)) in Arith16Step(o, j)
  {
    var p, k, q, l := o + j, (o & 0xff) + j <= 0xff, o - j, o & 0xff >= j;
    var r, m, t, n := Swap16(Sum(Swap16(o), j)), (o >> 8) + j <= 0xff, Swap16(Difference(Swap16(o), j)), o >> 8 >= j;
    Arith16StepHas(o, j, v, false, p, k, q, l, r, m, t, n);
  }

  lemma StepNumber(j: u16) returns (m: nat)
    requires 1 <= j <= 35
    ensures 1 <= m <= ARITH_STEPS && m as u16 == j
  {
    m := j as nat;
  }

  lemma TriedStepIsRun(s: Input, eff: seq<bool>, i: nat, o: u16, j: u16, v: u16)
    requires i + 1 < |s| && |eff| == EffLen(|s|) && Effective(eff, i, 2) && o == Load16(s[i], s[i + 1])
    requires 1 <= j <= 35 && Put(Store16(v)) in Arith16Step(o, j)
    ensures Overwrite(s, i, Store16(v)) in StageRuns(s, Arith16, eff)
  {
    var m := StepNumber(j);
    var w, h := s[i..i + 2], Put(Store16(v));
    assert h in ArithSteps(Arith16, w)(m);
    FlattenMember(ArithSteps(Arith16, w), ARITH_STEPS, h, m);
    WordIsRun(s, Arith16, eff, i, Store16(v));
  }

  lemma UpIsRun(s: Input, eff: seq<bool>, i: nat, o: u16, j: u16, v: u16)
    requires i + 1 < |s| && |eff| == EffLen(|s|) && eff[i / 8] && o == Load16(s[i], s[i + 1])
    requires 1 <= j <= 35 && v == o + j && (o & 0xff) + j <= 0xff
    ensures var f := Overwrite(s, i, Store16(v)); f in StageRuns(s, Arith8, eff) || RunByFlips(s, f)
  {
    CarryUp16(o, j, v);
    CarrySkipIsRun(s, eff, i, o, v, j, Store16(v));
  }

  lemma DownIsRun(s: Input, eff: seq<bool>, i: nat, o: u16, j: u16, v: u16)
    requires i + 1 < |s| && |eff| == EffLen(|s|) && eff[i / 8] && o == Load16(s[i], s[i + 1])
    requires 1 <= j <= 35 && o == v + j && o & 0xff >= j
    ensures var f := Overwrite(s, i, Store16(v)); f in StageRuns(s, Arith8, eff) || RunByFlips(s, f)
  {
    CarryDown16(o, j, v);
    CarrySkipIsRun(s, eff, i, o, v, j, Store16(v));
  }

  lemma BigUpIsRun(s: Input, eff: seq<bool>, i: nat, o: u16, j: u16, v: u16, x: u16, y: u16)
    requires i + 1 < |s| && |eff| == EffLen(|s|) && eff[(i + 1) / 8] && o == Load16(s[i], s[i + 1])
    requires 1 <= j <= 35 && x == Swap16(o) && y == Swap16(v) && y == x + j && (o >> 8) + j <= 0xff
    ensures var f := Overwrite(s, i, Store16(v)); f in StageRuns(s, Arith8, eff) || RunByFlips(s, f)
  {
    BigCarryUp16(o, j, v, x, y, o ^ v);
    BigCarrySkipIsRun(s, eff, i, o, v, x, y, j, Store16(v));
  }

  lemma BigDownIsRun(s: Input, eff: seq<bool>, i: nat, o: u16, j: u16, v: u16, x: u16, y: u16)
    requires i + 1 < |s| && |eff| == EffLen(|s|) && eff[(i + 1) / 8] && o == Load16(s[i], s[i + 1])
    requires 1 <= j <= 35 && x == Swap16(o) && y == Swap16(v) && y == x - j && o >> 8 >= j
    ensures var f := Overwrite(s, i, Store16(v)); f in StageRuns(s, Arith8, eff) || RunByFlips(s, f)
  {
    StepBack(x, j, y);
    BigCarryDown16(o, j, v, x, y, o ^ v);
    BigCarrySkipIsRun(s, eff, i, o, v, x, y, j, Store16(v));
  }

  lemma StepBack(o: u16, j: u16, v: u16)
    requires 1 <= j <= 35 && v == o - j
    ensures o == v + j
  {
  }

  lemma SwapBack(z: u16, v: u16, y: u16)
    requires v == Swap16(z) && y == Swap16(v)
    ensures y == z
  {
  }

  lemma DownForm(o: u16, j: u16, v: u16)
    requires 1 <= j <= 35 && v == Stepped(Down, o, j) && !Carries(Down, o, j)
    ensures o == v + j && o & 0xff >= j
  {
    StepBack(o, j, v);
  }

  lemma SkippedDownIsRun(s: Input, eff: seq<bool>, i: nat, o: u16, j: u16, v: u16)
    requires i + 1 < |s| && |eff| == EffLen(|s|) && eff[i / 8] && o == Load16(s[i], s[i + 1])
    requires 1 <= j <= 35 && v == Stepped(Down, o, j) && !Carries(Down, o, j)
    ensures var f := Overwrite(s, i, Store16(v)); f in StageRuns(s, Arith8, eff) || RunByFlips(s, f)
  {
    DownForm(o, j, v);
    DownIsRun(s, eff, i, o, j, v);
  }

  lemma SkippedBigUpIsRun(s: Input, eff: seq<bool>, i: nat, o: u16, j: u16, v: u16)
    requires i + 1 < |s| && |eff| == EffLen(|s|) && eff[(i + 1) / 8] && o == Load16(s[i], s[i + 1])
    requires 1 <= j <= 35 && v == Stepped(BigUp, o, j) && !Carries(BigUp, o, j)
    ensures var f := Overwrite(s, i, Store16(v)); f in StageRuns(s, Arith8, eff) || RunByFlips(s, f)
  {
    var x, y := Swap16(o), Swap16(v);
    SwapBack(Sum(x, j), v, y);
    BigUpIsRun(s, eff, i, o, j, v, x, y);
  }

  lemma SkippedBigDownIsRun(s: Input, eff: seq<bool>, i: nat, o: u16, j: u16, v: u16)
    requires i + 1 < |s| && |eff| == EffLen(|s|) && eff[(i + 1) / 8] && o == Load16(s[i], s[i + 1])
    requires 1 <= j <= 35 && v == Stepped(BigDown, o, j) && !Carries(BigDown, o, j)
    ensures var f := Overwrite(s, i, Store16(v)); f in StageRuns(s, Arith8, eff) || RunByFlips(s, f)
  {
    var x, y := Swap16(o), Swap16(v);
    SwapBack(Difference(x, j), v, y);
    BigDownIsRun(s, eff, i, o, j, v, x, y);
  }

  lemma SkippedStepIsRun(s: Input, eff: seq<bool>, i: nat, way: Way, o: u16, j: u16, v: u16)
    requires i + 1 < |s| && |eff| == EffLen(|s|) && eff[i / 8] && eff[(i + 1) / 8] && o == Load16(s[i], s[i + 1])
    requires 1 <= j <= 35 && v == Stepped(way, o, j) && !Carries(way, o, j)
    ensures var f := Overwrite(s, i, Store16(v)); f in StageRuns(s, Arith8, eff) || RunByFlips(s, f)
  {
    match way
    case Up => UpIsRun(s, eff, i, o, j, v);
    case Down => SkippedDownIsRun(s, eff, i, o, j, v);
    case BigUp => SkippedBigUpIsRun(s, eff, i, o, j, v);
    case BigDown => SkippedBigDownIsRun(s, eff, i, o, j, v);
  }

  lemma FlipStepIsRun(s: Input, eff: seq<bool>, i: nat, o: u16, v: u16, d: u16)
    requires i + 1 < |s| && |eff| == EffLen(|s|) && eff[i / 8] && o == Load16(s[i], s[i + 1])
    requires v != o && d == o ^ v && FlipPattern(d as u32) && !Straddles(d)
    ensures RunByFlipStages(s, eff, Overwrite(s, i, Store16(v)))
  {
    FlipFilter16(s, eff, i, o, v, d);
  }

  lemma CarryStepIsRun(s: Input, eff: seq<bool>, i: nat, way: Way, o: u16, j: u16, v: u16)
    requires i + 1 < |s| && |eff| == EffLen(|s|) && eff[i / 8] && o == Load16(s[i], s[i + 1])
    requires 1 <= j <= 35 && v == Stepped(way, o, j) && Carries(way, o, j) && !FlipPattern((o ^ v) as u32)
    ensures Overwrite(s, i, Store16(v)) in StageRuns(s, Arith16, eff)
  {
    CarryIsTried(way, o, j, v);
    TriedStepIsRun(s, eff, i, o, j, v);
  }

  lemma StepsMove(way: Way, o: u16, j: u16, v: u16)
    requires 1 <= j <= 35 && v == Stepped(way, o, j)
    ensures v != o
  {
  }

  /** Run by the flips or the arithmetic of bytes and half words. */
  ghost predicate RunByArith16(s: Input, eff: seq<bool>, f: Input)
    requires |s| >= 2 && |eff| == EffLen(|s|)
  {
    RunByFlipStages(s, eff, f) || f in StageRuns(s, Arith8, eff) || f in StageRuns(s, Arith16, eff)
  }

  lemma StraddlerIsNotRunYet(s: Input, eff: seq<bool>, i: nat, o: u16, v: u16, d: u16)
    requires i + 1 < |s| && |eff| == EffLen(|s|) && o == Load16(s[i], s[i + 1]) && d == o ^ v && Straddles(d)
    ensures !RunByArith16(s, eff, Overwrite(s, i, Store16(v)))
  {
    StraddlerIsNeverRun(s, eff, i, o, v, d);
    if RunByArith16(s, eff, Overwrite(s, i, Store16(v))) { EarlyRunIsRun(s, eff, Overwrite(s, i, Store16(v))); }
  }

  lemma OtherStepIsRun(s: Input, eff: seq<bool>, i: nat, way: Way, o: u16, j: u16, v: u16, d: u16)
    requires i + 1 < |s| && |eff| == EffLen(|s|) && eff[i / 8] && eff[(i + 1) / 8]
    requires o == Load16(s[i], s[i + 1]) && 1 <= j <= 35 && v == Stepped(way, o, j) && d == o ^ v && !Straddles(d)
    ensures RunByArith16(s, eff, Overwrite(s, i, Store16(v)))
  {
    if !Carries(way, o, j) {
      SkippedStepIsRun(s, eff, i, way, o, j, v);
    } else if FlipPattern(d as u32) {
      StepsMove(way, o, j, v);
      FlipStepIsRun(s, eff, i, o, v, d);
    } else {
      CarryStepIsRun(s, eff, i, way, o, j, v);
    }
  }

  /** Run by any deterministic stage, arithmetic included. */
  ghost predicate IsRun(s: Input, eff: seq<bool>, f: Input)
    requires |s| > 0 && |eff| == EffLen(|s|)
  {
    f in FlipRuns(s) + WordRuns(s, eff, Kinds(|s|, false))
  }

  lemma FlippedIsRun(s: Input, eff: seq<bool>, f: Input)
    requires |s| > 0 && |eff| == EffLen(|s|) && RunByFlips(s, f)
    ensures IsRun(s, eff, f)
  {
    InConcatenation(f, BitStage(s, 1), BitStage(s, 2));
    InConcatenation(f, BitStage(s, 1) + BitStage(s, 2), BitStage(s, 4));
    InConcatenation(f, BitStage(s, 1) + BitStage(s, 2) + BitStage(s, 4), ByteRuns(s, |s|));
    InConcatenation(f, FlipRuns(s), WordRuns(s, eff, Kinds(|s|, false)));
  }

  lemma StageIsRun(s: Input, eff: seq<bool>, f: Input, kind: Kind)
    requires |s| > 0 && |eff| == EffLen(|s|) && Width(kind) <= |s| && f in StageRuns(s, kind, eff)
    ensures IsRun(s, eff, f)
  {
    WordRunsAreOfStages(s, eff, false, f);
    assert IsPerformed(kind, |s|, false);
    InConcatenation(f, FlipRuns(s), WordRuns(s, eff, Kinds(|s|, false)));
  }

  lemma StraddlerIsNeverRun(s: Input, eff: seq<bool>, i: nat, o: u16, v: u16, d: u16)
    requires i + 1 < |s| && |eff| == EffLen(|s|) && o == Load16(s[i], s[i + 1]) && d == o ^ v && Straddles(d)
    ensures !IsRun(s, eff, Overwrite(s, i, Store16(v)))
  {
    StraddlersAreNeverRun(s, eff, i, o, v, d, false);
    InConcatenation(Overwrite(s, i, Store16(v)), FlipRuns(s), WordRuns(s, eff, Kinds(|s|, false)));
  }

  lemma EarlyRunIsRun(s: Input, eff: seq<bool>, f: Input)
    requires |s| >= 2 && |eff| == EffLen(|s|) && RunByArith16(s, eff, f)
    ensures IsRun(s, eff, f)
  {
    if RunByFlips(s, f) {
      FlippedIsRun(s, eff, f);
    } else {
      StageIsRun(s, eff, f,
                 if f in StageRuns(s, Flip16, eff) then Flip16 else if f in StageRuns(s, Arith8, eff) then Arith8 else Arith16);
    }
  }

  /** Of the steps of arith 16/8 at effective bytes exactly the straddlers are lost: all others have
      been run when the stage is over, and the straddlers never are. */
  lemma Arith16LosesOnlyStraddlers(s: Input, eff: seq<bool>, i: nat, way: Way, o: u16, j: u16, v: u16, d: u16)
    requires i + 1 < |s| && |eff| == EffLen(|s|) && eff[i / 8] && eff[(i + 1) / 8]
    requires o == Load16(s[i], s[i + 1]) && 1 <= j <= 35 && v == Stepped(way, o, j) && d == o ^ v
    ensures RunByArith16(s, eff, Overwrite(s, i, Store16(v))) <==> !Straddles(d)
    ensures Overwrite(s, i, Store16(v)) in FlipRuns(s) + WordRuns(s, eff, Kinds(|s|, false)) <==> !Straddles(d)
  {
    if Straddles(d) {
      StraddlerIsNotRunYet(s, eff, i, o, v, d);
      StraddlerIsNeverRun(s, eff, i, o, v, d);
    } else {
      OtherStepIsRun(s, eff, i, way, o, j, v, d);
      EarlyRunIsRun(s, eff, Overwrite(s, i, Store16(v)));
    }
  }

  lemma UpStraddles(o: u16, j: u16, v: u16, d: u16)
    requires 1 <= j <= 35 && v == o + j && d == o ^ v
    ensures Straddles(d) <==> j == 32 && o & 0x1e0 == 0xe0
  {
    StraddlesListed(d);
  }

  lemma DownStraddles(o: u16, j: u16, v: u16, d: u16)
    requires 1 <= j <= 35 && v == o - j && d == o ^ v
    ensures Straddles(d) <==> j == 32 && o & 0x1e0 == 0x100
  {
    StraddlesListed(d);
  }

  lemma BigNeverStraddles(o: u16, j: u16, v: u16, d: u16, x: u16, z: u16)
    requires 1 <= j <= 35 && x == Swap16(o) && (z == Sum(x, j) || z == Difference(x, j)) && v == Swap16(z) && d == o ^ v
    ensures !Straddles(d)
  {
    StraddlesListed(d);
  }

  lemma BigUpNeverStraddles(o: u16, j: u16, v: u16, d: u16)
    requires 1 <= j <= 35 && v == Stepped(BigUp, o, j) && d == o ^ v
    ensures !Straddles(d)
  {
    BigNeverStraddles(o, j, v, d, Swap16(o), Sum(Swap16(o), j));
  }

  lemma BigDownNeverStraddles(o: u16, j: u16, v: u16, d: u16)
    requires 1 <= j <= 35 && v == Stepped(BigDown, o, j) && d == o ^ v
    ensures !Straddles(d)
  {
    BigNeverStraddles(o, j, v, d, Swap16(o), Difference(Swap16(o), j));
  }

  /** They are the steps by 32 from 7 to 8, or back, in the four bits above the fifth. */
  lemma StraddlingSteps(way: Way, o: u16, j: u16, v: u16, d: u16)
    requires 1 <= j <= 35 && v == Stepped(way, o, j) && d == o ^ v
    ensures Straddles(d) <==> j == 32 && ((way == Up && o & 0x1e0 == 0xe0) || (way == Down && o & 0x1e0 == 0x100))
  {
    match way
    case Up => UpStraddles(o, j, v, d);
    case Down => DownStraddles(o, j, v, d);
    case BigUp => BigUpNeverStraddles(o, j, v, d);
    case BigDown => BigDownNeverStraddles(o, j, v, d);
  }

  /** The step from 224 to 256 is never tried. */
  lemma LostStep(noArith: bool)
    ensures Stepped(Up, Load16(0xe0, 0), 32) == 0x100
    ensures [0, 1] !in FlipRuns([0xe0, 0]) && [0, 1] !in WordRuns([0xe0, 0], [true], Kinds(2, noArith))
  {
    assert Overwrite([0xe0, 0], 0, Store16(0x100)) == [0, 1];
    StraddlersAreNeverRun([0xe0, 0], [true], 0, 0xe0, 0x100, 0x1e0, noArith);
  }
}
