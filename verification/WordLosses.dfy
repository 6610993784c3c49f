/** What arith 32/8 loses.  A step within the lower half, or within the upper half high byte first, is
    a step of arith 16/8; one that reaches beyond changes more bits than a short run has, so that only
    the flip of the whole word could be confused with it.  Hence exactly the straddlers of half words
    are lost here as well, and of these only the one that a step of at most ARITH_MAX can make. */
module WordLosses {
  import opened Redundancy
  import opened Stages
  import opened WordStages
  import opened Deterministic
  import opened WordValues
  import opened WordFilters

  function Sum32(a: u32, b: u32): u32 { a + b }

  function Difference32(a: u32, b: u32): u32 { a - b }

  function Stepped32(way: Way, o: u32, j: u32): u32 {
    match way
    case Up => o + j
    case Down => o - j
    case BigUp => Swap32(Sum32(Swap32(o), j))
    case BigDown => Swap32(Difference32(Swap32(o), j))
  }

  /** Does the step reach beyond the half it starts in? */
  predicate Carries32(way: Way, o: u32, j: u32) {
    match way
    case Up => !((o & 0xffff) + j <= 0xffff)
    case Down => !(o & 0xffff >= j)
    case BigUp => !((Swap32(o) & 0xffff) + j <= 0xffff)
    case BigDown => !(Swap32(o) & 0xffff >= j)
  }

  // ---------- Steps that reach beyond a half ----------

  lemma CarryFlips(o: u32, j: u32, v: u32, d: u32)
    requires 1 <= j <= 35 && v == o + j && d == o ^ v && !((o & 0xffff) + j <= 0xffff)
    ensures d & 0x1_ffc0 == 0x1_ffc0
  {
  }

  lemma BorrowFlips(o: u32, j: u32, v: u32, d: u32)
    requires 1 <= j <= 35 && v == o - j && d == o ^ v && !(o & 0xffff >= j)
    ensures d & 0x1_ffc0 == 0x1_ffc0
  {
  }

  lemma SwappedDelta(o: u32, v: u32, x: u32, y: u32, d: u32, e: u32)
    requires x == Swap32(o) && y == Swap32(v) && d == o ^ v && e == x ^ y
    ensures e == Swap32(d)
  {
  }

  lemma LongFlipIsFull(d: u32)
    requires FlipPattern(d) && (d & 0x1_ffc0 == 0x1_ffc0 || Swap32(d) & 0x1_ffc0 == 0x1_ffc0)
    ensures d == 0xffff_ffff
  {
  }

  lemma SwapBack32(z: u32, v: u32, y: u32)
    requires v == Swap32(z) && y == Swap32(v)
    ensures y == z
  {
  }

  lemma CarryDelta(way: Way, o: u32, j: u32, v: u32, d: u32)
    requires 1 <= j <= 35 && v == Stepped32(way, o, j) && Carries32(way, o, j) && d == o ^ v
    ensures d & 0x1_ffc0 == 0x1_ffc0 || Swap32(d) & 0x1_ffc0 == 0x1_ffc0
  {
    match way
    case Up => CarryFlips(o, j, v, d);
    case Down => BorrowFlips(o, j, v, d);
    case BigUp => BigCarryFlips(o, j, v, d, Swap32(o), Sum32(Swap32(o), j), Swap32(v));
    case BigDown => BigBorrowFlips(o, j, v, d, Swap32(o), Difference32(Swap32(o), j), Swap32(v));
  }

  /** A step that reaches beyond its half changes so much that the filter can only take it for a flip
      of the whole word. */
  lemma CarryIsFullFlip(way: Way, o: u32, j: u32, v: u32, d: u32)
    requires 1 <= j <= 35 && v == Stepped32(way, o, j) && Carries32(way, o, j) && d == o ^ v && FlipPattern(d)
    ensures d == 0xffff_ffff
  {
    CarryDelta(way, o, j, v, d);
    LongFlipIsFull(d);
  }

  lemma BigCarryFlips(o: u32, j: u32, v: u32, d: u32, x: u32, z: u32, y: u32)
    requires 1 <= j <= 35 && x == Swap32(o) && z == Sum32(x, j) && v == Swap32(z) && y == Swap32(v) && d == o ^ v
    requires !((x & 0xffff) + j <= 0xffff)
    ensures Swap32(d) & 0x1_ffc0 == 0x1_ffc0
  {
    SwapBack32(z, v, y);
    CarryFlips(x, j, y, x ^ y);
    SwappedDelta(o, v, x, y, d, x ^ y);
  }

  lemma BigBorrowFlips(o: u32, j: u32, v: u32, d: u32, x: u32, z: u32, y: u32)
    requires 1 <= j <= 35 && x == Swap32(o) && z == Difference32(x, j) && v == Swap32(z) && y == Swap32(v) && d == o ^ v
    requires !(x & 0xffff >= j)
    ensures Swap32(d) & 0x1_ffc0 == 0x1_ffc0
  {
    SwapBack32(z, v, y);
    BorrowFlips(x, j, y, x ^ y);
    SwappedDelta(o, v, x, y, d, x ^ y);
  }

  lemma InvertedWord(a: u8, b: u8, c: u8, e: u8, o: u32, v: u32)
    requires o == Load32(a, b, c, e) && o ^ v == 0xffff_ffff
    ensures v == Load32(!a, !b, !c, !e)
  {
  }

  lemma FullFlip32IsTried(o: seq<u8>, x: u32, v: u32)
    requires |o| == 4 && x == Load32(o[0], o[1], o[2], o[3]) && x ^ v == 0xffff_ffff
    ensures Put(Store32(v)) in Tries(Flip32, o)
  {
    var w := [!o[0], !o[1], !o[2], !o[3]];
    InvertedWord(o[0], o[1], o[2], o[3], x, v);
    StoredWord(w, v);
    assert Tries(Flip32, o) == [Put(w)];
  }

  lemma Filtered32IsPut(o: u32, v: u32, skip: bool)
    requires !skip && !FlipPattern(o ^ v)
    ensures Filtered32(o, v, skip) == Put(Store32(v))
  {
  }

  lemma Low32Is(o: u32, j: u32, p: u32, k: bool, q: u32, l: bool)
    requires p == o + j && k == ((o & 0xffff) + j <= 0xffff) && q == o - j && l == (o & 0xffff >= j)
    ensures Arith32Low(o, j) == [Filtered32(o, p, k), Filtered32(o, q, l)]
  {
  }

  lemma High32Is(o: u32, j: u32, s: u32, r: u32, m: bool, t: u32, n: bool)
    requires r == Swap32(Sum32(s, j)) && m == ((s & 0xffff) + j <= 0xffff)
    requires t == Swap32(Difference32(s, j)) && n == (s & 0xffff >= j)
    ensures Arith32High(o, s, j) == [Filtered32(o, r, m), Filtered32(o, t, n)]
  {
  }

  lemma OneOfTwo(x: Try, a: Try, b: Try)
    requires x == a || x == b
    ensures x in [a, b]
  {
  }

  lemma LowIsTried(o: u32, j: u32, v: u32, p: u32, k: bool, q: u32, l: bool)
    requires p == o + j && k == ((o & 0xffff) + j <= 0xffff) && q == o - j && l == (o & 0xffff >= j)
    requires ((v == p && !k) || (v == q && !l)) && !FlipPattern(o ^ v)
    ensures Put(Store32(v)) in Arith32Low(o, j)
  {
    Low32Is(o, j, p, k, q, l);
    Filtered32IsPut(o, v, false);
    OneOfTwo(Put(Store32(v)), Filtered32(o, p, k), Filtered32(o, q, l));
  }

  lemma BigUpIsTried(o: u32, j: u32, v: u32, s: u32)
    requires v == Swap32(Sum32(s, j)) && !((s & 0xffff) + j <= 0xffff) && !FlipPattern(o ^ v)
    ensures Put(Store32(v)) in Arith32High(o, s, j)
  {
    High32Is(o, j, s, v, false, Swap32(Difference32(s, j)), s & 0xffff >= j);
    Filtered32IsPut(o, v, false);
  }

  lemma BigDownIsTried(o: u32, j: u32, v: u32, s: u32)
    requires v == Swap32(Difference32(s, j)) && !(s & 0xffff >= j) && !FlipPattern(o ^ v)
    ensures Put(Store32(v)) in Arith32High(o, s, j)
  {
    High32Is(o, j, s, Swap32(Sum32(s, j)), (s & 0xffff) + j <= 0xffff, v, false);
    Filtered32IsPut(o, v, false);
  }

  lemma InStep32(o: u32, j: u32, x: Try)
    requires x in Arith32Low(o, j) || x in Arith32High(o, Swap32(o), j)
    ensures x in Arith32Step(o, j)
  {
    InConcatenation(x, Arith32Low(o, j), Arith32High(o, Swap32(o), j));
  }

  lemma UpIsInStep(o: u32, j: u32, v: u32)
    requires v == Stepped32(Up, o, j) && Carries32(Up, o, j) && !FlipPattern(o ^ v)
    ensures Put(Store32(v)) in Arith32Step(o, j)
  {
    LowIsTried(o, j, v, v, false, o - j, o & 0xffff >= j);
    InStep32(o, j, Put(Store32(v)));
  }

  lemma DownIsInStep(o: u32, j: u32, v: u32)
    requires v == Stepped32(Down, o, j) && Carries32(Down, o, j) && !FlipPattern(o ^ v)
    ensures Put(Store32(v)) in Arith32Step(o, j)
  {
    LowIsTried(o, j, v, o + j, (o & 0xffff) + j <= 0xffff, v, false);
    InStep32(o, j, Put(Store32(v)));
  }

  lemma BigUpIsInStep(o: u32, j: u32, v: u32)
    requires v == Stepped32(BigUp, o, j) && Carries32(BigUp, o, j) && !FlipPattern(o ^ v)
    ensures Put(Store32(v)) in Arith32Step(o, j)
  {
    BigUpIsTried(o, j, v, Swap32(o));
    InStep32(o, j, Put(Store32(v)));
  }

  lemma BigDownIsInStep(o: u32, j: u32, v: u32)
    requires v == Stepped32(BigDown, o, j) && Carries32(BigDown, o, j) && !FlipPattern(o ^ v)
    ensures Put(Store32(v)) in Arith32Step(o, j)
  {
    BigDownIsTried(o, j, v, Swap32(o));
    InStep32(o, j, Put(Store32(v)));
  }

  lemma CarryIsTried32(way: Way, o: u32, j: u32, v: u32)
    requires v == Stepped32(way, o, j) && Carries32(way, o, j) && !FlipPattern(o ^ v)
    ensures Put(Store32(v)) in Arith32Step(o, j)
  {
    match way
    case Up => UpIsInStep(o, j, v);
    case Down => DownIsInStep(o, j, v);
    case BigUp => BigUpIsInStep(o, j, v);
    case BigDown => BigDownIsInStep(o, j, v);
  }

  // ---------- Steps within a half ----------

  lemma LowHalfBytes(a: u8, b: u8, c: u8, e: u8, o: u32, v: u32, g: u16)
    requires o == Load32(a, b, c, e) && (o ^ v) & 0xffff_0000 == 0 && g == (v & 0xffff) as u16
    ensures Load16(a, b) == (o & 0xffff) as u16
    ensures (v & 0xff) as u8 == (g & 0xff) as u8 && ((v >> 8) & 0xff) as u8 == (g >> 8) as u8
    ensures ((v >> 16) & 0xff) as u8 == c && (v >> 24) as u8 == e
  {
  }

  lemma HighHalfBytes(a: u8, b: u8, c: u8, e: u8, o: u32, v: u32, g: u16)
    requires o == Load32(a, b, c, e) && (o ^ v) & 0xffff == 0 && g == (v >> 16) as u16
    ensures Load16(c, e) == (o >> 16) as u16
    ensures (v & 0xff) as u8 == a && ((v >> 8) & 0xff) as u8 == b
    ensures ((v >> 16) & 0xff) as u8 == (g & 0xff) as u8 && (v >> 24) as u8 == (g >> 8) as u8
  {
  }

  lemma StoredParts32(v: u32, w: seq<u8>)
    requires w == Store32(v)
    ensures |w| == 4 && w[0] == (v & 0xff) as u8 && w[1] == ((v >> 8) & 0xff) as u8
    ensures w[2] == ((v >> 16) & 0xff) as u8 && w[3] == (v >> 24) as u8
  {
  }

  lemma LowBytesWritten(s: Input, i: nat, w: seq<u8>, u: seq<u8>)
    requires i + 3 < |s| && |w| == 4 && |u| == 2 && w == [u[0], u[1], s[i + 2], s[i + 3]]
    ensures Overwrite(s, i, w) == Overwrite(s, i, u)
  {
  }

  lemma HighBytesWritten(s: Input, i: nat, w: seq<u8>, u: seq<u8>)
    requires i + 3 < |s| && |w| == 4 && |u| == 2 && w == [s[i], s[i + 1], u[0], u[1]]
    ensures Overwrite(s, i, w) == Overwrite(s, i + 2, u)
  {
  }

  lemma LowHalfFile(s: Input, i: nat, o: u32, v: u32, h: u16, g: u16)
    requires i + 3 < |s| && o == Load32(s[i], s[i + 1], s[i + 2], s[i + 3]) && (o ^ v) & 0xffff_0000 == 0
    requires h == (o & 0xffff) as u16 && g == (v & 0xffff) as u16
    ensures h == Load16(s[i], s[i + 1]) && Overwrite(s, i, Store32(v)) == Overwrite(s, i, Store16(g))
  {
    var w, u := Store32(v), Store16(g);
    StoredParts32(v, w);
    StoredParts(g, u);
    LowHalfBytes(s[i], s[i + 1], s[i + 2], s[i + 3], o, v, g);
    LowBytesWritten(s, i, w, u);
  }

  lemma HighHalfFile(s: Input, i: nat, o: u32, v: u32, h: u16, g: u16)
    requires i + 3 < |s| && o == Load32(s[i], s[i + 1], s[i + 2], s[i + 3]) && (o ^ v) & 0xffff == 0
    requires h == (o >> 16) as u16 && g == (v >> 16) as u16
    ensures h == Load16(s[i + 2], s[i + 3]) && Overwrite(s, i, Store32(v)) == Overwrite(s, i + 2, Store16(g))
  {
    var w, u := Store32(v), Store16(g);
    StoredParts32(v, w);
    StoredParts(g, u);
    HighHalfBytes(s[i], s[i + 1], s[i + 2], s[i + 3], o, v, g);
    HighBytesWritten(s, i, w, u);
  }

  lemma UpInHalf(o: u32, j: u32, v: u32, h: u16, k: u16, g: u16)
    requires 1 <= j <= 35 && v == Sum32(o, j) && (o & 0xffff) + j <= 0xffff
    requires h == (o & 0xffff) as u16 && k == j as u16 && g == (v & 0xffff) as u16
    ensures 1 <= k <= 35 && g == Sum(h, k) && (o ^ v) & 0xffff_0000 == 0
  {
  }

  lemma DownInHalf(o: u32, j: u32, v: u32, h: u16, k: u16, g: u16)
    requires 1 <= j <= 35 && v == Difference32(o, j) && o & 0xffff >= j
    requires h == (o & 0xffff) as u16 && k == j as u16 && g == (v & 0xffff) as u16
    ensures 1 <= k <= 35 && g == Difference(h, k) && (o ^ v) & 0xffff_0000 == 0
  {
  }

  lemma SwappedHalves(o: u32, x: u32)
    requires x == Swap32(o)
    ensures (x & 0xffff) as u16 == Swap16((o >> 16) as u16)
  {
  }

  lemma SwappedSame(o: u32, v: u32, x: u32, y: u32)
    requires x == Swap32(o) && y == Swap32(v) && (x ^ y) & 0xffff_0000 == 0
    ensures (o ^ v) & 0xffff == 0
  {
  }

  /** The halves of o and v at the higher addresses, and the numbers they are high byte first. */
  lemma SwappedStep(o: u32, v: u32, x: u32, y: u32, h: u16, g: u16, m: u16, n: u16)
    requires x == Swap32(o) && y == Swap32(v) && (x ^ y) & 0xffff_0000 == 0
    requires h == (o >> 16) as u16 && g == (v >> 16) as u16 && m == (x & 0xffff) as u16 && n == (y & 0xffff) as u16
    ensures m == Swap16(h) && g == Swap16(n) && (o ^ v) & 0xffff == 0
  {
    SwappedHalves(o, x);
    SwappedHalves(v, y);
    SwapBack(g, n, Swap16(n));
    SwappedSame(o, v, x, y);
  }

  lemma BigUpIs(h: u16, k: u16, m: u16, n: u16, g: u16)
    requires m == Swap16(h) && n == Sum(m, k) && g == Swap16(n)
    ensures g == Stepped(BigUp, h, k)
  {
  }

  lemma BigDownIs(h: u16, k: u16, m: u16, n: u16, g: u16)
    requires m == Swap16(h) && n == Difference(m, k) && g == Swap16(n)
    ensures g == Stepped(BigDown, h, k)
  {
  }

  lemma BigUpInHalf(o: u32, j: u32, v: u32, x: u32, y: u32, h: u16, k: u16, g: u16, m: u16, n: u16)
    requires 1 <= j <= 35 && x == Swap32(o) && y == Swap32(v) && y == Sum32(x, j) && (x & 0xffff) + j <= 0xffff
    requires h == (o >> 16) as u16 && k == j as u16 && g == (v >> 16) as u16
    requires m == (x & 0xffff) as u16 && n == (y & 0xffff) as u16
    ensures 1 <= k <= 35 && g == Stepped(BigUp, h, k) && (o ^ v) & 0xffff == 0
  {
    UpInHalf(x, j, y, m, k, n);
    SwappedStep(o, v, x, y, h, g, m, n);
    BigUpIs(h, k, m, n, g);
  }

  lemma BigDownInHalf(o: u32, j: u32, v: u32, x: u32, y: u32, h: u16, k: u16, g: u16, m: u16, n: u16)
    requires 1 <= j <= 35 && x == Swap32(o) && y == Swap32(v) && y == Difference32(x, j) && x & 0xffff >= j
    requires h == (o >> 16) as u16 && k == j as u16 && g == (v >> 16) as u16
    requires m == (x & 0xffff) as u16 && n == (y & 0xffff) as u16
    ensures 1 <= k <= 35 && g == Stepped(BigDown, h, k) && (o ^ v) & 0xffff == 0
  {
    DownInHalf(x, j, y, m, k, n);
    SwappedStep(o, v, x, y, h, g, m, n);
    BigDownIs(h, k, m, n, g);
  }

  // ---------- What is run and what is lost ----------

  ghost predicate RunByWords(s: Input, eff: seq<bool>, f: Input)
    requires |s| >= 4 && |eff| == EffLen(|s|)
  {
    f in StageRuns(s, Flip32, eff) || f in StageRuns(s, Arith32, eff)
  }

  /** Run by the flips or by arithmetic. */
  ghost predicate RunByArith(s: Input, eff: seq<bool>, f: Input)
    requires |s| >= 4 && |eff| == EffLen(|s|)
  {
    RunByArith16(s, eff, f) || RunByWords(s, eff, f)
  }

  ghost predicate AllEffective(eff: seq<bool>, i: nat, n: nat) {
    forall k :: i <= k < i + n ==> k / 8 < |eff| && eff[k / 8]
  }

  lemma HalfStepIsRun(s: Input, eff: seq<bool>, i: nat, way: Way, h: u16, k: u16, g: u16, c: u16)
    requires i + 1 < |s| && |s| >= 4 && |eff| == EffLen(|s|) && eff[i / 8] && eff[(i + 1) / 8]
    requires h == Load16(s[i], s[i + 1]) && 1 <= k <= 35 && g == Stepped(way, h, k) && c == h ^ g && !Straddles(c)
    ensures RunByArith(s, eff, Overwrite(s, i, Store16(g)))
  {
    Arith16LosesOnlyStraddlers(s, eff, i, way, h, k, g, c);
  }

  lemma LowDelta(o: u32, v: u32, h: u16, g: u16, d: u32, c: u16)
    requires h == (o & 0xffff) as u16 && g == (v & 0xffff) as u16 && (o ^ v) & 0xffff_0000 == 0 && d == o ^ v && c == h ^ g
    ensures d == c as u32 && (c == 0x1e0 <==> d == 0x1e0)
  {
  }

  lemma OnlyUpStraddler(o: u16, j: u16, v: u16, d: u16)
    requires 1 <= j <= 35 && v == Sum(o, j) && d == o ^ v && d != 0x1e0
    ensures !Straddles(d)
  {
    StraddlesListed(d);
  }

  lemma OnlyDownStraddler(o: u16, j: u16, v: u16, d: u16)
    requires 1 <= j <= 35 && v == Difference(o, j) && d == o ^ v && d != 0x1e0
    ensures !Straddles(d)
  {
    StraddlesListed(d);
  }

  lemma UpOfHalf(o: u32, j: u32, v: u32, d: u32, h: u16, k: u16, g: u16, c: u16)
    requires 1 <= j <= 35 && v == Sum32(o, j) && (o & 0xffff) + j <= 0xffff && d == o ^ v && d != 0x1e0
    requires h == (o & 0xffff) as u16 && k == j as u16 && g == (v & 0xffff) as u16 && c == h ^ g
    ensures 1 <= k <= 35 && g == Stepped(Up, h, k) && !Straddles(c) && d & 0xffff_0000 == 0
  {
    UpInHalf(o, j, v, h, k, g);
    LowDelta(o, v, h, g, d, c);
    OnlyUpStraddler(h, k, g, c);
  }

  lemma DownOfHalf(o: u32, j: u32, v: u32, d: u32, h: u16, k: u16, g: u16, c: u16)
    requires 1 <= j <= 35 && v == Difference32(o, j) && o & 0xffff >= j && d == o ^ v && d != 0x1e0
    requires h == (o & 0xffff) as u16 && k == j as u16 && g == (v & 0xffff) as u16 && c == h ^ g
    ensures 1 <= k <= 35 && g == Stepped(Down, h, k) && !Straddles(c) && d & 0xffff_0000 == 0
  {
    DownInHalf(o, j, v, h, k, g);
    LowDelta(o, v, h, g, d, c);
    OnlyDownStraddler(h, k, g, c);
  }

  lemma LowStepIsRun(s: Input, eff: seq<bool>, i: nat, way: Way, o: u32, v: u32, h: u16, k: u16, g: u16, c: u16)
    requires i + 3 < |s| && |eff| == EffLen(|s|) && AllEffective(eff, i, 4)
    requires o == Load32(s[i], s[i + 1], s[i + 2], s[i + 3]) && (o ^ v) & 0xffff_0000 == 0
    requires h == (o & 0xffff) as u16 && g == (v & 0xffff) as u16
    requires 1 <= k <= 35 && g == Stepped(way, h, k) && c == h ^ g && !Straddles(c)
    ensures RunByArith(s, eff, Overwrite(s, i, Store32(v)))
  {
    LowHalfFile(s, i, o, v, h, g);
    HalfStepIsRun(s, eff, i, way, h, k, g, c);
  }

  lemma HighStepIsRun(s: Input, eff: seq<bool>, i: nat, way: Way, o: u32, v: u32, h: u16, k: u16, g: u16, c: u16)
    requires i + 3 < |s| && |eff| == EffLen(|s|) && AllEffective(eff, i, 4)
    requires o == Load32(s[i], s[i + 1], s[i + 2], s[i + 3]) && (o ^ v) & 0xffff == 0
    requires h == (o >> 16) as u16 && g == (v >> 16) as u16
    requires 1 <= k <= 35 && g == Stepped(way, h, k) && c == h ^ g && !Straddles(c)
    ensures RunByArith(s, eff, Overwrite(s, i, Store32(v)))
  {
    HighHalfFile(s, i, o, v, h, g);
    HalfStepIsRun(s, eff, i + 2, way, h, k, g, c);
  }

  lemma UpIsRun32(s: Input, eff: seq<bool>, i: nat, o: u32, j: u32, v: u32, d: u32)
    requires i + 3 < |s| && |eff| == EffLen(|s|) && AllEffective(eff, i, 4)
    requires o == Load32(s[i], s[i + 1], s[i + 2], s[i + 3]) && 1 <= j <= 35
    requires v == Sum32(o, j) && (o & 0xffff) + j <= 0xffff && d == o ^ v && d != 0x1e0
    ensures RunByArith(s, eff, Overwrite(s, i, Store32(v)))
  {
    var h, k, g := (o & 0xffff) as u16, j as u16, (v & 0xffff) as u16;
    UpOfHalf(o, j, v, d, h, k, g, h ^ g);
    LowStepIsRun(s, eff, i, Up, o, v, h, k, g, h ^ g);
  }

  lemma DownIsRun32(s: Input, eff: seq<bool>, i: nat, o: u32, j: u32, v: u32, d: u32)
    requires i + 3 < |s| && |eff| == EffLen(|s|) && AllEffective(eff, i, 4)
    requires o == Load32(s[i], s[i + 1], s[i + 2], s[i + 3]) && 1 <= j <= 35
    requires v == Difference32(o, j) && o & 0xffff >= j && d == o ^ v && d != 0x1e0
    ensures RunByArith(s, eff, Overwrite(s, i, Store32(v)))
  {
    var h, k, g := (o & 0xffff) as u16, j as u16, (v & 0xffff) as u16;
    DownOfHalf(o, j, v, d, h, k, g, h ^ g);
    LowStepIsRun(s, eff, i, Down, o, v, h, k, g, h ^ g);
  }

  lemma BigUpIsRun32(s: Input, eff: seq<bool>, i: nat, o: u32, j: u32, v: u32, x: u32, y: u32)
    requires i + 3 < |s| && |eff| == EffLen(|s|) && AllEffective(eff, i, 4)
    requires o == Load32(s[i], s[i + 1], s[i + 2], s[i + 3]) && 1 <= j <= 35
    requires x == Swap32(o) && y == Swap32(v) && y == Sum32(x, j) && (x & 0xffff) + j <= 0xffff
    ensures RunByArith(s, eff, Overwrite(s, i, Store32(v)))
  {
    var h, k, g := (o >> 16) as u16, j as u16, (v >> 16) as u16;
    BigUpInHalf(o, j, v, x, y, h, k, g, (x & 0xffff) as u16, (y & 0xffff) as u16);
    BigUpNeverStraddles(h, k, g, h ^ g);
    HighStepIsRun(s, eff, i, BigUp, o, v, h, k, g, h ^ g);
  }

  lemma BigDownIsRun32(s: Input, eff: seq<bool>, i: nat, o: u32, j: u32, v: u32, x: u32, y: u32)
    requires i + 3 < |s| && |eff| == EffLen(|s|) && AllEffective(eff, i, 4)
    requires o == Load32(s[i], s[i + 1], s[i + 2], s[i + 3]) && 1 <= j <= 35
    requires x == Swap32(o) && y == Swap32(v) && y == Difference32(x, j) && x & 0xffff >= j
    ensures RunByArith(s, eff, Overwrite(s, i, Store32(v)))
  {
    var h, k, g := (o >> 16) as u16, j as u16, (v >> 16) as u16;
    BigDownInHalf(o, j, v, x, y, h, k, g, (x & 0xffff) as u16, (y & 0xffff) as u16);
    BigDownNeverStraddles(h, k, g, h ^ g);
    HighStepIsRun(s, eff, i, BigDown, o, v, h, k, g, h ^ g);
  }

  lemma WithinUp(s: Input, eff: seq<bool>, i: nat, o: u32, j: u32, v: u32, d: u32)
    requires i + 3 < |s| && |eff| == EffLen(|s|) && AllEffective(eff, i, 4)
    requires o == Load32(s[i], s[i + 1], s[i + 2], s[i + 3]) && 1 <= j <= 35 && d == o ^ v && d != 0x1e0
    requires v == Stepped32(Up, o, j) && !Carries32(Up, o, j)
    ensures RunByArith(s, eff, Overwrite(s, i, Store32(v)))
  {
    UpIsRun32(s, eff, i, o, j, v, d);
  }

  lemma WithinDown(s: Input, eff: seq<bool>, i: nat, o: u32, j: u32, v: u32, d: u32)
    requires i + 3 < |s| && |eff| == EffLen(|s|) && AllEffective(eff, i, 4)
    requires o == Load32(s[i], s[i + 1], s[i + 2], s[i + 3]) && 1 <= j <= 35 && d == o ^ v && d != 0x1e0
    requires v == Stepped32(Down, o, j) && !Carries32(Down, o, j)
    ensures RunByArith(s, eff, Overwrite(s, i, Store32(v)))
  {
    DownIsRun32(s, eff, i, o, j, v, d);
  }

  lemma WithinBigUp(s: Input, eff: seq<bool>, i: nat, o: u32, j: u32, v: u32)
    requires i + 3 < |s| && |eff| == EffLen(|s|) && AllEffective(eff, i, 4)
    requires o == Load32(s[i], s[i + 1], s[i + 2], s[i + 3]) && 1 <= j <= 35
    requires v == Stepped32(BigUp, o, j) && !Carries32(BigUp, o, j)
    ensures RunByArith(s, eff, Overwrite(s, i, Store32(v)))
  {
    var x, y := Swap32(o), Swap32(v);
    SwapBack32(Sum32(x, j), v, y);
    BigUpIsRun32(s, eff, i, o, j, v, x, y);
  }

  lemma WithinBigDown(s: Input, eff: seq<bool>, i: nat, o: u32, j: u32, v: u32)
    requires i + 3 < |s| && |eff| == EffLen(|s|) && AllEffective(eff, i, 4)
    requires o == Load32(s[i], s[i + 1], s[i + 2], s[i + 3]) && 1 <= j <= 35
    requires v == Stepped32(BigDown, o, j) && !Carries32(BigDown, o, j)
    ensures RunByArith(s, eff, Overwrite(s, i, Store32(v)))
  {
    var x, y := Swap32(o), Swap32(v);
    SwapBack32(Difference32(x, j), v, y);
    BigDownIsRun32(s, eff, i, o, j, v, x, y);
  }

  /** A step within a half has been run by arith 16/8 or before. */
  lemma StepWithinHalfIsRun(s: Input, eff: seq<bool>, i: nat, way: Way, o: u32, j: u32, v: u32, d: u32)
    requires i + 3 < |s| && |eff| == EffLen(|s|) && AllEffective(eff, i, 4)
    requires o == Load32(s[i], s[i + 1], s[i + 2], s[i + 3]) && 1 <= j <= 35 && d == o ^ v && d != 0x1e0
    requires v == Stepped32(way, o, j) && !Carries32(way, o, j)
    ensures RunByArith(s, eff, Overwrite(s, i, Store32(v)))
  {
    match way
    case Up => WithinUp(s, eff, i, o, j, v, d);
    case Down => WithinDown(s, eff, i, o, j, v, d);
    case BigUp => WithinBigUp(s, eff, i, o, j, v);
    case BigDown => WithinBigDown(s, eff, i, o, j, v);
  }

  lemma FullFlipIsRun32(s: Input, eff: seq<bool>, i: nat, o: u32, v: u32, d: u32)
    requires i + 3 < |s| && |eff| == EffLen(|s|) && AllEffective(eff, i, 4)
    requires o == Load32(s[i], s[i + 1], s[i + 2], s[i + 3]) && d == o ^ v && d == 0xffff_ffff
    ensures RunByWords(s, eff, Overwrite(s, i, Store32(v)))
  {
    FullFlip32IsTried(s[i..i + 4], o, v);
    WordIsRun(s, Flip32, eff, i, Store32(v));
  }

  lemma StepNumber32(j: u32) returns (m: nat)
    requires 1 <= j <= 35
    ensures 1 <= m <= ARITH_STEPS && m as u32 == j
  {
    m := j as nat;
  }

  lemma StepIsTry32(w: seq<u8>, o: u32, j: u32, x: Try)
    requires |w| == 4 && o == Load32(w[0], w[1], w[2], w[3]) && 1 <= j <= 35 && x in Arith32Step(o, j)
    ensures x in Tries(Arith32, w)
  {
    var m := StepNumber32(j);
    assert x in ArithSteps(Arith32, w)(m);
    FlattenMember(ArithSteps(Arith32, w), ARITH_STEPS, x, m);
  }

  lemma TriedIsRun32(s: Input, eff: seq<bool>, i: nat, o: u32, j: u32, v: u32)
    requires i + 3 < |s| && |eff| == EffLen(|s|) && AllEffective(eff, i, 4)
    requires o == Load32(s[i], s[i + 1], s[i + 2], s[i + 3]) && 1 <= j <= 35 && Put(Store32(v)) in Arith32Step(o, j)
    ensures RunByWords(s, eff, Overwrite(s, i, Store32(v)))
  {
    StepIsTry32(s[i..i + 4], o, j, Put(Store32(v)));
    WordIsRun(s, Arith32, eff, i, Store32(v));
  }

  lemma CarryIsRun32(s: Input, eff: seq<bool>, i: nat, way: Way, o: u32, j: u32, v: u32, d: u32)
    requires i + 3 < |s| && |eff| == EffLen(|s|) && AllEffective(eff, i, 4)
    requires o == Load32(s[i], s[i + 1], s[i + 2], s[i + 3]) && 1 <= j <= 35 && d == o ^ v
    requires v == Stepped32(way, o, j) && Carries32(way, o, j)
    ensures RunByArith(s, eff, Overwrite(s, i, Store32(v)))
  {
    if FlipPattern(d) {
      CarryIsFullFlip(way, o, j, v, d);
      FullFlipIsRun32(s, eff, i, o, v, d);
    } else {
      CarryIsTried32(way, o, j, v);
      TriedIsRun32(s, eff, i, o, j, v);
    }
  }

  lemma StraddlerBytes(o: u32, v: u32, d: u32, h: u16, g: u16, c: u16)
    requires d == o ^ v && d == 0x1e0 && h == (o & 0xffff) as u16 && g == (v & 0xffff) as u16 && c == h ^ g
    ensures (o ^ v) & 0xffff_0000 == 0 && Straddles(c)
  {
    LowDelta(o, v, h, g, d, c);
    StraddlesListed(c);
  }

  lemma EarlyWordIsRun(s: Input, eff: seq<bool>, f: Input)
    requires |s| >= 4 && |eff| == EffLen(|s|) && RunByArith(s, eff, f)
    ensures IsRun(s, eff, f)
  {
    if RunByArith16(s, eff, f) {
      EarlyRunIsRun(s, eff, f);
    } else {
      RunByWordsIsRun(s, eff, f);
    }
  }

  lemma RunByWordsIsRun(s: Input, eff: seq<bool>, f: Input)
    requires |s| >= 4 && |eff| == EffLen(|s|) && RunByWords(s, eff, f)
    ensures IsRun(s, eff, f)
  {
    if f in StageRuns(s, Flip32, eff) {
      StageIsRun(s, eff, f, Flip32);
    } else {
      StageIsRun(s, eff, f, Arith32);
    }
  }

  lemma StraddlerIsNeverRun32(s: Input, eff: seq<bool>, i: nat, o: u32, v: u32, d: u32)
    requires i + 3 < |s| && |eff| == EffLen(|s|)
    requires o == Load32(s[i], s[i + 1], s[i + 2], s[i + 3]) && d == o ^ v && d == 0x1e0
    ensures !IsRun(s, eff, Overwrite(s, i, Store32(v)))
  {
    var h, g := (o & 0xffff) as u16, (v & 0xffff) as u16;
    StraddlerBytes(o, v, d, h, g, h ^ g);
    LowHalfFile(s, i, o, v, h, g);
    StraddlerIsNeverRun(s, eff, i, h, g, h ^ g);
  }

  /** Of the steps of arith 32/8 at effective bytes exactly those are lost that change the word by
      0x1e0, which is the one straddler among them: all others have been run when the stage is over,
      and these never are. */
  lemma Arith32LosesOnlyStraddlers(s: Input, eff: seq<bool>, i: nat, way: Way, o: u32, j: u32, v: u32, d: u32)
    requires i + 3 < |s| && |eff| == EffLen(|s|) && AllEffective(eff, i, 4)
    requires o == Load32(s[i], s[i + 1], s[i + 2], s[i + 3]) && 1 <= j <= 35 && v == Stepped32(way, o, j) && d == o ^ v
    ensures RunByArith(s, eff, Overwrite(s, i, Store32(v))) <==> d != 0x1e0
    ensures Overwrite(s, i, Store32(v)) in FlipRuns(s) + WordRuns(s, eff, Kinds(|s|, false)) <==> d != 0x1e0
  {
    if d == 0x1e0 {
      StraddlerIsNeverRun32(s, eff, i, o, v, d);
      if RunByArith(s, eff, Overwrite(s, i, Store32(v))) { EarlyWordIsRun(s, eff, Overwrite(s, i, Store32(v))); }
    } else {
      OtherStepIsRun32(s, eff, i, way, o, j, v, d);
      EarlyWordIsRun(s, eff, Overwrite(s, i, Store32(v)));
    }
  }

  lemma OtherStepIsRun32(s: Input, eff: seq<bool>, i: nat, way: Way, o: u32, j: u32, v: u32, d: u32)
    requires i + 3 < |s| && |eff| == EffLen(|s|) && AllEffective(eff, i, 4)
    requires o == Load32(s[i], s[i + 1], s[i + 2], s[i + 3]) && 1 <= j <= 35 && v == Stepped32(way, o, j) && d == o ^ v
    requires d != 0x1e0
    ensures RunByArith(s, eff, Overwrite(s, i, Store32(v)))
  {
    if Carries32(way, o, j) {
      CarryIsRun32(s, eff, i, way, o, j, v, d);
    } else {
      StepWithinHalfIsRun(s, eff, i, way, o, j, v, d);
    }
  }
}
