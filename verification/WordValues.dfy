/** What the carry tests of the 16- and 32-bit arithmetic stages of afl-fuzz leave out: values that
    change only the part of the word that a shorter stage has dealt with.  Low byte first that is the
    part at the lower addresses; high byte first it is the part at the higher ones, and the numbers to
    look at are the swapped ones. */
module WordValues {
  import opened Redundancy
  import opened Stages
  import opened WordStages
  import opened Deterministic

  // ---------- Half words ----------

  predicate LowByteOnly(o: u16, v: u16) { (o ^ v) & 0xff00 == 0 }

  predicate HighByteOnly(o: u16, v: u16) { (o ^ v) & 0xff == 0 }

  /** Low byte first, the tests hold exactly if the step leaves the high byte alone. */
  lemma CarryUp16(o: u16, j: u16, v: u16)
    requires 1 <= j <= 35 && v == o + j
    ensures (o & 0xff) + j <= 0xff <==> LowByteOnly(o, v)
  {
  }

  lemma CarryDown16(o: u16, j: u16, v: u16)
    requires 1 <= j <= 35 && o == v + j
    ensures o & 0xff >= j <==> LowByteOnly(o, v)
  {
  }

  lemma SwappedDifference16(o: u16, v: u16, s: u16, t: u16, d: u16, e: u16)
    requires s == Swap16(o) && t == Swap16(v) && d == o ^ v && e == s ^ t
    ensures e == Swap16(d)
  {
  }

  lemma SwappedParts16(d: u16, e: u16)
    requires e == Swap16(d)
    ensures e & 0xff00 == 0 <==> d & 0xff == 0
  {
  }

  lemma SwappedByte16(o: u16, v: u16, s: u16, t: u16, d: u16, e: u16)
    requires s == Swap16(o) && t == Swap16(v) && d == o ^ v && e == s ^ t
    ensures e & 0xff00 == 0 <==> d & 0xff == 0
  {
    SwappedDifference16(o, v, s, t, d, e);
    SwappedParts16(d, e);
  }

  lemma LowOfSwapped16(o: u16, s: u16)
    requires s == Swap16(o)
    ensures s & 0xff == o >> 8
  {
  }

  lemma SwappedCarryUp16(s: u16, j: u16, t: u16, high: u16, e: u16)
    requires 1 <= j <= 35 && t == s + j && high == s & 0xff && e == s ^ t
    ensures high + j <= 0xff <==> e & 0xff00 == 0
  {
  }

  lemma SwappedCarryDown16(s: u16, j: u16, t: u16, high: u16, e: u16)
    requires 1 <= j <= 35 && s == t + j && high == s & 0xff && e == s ^ t
    ensures high >= j <==> e & 0xff00 == 0
  {
  }

  /** High byte first, they hold exactly if it leaves the low byte alone. */
  lemma BigCarryUp16(o: u16, j: u16, v: u16, s: u16, t: u16, d: u16)
    requires 1 <= j <= 35 && s == Swap16(o) && t == Swap16(v) && t == s + j && d == o ^ v
    ensures (o >> 8) + j <= 0xff <==> d & 0xff == 0
  {
    var e := s ^ t;
    LowOfSwapped16(o, s);
    SwappedCarryUp16(s, j, t, o >> 8, e);
    SwappedByte16(o, v, s, t, d, e);
  }

  lemma BigCarryDown16(o: u16, j: u16, v: u16, s: u16, t: u16, d: u16)
    requires 1 <= j <= 35 && s == Swap16(o) && t == Swap16(v) && s == t + j && d == o ^ v
    ensures o >> 8 >= j <==> d & 0xff == 0
  {
    var e := s ^ t;
    LowOfSwapped16(o, s);
    SwappedCarryDown16(s, j, t, o >> 8, e);
    SwappedByte16(o, v, s, t, d, e);
  }

  // ---------- Words ----------

  /** For words the tests hold exactly if the step leaves the upper half alone; high byte first, this
      is said of the swapped words. */
  lemma CarryUp32(o: u32, j: u32, v: u32)
    requires 1 <= j <= 35 && v == o + j
    ensures (o & 0xffff) + j <= 0xffff <==> (o ^ v) & 0xffff_0000 == 0
  {
  }

  lemma CarryDown32(o: u32, j: u32, v: u32)
    requires 1 <= j <= 35 && o == v + j
    ensures o & 0xffff >= j <==> (o ^ v) & 0xffff_0000 == 0
  {
  }

  // ---------- What is skipped has been run ----------

  lemma LowStepUp(lo: u8, hi: u8, lo': u8, hi': u8, o: u16, v: u16, j: u16)
    requires 1 <= j <= 35 && o == Load16(lo, hi) && v == Load16(lo', hi') && LowByteOnly(o, v) && v == o + j
    ensures hi' == hi && lo' != lo && Within8(lo, lo') && Within8(lo', lo)
  {
  }

  lemma SwappedLoad(lo: u8, hi: u8)
    ensures Swap16(Load16(lo, hi)) == Load16(hi, lo)
  {
  }

  lemma SkippedBytes(lo: u8, hi: u8, lo': u8, hi': u8, o: u16, v: u16, j: u16)
    requires 1 <= j <= 35 && o == Load16(lo, hi) && v == Load16(lo', hi')
    requires LowByteOnly(o, v) && (v == o + j || o == v + j)
    ensures hi' == hi && lo' != lo && Within8(lo, lo')
  {
    if v == o + j {
      LowStepUp(lo, hi, lo', hi', o, v, j);
    } else {
      LowOnlyEitherWay(o, v);
      LowStepUp(lo', hi', lo, hi, v, o, j);
    }
  }

  lemma LowOnlyEitherWay(o: u16, v: u16)
    ensures LowByteOnly(o, v) <==> LowByteOnly(v, o)
  {
  }

  lemma SwappedOnly(o: u16, v: u16, s: u16, t: u16)
    requires s == Swap16(o) && t == Swap16(v)
    ensures LowByteOnly(s, t) <==> HighByteOnly(o, v)
  {
    SwappedByte16(o, v, s, t, o ^ v, s ^ t);
  }

  lemma BigSkippedBytes(lo: u8, hi: u8, lo': u8, hi': u8, o: u16, v: u16, s: u16, t: u16, j: u16)
    requires 1 <= j <= 35 && o == Load16(lo, hi) && v == Load16(lo', hi') && s == Swap16(o) && t == Swap16(v)
    requires HighByteOnly(o, v) && (t == s + j || s == t + j)
    ensures lo' == lo && hi' != hi && Within8(hi, hi')
  {
    SwappedLoad(lo, hi);
    SwappedLoad(lo', hi');
    SwappedOnly(o, v, s, t);
    SkippedBytes(hi, lo, hi', lo', s, t, j);
  }

  lemma StepIsRun(s: Input, eff: seq<bool>, i: nat, k: nat, w: seq<u8>, b: u8)
    requires k < |s| && |eff| == EffLen(|s|) && eff[k / 8] && b != s[k] && Within8(s[k], b)
    requires Overwrite(s, i, w) == s[k := b]
    ensures Overwrite(s, i, w) in StageRuns(s, Arith8, eff) || RunByFlips(s, Overwrite(s, i, w))
  {
    Arith8SkipsOnlyRepeats(s, eff, k, b);
  }

  /** A step of arith 16/8 that its carry test leaves out is a step of a single byte that, if that byte
      is effective, arith 8/8 or a flip has run. */
  lemma CarrySkipIsRun(s: Input, eff: seq<bool>, i: nat, o: u16, v: u16, j: u16, w: Word)
    requires i + 1 < |s| && |eff| == EffLen(|s|) && eff[i / 8] && 1 <= j <= 35
    requires o == Load16(s[i], s[i + 1]) && w == Store16(v) && LowByteOnly(o, v) && (v == o + j || o == v + j)
    ensures Overwrite(s, i, w) in StageRuns(s, Arith8, eff) || RunByFlips(s, Overwrite(s, i, w))
  {
    SkippedBytes(s[i], s[i + 1], w[0], w[1], o, v, j);
    LowOverwritten(s, i, w);
    StepIsRun(s, eff, i, i, w, w[0]);
  }

  lemma LowOverwritten(s: Input, i: nat, w: Word)
    requires i + 1 < |s| && w == [w[0], s[i + 1]]
    ensures Overwrite(s, i, w) == s[i := w[0]]
  {
  }

  lemma HighOverwritten(s: Input, i: nat, w: Word)
    requires i + 1 < |s| && |w| == 2 && w == [s[i], w[1]]
    ensures Overwrite(s, i, w) == s[i + 1 := w[1]]
  {
  }

  /** The same high byte first, where x and y are the swapped values and the step is one of the byte
      behind. */
  lemma BigCarrySkipIsRun(s: Input, eff: seq<bool>, i: nat, o: u16, v: u16, x: u16, y: u16, j: u16, w: Word)
    requires i + 1 < |s| && |eff| == EffLen(|s|) && eff[(i + 1) / 8] && 1 <= j <= 35
    requires o == Load16(s[i], s[i + 1]) && w == Store16(v) && HighByteOnly(o, v)
    requires x == Swap16(o) && y == Swap16(v) && (y == x + j || x == y + j)
    ensures Overwrite(s, i, w) in StageRuns(s, Arith8, eff) || RunByFlips(s, Overwrite(s, i, w))
  {
    BigSkippedBytes(s[i], s[i + 1], w[0], w[1], o, v, x, y, j);
    HighOverwritten(s, i, w);
    StepIsRun(s, eff, i, i + 1, w, w[1]);
  }
}
