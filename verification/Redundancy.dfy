/** The filters with which the deterministic stages of afl-fuzz avoid repeating themselves: is a
    change one that an earlier, cheaper stage also makes?  Words are bit vectors, as in C. */
module Redundancy {

  type u8 = bv8
  type u16 = bv16
  type u32 = bv32

  const ARITH_MAX: u32 := 35

  const INTERESTING_8: seq<u8> := [0x80, 0xff, 0, 1, 16, 32, 64, 100, 127]

  const INTERESTING_16: seq<u16> :=
    [0xff80, 0xffff, 0, 1, 16, 32, 64, 100, 127,
     0x8000, 0xff7f, 128, 255, 256, 512, 1000, 1024, 4096, 32767]

  const INTERESTING_32: seq<u32> :=
    [0xffff_ff80, 0xffff_ffff, 0, 1, 16, 32, 64, 100, 127,
     0xffff_8000, 0xffff_ff7f, 128, 255, 256, 512, 1000, 1024, 4096, 32767,
     0x8000_0000, 0xfa00_00fa, 0xffff_7fff, 32768, 65535, 65536, 100663045, 0x7fff_ffff]

  function Swap16(x: u16): u16 { (x << 8) | (x >> 8) }

  function Swap32(x: u32): u32 {
    (x << 24) | (x >> 24) | ((x << 8) & 0x00ff_0000) | ((x >> 8) & 0x0000_ff00)
  }

  // ---------- Bit flips ----------

  /** Is x a run of 1, 2 or 4 ones from the bit `low` up? */
  predicate ShortRun(x: u32, low: u32) {
    || x == low || x == low | (low << 1)
    || (x == low | (low << 1) | (low << 2) | (low << 3) && low <= 0x1000_0000)
  }

  /** Is x a run of 8, 16 or 32 ones from the bit `low` up? */
  predicate LongRun(x: u32, low: u32) {
    || (x == (low << 8) - low && low <= 0x100_0000)
    || (x == (low << 16) - low && low <= 0x1_0000)
    || x == 0xffff_ffff
  }

  /** No change, or a short run anywhere, or a long run whose lowest bit is a `border` bit. */
  predicate RunOfOnes(x: u32, border: u32) {
    var low := x & (0 - x);
    x == 0 || ShortRun(x, low) || (low & border != 0 && LongRun(x, low))
  }

  /** The changes made by the walking bit and byte flips: long runs start at a byte. */
  predicate FlipPattern(x: u32) { RunOfOnes(x, 0x0101_0101) }

  /** The byte borders of a word that was shifted right m times, for m modulo 8. */
  function Border(m: u32): u32 {
    if m == 0 then 0x0101_0101 else if m == 1 then 0x8080_8080 else if m == 2 then 0x4040_4040
    else if m == 3 then 0x2020_2020 else if m == 4 then 0x1010_1010 else if m == 5 then 0x0808_0808
    else if m == 6 then 0x0404_0404 else 0x0202_0202
  }

  lemma ShiftKeepsRun(x: u32, border: u32, border': u32)
    requires x & 1 == 0 && border' == (border >> 1) | (border << 31)
    ensures RunOfOnes(x, border) <==> RunOfOnes(x >> 1, border')
  {
    var low := x & (0 - x);
    var y, lowY := x >> 1, low >> 1;
    LowestBitShifts(x, low, border, border');
    assert ShortRun(x, low) <==> ShortRun(y, lowY) by { ShortRunShifts(x, low); }
    if x != 0 {
      assert LongRun(x, low) <==> LongRun(y, lowY) by { LongRunShifts(x, low); }
    }
  }

  lemma LowestBitShifts(x: u32, low: u32, border: u32, border': u32)
    requires x & 1 == 0 && low == x & (0 - x) && border' == (border >> 1) | (border << 31)
    ensures low & 1 == 0 && low >> 1 == (x >> 1) & (0 - (x >> 1))
    ensures low & border == 0 <==> (low >> 1) & border' == 0
  {
  }

  lemma ShortRunShifts(x: u32, low: u32)
    requires x & 1 == 0 && low == x & (0 - x)
    ensures ShortRun(x, low) <==> ShortRun(x >> 1, low >> 1)
  {
  }

  lemma LongRunShifts(x: u32, low: u32)
    requires x != 0 && x & 1 == 0 && low == x & (0 - x)
    ensures LongRun(x, low) <==> LongRun(x >> 1, low >> 1)
  {
  }

  lemma BorderRotates(sh: u32)
    ensures Border((sh + 1) & 7) == (Border(sh & 7) >> 1) | (Border(sh & 7) << 31)
    ensures Border(sh & 7) & 1 == 1 <==> sh & 7 == 0
  {
  }

  lemma OddRun(x: u32, border: u32)
    requires x & 1 == 1
    ensures RunOfOnes(x, border) <==>
      || x == 1 || x == 3 || x == 15
      || (border & 1 == 1 && (x == 0xff || x == 0xffff || x == 0xffff_ffff))
  {
  }

  method CouldBeBitflip(xorVal: u32) returns (r: bool)
    ensures r <==> FlipPattern(xorVal)
  {
    var x, sh: u32 := xorVal, 0;
    if x == 0 { return true; }
    while x & 1 == 0
      invariant x != 0
      invariant RunOfOnes(x, Border(sh & 7)) <==> FlipPattern(xorVal)
      decreases x
    {
      ShiftKeepsRun(x, Border(sh & 7), Border((sh + 1) & 7)) by { BorderRotates(sh); }
      sh := sh + 1;
      x := x >> 1;
    }
    OddRun(x, Border(sh & 7));
    BorderRotates(sh);
    if x == 1 || x == 3 || x == 15 { return true; }
    if sh & 7 != 0 { return false; }
    return x == 0xff || x == 0xffff || x == 0xffff_ffff;
  }

  /** In one byte: the runs of ones that fit into it. */
  predicate FlipPattern8(x: u8) {
    || x == 0 || x == 0xff
    || x == 0x80 || x == 0x40 || x == 0x20 || x == 0x10 || x == 8 || x == 4 || x == 2 || x == 1
    || x == 0xc0 || x == 0x60 || x == 0x30 || x == 0x18 || x == 0x0c || x == 6 || x == 3
    || x == 0xf0 || x == 0x78 || x == 0x3c || x == 0x1e || x == 0x0f
  }

  lemma FlipPatternOfByte(x: u8)
    ensures FlipPattern(x as u32) <==> FlipPattern8(x)
  {
  }

  // ---------- Words in memory ----------

  /** A word of 1, 2 or 4 bytes as it lies in memory, lowest byte first. */
  type Word = w: seq<u8> | |w| == 1 || |w| == 2 || |w| == 4 witness [0]

  function Load16(lo: u8, hi: u8): u16 { (hi as u16 << 8) | lo as u16 }

  function Load32(b0: u8, b1: u8, b2: u8, b3: u8): u32 {
    (b3 as u32 << 24) | (b2 as u32 << 16) | (b1 as u32 << 8) | b0 as u32
  }

  function Store16(x: u16): (w: Word)
    ensures |w| == 2 && Load16(w[0], w[1]) == x
  {
    [(x & 0xff) as u8, (x >> 8) as u8]
  }

  function Store32(x: u32): (w: Word)
    ensures |w| == 4 && Load32(w[0], w[1], w[2], w[3]) == x
  {
    [(x & 0xff) as u8, ((x >> 8) & 0xff) as u8, ((x >> 16) & 0xff) as u8, (x >> 24) as u8]
  }

  /** The 16-bit halves of a word. */
  function Halves(w: Word): (h: seq<u16>)
    ensures |h| == |w| / 2
  {
    if |w| == 1 then [] else if |w| == 2 then [Load16(w[0], w[1])] else [Load16(w[0], w[1]), Load16(w[2], w[3])]
  }

  // ---------- Additions and subtractions ----------

  predicate Within8(a: u8, b: u8) { (a - b) as u32 <= ARITH_MAX || (b - a) as u32 <= ARITH_MAX }

  predicate Within16(a: u16, b: u16) { (a - b) as u32 <= ARITH_MAX || (b - a) as u32 <= ARITH_MAX }

  predicate Within32(a: u32, b: u32) { (a - b) as u32 <= ARITH_MAX || (b - a) as u32 <= ARITH_MAX }

  ghost predicate OnlyDifference<T>(a: seq<T>, b: seq<T>, k: nat)
    requires |a| == |b|
  {
    k < |a| && a[k] != b[k] && forall j :: 0 <= j < |a| && j != k ==> a[j] == b[j]
  }

  /** Is v at most ARITH_MAX away from o in one byte, in one half or, with 4 bytes, as a whole?
      Halves and whole words count in either byte order. */
  ghost predicate ArithPattern(o: Word, v: Word)
    requires |o| == |v|
  {
    || o == v
    || (exists k: nat :: OnlyDifference(o, v, k) && Within8(o[k], v[k]))
    || (exists k: nat :: OnlyDifference(Halves(o), Halves(v), k) && NearHalves(Halves(o)[k], Halves(v)[k]))
    || (|o| == 4 && NearWords(Load32(o[0], o[1], o[2], o[3]), Load32(v[0], v[1], v[2], v[3])))
  }

  predicate NearHalves(a: u16, b: u16) { Within16(a, b) || Within16(Swap16(a), Swap16(b)) }

  predicate NearWords(a: u32, b: u32) { Within32(a, b) || Within32(Swap32(a), Swap32(b)) }

  method CouldBeArith(oldVal: Word, newVal: Word) returns (r: bool)
    requires |oldVal| == |newVal|
    ensures r <==> ArithPattern(oldVal, newVal)
  {
    if oldVal == newVal { return true; }
    var diffs, at := Differences(oldVal, newVal);
    if diffs == 1 && Within8(oldVal[at], newVal[at]) { return true; }
    if |oldVal| == 1 { return false; }
    var ov, nv := Halves(oldVal), Halves(newVal);
    diffs, at := Differences(ov, nv);
    if diffs == 1 && NearHalves(ov[at], nv[at]) { return true; }
    if |oldVal| == 4 {
      var a, b := Load32(oldVal[0], oldVal[1], oldVal[2], oldVal[3]), Load32(newVal[0], newVal[1], newVal[2], newVal[3]);
      if NearWords(a, b) { return true; }
    }
    return false;
  }

  /** Counts the places where two words differ and finds the last of them. */
  method Differences<T(==)>(a: seq<T>, b: seq<T>) returns (diffs: nat, at: nat)
    requires |a| == |b|
    ensures diffs > 0 ==> at < |a|
    ensures diffs == 1 ==> OnlyDifference(a, b, at)
    ensures diffs != 1 ==> forall k :: !OnlyDifference(a, b, k)
  {
    diffs, at := 0, 0;
    ghost var other: nat := 0;
    for i := 0 to |a|
      invariant diffs == 0 ==> forall j :: 0 <= j < i ==> a[j] == b[j]
      invariant diffs > 0 ==> at < i && a[at] != b[at]
      invariant diffs == 1 ==> forall j :: 0 <= j < i && j != at ==> a[j] == b[j]
      invariant diffs > 1 ==> other < at && a[other] != b[other]
    {
      if a[i] != b[i] { diffs, other, at := diffs + 1, at, i; }
    }
  }

  /** In one byte: a distance of at most ARITH_MAX, with wrap-around. */
  lemma ArithPatternOfByte(o: u8, v: u8)
    ensures ArithPattern([o], [v]) <==> Within8(o, v)
  {
    if o != v && Within8(o, v) { assert OnlyDifference([o], [v], 0); }
  }

  // ---------- Interesting values ----------

  /** Is v what storing a shorter interesting value into o gives?  With `checkLe`, values of the
      same length stored low byte first are also considered. */
  ghost predicate InterestPattern(o: Word, v: Word, checkLe: bool)
    requires |o| == |v|
  {
    || o == v
    || (exists k, j :: 0 <= k < |o| && 0 <= j < |INTERESTING_8| && ByteStored(o, v, k, INTERESTING_8[j]))
    || ((|o| != 2 || checkLe)
        && exists k, j :: 0 <= k < |o| - 1 && 0 <= j < |INTERESTING_16| && HalfStored(o, v, k, INTERESTING_16[j]))
    || (|o| == 4 && checkLe && exists j :: 0 <= j < |INTERESTING_32| && v == Store32(INTERESTING_32[j]))
  }

  predicate ByteStored(o: Word, v: Word, k: nat, b: u8)
    requires k < |o| == |v|
  {
    v == o[k := b]
  }

  function PutHalf(o: Word, k: nat, half: u16): seq<u8>
    requires k + 1 < |o|
  {
    o[k := Store16(half)[0]][k + 1 := Store16(half)[1]]
  }

  predicate HalfStored(o: Word, v: Word, k: nat, half: u16)
    requires k + 1 < |o| == |v|
  {
    v == PutHalf(o, k, half) || (|o| > 2 && v == PutHalf(o, k, Swap16(half)))
  }

  method CouldBeInterest(oldVal: Word, newVal: Word, checkLe: bool) returns (r: bool)
    requires |oldVal| == |newVal|
    ensures r <==> InterestPattern(oldVal, newVal, checkLe)
  {
    if oldVal == newVal { return true; }
    var blen := |oldVal|;
    r := StoresSomeByte(oldVal, newVal);
    if r { return true; }
    if blen == 2 && !checkLe { return false; }
    r := StoresSomeHalf(oldVal, newVal);
    if r { return true; }
    if blen == 4 && checkLe {
      for j := 0 to |INTERESTING_32|
        invariant forall l :: 0 <= l < j ==> newVal != Store32(INTERESTING_32[l])
      {
        if newVal == Store32(INTERESTING_32[j]) { return true; }
      }
    }
    return false;
  }

  method StoresSomeByte(oldVal: Word, newVal: Word) returns (r: bool)
    requires |oldVal| == |newVal|
    ensures r <==> exists k, j :: 0 <= k < |oldVal| && 0 <= j < |INTERESTING_8| &&
                                  ByteStored(oldVal, newVal, k, INTERESTING_8[j])
  {
    for i := 0 to |oldVal|
      invariant forall k, j :: 0 <= k < i && 0 <= j < |INTERESTING_8| ==> !ByteStored(oldVal, newVal, k, INTERESTING_8[j])
    {
      for j := 0 to |INTERESTING_8|
        invariant forall l :: 0 <= l < j ==> !ByteStored(oldVal, newVal, i, INTERESTING_8[l])
      {
        if ByteStored(oldVal, newVal, i, INTERESTING_8[j]) { return true; }
      }
    }
    return false;
  }

  method StoresSomeHalf(oldVal: Word, newVal: Word) returns (r: bool)
    requires |oldVal| == |newVal|
    ensures r <==> exists k, j :: 0 <= k < |oldVal| - 1 && 0 <= j < |INTERESTING_16| &&
                                  HalfStored(oldVal, newVal, k, INTERESTING_16[j])
  {
    for i := 0 to |oldVal| - 1
      invariant forall k, j :: 0 <= k < i && 0 <= j < |INTERESTING_16| ==>
        !HalfStored(oldVal, newVal, k, INTERESTING_16[j])
    {
      for j := 0 to |INTERESTING_16|
        invariant forall l :: 0 <= l < j ==> !HalfStored(oldVal, newVal, i, INTERESTING_16[l])
      {
        if HalfStored(oldVal, newVal, i, INTERESTING_16[j]) { return true; }
      }
    }
    return false;
  }
}
