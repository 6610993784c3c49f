/** Coverage bookkeeping: trace maps of hit counts, virgin maps of what has not been seen yet,
    and the word-at-a-time scans over both. */
module Coverage {
  const MAP_SIZE: nat := 65536

  type Map = seq<bv8>

  // ---------- Eight bytes as one word ----------

  /** The little-endian word made of up to eight bytes. */
  function Pack(s: seq<bv8>): bv64 {
    if s == [] then 0 else (Pack(s[1..]) << 8) | (s[0] as bv64)
  }

  function AndAll(a: seq<bv8>, b: seq<bv8>): (r: seq<bv8>)
    requires |a| == |b|
    ensures |r| == |a| && forall i :: 0 <= i < |r| ==> r[i] == a[i] & b[i]
  {
    seq(|a|, i requires 0 <= i < |a| => a[i] & b[i])
  }

  lemma ShiftedAnd(x: bv64, p: bv8, y: bv64, q: bv8)
    ensures ((x << 8) | (p as bv64)) & ((y << 8) | (q as bv64)) == ((x & y) << 8) | ((p & q) as bv64)
  {
  }

  /** The 64-bit operation on packed words is the 8-bit operation on every byte. */
  lemma {:induction false} PackAnd(a: seq<bv8>, b: seq<bv8>)
    requires |a| == |b|
    ensures Pack(a) & Pack(b) == Pack(AndAll(a, b))
    decreases |a|
  {
    if a == [] {
    } else {
      PackAnd(a[1..], b[1..]);
      assert AndAll(a, b)[1..] == AndAll(a[1..], b[1..]);
      ShiftedAnd(Pack(a[1..]), a[0], Pack(b[1..]), b[0]);
    }
  }

  function AndNotAll(a: seq<bv8>, b: seq<bv8>): (r: seq<bv8>)
    requires |a| == |b|
    ensures |r| == |a| && forall i :: 0 <= i < |r| ==> r[i] == a[i] & !b[i]
  {
    seq(|a|, i requires 0 <= i < |a| => a[i] & !b[i])
  }

  lemma ShiftedAndNot(x: bv64, p: bv8, y: bv64, q: bv8)
    ensures ((x << 8) | (p as bv64)) & !((y << 8) | (q as bv64)) == ((x & !y) << 8) | ((p & !q) as bv64)
  {
  }

  /** Clearing the bits of one word in another clears them in every byte. */
  lemma {:induction false} PackAndNot(a: seq<bv8>, b: seq<bv8>)
    requires |a| == |b|
    ensures Pack(a) & !Pack(b) == Pack(AndNotAll(a, b))
    decreases |a|
  {
    if a == [] {
    } else {
      PackAndNot(a[1..], b[1..]);
      assert AndNotAll(a, b)[1..] == AndNotAll(a[1..], b[1..]);
      ShiftedAndNot(Pack(a[1..]), a[0], Pack(b[1..]), b[0]);
    }
  }

  /** The bits above the low n bytes. */
  function HighMask(n: nat): bv64 {
    if n == 0 then 0xFFFF_FFFF_FFFF_FFFF else HighMask(n - 1) << 8
  }

  lemma HighMaskValues()
    ensures forall n: nat :: n <= 7 ==> HighMask(n) & 0xFF00_0000_0000_0000 == 0xFF00_0000_0000_0000
  {
    assert HighMask(1) == 0xFFFF_FFFF_FFFF_FF00;
    assert HighMask(2) == 0xFFFF_FFFF_FFFF_0000;
    assert HighMask(3) == 0xFFFF_FFFF_FF00_0000;
    assert HighMask(4) == 0xFFFF_FFFF_0000_0000;
    assert HighMask(5) == 0xFFFF_FF00_0000_0000;
    assert HighMask(6) == 0xFFFF_0000_0000_0000;
    assert HighMask(7) == 0xFF00_0000_0000_0000;
  }

  lemma ShiftedFits(x: bv64, p: bv8, k: bv64, w: bv64, m: bv64)
    requires x & k == 0 && w == (x << 8) | (p as bv64) && m == k << 8
    ensures w & m == 0
  {
  }

  lemma {:induction false} PackFits(s: seq<bv8>, w: bv64, m: bv64)
    requires w == Pack(s) && m == HighMask(|s|)
    ensures w & m == 0
  {
    if s == [] {
    } else {
      var x, k := Pack(s[1..]), HighMask(|s| - 1);
      PackFits(s[1..], x, k);
      ShiftedFits(x, s[0], k, w, m);
    }
  }

  lemma ShiftedZero(x: bv64, p: bv8)
    requires x & 0xFF00_0000_0000_0000 == 0
    ensures (x << 8) | (p as bv64) == 0 <==> x == 0 && p == 0
  {
  }

  lemma NarrowerMask(x: bv64, m: bv64)
    requires x & m == 0 && m & 0xFF00_0000_0000_0000 == 0xFF00_0000_0000_0000
    ensures x & 0xFF00_0000_0000_0000 == 0
  {
  }

  lemma {:induction false} PackIsZero(s: seq<bv8>)
    requires |s| <= 8
    ensures Pack(s) == 0 <==> forall i :: 0 <= i < |s| ==> s[i] == 0
  {
    if s != [] {
      PackIsZero(s[1..]);
      PackFits(s[1..], Pack(s[1..]), HighMask(|s| - 1));
      HighMaskValues();
      NarrowerMask(Pack(s[1..]), HighMask(|s| - 1));
      ShiftedZero(Pack(s[1..]), s[0]);
      assert forall i :: 0 < i < |s| ==> s[i] == s[1..][i - 1];
      assert forall i :: 0 <= i < |s[1..]| ==> s[1..][i] == s[i + 1];
    }
  }

  predicate HaveCommonBit(c: bv64, v: bv64) { c != 0 && c & v != 0 }

  // ---------- What a scan finds and clears ----------

  /** Some index in [from, to) is hit for the first time. */
  predicate NewTuple(cur: Map, vir: Map, from: nat, to: nat)
    requires |cur| == |vir| && to <= |cur|
  {
    exists i :: from <= i < to && cur[i] != 0 && vir[i] == 0xFF
  }

  /** Some bit in [from, to) is set in the trace and still virgin. */
  predicate NewBit(cur: Map, vir: Map, from: nat, to: nat)
    requires |cur| == |vir| && to <= |cur|
  {
    exists i :: from <= i < to && cur[i] & vir[i] != 0
  }

  /** 2 for a new tuple, 1 for a new count of a known tuple, 0 for nothing new. */
  function Novelty(cur: Map, vir: Map): nat
    requires |cur| == |vir|
  {
    if NewTuple(cur, vir, 0, |cur|) then 2 else if NewBit(cur, vir, 0, |cur|) then 1 else 0
  }

  /** The virgin map after a trace has been recorded. */
  function Cleared(cur: Map, vir: Map): (r: Map)
    requires |cur| == |vir|
    ensures |r| == |vir|
    ensures forall i :: 0 <= i < |r| ==> r[i] == vir[i] & !cur[i]
  {
    seq(|vir|, i requires 0 <= i < |vir| => vir[i] & !cur[i])
  }

  lemma NewTupleIsNewBit(cur: Map, vir: Map, from: nat, to: nat)
    requires |cur| == |vir| && to <= |cur| && NewTuple(cur, vir, from, to)
    ensures NewBit(cur, vir, from, to)
  {
    var i :| from <= i < to && cur[i] != 0 && vir[i] == 0xFF;
    FullByte(cur[i]);
    assert cur[i] & vir[i] != 0;
  }

  lemma FullByte(b: bv8)
    ensures b & 0xFF == b
  {
  }

  lemma DisjointBytes(c: bv8, v: bv8)
    requires c & v == 0
    ensures v & !c == v
  {
  }

  // ---------- has_new_bits ----------

  /** The 64-bit scan: it looks at single bytes only in words that have something new. */
  method HasNewBits(traceBits: array<bv8>, virginMap: array<bv8>) returns (ret: nat)
    requires traceBits != virginMap && traceBits.Length == virginMap.Length == MAP_SIZE
    modifies virginMap
    ensures ret == Novelty(traceBits[..], old(virginMap[..]))
    ensures virginMap[..] == Cleared(traceBits[..], old(virginMap[..]))
  {
    ghost var cur, vir := traceBits[..], virginMap[..];
    ret := 0;
    var at := 0;
    while at < MAP_SIZE
      invariant 0 <= at <= MAP_SIZE && at % 8 == 0
      invariant traceBits[..] == cur
      invariant forall k :: 0 <= k < at ==> virginMap[k] == vir[k] & !cur[k]
      invariant forall k :: at <= k < MAP_SIZE ==> virginMap[k] == vir[k]
      invariant ret == if NewTuple(cur, vir, 0, at) then 2 else if NewBit(cur, vir, 0, at) then 1 else 0
    {
      ret := ScanWord(traceBits, virginMap, at, ret, cur, vir);
      at := at + 8;
    }
  }

  method ScanWord(traceBits: array<bv8>, virginMap: array<bv8>, at: nat, ret: nat, ghost cur: Map, ghost vir: Map)
    returns (ret': nat)
    requires traceBits != virginMap && traceBits.Length == virginMap.Length == MAP_SIZE == |cur| == |vir|
    requires at + 8 <= MAP_SIZE && traceBits[..] == cur
    requires forall k :: at <= k < MAP_SIZE ==> virginMap[k] == vir[k]
    requires ret == if NewTuple(cur, vir, 0, at) then 2 else if NewBit(cur, vir, 0, at) then 1 else 0
    modifies virginMap
    ensures forall k :: at <= k < at + 8 ==> virginMap[k] == vir[k] & !cur[k]
    ensures forall k :: 0 <= k < MAP_SIZE && !(at <= k < at + 8) ==> virginMap[k] == old(virginMap[k])
    ensures ret' == if NewTuple(cur, vir, 0, at + 8) then 2 else if NewBit(cur, vir, 0, at + 8) then 1 else 0
  {
    var isNew;
    ret', isNew := GradeWord(traceBits, virginMap, at, ret, cur, vir);
    if isNew {
      ClearWord(traceBits, virginMap, at);
    } else {
      NothingNewHere(cur, vir, at, at + 8);
    }
  }

  method GradeWord(traceBits: array<bv8>, virginMap: array<bv8>, at: nat, ret: nat, ghost cur: Map, ghost vir: Map)
    returns (ret': nat, isNew: bool)
    requires traceBits.Length == virginMap.Length == MAP_SIZE == |cur| == |vir|
    requires at + 8 <= MAP_SIZE && traceBits[..] == cur
    requires forall k :: at <= k < MAP_SIZE ==> virginMap[k] == vir[k]
    requires ret == if NewTuple(cur, vir, 0, at) then 2 else if NewBit(cur, vir, 0, at) then 1 else 0
    ensures isNew <==> NewBit(cur, vir, at, at + 8)
    ensures ret' == if NewTuple(cur, vir, 0, at + 8) then 2 else if NewBit(cur, vir, 0, at + 8) then 1 else 0
  {
    ret' := ret;
    ScanSplits(cur, vir, at);
    isNew := CompareWords(traceBits, virginMap, at, cur, vir);
    if isNew && ret < 2 {
      var pristine := PristineByteHit(traceBits, virginMap, at, cur, vir);
      ret' := if pristine then 2 else 1;
    }
  }

  /** The test that skips most words. */
  method CompareWords(traceBits: array<bv8>, virginMap: array<bv8>, at: nat, ghost cur: Map, ghost vir: Map)
    returns (isNew: bool)
    requires traceBits.Length == virginMap.Length == MAP_SIZE == |cur| == |vir|
    requires at + 8 <= MAP_SIZE && traceBits[..] == cur
    requires forall k :: at <= k < MAP_SIZE ==> virginMap[k] == vir[k]
    ensures isNew <==> NewBit(cur, vir, at, at + 8)
  {
    var current := traceBits[at..at + 8];
    var virgin := virginMap[at..at + 8];
    assert current == cur[at..at + 8] && virgin == vir[at..at + 8];
    isNew := HaveCommonBit(Pack(current), Pack(virgin));
    WordsMeet(cur, vir, at);
  }

  /** `*virgin &= ~*current`, byte by byte. */
  method ClearWord(traceBits: array<bv8>, virginMap: array<bv8>, at: nat)
    requires traceBits != virginMap && traceBits.Length == virginMap.Length && at + 8 <= traceBits.Length
    modifies virginMap
    ensures Pack(virginMap[at..at + 8]) == old(Pack(virginMap[at..at + 8])) & !Pack(traceBits[at..at + 8])
    ensures forall k :: at <= k < at + 8 ==> virginMap[k] == old(virginMap[k]) & !traceBits[k]
    ensures forall k :: 0 <= k < virginMap.Length && !(at <= k < at + 8) ==> virginMap[k] == old(virginMap[k])
  {
    for k := at to at + 8
      invariant forall j :: at <= j < k ==> virginMap[j] == old(virginMap[j]) & !traceBits[j]
      invariant forall j :: 0 <= j < virginMap.Length && !(at <= j < k) ==> virginMap[j] == old(virginMap[j])
    {
      virginMap[k] := virginMap[k] & !traceBits[k];
    }
    ghost var was := old(virginMap[at..at + 8]);
    assert virginMap[at..at + 8] == AndNotAll(was, traceBits[at..at + 8]);
    PackAndNot(was, traceBits[at..at + 8]);
  }

  /** Is some byte of the word hit while its virgin byte is still 0xff? */
  method PristineByteHit(traceBits: array<bv8>, virginMap: array<bv8>, at: nat, ghost cur: Map, ghost vir: Map)
    returns (pristine: bool)
    requires traceBits.Length == virginMap.Length == MAP_SIZE == |cur| == |vir|
    requires at + 8 <= MAP_SIZE && traceBits[..] == cur
    requires forall k :: at <= k < MAP_SIZE ==> virginMap[k] == vir[k]
    ensures pristine <==> NewTuple(cur, vir, at, at + 8)
  {
    var i := at;
    while i < at + 8 && !(traceBits[i] != 0 && virginMap[i] == 0xFF)
      invariant at <= i <= at + 8
      invariant forall k :: at <= k < i ==> !(cur[k] != 0 && vir[k] == 0xFF)
    {
      i := i + 1;
    }
    pristine := i < at + 8;
    assert pristine ==> cur[i] != 0 && vir[i] == 0xFF;
  }

  lemma WordsMeet(cur: Map, vir: Map, at: nat)
    requires |cur| == |vir| && at + 8 <= |cur|
    ensures HaveCommonBit(Pack(cur[at..at + 8]), Pack(vir[at..at + 8])) <==> NewBit(cur, vir, at, at + 8)
  {
    var c, v := cur[at..at + 8], vir[at..at + 8];
    var r := AndAll(c, v);
    PackedMeet(c, v, r);
    if NewBit(cur, vir, at, at + 8) {
      var k :| at <= k < at + 8 && cur[k] & vir[k] != 0;
      assert r[k - at] == cur[k] & vir[k];
    }
    if i: int :| 0 <= i < 8 && r[i] != 0 {
      assert r[i] == cur[at + i] & vir[at + i];
    }
  }

  lemma PackedMeet(c: seq<bv8>, v: seq<bv8>, r: seq<bv8>)
    requires |c| == |v| <= 8 && r == AndAll(c, v)
    ensures HaveCommonBit(Pack(c), Pack(v)) <==> exists i :: 0 <= i < |r| && r[i] != 0
  {
    var x, y, w := Pack(c), Pack(v), Pack(r);
    assert x & y == w by { PackAnd(c, v); }
    assert w == 0 <==> forall i :: 0 <= i < |r| ==> r[i] == 0 by { PackIsZero(r); }
    CommonBitVia(x, y, w);
  }

  lemma CommonBitVia(x: bv64, y: bv64, w: bv64)
    requires x & y == w
    ensures HaveCommonBit(x, y) <==> w != 0
  {
  }

  lemma NothingNewHere(cur: Map, vir: Map, from: nat, to: nat)
    requires |cur| == |vir| && to <= |cur| && !NewBit(cur, vir, from, to)
    ensures forall k :: from <= k < to ==> vir[k] & !cur[k] == vir[k]
  {
    forall k | from <= k < to ensures vir[k] & !cur[k] == vir[k] {
      DisjointBytes(cur[k], vir[k]);
    }
  }

  lemma ScanSplits(cur: Map, vir: Map, at: nat)
    requires |cur| == |vir| && at + 8 <= |cur|
    ensures NewBit(cur, vir, 0, at + 8) <==> NewBit(cur, vir, 0, at) || NewBit(cur, vir, at, at + 8)
    ensures NewTuple(cur, vir, 0, at + 8) <==> NewTuple(cur, vir, 0, at) || NewTuple(cur, vir, at, at + 8)
    ensures NewTuple(cur, vir, at, at + 8) ==> NewBit(cur, vir, at, at + 8)
  {
    if NewTuple(cur, vir, at, at + 8) { NewTupleIsNewBit(cur, vir, at, at + 8); }
  }

  // ---------- Hit-count classes ----------

  /** The class of a hit count: a single bit, or none for a tuple that was not hit. */
  function CountClass(b: bv8): bv8 {
    if b == 0 then 0
    else if b == 1 then 1
    else if b == 2 then 2
    else if b == 3 then 4
    else if b <= 7 then 8
    else if b <= 15 then 16
    else if b <= 31 then 32
    else if b <= 127 then 64
    else 128
  }

  /** Counts in the same range. */
  predicate SameRange(a: bv8, b: bv8) {
    || a == b || (4 <= a <= 7 && 4 <= b <= 7) || (8 <= a <= 15 && 8 <= b <= 15) || (16 <= a <= 31 && 16 <= b <= 31)
    || (32 <= a <= 127 && 32 <= b <= 127) || (128 <= a && 128 <= b)
  }

  /** The class of a count is no bit for 0 and one bit otherwise, the same for counts in the same range
      and a higher one in a higher range. */
  lemma ClassesAreRanges(a: bv8, b: bv8)
    ensures CountClass(a) & (CountClass(a) - 1) == 0
    ensures CountClass(a) == 0 <==> a == 0
    ensures CountClass(a) == CountClass(b) <==> SameRange(a, b)
    ensures a <= b ==> CountClass(a) <= CountClass(b)
  {
  }

  predicate IsClass(b: bv8) {
    b == 0 || b == 1 || b == 2 || b == 4 || b == 8 || b == 16 || b == 32 || b == 64 || b == 128
  }

  function Pair(lo: bv8, hi: bv8): bv16 { (hi as bv16 << 8) | (lo as bv16) }
  function Low(w: bv16): bv8 { (w & 0xFF) as bv8 }
  function High(w: bv16): bv8 { (w >> 8) as bv8 }

  /** The 16-bit lookup table, which classifies two counts at a time. */
  function CountClass16(w: bv16): bv16 { Pair(CountClass(Low(w)), CountClass(High(w))) }

  lemma PairLookup(lo: bv8, hi: bv8)
    ensures Low(CountClass16(Pair(lo, hi))) == CountClass(lo)
    ensures High(CountClass16(Pair(lo, hi))) == CountClass(hi)
  {
  }

  function Classified(m: Map): (r: Map)
    ensures |r| == |m|
    ensures forall i :: 0 <= i < |m| ==> r[i] == CountClass(m[i])
  {
    seq(|m|, i requires 0 <= i < |m| => CountClass(m[i]))
  }

  ghost predicate IsClassified(m: Map) {
    forall i :: 0 <= i < |m| ==> IsClass(m[i])
  }

  /** In place, eight bytes at a time: words of zeros are left alone, the others go through the
      16-bit table. */
  method ClassifyCounts(mem: array<bv8>)
    requires mem.Length == MAP_SIZE
    modifies mem
    ensures mem[..] == Classified(old(mem[..]))
  {
    var at := 0;
    while at < MAP_SIZE
      invariant 0 <= at <= MAP_SIZE && at % 8 == 0
      invariant forall k :: 0 <= k < at ==> mem[k] == CountClass(old(mem[k]))
      invariant forall k :: at <= k < MAP_SIZE ==> mem[k] == old(mem[k])
    {
      ghost var word := mem[at..at + 8];
      PackIsZero(word);
      if Pack(mem[at..at + 8]) != 0 {
        ClassifyWord(mem, at);
      } else {
        assert forall k :: at <= k < at + 8 ==> mem[k] == word[k - at];
      }
      at := at + 8;
    }
  }

  method ClassifyWord(mem: array<bv8>, at: nat)
    requires at + 8 <= mem.Length
    modifies mem
    ensures forall k :: at <= k < at + 8 ==> mem[k] == CountClass(old(mem[k]))
    ensures forall k :: 0 <= k < mem.Length && !(at <= k < at + 8) ==> mem[k] == old(mem[k])
  {
    ClassifyPair(mem, at);
    ClassifyPair(mem, at + 2);
    ClassifyPair(mem, at + 4);
    ClassifyPair(mem, at + 6);
  }

  method ClassifyPair(mem: array<bv8>, h: nat)
    requires h + 2 <= mem.Length
    modifies mem
    ensures mem[h] == CountClass(old(mem[h])) && mem[h + 1] == CountClass(old(mem[h + 1]))
    ensures forall k :: 0 <= k < mem.Length && k != h && k != h + 1 ==> mem[k] == old(mem[k])
  {
    PairLookup(mem[h], mem[h + 1]);
    var w := CountClass16(Pair(mem[h], mem[h + 1]));
    mem[h], mem[h + 1] := Low(w), High(w);
  }

  function SimplifyByte(b: bv8): bv8 { if b == 0 then 1 else 128 }

  function Simplified(m: Map): (r: Map)
    ensures |r| == |m|
    ensures forall i :: 0 <= i < |m| ==> r[i] == SimplifyByte(m[i])
  {
    seq(|m|, i requires 0 <= i < |m| => SimplifyByte(m[i]))
  }

  /** Hit or not hit, as 0x80 or 0x01; words of zeros are overwritten whole. */
  method SimplifyTrace(mem: array<bv8>)
    requires mem.Length == MAP_SIZE
    modifies mem
    ensures mem[..] == Simplified(old(mem[..]))
  {
    var at := 0;
    while at < MAP_SIZE
      invariant 0 <= at <= MAP_SIZE && at % 8 == 0
      invariant forall k :: 0 <= k < at ==> mem[k] == SimplifyByte(old(mem[k]))
      invariant forall k :: at <= k < MAP_SIZE ==> mem[k] == old(mem[k])
    {
      ghost var word := mem[at..at + 8];
      PackIsZero(word);
      if Pack(mem[at..at + 8]) != 0 {
        SimplifyWord(mem, at);
      } else {
        assert forall k :: at <= k < at + 8 ==> mem[k] == word[k - at];
        MarkWordUnhit(mem, at);
      }
      at := at + 8;
    }
  }

  method SimplifyWord(mem: array<bv8>, at: nat)
    requires at + 8 <= mem.Length
    modifies mem
    ensures forall k :: at <= k < at + 8 ==> mem[k] == SimplifyByte(old(mem[k]))
    ensures forall k :: 0 <= k < mem.Length && !(at <= k < at + 8) ==> mem[k] == old(mem[k])
  {
    for h := at to at + 8
      invariant forall k :: at <= k < h ==> mem[k] == SimplifyByte(old(mem[k]))
      invariant forall k :: 0 <= k < mem.Length && !(at <= k < h) ==> mem[k] == old(mem[k])
    {
      mem[h] := SimplifyByte(mem[h]);
    }
  }

  /** One 64-bit store of 0x01 bytes. */
  method MarkWordUnhit(mem: array<bv8>, at: nat)
    requires at + 8 <= mem.Length
    modifies mem
    ensures forall k :: at <= k < at + 8 ==> mem[k] == 1
    ensures forall k :: 0 <= k < mem.Length && !(at <= k < at + 8) ==> mem[k] == old(mem[k])
  {
    for h := at to at + 8
      invariant forall k :: at <= k < h ==> mem[k] == 1
      invariant forall k :: 0 <= k < mem.Length && !(at <= k < h) ==> mem[k] == old(mem[k])
    {
      mem[h] := 1;
    }
  }

  // ---------- Virgin maps over whole runs ----------

  function AllOnes(): (m: Map)
    ensures |m| == MAP_SIZE && forall i :: 0 <= i < MAP_SIZE ==> m[i] == 0xFF
  {
    seq(MAP_SIZE, _ => 0xFF)
  }

  ghost predicate AreMaps(ts: seq<Map>) {
    forall k :: 0 <= k < |ts| ==> |ts[k]| == MAP_SIZE
  }

  /** The virgin map after a session has recorded these traces, from all ones. */
  ghost function VirginAfter(ts: seq<Map>): (m: Map)
    requires AreMaps(ts)
    ensures |m| == MAP_SIZE
  {
    if ts == [] then AllOnes()
    else Cleared(ts[|ts| - 1], VirginAfter(ts[..|ts| - 1]))
  }

  lemma ClearingAByte(v: bv8, t: bv8, c: bv8)
    ensures v & !t == 0xFF <==> v == 0xFF && t == 0
    ensures IsClass(t) && IsClass(c) && c != 0 ==> ((v & !t) & c != 0 <==> v & c != 0 && t != c)
  {
  }

  /** A virgin byte is pristine iff no trace hit the index; and a class bit is still virgin iff
      no trace had that class there. */
  lemma {:induction false} VirginByte(ts: seq<Map>, i: nat, c: bv8)
    requires AreMaps(ts) && i < MAP_SIZE
    requires IsClass(c) && c != 0 && forall k :: 0 <= k < |ts| ==> IsClassified(ts[k])
    ensures VirginAfter(ts)[i] == 0xFF <==> forall k :: 0 <= k < |ts| ==> ts[k][i] == 0
    ensures VirginAfter(ts)[i] & c != 0 <==> forall k :: 0 <= k < |ts| ==> ts[k][i] != c
  {
    if ts == [] {
      FullByte(c);
    } else {
      var n := |ts| - 1;
      var earlier := ts[..n];
      VirginByte(earlier, i, c);
      assert forall k :: 0 <= k < n ==> earlier[k] == ts[k];
      ClearingAByte(VirginAfter(earlier)[i], ts[n][i], c);
    }
  }

  /** The verdict on a trace in terms of the traces before it: 2 iff it hits an index none of
      them hit, at least 1 iff it has a hit-count class none of them had there. */
  lemma NoveltyOverRun(ts: seq<Map>, t: Map)
    requires AreMaps(ts) && |t| == MAP_SIZE && IsClassified(t)
    requires forall k :: 0 <= k < |ts| ==> IsClassified(ts[k])
    ensures Novelty(t, VirginAfter(ts)) == 2
       <==> exists i :: 0 <= i < MAP_SIZE && t[i] != 0 && forall k :: 0 <= k < |ts| ==> ts[k][i] == 0
    ensures Novelty(t, VirginAfter(ts)) >= 1
       <==> exists i :: 0 <= i < MAP_SIZE && t[i] != 0 && forall k :: 0 <= k < |ts| ==> ts[k][i] != t[i]
  {
    var v := VirginAfter(ts);
    forall i | 0 <= i < MAP_SIZE && t[i] != 0
      ensures v[i] == 0xFF <==> forall k :: 0 <= k < |ts| ==> ts[k][i] == 0
      ensures t[i] & v[i] != 0 <==> forall k :: 0 <= k < |ts| ==> ts[k][i] != t[i]
    {
      VirginByte(ts, i, t[i]);
      AndCommutes(t[i], v[i]);
    }
    ZeroHasNoBits(t, v);
    if NewTuple(t, v, 0, MAP_SIZE) { NewTupleIsNewBit(t, v, 0, MAP_SIZE); }
  }

  lemma AndCommutes(a: bv8, b: bv8)
    ensures a & b == b & a
  {
  }

  lemma ZeroHasNoBits(t: Map, v: Map)
    requires |t| == |v|
    ensures forall i :: 0 <= i < |t| && t[i] & v[i] != 0 ==> t[i] != 0
  {
  }

  /** For crash and hang maps, which record simplified traces: something is new iff the trace
      hits an index no earlier one hit, or misses one that all earlier ones hit. */
  lemma SimplifiedNoveltyOverRun(raw: seq<Map>, t: Map)
    requires AreMaps(raw) && |t| == MAP_SIZE
    ensures AreMaps(SimplifiedAll(raw))
    ensures Novelty(Simplified(t), VirginAfter(SimplifiedAll(raw))) != 0
       <==> exists i :: 0 <= i < MAP_SIZE
              && ((t[i] != 0 && forall k :: 0 <= k < |raw| ==> raw[k][i] == 0)
                  || (t[i] == 0 && forall k :: 0 <= k < |raw| ==> raw[k][i] != 0))
  {
    var ts, s := SimplifiedAll(raw), Simplified(t);
    NoveltyOverRun(ts, s);
    forall i | 0 <= i < MAP_SIZE
      ensures (forall k :: 0 <= k < |ts| ==> ts[k][i] != s[i])
         <==> ((t[i] != 0 && forall k :: 0 <= k < |raw| ==> raw[k][i] == 0)
               || (t[i] == 0 && forall k :: 0 <= k < |raw| ==> raw[k][i] != 0))
    {
      assert forall k :: 0 <= k < |raw| ==> (ts[k][i] != s[i] <==> (raw[k][i] == 0 <==> t[i] != 0));
    }
  }

  function SimplifiedAll(raw: seq<Map>): (ts: seq<Map>)
    ensures |ts| == |raw| && forall k :: 0 <= k < |raw| ==> ts[k] == Simplified(raw[k])
  {
    seq(|raw|, k requires 0 <= k < |raw| => Simplified(raw[k]))
  }

  // ---------- Counting bits ----------

  /** The number of bits set in a byte. */
  function Ones(b: bv8): nat
    decreases b
  {
    if b == 0 then 0 else (if b & 1 != 0 then 1 else 0) + Ones(b >> 1)
  }

  function BitCount(m: Map): nat {
    if m == [] then 0 else Ones(m[0]) + BitCount(m[1..])
  }

  lemma ClearingShifts(v: bv8, c: bv8)
    ensures (v & !c) >> 1 == (v >> 1) & !(c >> 1)
    ensures (v & !c) & 1 != 0 ==> v & 1 != 0
    ensures c & v != 0 <==> (c >> 1) & (v >> 1) != 0 || (c & 1 != 0 && v & 1 != 0)
    ensures c & 1 != 0 ==> (v & !c) & 1 == 0
    ensures v == 0 ==> v & !c == 0
  {
  }

  lemma {:induction false} ClearingLosesBits(v: bv8, c: bv8)
    ensures Ones(v & !c) <= Ones(v)
    ensures c & v != 0 ==> Ones(v & !c) < Ones(v)
    decreases v
  {
    ClearingShifts(v, c);
    if v != 0 { ClearingLosesBits(v >> 1, c >> 1); }
  }

  lemma {:induction false} ClearingLowersBitCount(cur: Map, vir: Map, r: Map)
    requires |cur| == |vir| && r == Cleared(cur, vir)
    ensures BitCount(r) <= BitCount(vir)
    ensures NewBit(cur, vir, 0, |cur|) ==> BitCount(r) < BitCount(vir)
    decreases |cur|
  {
    if cur != [] {
      var o, o' := Ones(vir[0]), Ones(r[0]);
      assert o' <= o && (cur[0] & vir[0] != 0 ==> o' < o) by { ClearingLosesBits(vir[0], cur[0]); }
      ClearingLowersBitCount(cur[1..], vir[1..], r[1..]);
      if NewBit(cur, vir, 0, |cur|) && !NewBit(cur[1..], vir[1..], 0, |cur| - 1) {
        NewBitInHead(cur, vir);
      }
    }
  }

  lemma NewBitInHead(cur: Map, vir: Map)
    requires |cur| == |vir| > 0 && NewBit(cur, vir, 0, |cur|) && !NewBit(cur[1..], vir[1..], 0, |cur| - 1)
    ensures cur[0] & vir[0] != 0
  {
    assert forall i :: 0 < i < |cur| ==> cur[1..][i - 1] == cur[i] && vir[1..][i - 1] == vir[i];
  }

  // ---------- Deciding what to keep ----------

  const KEEP_UNIQUE_HANG: nat := 500
  const KEEP_UNIQUE_CRASH: nat := 5000

  datatype Fault = FaultNone | FaultTmout | FaultCrash | FaultError | FaultNoInst | FaultNoBits

  /** What became of an execution: nothing more, a saved crash, a saved hang, or a fatal error. */
  datatype Kept = NoSample | CrashSample | HangSample | Fatal

  /** The trace hits an index none of the earlier ones hit, or misses one they all hit. */
  ghost predicate Distinguished(t: Map, earlier: seq<Map>)
    requires |t| == MAP_SIZE && AreMaps(earlier)
  {
    exists i :: 0 <= i < MAP_SIZE
      && ((t[i] != 0 && forall k :: 0 <= k < |earlier| ==> earlier[k][i] == 0)
          || (t[i] == 0 && forall k :: 0 <= k < |earlier| ==> earlier[k][i] != 0))
  }

  /** A crash or hang map together with the raw traces it was built from. */
  class UniqueMap {
    const virgin: array<bv8>
    ghost var examined: seq<Map>

    ghost predicate Valid()
      reads this, virgin
    {
      virgin.Length == MAP_SIZE && AreMaps(examined) && virgin[..] == VirginAfter(SimplifiedAll(examined))
    }

    constructor ()
      ensures Valid() && examined == [] && fresh(virgin)
    {
      virgin := new bv8[MAP_SIZE](_ => 0xFF);
      examined := [];
    }

    /** Simplifies the trace in place and records it; is it distinguished from all earlier ones? */
    method Examine(traceBits: array<bv8>) returns (isNew: bool)
      requires Valid() && traceBits != virgin && traceBits.Length == MAP_SIZE
      modifies this`examined, virgin, traceBits
      ensures Valid() && examined == old(examined) + [old(traceBits[..])]
      ensures isNew <==> Distinguished(old(traceBits[..]), old(examined))
    {
      ghost var t := traceBits[..];
      SimplifyTrace(traceBits);
      var hnb := HasNewBits(traceBits, virgin);
      isNew := hnb != 0;
      SimplifiedNoveltyOverRun(examined, t);
      ExtendSimplified(examined, t);
      examined := examined + [t];
    }
  }

  lemma ExtendSimplified(raw: seq<Map>, t: Map)
    requires AreMaps(raw) && |t| == MAP_SIZE
    ensures AreMaps(SimplifiedAll(raw)) && AreMaps(SimplifiedAll(raw + [t])) && AreMaps(raw + [t])
    ensures VirginAfter(SimplifiedAll(raw + [t])) == Cleared(Simplified(t), VirginAfter(SimplifiedAll(raw)))
  {
    var ts := SimplifiedAll(raw + [t]);
    assert ts[..|ts| - 1] == SimplifiedAll(raw);
  }

  lemma ExtendVirgin(ts: seq<Map>, t: Map)
    requires AreMaps(ts) && |t| == MAP_SIZE
    ensures AreMaps(ts + [t]) && VirginAfter(ts + [t]) == Cleared(t, VirginAfter(ts))
  {
    assert (ts + [t])[..|ts|] == ts;
  }
}
