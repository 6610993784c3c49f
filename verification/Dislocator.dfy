/** The allocator of libdislocator: every block has its own mapping and ends at a guard page. */
module Dislocator {
  import opened Bytes

  const PAGE_SIZE: nat := 4096
  const ALLOC_CANARY: nat := 0xAACC_AACC
  const ALLOC_CLOBBER: byte := 0xCC

  function PgCount(n: nat): nat { (n + (PAGE_SIZE - 1)) / PAGE_SIZE }

  /** A block handed out: its pages end where it ends, and a guard page follows. */
  datatype Block = Block(ptr: nat, len: nat) {
    function Pages(): nat { PgCount(len + 8) }

    function End(): nat { ptr + len }

    function Base(): int { End() - Pages() * PAGE_SIZE }
  }

  /** Pages handed out by the kernel: never handed out again. */
  datatype Mapping = Mapping(base: nat, pages: nat) {
    function End(): nat { base + pages * PAGE_SIZE }

    predicate Disjoint(other: Mapping) { End() <= other.base || other.End() <= base }
  }

  // ---------- Words in memory ----------

  type Memory = map<nat, byte>

  predicate Accessible(mem: Memory, from: nat, to: nat) {
    forall a :: from <= a < to ==> a in mem
  }

  function Get32(mem: Memory, a: nat): nat
    requires Accessible(mem, a, a + 4)
  {
    mem[a] as nat + 0x100 * mem[a + 1] as nat + 0x1_0000 * mem[a + 2] as nat + 0x100_0000 * mem[a + 3] as nat
  }

  function Put32(mem: Memory, a: nat, v: nat): Memory
    requires v < U32_MODULUS
  {
    mem[a := (v % 0x100) as byte][a + 1 := (v / 0x100 % 0x100) as byte]
       [a + 2 := (v / 0x1_0000 % 0x100) as byte][a + 3 := (v / 0x100_0000) as byte]
  }

  function Zeros(from: nat, n: nat): (m: Memory)
    ensures forall a :: a in m <==> from <= a < from + n
    ensures forall a :: a in m ==> m[a] == 0
  {
    if n == 0 then map[] else Zeros(from, n - 1)[from + n - 1 := 0]
  }

  lemma PutGet32(mem: Memory, a: nat, v: nat)
    requires v < U32_MODULUS
    ensures Get32(Put32(mem, a, v), a) == v
    ensures forall b :: b in Put32(mem, a, v) <==> b in mem || a <= b < a + 4
    ensures forall b :: b in mem && !(a <= b < a + 4) ==> Put32(mem, a, v)[b] == mem[b]
  {
    FourDigits(v, v / 0x100, v / 0x1_0000, v / 0x100_0000);
  }

  lemma FourDigits(v: nat, v1: nat, v2: nat, v3: nat)
    requires v < U32_MODULUS && v1 == v / 0x100 && v2 == v / 0x1_0000 && v3 == v / 0x100_0000
    ensures v % 0x100 + 0x100 * (v1 % 0x100) + 0x1_0000 * (v2 % 0x100) + 0x100_0000 * v3 == v
  {
    assert v2 == v1 / 0x100 && v3 == v2 / 0x100;
  }

  // ---------- Sums ----------

  function Sum(blocks: seq<Block>): nat {
    if |blocks| == 0 then 0 else Sum(blocks[..|blocks| - 1]) + blocks[|blocks| - 1].len
  }

  function Without(blocks: seq<Block>, i: nat): seq<Block>
    requires i < |blocks|
  {
    blocks[..i] + blocks[i + 1..]
  }

  lemma {:induction false} SumWithout(blocks: seq<Block>, i: nat)
    requires i < |blocks|
    ensures Sum(blocks) == Sum(Without(blocks, i)) + blocks[i].len
  {
    var n := |blocks| - 1;
    if i == n {
      assert Without(blocks, i) == blocks[..n];
    } else {
      SumWithout(blocks[..n], i);
      var rest := Without(blocks, i);
      assert rest[..|rest| - 1] == Without(blocks[..n], i);
    }
  }

  lemma SumWith(blocks: seq<Block>, b: Block)
    ensures Sum(blocks + [b]) == Sum(blocks) + b.len
  {
    assert (blocks + [b])[..|blocks|] == blocks;
  }

  // ---------- Page arithmetic ----------

  /** The pages hold the block and its header, with less than a page to spare. */
  lemma PagesHoldBlock(b: Block)
    ensures b.len + 8 <= b.Pages() * PAGE_SIZE < b.len + 8 + PAGE_SIZE
    ensures b.Base() + 8 <= b.ptr
  {
  }

  /** The overflow test of calloc is exact. */
  lemma CallocTestIsExact(elemLen: nat, elemCnt: nat, len: nat)
    requires elemLen < U64_MODULUS && 0 < elemCnt < U64_MODULUS && len == elemLen * elemCnt % U64_MODULUS
    ensures len / elemCnt != elemLen <==> elemLen * elemCnt >= U64_MODULUS
  {
    var p := elemLen * elemCnt;
    if p >= U64_MODULUS {
      assert len <= p - U64_MODULUS;
      if len / elemCnt >= elemLen {
        QuotientTimes(len, elemCnt, elemLen);
      }
    } else {
      assert len == p;
      QuotientIsUnique(len, elemCnt, elemLen, 0);
    }
  }

  lemma QuotientTimes(n: nat, d: nat, q: nat)
    requires d > 0 && n / d >= q
    ensures n >= q * d
  {
    assert n >= (n / d) * d;
    assert (n / d - q) * d >= 0;
  }

  // ---------- Blocks in memory ----------

  /** The mapping of a block: its pages and the guard page. */
  function MappingOf(b: Block): Mapping {
    Mapping(if b.Base() >= 0 then b.Base() else 0, b.Pages() + 1)
  }

  /** The header of a block lies below it in its pages, and nothing above it is accessible up to the
      end of the guard page. */
  ghost predicate Intact(mem: Memory, b: Block) {
    && 8 <= b.ptr && 0 <= b.Base() && b.Base() % PAGE_SIZE == 0 && b.len < U32_MODULUS
    && Accessible(mem, b.Base(), b.End())
    && (forall a :: b.End() <= a < b.End() + PAGE_SIZE ==> a !in mem)
    && Get32(mem, b.ptr - 8) == b.len && Get32(mem, b.ptr - 4) == ALLOC_CANARY
  }

  /** All blocks are intact, each in a mapping of its own. */
  ghost predicate Heap(mem: Memory, mappings: seq<Mapping>, blocks: seq<Block>) {
    && (forall k :: 0 <= k < |blocks| ==> Intact(mem, blocks[k]))
    && (forall k :: 0 <= k < |blocks| ==> MappingOf(blocks[k]) in mappings)
    && (forall j, k :: 0 <= j < k < |blocks| ==> MappingOf(blocks[j]).Disjoint(MappingOf(blocks[k])))
  }

  /** Memory differs only inside one mapping. */
  ghost predicate SameOutside(mem: Memory, mem': Memory, m: Mapping) {
    && (forall a :: !(m.base <= a < m.End()) ==> (a in mem <==> a in mem'))
    && (forall a :: a in mem' && !(m.base <= a < m.End()) ==> mem'[a] == mem[a])
  }

  /** The bytes of a block are the same. */
  ghost predicate SameBytes(mem: Memory, mem': Memory, b: Block) {
    forall a :: b.ptr <= a < b.End() ==> a in mem && a in mem' && mem'[a] == mem[a]
  }

  ghost predicate AllSame(mem: Memory, mem': Memory, blocks: seq<Block>) {
    forall k :: 0 <= k < |blocks| ==> SameBytes(mem, mem', blocks[k])
  }

  lemma StaysIntact(mem: Memory, mem': Memory, b: Block, m: Mapping)
    requires Intact(mem, b) && SameOutside(mem, mem', m) && MappingOf(b).Disjoint(m)
    ensures Intact(mem', b) && SameBytes(mem, mem', b)
  {
    PagesHoldBlock(b);
  }

  lemma HeapGrows(mem: Memory, mem': Memory, mappings: seq<Mapping>, blocks: seq<Block>, b: Block)
    requires Heap(mem, mappings, blocks) && Intact(mem', b) && SameOutside(mem, mem', MappingOf(b))
    requires forall m :: m in mappings ==> m.Disjoint(MappingOf(b))
    ensures Heap(mem', mappings + [MappingOf(b)], blocks + [b])
    ensures AllSame(mem, mem', blocks)
  {
    var all, maps := blocks + [b], mappings + [MappingOf(b)];
    forall k | 0 <= k < |blocks| ensures Intact(mem', blocks[k]) && SameBytes(mem, mem', blocks[k]) {
      StaysIntact(mem, mem', blocks[k], MappingOf(b));
    }
    forall k | 0 <= k < |all| ensures Intact(mem', all[k]) && MappingOf(all[k]) in maps {
      if k == |blocks| { assert maps[|mappings|] == MappingOf(all[k]); }
    }
    forall j, k | 0 <= j < k < |all| ensures MappingOf(all[j]).Disjoint(MappingOf(all[k])) {
      assert MappingOf(all[j]) in mappings;
    }
  }

  lemma HeapShrinks(mem: Memory, mem': Memory, mappings: seq<Mapping>, blocks: seq<Block>, i: nat)
    requires Heap(mem, mappings, blocks) && i < |blocks| && SameOutside(mem, mem', MappingOf(blocks[i]))
    ensures Heap(mem', mappings, Without(blocks, i))
    ensures AllSame(mem, mem', Without(blocks, i))
  {
    forall k | 0 <= k < |blocks| && k != i ensures Intact(mem', blocks[k]) && SameBytes(mem, mem', blocks[k]) {
      StaysIntact(mem, mem', blocks[k], MappingOf(blocks[i]));
    }
    AllButOne(mem, mem', blocks, i);
    MappingsWithout(mappings, blocks, i);
  }

  lemma AllButOne(mem: Memory, mem': Memory, blocks: seq<Block>, i: nat)
    requires i < |blocks|
    requires forall k :: 0 <= k < |blocks| && k != i ==> Intact(mem', blocks[k]) && SameBytes(mem, mem', blocks[k])
    ensures forall k :: 0 <= k < |Without(blocks, i)| ==> Intact(mem', Without(blocks, i)[k])
    ensures AllSame(mem, mem', Without(blocks, i))
  {
    var rest := Without(blocks, i);
    forall k | 0 <= k < |rest| ensures Intact(mem', rest[k]) && SameBytes(mem, mem', rest[k]) {
      assert rest[k] == blocks[Original(i, k)];
    }
  }

  lemma MappingsWithout(mappings: seq<Mapping>, blocks: seq<Block>, i: nat)
    requires i < |blocks|
    requires forall k :: 0 <= k < |blocks| ==> MappingOf(blocks[k]) in mappings
    requires forall j, k :: 0 <= j < k < |blocks| ==> MappingOf(blocks[j]).Disjoint(MappingOf(blocks[k]))
    ensures var rest := Without(blocks, i);
      && (forall k :: 0 <= k < |rest| ==> MappingOf(rest[k]) in mappings)
      && forall j, k :: 0 <= j < k < |rest| ==> MappingOf(rest[j]).Disjoint(MappingOf(rest[k]))
  {
    var rest := Without(blocks, i);
    forall j, k | 0 <= j < k < |rest| ensures MappingOf(rest[j]).Disjoint(MappingOf(rest[k])) {
      assert rest[j] == blocks[Original(i, j)] && rest[k] == blocks[Original(i, k)];
    }
    forall k | 0 <= k < |rest| ensures MappingOf(rest[k]) in mappings {
      assert rest[k] == blocks[Original(i, k)];
    }
  }

  /** Where element k was before element i was taken out. */
  function Original(i: nat, k: nat): nat { if k < i then k else k + 1 }

  /** Writing into the bytes of a block harms neither its header nor any other block. */
  lemma HeapWritten(mem: Memory, mem': Memory, mappings: seq<Mapping>, blocks: seq<Block>, i: nat)
    requires Heap(mem, mappings, blocks) && i < |blocks| && mem.Keys == mem'.Keys
    requires forall a :: a in mem && !(blocks[i].ptr <= a < blocks[i].End()) ==> mem'[a] == mem[a]
    ensures Heap(mem', mappings, blocks)
    ensures AllSame(mem, mem', Without(blocks, i))
  {
    PagesHoldBlock(blocks[i]);
    forall k | 0 <= k < |blocks| && k != i ensures Intact(mem', blocks[k]) && SameBytes(mem, mem', blocks[k]) {
      StaysIntact(mem, mem', blocks[k], MappingOf(blocks[i]));
    }
  }

  /** Zeroed pages of which the last is not accessible, and then a header. */
  /** Block b came with a mapping of its own: intact, zero and apart from all others. */
  ghost predicate IsNew(m: Memory, m': Memory, maps: seq<Mapping>, maps': seq<Mapping>, b: Block) {
    && Intact(m', b) && SameOutside(m, m', MappingOf(b))
    && maps' == maps + [MappingOf(b)]
    && (forall p :: p in maps ==> p.Disjoint(MappingOf(b)))
    && (forall a :: b.ptr <= a < b.End() ==> a in m' && m'[a] == 0)
  }

  /** Fresh pages from base on: zero, with a guard page behind them, and apart from all others. */
  ghost predicate FreshPages(m: Memory, m': Memory, maps: seq<Mapping>, base: nat, pages: nat) {
    && base % PAGE_SIZE == 0
    && (forall p :: p in maps ==> p.Disjoint(Mapping(base, pages + 1)))
    && (forall a :: base <= a < base + pages * PAGE_SIZE ==> a in m' && m'[a] == 0)
    && (forall a :: base + pages * PAGE_SIZE <= a < base + (pages + 1) * PAGE_SIZE ==> a !in m')
    && SameOutside(m, m', Mapping(base, pages + 1))
  }

  lemma HeaderFits(m: Memory, m': Memory, maps: seq<Mapping>, base: nat, pages: nat, ptr: nat)
    requires FreshPages(m, m', maps, base, pages) && base + 8 <= ptr <= base + pages * PAGE_SIZE
    ensures Accessible(m', ptr - 8, ptr)
  {
  }

  lemma NewBlockIsNew(m0: Memory, m1: Memory, m2: Memory, maps: seq<Mapping>, base: nat, pages: nat, b: Block)
    requires FreshPages(m0, m1, maps, base, pages) && pages == b.Pages()
    requires b.len < U32_MODULUS && b.ptr >= 8 && b.ptr == base + pages * PAGE_SIZE - b.len
    requires m2.Keys == m1.Keys && forall a :: a in m2 && !(b.ptr - 8 <= a < b.ptr) ==> m2[a] == m1[a]
    requires Accessible(m2, b.ptr - 8, b.ptr) && Get32(m2, b.ptr - 8) == b.len && Get32(m2, b.ptr - 4) == ALLOC_CANARY
    ensures IsNew(m0, m2, maps, maps + [Mapping(base, pages + 1)], b)
  {
    NewBlockIsIntact(m1, m2, base, b);
    assert MappingOf(b) == Mapping(base, pages + 1);
  }

  lemma NewBlockIsIntact(m1: Memory, m2: Memory, base: nat, b: Block)
    requires base % PAGE_SIZE == 0 && b.len < U32_MODULUS && b.ptr >= 8 && b.ptr == base + b.Pages() * PAGE_SIZE - b.len
    requires forall a :: base <= a < base + b.Pages() * PAGE_SIZE ==> a in m1
    requires forall a :: b.End() <= a < b.End() + PAGE_SIZE ==> a !in m1
    requires m2.Keys == m1.Keys
    requires Accessible(m2, b.ptr - 8, b.ptr) && Get32(m2, b.ptr - 8) == b.len && Get32(m2, b.ptr - 4) == ALLOC_CANARY
    ensures Intact(m2, b) && b.Base() == base && b.Base() + 8 <= b.ptr
  {
    PagesHoldBlock(b);
  }

  // ---------- The allocator ----------

  datatype Result = Pointer(ptr: nat) | Null | Abort

  /** The 64-bit sum is tested against the limit and for wrap-around, so that the test is exact. */
  predicate Fits(totalMem: nat, len: nat, maxMem: nat)
    requires totalMem <= maxMem < U32_MODULUS && len < U64_MODULUS
    ensures Fits(totalMem, len, maxMem) <==> totalMem + len <= maxMem
  {
    var sum := (totalMem + len) % U64_MODULUS;
    !(sum > maxMem || sum < totalMem)
  }

  /** What the kernel answers when it is asked for pages: nothing, or aligned room that overlaps no
      mapping it has handed out. */
  ghost predicate IsRoom(room: Option<nat>, pages: nat, mappings: seq<Mapping>) {
    room.Some? ==>
      && room.value > 0 && room.value % PAGE_SIZE == 0
      && forall m :: m in mappings ==> m.Disjoint(Mapping(room.value, pages))
  }

  /** Room for a block and its guard page. */
  ghost predicate IsRoomFor(room: Option<nat>, len: nat, mappings: seq<Mapping>) {
    IsRoom(room, 1 + PgCount(len + 8), mappings)
  }

  class Allocator {
    const maxMem: nat
    const hardFail: bool
    const noCallocOver: bool
    var totalMem: nat
    /** The bytes that can be read and written. */
    var mem: Memory
    var mappings: seq<Mapping>
    ghost var blocks: seq<Block>

    constructor (maxMem: nat, hardFail: bool, noCallocOver: bool)
      requires maxMem < U32_MODULUS
      ensures Valid() && blocks == [] && this.maxMem == maxMem
      ensures this.hardFail == hardFail && this.noCallocOver == noCallocOver
    {
      this.maxMem, this.hardFail, this.noCallocOver := maxMem, hardFail, noCallocOver;
      totalMem, mem, mappings, blocks := 0, map[], [], [];
    }

    /** The sum of the live blocks is what is counted and is within the limit; every block ends at
        its guard page with its header in its own pages. */
    ghost predicate Valid()
      reads this
    {
      && maxMem < U32_MODULUS
      && totalMem == Sum(blocks) <= maxMem
      && Heap(mem, mappings, blocks)
    }

    /** Pages handed out by the kernel. */
    method Mmap(room: Option<nat>, pages: nat) returns (base: Option<nat>)
      requires IsRoom(room, pages, mappings)
      modifies `mem, `mappings
      ensures base == room
      ensures base.None? ==> mem == old(mem) && mappings == old(mappings)
      ensures base.Some? ==>
        && mappings == old(mappings) + [Mapping(base.value, pages)]
        && (forall a :: a in mem <==> a in old(mem) || base.value <= a < base.value + pages * PAGE_SIZE)
        && (forall a :: base.value <= a < base.value + pages * PAGE_SIZE ==> mem[a] == 0)
        && (forall a :: a in old(mem) && !(base.value <= a < base.value + pages * PAGE_SIZE) ==> mem[a] == old(mem)[a])
    {
      if room.Some? {
        mappings := mappings + [Mapping(room.value, pages)];
        mem := mem + Zeros(room.value, pages * PAGE_SIZE);
      }
      base := room;
    }

    /** PROT_NONE for some pages. */
    method Protect(from: nat, pages: nat)
      modifies `mem
      ensures forall a :: a in mem <==> a in old(mem) && !(from <= a < from + pages * PAGE_SIZE)
      ensures forall a :: a in mem ==> mem[a] == old(mem)[a]
    {
      mem := map a | a in mem && !(from <= a < from + pages * PAGE_SIZE) :: mem[a];
    }

    /** The header goes below the pointer. */
    method WriteHeader(ptr: nat, len: nat)
      requires ptr >= 8 && len < U32_MODULUS && Accessible(mem, ptr - 8, ptr)
      modifies `mem
      ensures mem.Keys == old(mem).Keys
      ensures forall a :: a in mem && !(ptr - 8 <= a < ptr) ==> mem[a] == old(mem)[a]
      ensures Get32(mem, ptr - 8) == len && Get32(mem, ptr - 4) == ALLOC_CANARY
    {
      PutGet32(mem, ptr - 8, len);
      mem := Put32(mem, ptr - 8, len);
      PutGet32(mem, ptr - 4, ALLOC_CANARY);
      mem := Put32(mem, ptr - 4, ALLOC_CANARY);
    }

    /** Pages for a block, a guard page behind them and a header below the block. */
    method MapBlock(len: nat, room: Option<nat>) returns (r: Option<nat>)
      requires len < U32_MODULUS && IsRoomFor(room, len, mappings)
      modifies `mem, `mappings
      ensures r.Some? <==> room.Some?
      ensures r.None? ==> mem == old(mem) && mappings == old(mappings)
      ensures r.Some? ==> IsNew(old(mem), mem, old(mappings), mappings, Block(r.value, len))
    {
      var pages := PgCount(len + 8);
      var base := MapPages(room, pages);
      if base.None? { return None; }
      var ptr := PlaceBlock(base.value, pages, len, old(mem), old(mappings));
      r := Some(ptr);
    }

    method EndOfPages(base: nat, pages: nat, len: nat) returns (ptr: nat)
      requires pages == PgCount(len + 8)
      ensures 8 <= ptr && base + 8 <= ptr <= base + pages * PAGE_SIZE
      ensures ptr == base + pages * PAGE_SIZE - len && pages == Block(ptr, len).Pages()
    {
      PagesHoldBlock(Block(0, len));
      ptr := base + (pages * PAGE_SIZE - len - 8);
      ptr := ptr + 8;
    }

    /** The block goes to the end of its pages, with the header below it. */
    method PlaceBlock(base: nat, pages: nat, len: nat, ghost before: Memory, ghost maps: seq<Mapping>) returns (ptr: nat)
      requires len < U32_MODULUS && pages == PgCount(len + 8) && FreshPages(before, mem, maps, base, pages)
      modifies `mem
      ensures IsNew(before, mem, maps, maps + [Mapping(base, pages + 1)], Block(ptr, len))
    {
      ptr := EndOfPages(base, pages, len);
      HeaderFits(before, mem, maps, base, pages, ptr);
      ghost var fresh' := mem;
      WriteHeader(ptr, len);
      NewBlockIsNew(before, fresh', mem, maps, base, pages, Block(ptr, len));
    }

    /** Zeroed pages with a guard page behind them. */
    method MapPages(room: Option<nat>, pages: nat) returns (base: Option<nat>)
      requires IsRoom(room, 1 + pages, mappings)
      modifies `mem, `mappings
      ensures base == room
      ensures base.None? ==> mem == old(mem) && mappings == old(mappings)
      ensures base.Some? ==> mappings == old(mappings) + [Mapping(base.value, pages + 1)]
      ensures base.Some? ==> FreshPages(old(mem), mem, old(mappings), base.value, pages)
    {
      base := Mmap(room, 1 + pages);
      if base.None? { return; }
      Protect(base.value + pages * PAGE_SIZE, 1);
    }

    /** `__dislocator_alloc`: within the limit and with room, a block that ends at its guard page and is
        zero. */
    method Alloc(len: nat, room: Option<nat>) returns (r: Result)
      requires Valid() && len < U64_MODULUS && IsRoomFor(room, len, mappings)
      modifies `totalMem, `mem, `mappings, `blocks
      ensures Valid()
      ensures AllSame(old(mem), mem, old(blocks))
      ensures r.Pointer? <==> old(totalMem) + len <= maxMem && room.Some?
      ensures !r.Pointer? ==> r == if hardFail then Abort else Null
      ensures r.Pointer? ==> blocks == old(blocks) + [Block(r.ptr, len)]
      ensures r.Pointer? ==> forall a :: r.ptr <= a < r.ptr + len ==> a in mem && mem[a] == 0
      ensures !r.Pointer? ==> blocks == old(blocks) && mem == old(mem)
    {
      if !Fits(totalMem, len, maxMem) {
        HeapIsReadable(mem, mappings, blocks);
        return if hardFail then Abort else Null;
      }
      var ptr := MapBlock(len, room);
      if ptr.None? {
        HeapIsReadable(mem, mappings, blocks);
        return if hardFail then Abort else Null;
      }
      ghost var b := Block(ptr.value, len);
      HeapGrows(old(mem), mem, old(mappings), blocks, b);
      CountIn(len, b);
      r := Pointer(ptr.value);
    }

    /** The new block is counted. */
    method CountIn(len: nat, ghost b: Block)
      requires maxMem < U32_MODULUS && totalMem == Sum(blocks) && totalMem + len <= maxMem && len == b.len
      requires Heap(mem, mappings, blocks + [b])
      modifies `totalMem, `blocks
      ensures Valid() && blocks == old(blocks) + [b]
    {
      SumWith(blocks, b);
      totalMem := totalMem + len;
      blocks := blocks + [b];
    }

    method Memset(at: nat, v: byte, n: nat)
      requires Accessible(mem, at, at + n)
      modifies `mem
      ensures mem.Keys == old(mem).Keys
      ensures forall a :: a in mem ==> mem[a] == if at <= a < at + n then v else old(mem)[a]
    {
      for k := 0 to n
        invariant mem.Keys == old(mem).Keys
        invariant forall a :: a in mem ==> mem[a] == if at <= a < at + k then v else old(mem)[a]
      {
        mem := mem[at + k := v];
      }
    }

    method Memcpy(to: nat, from: nat, n: nat)
      requires Accessible(mem, to, to + n) && Accessible(mem, from, from + n)
      requires to + n <= from || from + n <= to
      modifies `mem
      ensures mem.Keys == old(mem).Keys
      ensures forall a :: a in mem && !(to <= a < to + n) ==> mem[a] == old(mem)[a]
      ensures forall a :: to <= a < to + n ==> mem[a] == old(mem)[a - to + from]
    {
      for i := 0 to n
        invariant mem.Keys == old(mem).Keys
        invariant forall a :: a in mem && !(to <= a < to + i) ==> mem[a] == old(mem)[a]
        invariant forall a :: to <= a < to + i ==> mem[a] == old(mem)[a - to + from]
      {
        mem := mem[to + i := mem[from + i]];
      }
    }

    /** The new block is filled with the clobber byte. */
    method Malloc(len: nat, room: Option<nat>) returns (r: Result)
      requires Valid() && len < U64_MODULUS && IsRoomFor(room, len, mappings)
      modifies `totalMem, `mem, `mappings, `blocks
      ensures Valid()
      ensures AllSame(old(mem), mem, old(blocks))
      ensures r.Pointer? <==> old(totalMem) + len <= maxMem && room.Some?
      ensures !r.Pointer? ==> r == if hardFail then Abort else Null
      ensures r.Pointer? ==> blocks == old(blocks) + [Block(r.ptr, len)]
      ensures r.Pointer? ==> forall a :: r.ptr <= a < r.ptr + len ==> a in mem && mem[a] == ALLOC_CLOBBER
      ensures !r.Pointer? ==> blocks == old(blocks) && mem == old(mem)
    {
      r := Alloc(len, room);
      if r.Pointer? && len > 0 { Clobber(Block(r.ptr, len), old(mem), old(blocks)); }
    }

    /** The bytes of the newest block are filled. */
    method Clobber(b: Block, ghost before: Memory, ghost others: seq<Block>)
      requires Valid() && blocks == others + [b] && AllSame(before, mem, others)
      modifies `mem
      ensures Valid() && AllSame(before, mem, others)
      ensures forall a :: b.ptr <= a < b.End() ==> a in mem && mem[a] == ALLOC_CLOBBER
    {
      assert blocks[|others|] == b;
      PagesHoldBlock(b);
      Memset(b.ptr, ALLOC_CLOBBER, b.len);
      LastBlockWritten(before, old(mem), mem, mappings, others, b);
    }

    /** A product n that does not fit is refused; otherwise the block is zero. */
    method Calloc(elemLen: nat, elemCnt: nat, room: Option<nat>) returns (r: Result, ghost n: nat)
      requires Valid() && elemLen < U64_MODULUS && elemCnt < U64_MODULUS
      requires IsRoomFor(room, elemLen * elemCnt, mappings)
      modifies `totalMem, `mem, `mappings, `blocks
      ensures Valid() && n == elemLen * elemCnt
      ensures AllSame(old(mem), mem, old(blocks))
      ensures n >= U64_MODULUS ==> r == if noCallocOver then Null else Abort
      ensures n < U64_MODULUS ==> (r.Pointer? <==> old(totalMem) + n <= maxMem && room.Some?)
      ensures n < U64_MODULUS && !r.Pointer? ==> r == if hardFail then Abort else Null
      ensures r.Pointer? ==> blocks == old(blocks) + [Block(r.ptr, n)]
      ensures r.Pointer? ==> forall a :: r.ptr <= a < r.ptr + n ==> a in mem && mem[a] == 0
      ensures !r.Pointer? ==> blocks == old(blocks) && mem == old(mem)
    {
      var len;
      len, n := CheckedProduct(elemLen, elemCnt);
      if len.None? {
        HeapIsReadable(mem, mappings, blocks);
        r := if noCallocOver then Null else Abort;
        return;
      }
      r := Alloc(len.value, room);
    }

    /** The pages of the block are found again from its header and become inaccessible; the mapping
        stays. */
    method Free(ptr: nat, ghost i: nat)
      requires Valid() && (ptr != 0 ==> i < |blocks| && blocks[i].ptr == ptr)
      modifies `totalMem, `mem, `blocks
      ensures Valid()
      ensures ptr == 0 ==> blocks == old(blocks) && mem == old(mem)
      ensures ptr != 0 ==>
        && blocks == Without(old(blocks), i)
        && AllSame(old(mem), mem, Without(old(blocks), i))
        && forall a :: old(blocks)[i].Base() <= a < old(blocks)[i].End() + PAGE_SIZE ==> a !in mem
    {
      if ptr == 0 { return; }
      var len := Unmap(ptr, blocks[i]);
      SumWithout(blocks, i);
      totalMem := totalMem - len;
      HeapShrinks(old(mem), mem, mappings, blocks, i);
      blocks := Without(blocks, i);
    }

    method Unmap(ptr: nat, ghost b: Block) returns (len: nat)
      requires Intact(mem, b) && ptr == b.ptr
      modifies `mem
      ensures len == b.len && SameOutside(old(mem), mem, MappingOf(b))
      ensures forall a :: b.Base() <= a < b.End() + PAGE_SIZE ==> a !in mem
    {
      PagesHoldBlock(b);
      assert Get32(mem, ptr - 4) == ALLOC_CANARY;
      len := Get32(mem, ptr - 8);
      var base := ptr - (PAGE_SIZE * PgCount(len + 8) - len - 8) - 8;
      assert base == b.Base();
      Protect(base, PgCount(len + 8));
    }

    /** The old content goes to the newest block, as far as it fits. */
    method CopyContent(ptr: nat, b: Block, ghost before: Memory, ghost others: seq<Block>, ghost i: nat)
      requires Valid() && blocks == others + [b] && i < |others| && others[i].ptr == ptr && AllSame(before, mem, others)
      modifies `mem
      ensures Valid() && AllSame(before, mem, others) && Moved(before, mem, others[i], b)
    {
      TwoBlocks(mem, mappings, others, b, i);
      CopyBytes(ptr, b, others[i], before);
      LastBlockWritten(before, old(mem), mem, mappings, others, b);
    }

    method CopyBytes(ptr: nat, b: Block, ghost o: Block, ghost before: Memory)
      requires 8 <= o.ptr == ptr && Accessible(mem, o.ptr - 8, o.End()) && Accessible(mem, b.ptr, b.End())
      requires Get32(mem, o.ptr - 8) == o.len && (o.End() <= b.ptr || b.End() <= o.ptr)
      requires SameBytes(before, mem, o)
      modifies `mem
      ensures mem.Keys == old(mem).Keys && Moved(before, mem, o, b)
      ensures forall a :: a in mem && !(b.ptr <= a < b.End()) ==> mem[a] == old(mem)[a]
    {
      var oldLen := Get32(mem, ptr - 8);
      var n := Min(b.len, oldLen);
      Memcpy(b.ptr, ptr, n);
    }

    /** A new block with the old content as far as it fits, after which the old block is freed; if
        there is no new block, the old one is left as it was. */
    method Realloc(ptr: nat, len: nat, room: Option<nat>, ghost i: nat) returns (r: Result)
      requires Valid() && len < U64_MODULUS && IsRoomFor(room, len, mappings) && (ptr != 0 ==> i < |blocks| && blocks[i].ptr == ptr)
      modifies `totalMem, `mem, `mappings, `blocks
      ensures Valid()
      ensures !r.Pointer? ==> blocks == old(blocks) && mem == old(mem)
      ensures r.Pointer? && ptr == 0 ==> blocks == old(blocks) + [Block(r.ptr, len)] && AllSame(old(mem), mem, old(blocks))
      ensures r.Pointer? && ptr != 0 ==>
        && blocks == Without(old(blocks), i) + [Block(r.ptr, len)]
        && AllSame(old(mem), mem, Without(old(blocks), i))
        && Moved(old(mem), mem, old(blocks)[i], Block(r.ptr, len))
      ensures r.Pointer? <==> old(totalMem) + len <= maxMem && room.Some?
      ensures !r.Pointer? ==> r == if hardFail then Abort else Null
    {
      r := Malloc(len, room);
      if r.Pointer? && ptr != 0 { MoveInto(ptr, Block(r.ptr, len), old(mem), old(blocks), i); }
    }

    method MoveInto(ptr: nat, b: Block, ghost before: Memory, ghost others: seq<Block>, ghost i: nat)
      requires Valid() && blocks == others + [b] && ptr != 0
      requires i < |others| && others[i].ptr == ptr && AllSame(before, mem, others)
      modifies `totalMem, `mem, `blocks
      ensures Valid() && blocks == Without(others, i) + [b]
      ensures AllSame(before, mem, Without(others, i)) && Moved(before, mem, others[i], b)
    {
      CopyContent(ptr, b, before, others, i);
      ghost var copied := mem;
      assert blocks[i] == others[i];
      Free(ptr, i);
      FreedBehind(before, copied, mem, others, i, b);
    }
  }

  /** The bytes of one block, as many as fit, have become those of another. */
  ghost predicate Moved(m0: Memory, m1: Memory, from: Block, to: Block) {
    forall a :: to.ptr <= a < to.ptr + Min(to.len, from.len) ==>
      a in m1 && a - to.ptr + from.ptr in m0 && m1[a] == m0[a - to.ptr + from.ptr]
  }

  lemma TwoBlocks(mem: Memory, mappings: seq<Mapping>, others: seq<Block>, b: Block, i: nat)
    requires Heap(mem, mappings, others + [b]) && i < |others|
    ensures 8 <= others[i].ptr && Accessible(mem, others[i].ptr - 8, others[i].End()) && Accessible(mem, b.ptr, b.End())
    ensures Get32(mem, others[i].ptr - 8) == others[i].len
    ensures others[i].End() <= b.ptr || b.End() <= others[i].ptr
  {
    var o, blocks := others[i], others + [b];
    assert blocks[i] == o && blocks[|others|] == b;
    PagesHoldBlock(b);
    PagesHoldBlock(o);
    assert MappingOf(o).Disjoint(MappingOf(b));
  }

  lemma FreedBehind(m0: Memory, m1: Memory, m2: Memory, others: seq<Block>, i: nat, b: Block)
    requires i < |others| && AllSame(m0, m1, others) && AllSame(m1, m2, Without(others + [b], i))
    requires Moved(m0, m1, others[i], b)
    ensures Without(others + [b], i) == Without(others, i) + [b]
    ensures AllSame(m0, m2, Without(others, i)) && Moved(m0, m2, others[i], b)
  {
    var rest := Without(others, i);
    assert Without(others + [b], i) == rest + [b];
    assert (rest + [b])[|rest|] == b;
    forall k | 0 <= k < |rest| ensures SameBytes(m0, m2, rest[k]) {
      assert (rest + [b])[k] == rest[k];
      var j := if k < i then k else k + 1;
      assert others[j] == rest[k];
      assert SameBytes(m0, m1, others[j]) && SameBytes(m1, m2, rest[k]);
    }
  }

  method CheckedProduct(elemLen: nat, elemCnt: nat) returns (r: Option<nat>, ghost n: nat)
    requires elemLen < U64_MODULUS && elemCnt < U64_MODULUS
    ensures n == elemLen * elemCnt
    ensures r == if elemLen * elemCnt >= U64_MODULUS then None else Some(elemLen * elemCnt)
  {
    var len := elemLen * elemCnt % U64_MODULUS;
    n := elemLen * elemCnt;
    if elemCnt == 0 { return Some(len), n; }
    CallocTestIsExact(elemLen, elemCnt, len);
    r := if len / elemCnt != elemLen then None else Some(len);
  }

  lemma SameThroughout(m0: Memory, m1: Memory, m2: Memory, blocks: seq<Block>)
    requires AllSame(m0, m1, blocks) && AllSame(m1, m2, blocks)
    ensures AllSame(m0, m2, blocks)
  {
    forall k | 0 <= k < |blocks| ensures SameBytes(m0, m2, blocks[k]) {
      assert SameBytes(m0, m1, blocks[k]) && SameBytes(m1, m2, blocks[k]);
    }
  }

  lemma LastBlockWritten(m0: Memory, m1: Memory, m2: Memory, mappings: seq<Mapping>, blocks: seq<Block>, b: Block)
    requires Heap(m1, mappings, blocks + [b]) && AllSame(m0, m1, blocks) && m1.Keys == m2.Keys
    requires forall a :: a in m1 && !(b.ptr <= a < b.End()) ==> m2[a] == m1[a]
    ensures Heap(m2, mappings, blocks + [b]) && AllSame(m0, m2, blocks)
  {
    HeapWritten(m1, m2, mappings, blocks + [b], |blocks|);
    assert Without(blocks + [b], |blocks|) == blocks;
    SameThroughout(m0, m1, m2, blocks);
  }

  lemma HeapIsReadable(mem: Memory, mappings: seq<Mapping>, blocks: seq<Block>)
    requires Heap(mem, mappings, blocks)
    ensures AllSame(mem, mem, blocks)
  {
    forall k | 0 <= k < |blocks| ensures SameBytes(mem, mem, blocks[k]) { PagesHoldBlock(blocks[k]); }
  }
}
