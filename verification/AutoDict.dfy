/** The table of automatically found tokens of afl-fuzz. */
module AutoDict {
  import opened Redundancy
  import opened AutoTokens

  const USE_AUTO_EXTRAS: nat := 50
  const MAX_AUTO_EXTRAS: nat := 500

  datatype Extra = Extra(data: seq<u8>, hits: nat)

  // ---------- Comparing tokens ----------

  function ToLower(c: u8): u8 { if 'A' as u8 <= c <= 'Z' as u8 then c + 32 else c }

  predicate SameNoCase(a: seq<u8>, b: seq<u8>) {
    |a| == |b| && forall k :: 0 <= k < |a| ==> ToLower(a[k]) == ToLower(b[k])
  }

  /** Bytes are the same up to case if they are equal or the two forms of one of the 26 letters. */
  lemma SameLetter(a: u8, b: u8)
    ensures ToLower(a) == ToLower(b) <==> a == b || (65 <= a <= 90 && b == a + 32) || (65 <= b <= 90 && a == b + 32)
  {
  }

  /** 0 if the first `len` bytes agree up to the case of letters. */
  method MemcmpNocase(m1: seq<u8>, m2: seq<u8>) returns (differ: bool)
    requires |m1| == |m2|
    ensures !differ <==> SameNoCase(m1, m2)
  {
    for k := 0 to |m1|
      invariant forall j :: 0 <= j < k ==> ToLower(m1[j]) == ToLower(m2[j])
    {
      if ToLower(m1[k]) ^ ToLower(m2[k]) != 0 {
        assert ToLower(m1[k]) != ToLower(m2[k]);
        return true;
      }
      assert ToLower(m1[k]) == ToLower(m2[k]);
    }
    return false;
  }

  // ---------- Which tokens are admitted ----------

  predicate OneByteOnly(mem: seq<u8>) { forall k :: 0 <= k < |mem| ==> mem[k] == mem[0] }

  /** A 16-bit token is compared as an unsigned number with signed values, so that negative values
      are only recognised with their bytes swapped. */
  predicate Interesting16(x: u16, v: u16) { (v < 0x8000 && x == v) || x == Swap16(v) }

  predicate Interesting32(x: u32, v: u32) { x == v || x == Swap32(v) }

  ghost predicate BuiltInWord(x: u32) {
    exists k :: 0 <= k < |INTERESTING_32| && Interesting32(x, INTERESTING_32[k])
  }

  ghost predicate BuiltIn(mem: seq<u8>) {
    || (|mem| == 2 && exists k :: 0 <= k < |INTERESTING_16| && Interesting16(Load16(mem[0], mem[1]), INTERESTING_16[k]))
    || (|mem| == 4 && BuiltInWord(Load32(mem[0], mem[1], mem[2], mem[3])))
  }

  /** Not a run of one byte, not a built-in value and, up to case, not a user token. */
  ghost predicate Admissible(mem: seq<u8>, extras: seq<seq<u8>>) {
    && !OneByteOnly(mem) && !BuiltIn(mem)
    && forall k :: 0 <= k < |extras| ==> !SameNoCase(extras[k], mem)
  }

  method IsRunOfOneByte(mem: seq<u8>) returns (r: bool)
    requires |mem| > 0
    ensures r <==> OneByteOnly(mem)
  {
    var i := 1;
    while i < |mem| && mem[0] ^ mem[i] == 0
      invariant 1 <= i <= |mem| && forall k :: 0 <= k < i ==> mem[k] == mem[0]
    {
      assert mem[0] == mem[i];
      i := i + 1;
    }
    if i < |mem| { assert mem[i] != mem[0]; }
    return i == |mem|;
  }

  method IsBuiltIn(mem: seq<u8>) returns (r: bool)
    ensures r <==> BuiltIn(mem)
  {
    if |mem| == 2 {
      var x := Load16(mem[0], mem[1]);
      for k := |INTERESTING_16| downto 0
        invariant forall l :: k <= l < |INTERESTING_16| ==> !Interesting16(x, INTERESTING_16[l])
      {
        if Interesting16(x, INTERESTING_16[k]) { return true; }
      }
    }
    if |mem| == 4 {
      var x := Load32(mem[0], mem[1], mem[2], mem[3]);
      for k := |INTERESTING_32| downto 0
        invariant forall l :: k <= l < |INTERESTING_32| ==> !Interesting32(x, INTERESTING_32[l])
      {
        if Interesting32(x, INTERESTING_32[k]) { return true; }
      }
    }
    return false;
  }

  /** No token that the program passes on has two bytes: it only ever compares with 32-bit values. */
  lemma TokensMeetOnlyWords(mem: seq<u8>)
    requires TokenLength(|mem|)
    ensures BuiltIn(mem) <==> |mem| == 4 && var x := Load32(mem[0], mem[1], mem[2], mem[3]);
                                           x in INTERESTING_32 || Swap32(x) in INTERESTING_32
  {
    if |mem| == 4 { WordIsBuiltIn(Load32(mem[0], mem[1], mem[2], mem[3])); }
  }

  lemma WordIsBuiltIn(x: u32)
    ensures BuiltInWord(x) <==> x in INTERESTING_32 || Swap32(x) in INTERESTING_32
  {
    forall k | 0 <= k < |INTERESTING_32| ensures x == Swap32(INTERESTING_32[k]) <==> Swap32(x) == INTERESTING_32[k] {
      SwapsBack(x, INTERESTING_32[k]);
    }
    if x in INTERESTING_32 {
      var k :| 0 <= k < |INTERESTING_32| && INTERESTING_32[k] == x;
      assert Interesting32(x, INTERESTING_32[k]);
    }
    if Swap32(x) in INTERESTING_32 {
      var k :| 0 <= k < |INTERESTING_32| && INTERESTING_32[k] == Swap32(x);
      assert Interesting32(x, INTERESTING_32[k]);
    }
  }

  lemma SwapsBack(x: u32, v: u32)
    ensures x == Swap32(v) <==> Swap32(x) == v
  {
    var y, z := Swap32(x), Swap32(v);
    SwappedTwice(x, y, Swap32(y));
    SwappedTwice(v, z, Swap32(z));
  }

  lemma SwappedTwice(x: u32, y: u32, z: u32)
    requires y == Swap32(x) && z == Swap32(y)
    ensures z == x
  {
  }

  /** Of all tokens of two bytes that are a built-in value in either byte order, only -128 stored low
      byte first would not be recognised. */
  lemma OnlyOneHalfIsMissed(mem: seq<u8>)
    requires |mem| == 2
    ensures var x := Load16(mem[0], mem[1]);
      BuiltIn(mem) <==> (x in INTERESTING_16 || Swap16(x) in INTERESTING_16) && mem != [0x80, 0xff]
  {
    var x, y := Load16(mem[0], mem[1]), Swap16(Load16(mem[0], mem[1]));
    SwapTwice(x);
    forall k | 0 <= k < |INTERESTING_16| ensures x == Swap16(INTERESTING_16[k]) <==> y == INTERESTING_16[k] {
      SwapTwice(INTERESTING_16[k]);
    }
    assert mem == [mem[0], mem[1]];
    MissedHalf(mem[0], mem[1]);
    if x in INTERESTING_16 {
      var k :| 0 <= k < |INTERESTING_16| && INTERESTING_16[k] == x;
      if x < 0x8000 { assert Interesting16(x, INTERESTING_16[k]); }
      if x >= 0x8000 && x != 0xff80 { NegativesSwapped(x, k); }
    }
    if y in INTERESTING_16 {
      var k :| 0 <= k < |INTERESTING_16| && INTERESTING_16[k] == y;
      assert Interesting16(x, INTERESTING_16[k]);
    }
    if x == 0xff80 {
      forall k | 0 <= k < |INTERESTING_16| ensures !Interesting16(x, INTERESTING_16[k]) {
        NotMinus128(INTERESTING_16[k], k);
      }
    }
  }

  lemma SwapTwice(x: u16)
    ensures Swap16(Swap16(x)) == x
  {
  }

  lemma MissedHalf(lo: u8, hi: u8)
    ensures Load16(lo, hi) == 0xff80 <==> lo == 0x80 && hi == 0xff
  {
  }

  /** The other negative values are, with their bytes swapped, built-in values too. */
  lemma NegativesSwapped(x: u16, k: nat)
    requires k < |INTERESTING_16| && x == INTERESTING_16[k] && x >= 0x8000 && x != 0xff80
    ensures exists j :: 0 <= j < |INTERESTING_16| && Interesting16(x, INTERESTING_16[j])
  {
    assert INTERESTING_16[1] == 0xffff && INTERESTING_16[11] == 128 && INTERESTING_16[18] == 32767;
    assert Swap16(0xffff) == 0xffff && Swap16(128) == 0x8000 && Swap16(32767) == 0xff7f;
    assert x == 0xffff || x == 0x8000 || x == 0xff7f;
    var j := if x == 0xffff then 1 else if x == 0x8000 then 11 else 18;
    assert Interesting16(x, INTERESTING_16[j]);
  }

  lemma NotMinus128(v: u16, k: nat)
    requires k < |INTERESTING_16| && v == INTERESTING_16[k]
    ensures Swap16(v) != 0xff80
  {
  }

  ghost predicate ByLength(toks: seq<seq<u8>>) {
    forall j, k :: 0 <= j < k < |toks| ==> |toks[j]| <= |toks[k]|
  }

  /** The scan stops at the first longer token; because the user tokens are in order of length it
      finds what a full scan finds. */
  method MatchesUserToken(mem: seq<u8>, extras: seq<seq<u8>>) returns (r: bool)
    requires ByLength(extras)
    ensures r <==> exists k :: 0 <= k < |extras| && SameNoCase(extras[k], mem)
  {
    var i := 0;
    while i < |extras| && |extras[i]| < |mem|
      invariant 0 <= i <= |extras| && forall k :: 0 <= k < i ==> |extras[k]| < |mem|
    {
      i := i + 1;
    }
    while i < |extras| && |extras[i]| == |mem|
      invariant 0 <= i <= |extras| && forall k :: 0 <= k < i ==> !SameNoCase(extras[k], mem)
    {
      var differ := MemcmpNocase(extras[i], mem);
      if !differ { return true; }
      i := i + 1;
    }
    return false;
  }

  // ---------- Sorting ----------

  datatype Key = ByHits | BySize {
    /** Sorting is by ascending rank. */
    function Rank(e: Extra): int { if ByHits? then (-1) * e.hits else |e.data| }
  }

  ghost predicate Ranked(s: seq<Extra>, key: Key) {
    forall j, k :: 0 <= j < k < |s| ==> key.Rank(s[j]) <= key.Rank(s[k])
  }

  method InsertRanked(r: seq<Extra>, x: Extra, key: Key) returns (r': seq<Extra>)
    requires Ranked(r, key)
    ensures multiset(r') == multiset(r) + multiset{x} && Ranked(r', key)
  {
    var i := |r|;
    while i > 0 && key.Rank(r[i - 1]) > key.Rank(x)
      invariant 0 <= i <= |r| && forall k :: i <= k < |r| ==> key.Rank(r[k]) > key.Rank(x)
    {
      i := i - 1;
    }
    r' := r[..i] + [x] + r[i..];
    InsertedOnce(r, i, x);
    RankedInsertion(r, i, x, key);
  }

  lemma InsertedOnce(r: seq<Extra>, i: nat, x: Extra)
    requires i <= |r|
    ensures multiset(r[..i] + [x] + r[i..]) == multiset(r) + multiset{x}
  {
    assert r == r[..i] + r[i..];
  }

  lemma RankedInsertion(r: seq<Extra>, i: nat, x: Extra, key: Key)
    requires Ranked(r, key) && i <= |r|
    requires i > 0 ==> key.Rank(r[i - 1]) <= key.Rank(x)
    requires forall k :: i <= k < |r| ==> key.Rank(r[k]) > key.Rank(x)
    ensures Ranked(r[..i] + [x] + r[i..], key)
  {
    var s := r[..i] + [x] + r[i..];
    forall j, k | 0 <= j < k < |s| ensures key.Rank(s[j]) <= key.Rank(s[k]) {
      if j < i <= k { assert key.Rank(r[j]) <= key.Rank(r[i - 1]); }
    }
  }

  /** Stands for `qsort`: callers rely on nothing but the order and on the same elements. */
  method Sort(s: seq<Extra>, key: Key) returns (r: seq<Extra>)
    ensures multiset(r) == multiset(s) && Ranked(r, key)
  {
    r := [];
    for n := 0 to |s|
      invariant multiset(r) == multiset(s[..n]) && Ranked(r, key)
    {
      r := InsertRanked(r, s[n], key);
      assert s[..n + 1] == s[..n] + [s[n]];
    }
    assert s[..|s|] == s;
  }

  // ---------- The table ----------

  /** No entry twice, and no two entries that differ only in case. */
  ghost predicate Distinct(m: multiset<Extra>) {
    && (forall e :: m[e] <= 1)
    && (forall d, e :: d in m && e in m && d != e ==> !SameNoCase(d.data, e.data))
  }

  function InUse(n: nat): nat { if USE_AUTO_EXTRAS > n then n else USE_AUTO_EXTRAS }

  /** The entries in use are in order of size; no entry has more hits than one in use, and the
      others are in descending order of hits. */
  ghost predicate Arranged(s: seq<Extra>) {
    var m := InUse(|s|);
    && (forall j, k :: 0 <= j < k < m ==> |s[j].data| <= |s[k].data|)
    && (forall j, k :: 0 <= j < k < |s| && m <= k ==> s[j].hits >= s[k].hits)
  }

  lemma DistinctIsPairwise(s: seq<Extra>, j: nat, k: nat)
    requires Distinct(multiset(s)) && j < k < |s|
    ensures !SameNoCase(s[j].data, s[k].data)
  {
    if s[j] == s[k] { CountedTwice(s, j, k); }
  }

  lemma CountedTwice(s: seq<Extra>, j: nat, k: nat)
    requires j < k < |s| && s[j] == s[k]
    ensures multiset(s)[s[j]] >= 2
  {
    assert s == s[..k] + s[k..];
    assert s[j] in s[..k] && s[k] in s[k..];
    assert multiset(s)[s[j]] == multiset(s[..k])[s[j]] + multiset(s[k..])[s[j]];
  }

  /** First everything by hits, then the entries in use by size. */
  method SortTable(s: seq<Extra>) returns (r: seq<Extra>)
    ensures multiset(r) == multiset(s) && Arranged(r)
  {
    var byHits := Sort(s, ByHits);
    var m := InUse(|s|);
    SameSize(byHits, s);
    var top := Sort(byHits[..m], BySize);
    SameSize(top, byHits[..m]);
    r := top + byHits[m..];
    assert byHits == byHits[..m] + byHits[m..];
    TopStaysOnTop(byHits, m, top);
  }

  lemma SameSize(s: seq<Extra>, t: seq<Extra>)
    requires multiset(s) == multiset(t)
    ensures |s| == |t|
  {
    assert |multiset(s)| == |multiset(t)|;
  }

  lemma TopStaysOnTop(byHits: seq<Extra>, m: nat, top: seq<Extra>)
    requires Ranked(byHits, ByHits) && m == InUse(|byHits|)
    requires |top| == m && multiset(top) == multiset(byHits[..m]) && Ranked(top, BySize)
    ensures Arranged(top + byHits[m..])
  {
    var r := top + byHits[m..];
    forall j, k | 0 <= j < k < |r| && m <= k ensures r[j].hits >= r[k].hits {
      var i := j;
      if j < m {
        assert r[j] in multiset(byHits[..m]);
        i :| 0 <= i < m && byHits[i] == r[j];
      }
      assert ByHits.Rank(byHits[i]) <= ByHits.Rank(byHits[k]);
    }
    forall j, k | 0 <= j < k < m ensures |r[j].data| <= |r[k].data| {
      assert BySize.Rank(top[j]) <= BySize.Rank(top[k]);
    }
  }

  /** What one admissible token does to the table: the entry at `at` that equals it up to case
      gains a hit, or else it is added without hits, in a full table instead of the entry at `at`
      in the lower half. */
  ghost predicate Updated(s: seq<Extra>, t: multiset<Extra>, mem: seq<u8>, at: nat) {
    if at < |s| && SameNoCase(s[at].data, mem)
    then t == multiset(s) - multiset{s[at]} + multiset{Extra(s[at].data, s[at].hits + 1)}
    else
      && (forall k :: 0 <= k < |s| ==> !SameNoCase(s[k].data, mem))
      && if |s| < MAX_AUTO_EXTRAS then t == multiset(s) + multiset{Extra(mem, 0)}
         else MAX_AUTO_EXTRAS / 2 <= at < |s| && t == multiset(s) - multiset{s[at]} + multiset{Extra(mem, 0)}
  }

  /** The entry for the token has one hit more than before, or none if it is new; and every other entry
      is as before, except for the one a new token replaced in a full table. */
  lemma UpdatedMeans(s: seq<Extra>, t: seq<Extra>, mem: seq<u8>, at: nat)
    requires Updated(s, multiset(t), mem, at) && Distinct(multiset(s))
    ensures exists k :: 0 <= k < |t| && SameNoCase(t[k].data, mem)
              && t[k].hits == if at < |s| && SameNoCase(s[at].data, mem) then s[at].hits + 1 else 0
    ensures forall k :: 0 <= k < |s| && k != at ==> s[k] in t
    ensures |t| == |s| + if |s| >= 500 || (at < |s| && SameNoCase(s[at].data, mem)) then 0 else 1
  {
    var known := at < |s| && SameNoCase(s[at].data, mem);
    var e := if known then Extra(s[at].data, s[at].hits + 1) else Extra(mem, 0);
    assert e in multiset(t);
    assert SameNoCase(e.data, mem);
    var k: nat :| k < |t| && t[k] == e;
    forall j | 0 <= j < |s| && j != at ensures s[j] in t {
      if at < |s| && s[j] == s[at] { CountedTwice(s, if j < at then j else at, if j < at then at else j); }
      assert s[j] in multiset(s);
      assert s[j] in multiset(t);
    }
    assert |multiset(t)| == |t| && |multiset(s)| == |s|;
  }

  class Table {
    /** The user tokens, in order of length. */
    const extras: seq<seq<u8>>
    var aExtras: seq<Extra>
    var autoChanged: bool

    constructor (extras: seq<seq<u8>>)
      requires ByLength(extras)
      ensures Valid() && aExtras == [] && this.extras == extras
    {
      this.extras := extras;
      aExtras, autoChanged := [], false;
    }

    ghost predicate Valid()
      reads `aExtras
    {
      && ByLength(extras)
      && |aExtras| <= MAX_AUTO_EXTRAS
      && Distinct(multiset(aExtras)) && Arranged(aExtras)
      && forall k :: 0 <= k < |aExtras| ==> Admissible(aExtras[k].data, extras)
    }

    /** The index of the entry that equals mem up to case, or the number of entries. */
    method Find(mem: seq<u8>) returns (i: nat)
      ensures i <= |aExtras|
      ensures i < |aExtras| ==> SameNoCase(aExtras[i].data, mem)
      ensures i == |aExtras| ==> forall k :: 0 <= k < |aExtras| ==> !SameNoCase(aExtras[k].data, mem)
    {
      i := 0;
      while i < |aExtras|
        invariant 0 <= i <= |aExtras| && forall k :: 0 <= k < i ==> !SameNoCase(aExtras[k].data, mem)
      {
        if |aExtras[i].data| == |mem| {
          var differ := MemcmpNocase(aExtras[i].data, mem);
          if !differ { return; }
        }
        i := i + 1;
      }
    }

    /** One call: an inadmissible token changes nothing.  `dice` is the random number below half the
        table size. */
    method MaybeAdd(mem: seq<u8>, dice: nat) returns (ghost at: nat)
      requires Valid() && |mem| > 0 && dice < MAX_AUTO_EXTRAS / 2
      modifies this
      ensures Valid()
      ensures !Admissible(mem, extras) ==> aExtras == old(aExtras) && autoChanged == old(autoChanged)
      ensures Admissible(mem, extras) ==> autoChanged && Updated(old(aExtras), multiset(aExtras), mem, at)
      ensures Admissible(mem, extras) ==>
        || (at < |old(aExtras)| && SameNoCase(old(aExtras)[at].data, mem))
        || at == if |old(aExtras)| < 500 then |old(aExtras)| else 250 + dice
      ensures (forall k :: 0 <= k < |mem| ==> mem[k] == mem[0]) || BuiltIn(mem)
              || (exists k :: 0 <= k < |extras| && SameNoCase(extras[k], mem))
              <==> !Admissible(mem, extras)
    {
      at := 0;
      var skip := IsRunOfOneByte(mem);
      if !skip { skip := IsBuiltIn(mem); }
      if !skip { skip := MatchesUserToken(mem, extras); }
      if !skip {
        autoChanged := true;
        at := Add(mem, dice);
      }
    }

    method Add(mem: seq<u8>, dice: nat) returns (ghost at: nat)
      requires Valid() && |mem| > 0 && dice < MAX_AUTO_EXTRAS / 2 && Admissible(mem, extras)
      modifies `aExtras
      ensures Valid() && Updated(old(aExtras), multiset(aExtras), mem, at)
      ensures (at < |old(aExtras)| && SameNoCase(old(aExtras)[at].data, mem)) || at == if |old(aExtras)| < 500 then |old(aExtras)| else 250 + dice
    {
      var next;
      next, at := Counted(mem, dice);
      var sorted := SortTable(next);
      SameSize(sorted, next);
      StillAdmissible(aExtras, sorted, mem, at, extras);
      aExtras := sorted;
    }

    /** The table with the token counted or added, before sorting. */
    method Counted(mem: seq<u8>, dice: nat) returns (next: seq<Extra>, ghost at: nat)
      requires |aExtras| <= MAX_AUTO_EXTRAS && Distinct(multiset(aExtras)) && dice < MAX_AUTO_EXTRAS / 2
      ensures |next| <= MAX_AUTO_EXTRAS && Distinct(multiset(next))
      ensures Updated(aExtras, multiset(next), mem, at)
      ensures (at < |aExtras| && SameNoCase(aExtras[at].data, mem)) || at == if |aExtras| < 500 then |aExtras| else 250 + dice
    {
      var i := Find(mem);
      if i < |aExtras| {
        next := aExtras[i := aExtras[i].(hits := aExtras[i].hits + 1)];
        MoreHits(aExtras, i, next, mem);
      } else if |aExtras| < MAX_AUTO_EXTRAS {
        next := aExtras + [Extra(mem, 0)];
        Appended(aExtras, i, next, mem);
      } else {
        i := MAX_AUTO_EXTRAS / 2 + dice;
        next := aExtras[i := Extra(mem, 0)];
        Replaced(aExtras, i, next, mem);
      }
      at := i;
    }
  }

  lemma StillAdmissible(s: seq<Extra>, t: seq<Extra>, mem: seq<u8>, at: nat, extras: seq<seq<u8>>)
    requires Updated(s, multiset(t), mem, at) && Admissible(mem, extras)
    requires forall k :: 0 <= k < |s| ==> Admissible(s[k].data, extras)
    ensures forall k :: 0 <= k < |t| ==> Admissible(t[k].data, extras)
  {
    forall k | 0 <= k < |t| ensures Admissible(t[k].data, extras) {
      KnownData(s, t, mem, at, k);
    }
  }

  lemma KnownData(s: seq<Extra>, t: seq<Extra>, mem: seq<u8>, at: nat, k: nat)
    requires Updated(s, multiset(t), mem, at) && k < |t|
    ensures t[k].data == mem || exists i :: 0 <= i < |s| && s[i].data == t[k].data
  {
    assert t[k] in multiset(t);
    if t[k] in multiset(s) { assert t[k] in s; }
  }

  lemma MoreHits(s: seq<Extra>, i: nat, t: seq<Extra>, mem: seq<u8>)
    requires i < |s| && t == s[i := s[i].(hits := s[i].hits + 1)] && Distinct(multiset(s)) && SameNoCase(s[i].data, mem)
    ensures Distinct(multiset(t)) && Updated(s, multiset(t), mem, i)
  {
    Without(multiset(s), s[i]);
    forall d | d in multiset(s) - multiset{s[i]} ensures !SameNoCase(d.data, t[i].data) {
      assert d != s[i];
    }
    NewEntry(multiset(s) - multiset{s[i]}, t[i]);
  }

  lemma Appended(s: seq<Extra>, i: nat, t: seq<Extra>, mem: seq<u8>)
    requires |s| < MAX_AUTO_EXTRAS && i == |s| && t == s + [Extra(mem, 0)] && Distinct(multiset(s))
    requires forall k :: 0 <= k < |s| ==> !SameNoCase(s[k].data, mem)
    ensures Distinct(multiset(t)) && Updated(s, multiset(t), mem, i)
  {
    NewEntry(multiset(s), Extra(mem, 0));
  }

  lemma Replaced(s: seq<Extra>, i: nat, t: seq<Extra>, mem: seq<u8>)
    requires MAX_AUTO_EXTRAS / 2 <= i < |s| == MAX_AUTO_EXTRAS && t == s[i := Extra(mem, 0)] && Distinct(multiset(s))
    requires forall k :: 0 <= k < |s| ==> !SameNoCase(s[k].data, mem)
    ensures Distinct(multiset(t)) && Updated(s, multiset(t), mem, i)
  {
    Without(multiset(s), s[i]);
    NewEntry(multiset(s) - multiset{s[i]}, t[i]);
  }

  lemma Without(m: multiset<Extra>, e: Extra)
    requires Distinct(m) && e in m
    ensures Distinct(m - multiset{e}) && e !in m - multiset{e}
  {
  }

  lemma NewEntry(m: multiset<Extra>, e: Extra)
    requires Distinct(m) && forall d :: d in m ==> !SameNoCase(d.data, e.data)
    ensures Distinct(m + multiset{e})
  {
    assert SameNoCase(e.data, e.data);
  }
}
