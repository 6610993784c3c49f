/** The favoured set: for every map index the cheapest entry that covers it, with reference
    counts on the winners' compacted traces, and the greedy cover computed from the winners. */
module TopRated {
  import opened Bytes
  import opened Coverage

  const MINI_SIZE: nat := MAP_SIZE / 8

  // ---------- Compacted traces: one bit per index ----------

  function IndexMask(k: nat): bv8
    requires k < 8
  {
    match k
    case 0 => 1 case 1 => 2 case 2 => 4 case 3 => 8
    case 4 => 16 case 5 => 32 case 6 => 64 case 7 => 128
  }

  predicate HasBit(m: seq<bv8>, i: nat)
    requires i / 8 < |m|
  {
    m[i / 8] & IndexMask(i % 8) != 0
  }

  lemma MasksAreDisjoint(b: bv8, j: nat, k: nat)
    requires j < 8 && k < 8
    ensures (b | IndexMask(j)) & IndexMask(k) != 0 <==> j == k || b & IndexMask(k) != 0
  {
  }

  /** The indices a trace hits. */
  function Hit(trace: Map): set<nat> {
    set i: nat | i < |trace| && trace[i] != 0
  }

  /** The bits of a compacted trace are the indices hit. */
  ghost predicate Compacts(mini: seq<bv8>, hit: set<nat>) {
    |mini| == MINI_SIZE && forall i: nat :: i < MAP_SIZE ==> (HasBit(mini, i) <==> i in hit)
  }

  method MinimizeBits(src: array<bv8>) returns (dst: seq<bv8>)
    requires src.Length == MAP_SIZE
    ensures Compacts(dst, Hit(src[..]))
  {
    dst := seq(MINI_SIZE, _ => 0);
    var i := 0;
    while i < MAP_SIZE
      invariant 0 <= i <= MAP_SIZE && |dst| == MINI_SIZE
      invariant forall k: nat :: k < i ==> (HasBit(dst, k) <==> src[k] != 0)
      invariant forall k: nat :: i <= k < MAP_SIZE ==> !HasBit(dst, k)
    {
      if src[i] != 0 { dst := SetBit(dst, i); }
      i := i + 1;
    }
  }

  method SetBit(m: seq<bv8>, i: nat) returns (r: seq<bv8>)
    requires |m| == MINI_SIZE && i < MAP_SIZE
    ensures |r| == MINI_SIZE
    ensures forall k: nat :: k < MAP_SIZE ==> (HasBit(r, k) <==> k == i || HasBit(m, k))
  {
    r := m[i / 8 := m[i / 8] | IndexMask(i % 8)];
    forall k: nat | k < MAP_SIZE ensures HasBit(r, k) <==> k == i || HasBit(m, k) {
      if k / 8 == i / 8 {
        MasksAreDisjoint(m[i / 8], i % 8, k % 8);
      }
    }
  }

  // ---------- Entries ----------

  class RatedEntry {
    ghost const hit: set<nat>        // the indices its execution hits
    var execUs: nat
    var len: nat
    var favored: bool
    var wasFuzzed: bool
    var calFailed: bool
    var tcRef: nat
    var traceMini: Option<seq<bv8>>

    constructor (len: nat, ghost hit: set<nat>)
      ensures this.len == len && this.hit == hit && execUs == 0
      ensures !favored && !wasFuzzed && !calFailed && tcRef == 0 && traceMini.None?
    {
      this.len, this.hit, execUs := len, hit, 0;
      favored, wasFuzzed, calFailed, tcRef, traceMini := false, false, false, 0, None;
    }

    /** The 64-bit product of speed and size; lower is better. */
    function Factor(): nat
      reads this`execUs, this`len
    {
      execUs * len % U64_MODULUS
    }
  }

  /** How many slots an entry holds. */
  ghost function Slots(top: seq<RatedEntry?>, e: RatedEntry): nat {
    if top == [] then 0 else (if top[0] == e then 1 else 0) + Slots(top[1..], e)
  }

  lemma {:induction false} SlotsAfterUpdate(top: seq<RatedEntry?>, i: nat, q: RatedEntry?, e: RatedEntry)
    requires i < |top|
    ensures Slots(top[i := q], e) + (if top[i] == e then 1 else 0) == Slots(top, e) + (if q == e then 1 else 0)
  {
    if i == 0 {
      assert top[i := q][1..] == top[1..];
    } else {
      assert top[i := q][1..] == top[1..][i - 1 := q];
      SlotsAfterUpdate(top[1..], i - 1, q, e);
    }
  }

  lemma {:induction false} HoldsASlot(top: seq<RatedEntry?>, e: RatedEntry)
    ensures Slots(top, e) > 0 <==> exists i :: 0 <= i < |top| && top[i] == e
  {
    if top != [] {
      HoldsASlot(top[1..], e);
      assert forall i :: 0 < i < |top| ==> top[i] == top[1..][i - 1];
      assert forall i :: 0 <= i < |top[1..]| ==> top[1..][i] == top[i + 1];
    }
  }

  // ---------- The greedy cover ----------

  /** The winners picked from index i on, given what is covered already. */
  ghost function Picks(top: seq<RatedEntry?>, i: nat, covered: set<nat>): seq<RatedEntry>
    requires i <= |top|
    decreases |top| - i
  {
    if i == |top| then []
    else if top[i] != null && i !in covered
    then [top[i]] + Picks(top, i + 1, covered + top[i].hit)
    else Picks(top, i + 1, covered)
  }

  ghost function Union(es: seq<RatedEntry>): set<nat> {
    if es == [] then {} else Union(es[..|es| - 1]) + es[|es| - 1].hit
  }

  lemma {:induction false} HitBySome(es: seq<RatedEntry>, i: nat) returns (e: RatedEntry)
    requires i in Union(es)
    ensures e in es && i in e.hit
  {
    var last := es[|es| - 1];
    if i in last.hit {
      e := last;
    } else {
      e := HitBySome(es[..|es| - 1], i);
    }
  }

  lemma {:induction false} NoWinnersNoPicks(top: seq<RatedEntry?>, i: nat, covered: set<nat>)
    requires i <= |top| && forall k :: 0 <= k < |top| ==> top[k] == null
    ensures Picks(top, i, covered) == []
    decreases |top| - i
  {
    if i < |top| { NoWinnersNoPicks(top, i + 1, covered); }
  }

  /** A slot is only held by an entry that hits its index. */
  ghost predicate SlotsHit(top: seq<RatedEntry?>) {
    forall i :: 0 <= i < |top| && top[i] != null ==> i in top[i].hit
  }

  lemma {:induction false} UnionAppends(a: seq<RatedEntry>, b: seq<RatedEntry>)
    ensures Union(a + b) == Union(a) + Union(b)
    decreases |b|
  {
    if b == [] {
      assert a + b == a;
    } else {
      var init := b[..|b| - 1];
      assert (a + b)[..|a + b| - 1] == a + init;
      UnionAppends(a, init);
    }
  }

  /** Every index that has a winner is covered by the picks. */
  lemma {:induction false} PicksCover(top: seq<RatedEntry?>, i: nat, covered: set<nat>, picks: seq<RatedEntry>)
    requires i <= |top| && SlotsHit(top) && picks == Picks(top, i, covered)
    ensures forall k :: i <= k < |top| && top[k] != null ==> k in covered || k in Union(picks)
    decreases |top| - i
  {
    if i < |top| {
      if top[i] != null && i !in covered {
        PicksCover(top, i + 1, covered + top[i].hit, picks[1..]);
        assert picks == [top[i]] + picks[1..];
        UnionAppends([top[i]], picks[1..]);
        assert Union([top[i]]) == top[i].hit by { assert [top[i]][..0] == []; }
      } else {
        PicksCover(top, i + 1, covered, picks);
      }
    }
  }

  /** Every pick covers an index that the picks before it left uncovered; so none is repeated. */
  lemma {:induction false} PicksContribute(top: seq<RatedEntry?>, i: nat, covered: set<nat>, picks: seq<RatedEntry>, n: nat)
    requires i <= |top| && SlotsHit(top) && picks == Picks(top, i, covered) && n < |picks|
    ensures exists k :: k in picks[n].hit && k !in covered && k !in Union(picks[..n])
    ensures picks[n] !in picks[..n]
    decreases |top| - i
  {
    if top[i] != null && i !in covered {
      var rest := picks[1..];
      assert picks == [top[i]] + rest;
      if n == 0 {
        assert i in picks[0].hit && i !in Union(picks[..0]);
      } else {
        PicksContribute(top, i + 1, covered + top[i].hit, rest, n - 1);
        var k :| k in rest[n - 1].hit && k !in covered + top[i].hit && k !in Union(rest[..n - 1]);
        assert picks[..n] == [top[i]] + rest[..n - 1];
        UnionAppends([top[i]], rest[..n - 1]);
        assert Union([top[i]]) == top[i].hit by { assert [top[i]][..0] == []; }
        assert k in picks[n].hit && k !in Union(picks[..n]);
        NotPickedBefore(picks[..n], picks[n], k);
      }
    } else {
      PicksContribute(top, i + 1, covered, picks, n);
    }
  }

  /** Index j is the first from i on that has a winner and is not covered. */
  ghost predicate FirstOpen(top: seq<RatedEntry?>, i: nat, j: nat, covered: set<nat>) {
    && i <= j < |top| && top[j] != null && j !in covered
    && forall k :: i <= k < j && top[k] != null ==> k in covered
  }

  /** Every pick is the winner of the first index that the picks before it left open. */
  lemma {:induction false} PicksAreGreedy(top: seq<RatedEntry?>, i: nat, covered: set<nat>, picks: seq<RatedEntry>, n: nat)
    returns (j: nat)
    requires i <= |top| && SlotsHit(top) && picks == Picks(top, i, covered) && n < |picks|
    ensures FirstOpen(top, i, j, covered + Union(picks[..n])) && top[j] == picks[n]
    decreases |top| - i
  {
    if top[i] != null && i !in covered {
      var rest := picks[1..];
      assert picks == [top[i]] + rest;
      if n == 0 {
        j := i;
      } else {
        j := PicksAreGreedy(top, i + 1, covered + top[i].hit, rest, n - 1);
        assert picks[..n] == [top[i]] + rest[..n - 1];
        UnionAppends([top[i]], rest[..n - 1]);
        UnionOfOne(top[i]);
        assert covered + Union(picks[..n]) == covered + top[i].hit + Union(rest[..n - 1]);
      }
    } else {
      j := PicksAreGreedy(top, i + 1, covered, picks, n);
    }
  }

  /** The favoured set is an irredundant cover, and the greedy one: one by one, the winner of the first
      index that is still open. */
  lemma FavouredSetCovers(top: seq<RatedEntry?>)
    requires SlotsHit(top)
    ensures var picks := Picks(top, 0, {});
      forall n :: 0 <= n < |picks| ==> exists j: nat :: FirstOpen(top, 0, j, Union(picks[..n])) && top[j] == picks[n]
    ensures forall k :: 0 <= k < |top| && top[k] != null ==> k in Union(Picks(top, 0, {}))
    ensures var picks := Picks(top, 0, {});
      forall n :: 0 <= n < |picks| ==>
        picks[n] !in picks[..n] && exists k :: k in picks[n].hit && k !in Union(picks[..n])
  {
    var picks := Picks(top, 0, {});
    PicksCover(top, 0, {}, picks);
    forall n | 0 <= n < |picks|
      ensures picks[n] !in picks[..n] && exists k :: k in picks[n].hit && k !in Union(picks[..n])
    {
      PicksContribute(top, 0, {}, picks, n);
    }
    forall n | 0 <= n < |picks|
      ensures exists j: nat :: FirstOpen(top, 0, j, Union(picks[..n])) && top[j] == picks[n]
    {
      var j := PicksAreGreedy(top, 0, {}, picks, n);
      assert {} + Union(picks[..n]) == Union(picks[..n]);
    }
  }

  lemma {:induction false} NotPickedBefore(es: seq<RatedEntry>, e: RatedEntry, k: nat)
    requires k in e.hit && k !in Union(es)
    ensures e !in es
  {
    if es != [] {
      NotPickedBefore(es[..|es| - 1], e, k);
      assert es == es[..|es| - 1] + [es[|es| - 1]];
    }
  }

  // ---------- The score board ----------

  /** Each of these entries is, wherever it hits, matched or beaten by the winner there. */
  ghost predicate IsMinimal(top: seq<RatedEntry?>, es: set<RatedEntry>)
    reads es`execUs, es`len, top`execUs, top`len
  {
    forall e, i :: e in es && i in e.hit ==> i < |top| && top[i] != null && top[i].Factor() <= e.Factor()
  }

  /** The winner of slot i once `q` has been scored.  Ties go to `q`. */
  ghost function Winner(q: RatedEntry, w: RatedEntry?, i: nat): RatedEntry?
    reads {q, if w == null then q else w}`execUs, {q, if w == null then q else w}`len
  {
    if i in q.hit && (w == null || q.Factor() <= w.Factor()) then q else w
  }

  /** An entry takes a slot if it hits the index and the product of its execution time and its length,
      as an unsigned 64-bit number, is not larger than that of the holder. */
  lemma WinnerIsCheaper(q: RatedEntry, w: RatedEntry?, i: nat)
    ensures Winner(q, w, i) == q <==>
              w == q || (i in q.hit && (w == null || q.execUs * q.len % 0x1_0000_0000_0000_0000 <= w.execUs * w.len % 0x1_0000_0000_0000_0000))
    ensures Winner(q, w, i) == q || Winner(q, w, i) == w
  {
  }

  /** The holder of a slot is the cheapest in this sense. */
  lemma MinimalIsCheapest(top: seq<RatedEntry?>, es: set<RatedEntry>, e: RatedEntry, i: nat)
    requires IsMinimal(top, es) && e in es && i in e.hit
    ensures i < |top| && top[i] != null
    ensures top[i].execUs * top[i].len % 0x1_0000_0000_0000_0000 <= e.execUs * e.len % 0x1_0000_0000_0000_0000
  {
    assert top[i].Factor() <= e.Factor();
  }

  lemma ScoringKeepsMinimal(before: seq<RatedEntry?>, after: seq<RatedEntry?>, q: RatedEntry, others: set<RatedEntry>)
    requires |before| == |after| && IsMinimal(before, others) && forall i :: i in q.hit ==> i < |before|
    requires forall i :: 0 <= i < |before| ==> after[i] == Winner(q, before[i], i)
    ensures IsMinimal(after, others + {q})
  {
    forall e, i | e in others + {q} && i in e.hit
      ensures i < |after| && after[i] != null && after[i].Factor() <= e.Factor()
    {
      assert after[i] == Winner(q, before[i], i);
      if e in others { assert before[i] != null && before[i].Factor() <= e.Factor(); }
    }
  }

  ghost function Members(es: seq<RatedEntry>): set<RatedEntry> {
    set e | e in es
  }

  lemma UnionOfOne(w: RatedEntry)
    ensures Union([w]) == w.hit
  {
    assert [w][..0] == [];
  }

  /** The map of indices not yet covered. */
  ghost predicate StillOpen(tempV: seq<bv8>, covered: set<nat>) {
    |tempV| == MINI_SIZE && forall k: nat :: k < MAP_SIZE ==> (HasBit(tempV, k) <==> k !in covered)
  }

  lemma AllOpen(tempV: seq<bv8>)
    requires |tempV| == MINI_SIZE && forall j :: 0 <= j < MINI_SIZE ==> tempV[j] == 255
    ensures StillOpen(tempV, Union([]))
  {
    forall k: nat | k < MAP_SIZE ensures HasBit(tempV, k) {
      MaskIsNotZero(k % 8);
    }
  }

  lemma MaskIsNotZero(k: nat)
    requires k < 8
    ensures (255 as bv8) & IndexMask(k) != 0
  {
  }

  lemma MaskedAndNot(a: bv8, b: bv8, k: nat)
    requires k < 8
    ensures (a & !b) & IndexMask(k) != 0 <==> a & IndexMask(k) != 0 && b & IndexMask(k) == 0
  {
  }

  method ClearCovered(tempV: array<bv8>, mini: seq<bv8>, ghost covered: set<nat>, ghost hit: set<nat>)
    requires StillOpen(tempV[..], covered) && Compacts(mini, hit)
    modifies tempV
    ensures StillOpen(tempV[..], covered + hit)
  {
    var j := 0;
    while j < MINI_SIZE
      invariant 0 <= j <= MINI_SIZE
      invariant forall k :: 0 <= k < j ==> tempV[k] == old(tempV[k]) & !mini[k]
      invariant forall k :: j <= k < MINI_SIZE ==> tempV[k] == old(tempV[k])
    {
      if mini[j] != 0 {
        tempV[j] := tempV[j] & !mini[j];
      } else {
        NothingToClear(tempV[j]);
      }
      j := j + 1;
    }
    forall k: nat | k < MAP_SIZE ensures HasBit(tempV[..], k) <==> k !in covered + hit {
      MaskedAndNot(old(tempV[..])[k / 8], mini[k / 8], k % 8);
      assert HasBit(old(tempV[..]), k) <==> k !in covered;
      assert HasBit(mini, k) <==> k in hit;
    }
  }

  lemma NothingToClear(a: bv8)
    ensures a & !0 == a
  {
  }

  method AllOpenMap() returns (tempV: array<bv8>)
    ensures fresh(tempV) && tempV.Length == MINI_SIZE && StillOpen(tempV[..], Union([]))
  {
    tempV := new bv8[MINI_SIZE](_ => 255);
    AllOpen(tempV[..]);
  }

  ghost predicate Tally(all: set<RatedEntry>, favs: set<RatedEntry>, unfuzzed: set<RatedEntry>, fav: nat, pending: nat, notFuzzed: nat) {
    favs <= all && unfuzzed <= all && fav == |favs| && pending == |favs * unfuzzed| && notFuzzed == |unfuzzed|
  }

  lemma TallyNewcomer(all: set<RatedEntry>, favs: set<RatedEntry>, unfuzzed: set<RatedEntry>, fav: nat, pending: nat, notFuzzed: nat, e: RatedEntry)
    requires Tally(all, favs, unfuzzed, fav, pending, notFuzzed) && e !in all
    ensures Tally(all + {e}, favs, unfuzzed + {e}, fav, pending, notFuzzed + 1)
  {
    assert favs * (unfuzzed + {e}) == favs * unfuzzed;
  }

  lemma TallyFavourite(all: set<RatedEntry>, favs: set<RatedEntry>, unfuzzed: set<RatedEntry>, fav: nat, pending: nat, notFuzzed: nat, e: RatedEntry)
    requires Tally(all, favs, unfuzzed, fav, pending, notFuzzed) && e in all && e !in favs
    ensures Tally(all, favs + {e}, unfuzzed, fav + 1, pending + if e in unfuzzed then 1 else 0, notFuzzed)
  {
    if e in unfuzzed {
      assert (favs + {e}) * unfuzzed == favs * unfuzzed + {e};
    } else {
      assert (favs + {e}) * unfuzzed == favs * unfuzzed;
    }
  }

  lemma TallyFuzzed(all: set<RatedEntry>, favs: set<RatedEntry>, unfuzzed: set<RatedEntry>, fav: nat, pending: nat, notFuzzed: nat, e: RatedEntry)
    requires Tally(all, favs, unfuzzed, fav, pending, notFuzzed) && e in unfuzzed
    ensures notFuzzed > 0 && (e in favs ==> pending > 0)
    ensures Tally(all, favs, unfuzzed - {e}, fav, if e in favs then pending - 1 else pending, notFuzzed - 1)
  {
    assert favs * (unfuzzed - {e}) == favs * unfuzzed - {e};
    assert e in favs ==> e in favs * unfuzzed;
  }

  lemma MembersWith(es: seq<RatedEntry>, e: RatedEntry)
    ensures Members(es + [e]) == Members(es) + {e}
  {
  }

  class ScoreBoard {
    const topRated: array<RatedEntry?>
    var queue: seq<RatedEntry>
    var scoreChanged: bool
    var queuedFavored: nat
    var pendingFavored: nat
    var pendingNotFuzzed: nat
    ghost var entries: set<RatedEntry>    // the members of the queue
    ghost var scored: set<RatedEntry>     // those that have been scored
    ghost var favs: set<RatedEntry>
    ghost var unfuzzed: set<RatedEntry>

    constructor ()
      ensures SlotsOk() && RefsOk() && CountersOk() && Minimal() && FavsCurrent() && fresh(topRated)
      ensures entries == {} && queue == [] && !scoreChanged
    {
      topRated := new RatedEntry?[MAP_SIZE](_ => null);
      queue, scoreChanged, queuedFavored, pendingFavored, pendingNotFuzzed := [], false, 0, 0, 0;
      entries, scored, favs, unfuzzed := {}, {}, {}, {};
      new;
      NoWinnersNoPicks(topRated[..], 0, {});
    }

    ghost predicate SlotsOk()
      reads this`entries, this`scored, topRated
    {
      && topRated.Length == MAP_SIZE && SlotsHit(topRated[..]) && scored <= entries
      && forall i :: 0 <= i < MAP_SIZE && topRated[i] != null ==> topRated[i] in scored
    }

    /** Reference counts are exact, and a compacted trace is held exactly while it is needed. */
    ghost predicate RefsOk()
      reads this`entries, topRated, entries`tcRef, entries`traceMini
    {
      forall e :: e in entries ==>
        && e.tcRef == Slots(topRated[..], e)
        && (e.traceMini.Some? <==> e.tcRef > 0)
        && (e.traceMini.Some? ==> Compacts(e.traceMini.value, e.hit))
    }

    /** The counters are the true counts. */
    ghost predicate CountersOk()
      reads this`queue, this`entries, this`favs, this`unfuzzed, this`queuedFavored, this`pendingFavored,
            this`pendingNotFuzzed, entries`favored, entries`wasFuzzed
    {
      && entries == Members(queue)
      && Tally(entries, favs, unfuzzed, queuedFavored, pendingFavored, pendingNotFuzzed)
      && (forall e {:trigger e.favored} :: e in entries ==> (e.favored <==> e in favs))
      && (forall e {:trigger e.wasFuzzed} :: e in entries ==> (e.wasFuzzed <==> e !in unfuzzed))
    }

    ghost predicate Minimal()
      reads this`scored, topRated, scored`execUs, scored`len, topRated[..]`execUs, topRated[..]`len
    {
      IsMinimal(topRated[..], scored)
    }

    /** Favouring does not touch what the slots and the references depend on. */
    twostate lemma ScoresStay()
      requires old(SlotsOk() && RefsOk()) && entries == old(entries) && scored == old(scored)
      requires topRated[..] == old(topRated[..])
      requires forall e :: e in entries ==> e.tcRef == old(e.tcRef) && e.traceMini == old(e.traceMini)
      ensures SlotsOk() && RefsOk()
    {
    }

    /** The favoured set is that of the present winners, or is due to be computed again. */
    ghost predicate FavsCurrent()
      reads this`favs, this`scoreChanged, topRated
    {
      scoreChanged || favs == Members(Picks(topRated[..], 0, {}))
    }

    // ---------- update_bitmap_score ----------

    /** The slot changes hands; the loser's compacted trace goes when it was its last slot, the
        newcomer gets one unless it has one.  The newcomer may be the loser itself. */
    method TakeSlot(i: nat, q: RatedEntry, traceBits: array<bv8>)
      requires SlotsOk() && RefsOk() && i < MAP_SIZE && q in entries && q in scored && i in q.hit
      requires traceBits.Length == MAP_SIZE && Hit(traceBits[..]) == q.hit && traceBits as object != topRated
      modifies topRated, entries`tcRef, entries`traceMini
      ensures SlotsOk() && RefsOk()
      ensures topRated[..] == old(topRated[..])[i := q]
    {
      ghost var top := topRated[..];
      ReleaseSlot(i);
      topRated[i] := q;
      q.tcRef := q.tcRef + 1;
      if q.traceMini.None? {
        var mini := MinimizeBits(traceBits);
        q.traceMini := Some(mini);
      }
      assert topRated[..] == top[i := q];
      forall e | e in entries ensures e.tcRef == Slots(topRated[..], e) {
        SlotsAfterUpdate(top, i, q, e);
      }
    }

    /** One reference of the current holder is given up. */
    method ReleaseSlot(i: nat)
      requires SlotsOk() && RefsOk() && i < MAP_SIZE
      modifies entries`tcRef, entries`traceMini
      ensures forall e :: e in entries ==> e.tcRef == Slots(topRated[..], e) - (if topRated[i] == e then 1 else 0)
      ensures forall e :: e in entries ==> (e.traceMini.Some? <==> e.tcRef > 0)
      ensures forall e :: e in entries && e.traceMini.Some? ==> Compacts(e.traceMini.value, e.hit)
    {
      var w := topRated[i];
      if w != null {
        HoldsASlot(topRated[..], w);
        assert topRated[..][i] == w;
        w.tcRef := w.tcRef - 1;
        if w.tcRef == 0 { w.traceMini := None; }
      }
    }

    method UpdateBitmapScore(q: RatedEntry, traceBits: array<bv8>)
      requires SlotsOk() && RefsOk() && q in entries
      requires traceBits.Length == MAP_SIZE && Hit(traceBits[..]) == q.hit && traceBits as object != topRated
      modifies topRated, this`scored, this`scoreChanged, entries`tcRef, entries`traceMini
      ensures SlotsOk() && RefsOk() && scored == old(scored) + {q}
      ensures forall i :: 0 <= i < MAP_SIZE ==> topRated[i] == Winner(q, old(topRated[i]), i)
      ensures old(topRated[..]) != topRated[..] ==> scoreChanged
      ensures old(scoreChanged) ==> scoreChanged
    {
      scored := scored + {q};
      var i := 0;
      while i < MAP_SIZE
        modifies topRated, this`scoreChanged, entries`tcRef, entries`traceMini
        invariant 0 <= i <= MAP_SIZE && SlotsOk() && RefsOk()
        invariant forall k :: 0 <= k < i ==> topRated[k] == Winner(q, old(topRated[k]), k)
        invariant forall k :: i <= k < MAP_SIZE ==> topRated[k] == old(topRated[k])
        invariant scoreChanged || topRated[..] == old(topRated[..])
        invariant old(scoreChanged) ==> scoreChanged
      {
        ScoreSlot(i, q, traceBits);
        i := i + 1;
      }
    }

    method ScoreSlot(i: nat, q: RatedEntry, traceBits: array<bv8>)
      requires SlotsOk() && RefsOk() && q in entries && q in scored && i < MAP_SIZE
      requires traceBits.Length == MAP_SIZE && Hit(traceBits[..]) == q.hit && traceBits as object != topRated
      modifies topRated, this`scoreChanged, entries`tcRef, entries`traceMini
      ensures SlotsOk() && RefsOk()
      ensures topRated[i] == Winner(q, old(topRated[i]), i)
      ensures forall k :: 0 <= k < MAP_SIZE && k != i ==> topRated[k] == old(topRated[k])
      ensures scoreChanged || (topRated[i] == old(topRated[i]) && !old(scoreChanged))
    {
      assert i in q.hit <==> traceBits[i] != 0 by { assert traceBits[..][i] == traceBits[i]; }
      if traceBits[i] != 0 && (topRated[i] == null || q.Factor() <= topRated[i].Factor()) {
        ghost var before := topRated[..];
        TakeSlot(i, q, traceBits);
        assert forall k :: 0 <= k < MAP_SIZE && k != i ==> topRated[k] == topRated[..][k] == before[k];
        assert topRated[i] == topRated[..][i];
        scoreChanged := true;
      }
    }

    // ---------- Events that change scores ----------

    /** A successful calibration, of which every entry has at most one. */
    method Calibrated(q: RatedEntry, us: nat, traceBits: array<bv8>)
      requires SlotsOk() && RefsOk() && q in entries && q !in scored && Minimal()
      requires traceBits.Length == MAP_SIZE && Hit(traceBits[..]) == q.hit && traceBits as object != topRated
      modifies topRated, this`scored, this`scoreChanged, entries`tcRef, entries`traceMini, q`execUs, q`calFailed
      ensures SlotsOk() && RefsOk() && Minimal() && scored == old(scored) + {q}
      ensures old(FavsCurrent()) ==> FavsCurrent()
      ensures old(topRated[..]) != topRated[..] ==> scoreChanged
      ensures old(scoreChanged) ==> scoreChanged
      ensures q.execUs == us && !q.calFailed
    {
      ghost var before := topRated[..];
      q.execUs, q.calFailed := us, false;
      assert forall i :: 0 <= i < |before| && before[i] != null ==> before[i] != q;
      assert IsMinimal(before, scored);
      Rescore(q, traceBits);
    }

    /** A completed trim: the entry got shorter, and is scored again. */
    method Trimmed(q: RatedEntry, newLen: nat, traceBits: array<bv8>)
      requires SlotsOk() && RefsOk() && q in entries && Minimal()
      requires newLen <= q.len && q.execUs * q.len < U64_MODULUS
      requires traceBits.Length == MAP_SIZE && Hit(traceBits[..]) == q.hit && traceBits as object != topRated
      modifies topRated, this`scored, this`scoreChanged, entries`tcRef, entries`traceMini, q`len
      ensures SlotsOk() && RefsOk() && Minimal() && scored == old(scored) + {q}
      ensures old(FavsCurrent()) ==> FavsCurrent()
      ensures old(topRated[..]) != topRated[..] ==> scoreChanged
      ensures old(scoreChanged) ==> scoreChanged
      ensures q.len == newLen
    {
      ghost var before, f := topRated[..], q.Factor();
      ShorterIsCheaper(q.execUs, newLen, q.len);
      q.len := newLen;
      assert q.Factor() <= f;
      assert IsMinimal(before, scored - {q});
      Rescore(q, traceBits);
    }

    lemma ShorterIsCheaper(us: nat, newLen: nat, len: nat)
      requires newLen <= len && us * len < U64_MODULUS
      ensures us * newLen % U64_MODULUS <= us * len % U64_MODULUS
    {
      assert us * newLen <= us * len;
    }

    method Rescore(q: RatedEntry, traceBits: array<bv8>)
      requires SlotsOk() && RefsOk() && q in entries && IsMinimal(topRated[..], scored - {q})
      requires traceBits.Length == MAP_SIZE && Hit(traceBits[..]) == q.hit && traceBits as object != topRated
      modifies topRated, this`scored, this`scoreChanged, entries`tcRef, entries`traceMini
      ensures SlotsOk() && RefsOk() && Minimal() && scored == old(scored) + {q}
      ensures old(FavsCurrent()) ==> FavsCurrent()
      ensures old(topRated[..]) != topRated[..] ==> scoreChanged
      ensures old(scoreChanged) ==> scoreChanged
    {
      ghost var before, others := topRated[..], scored - {q};
      UpdateBitmapScore(q, traceBits);
      ScoringKeepsMinimal(before, topRated[..], q, others);
      assert others + {q} == scored;
    }

    // ---------- Events that change the counters ----------

    method AddEntry(e: RatedEntry)
      requires SlotsOk() && RefsOk() && CountersOk() && e !in entries
      requires !e.favored && !e.wasFuzzed && e.tcRef == 0 && e.traceMini.None?
      modifies this`queue, this`entries, this`unfuzzed, this`pendingNotFuzzed
      ensures SlotsOk() && RefsOk() && CountersOk()
      ensures entries == old(entries) + {e} && pendingNotFuzzed == old(pendingNotFuzzed) + 1
    {
      assert Slots(topRated[..], e) == 0 by { HoldsASlot(topRated[..], e); }
      CountNewcomer(e);
    }

    method CountNewcomer(e: RatedEntry)
      requires CountersOk() && e !in entries && !e.favored && !e.wasFuzzed
      modifies this`queue, this`entries, this`unfuzzed, this`pendingNotFuzzed
      ensures CountersOk()
      ensures entries == old(entries) + {e} && pendingNotFuzzed == old(pendingNotFuzzed) + 1
    {
      TallyNewcomer(entries, favs, unfuzzed, queuedFavored, pendingFavored, pendingNotFuzzed, e);
      MembersWith(queue, e);
      queue := queue + [e];
      pendingNotFuzzed := pendingNotFuzzed + 1;
      entries, unfuzzed := entries + {e}, unfuzzed + {e};
    }

    /** The end of `fuzz_one`: the first completed round of an entry that calibrates. */
    method FuzzedOnce(q: RatedEntry, stopSoon: bool)
      requires CountersOk() && q in entries
      modifies this`unfuzzed, this`pendingNotFuzzed, this`pendingFavored, q`wasFuzzed
      ensures CountersOk()
      ensures q.wasFuzzed <==> old(q.wasFuzzed) || (!stopSoon && !q.calFailed)
    {
      if !stopSoon && !q.calFailed && !q.wasFuzzed { CountFuzzed(q); }
    }

    method CountFuzzed(q: RatedEntry)
      requires CountersOk() && q in entries && !q.wasFuzzed
      modifies this`unfuzzed, this`pendingNotFuzzed, this`pendingFavored, q`wasFuzzed
      ensures CountersOk() && q.wasFuzzed
    {
      TallyFuzzed(entries, favs, unfuzzed, queuedFavored, pendingFavored, pendingNotFuzzed, q);
      q.wasFuzzed := true;
      pendingNotFuzzed := pendingNotFuzzed - 1;
      if q.favored { pendingFavored := pendingFavored - 1; }
      unfuzzed := unfuzzed - {q};
    }

    // ---------- cull_queue ----------

    /** Recomputes the favoured set from the winners, unless nothing has changed since.  Either way
        it is then the set of the greedy picks, and every index with a winner is hit by a favoured entry. */
    method CullQueue()
      requires SlotsOk() && RefsOk() && CountersOk() && FavsCurrent()
      modifies this`scoreChanged, this`queuedFavored, this`pendingFavored, this`favs, entries`favored
      ensures CountersOk() && FavsCurrent() && !scoreChanged
      ensures favs == Members(Picks(topRated[..], 0, {}))
      ensures forall i :: 0 <= i < MAP_SIZE && topRated[i] != null ==> HitByFavoured(i)
    {
      if scoreChanged {
        scoreChanged := false;
        ClearFavored();
        PickAll();
      }
      FavouritesHit();
    }

    ghost predicate HitByFavoured(i: nat)
      reads this`entries, entries`favored
    {
      exists e :: e in entries && e.favored && i in e.hit
    }

    lemma FavouritesHit()
      requires topRated.Length == MAP_SIZE && SlotsHit(topRated[..]) && CountersOk()
      requires favs == Members(Picks(topRated[..], 0, {}))
      ensures forall i :: 0 <= i < MAP_SIZE && topRated[i] != null ==> HitByFavoured(i)
    {
      var picks := Picks(topRated[..], 0, {});
      forall i | 0 <= i < MAP_SIZE && topRated[i] != null ensures HitByFavoured(i) {
        PicksCover(topRated[..], 0, {}, picks);
        assert topRated[..][i] == topRated[i];
        var e := HitBySome(picks, i);
        assert e in favs;
      }
    }

    method PickAll()
      requires SlotsOk() && RefsOk() && CountersOk() && favs == {}
      modifies this`queuedFavored, this`pendingFavored, this`favs, entries`favored
      ensures CountersOk() && topRated[..] == old(topRated[..])
      ensures var picks := Picks(topRated[..], 0, {}); favs == Members(picks) && queuedFavored == |picks|
    {
      var tempV := AllOpenMap();
      ghost var picks: seq<RatedEntry> := [];
      ghost var top := topRated[..];
      var i := 0;
      while i < MAP_SIZE
        modifies this`queuedFavored, this`pendingFavored, this`favs, entries`favored, tempV
        invariant 0 <= i <= MAP_SIZE && SlotsOk() && RefsOk() && CountersOk() && topRated[..] == top
        invariant favs == Members(picks) && queuedFavored == |picks|
        invariant picks + Picks(top, i, Union(picks)) == Picks(top, 0, {})
        invariant StillOpen(tempV[..], Union(picks))
      {
        picks := VisitSlot(i, tempV, picks, top);
        i := i + 1;
      }
      assert picks + [] == picks;
    }

    /** Slot i: if it has a winner and the index is still open, the winner is picked. */
    method VisitSlot(i: nat, tempV: array<bv8>, ghost picks: seq<RatedEntry>, ghost top: seq<RatedEntry?>)
      returns (ghost after: seq<RatedEntry>)
      requires SlotsOk() && RefsOk() && CountersOk() && i < MAP_SIZE && top == topRated[..]
      requires tempV.Length == MINI_SIZE && tempV as object != topRated
      requires StillOpen(tempV[..], Union(picks)) && favs == Members(picks) && queuedFavored == |picks|
      modifies this`queuedFavored, this`pendingFavored, this`favs, entries`favored, tempV
      ensures SlotsOk() && RefsOk() && CountersOk() && top == topRated[..]
      ensures favs == Members(after) && queuedFavored == |after|
      ensures StillOpen(tempV[..], Union(after))
      ensures after + Picks(top, i + 1, Union(after)) == picks + Picks(top, i, Union(picks))
    {
      after := picks;
      assert top[i] == topRated[i];
      assert tempV[i / 8] & IndexMask(i % 8) != 0 <==> HasBit(tempV[..], i);
      if topRated[i] != null && tempV[i / 8] & IndexMask(i % 8) != 0 {
        var w := topRated[i];
        after := picks + [w];
        PickExtends(top, i, picks, w);
        PickWinner(w, i, tempV, picks);
        ScoresStay();
      }
    }

    /** The winner's indices are covered from now on, and it is favoured. */
    method PickWinner(w: RatedEntry, ghost i: nat, tempV: array<bv8>, ghost picks: seq<RatedEntry>)
      requires SlotsOk() && RefsOk() && CountersOk() && i < MAP_SIZE && topRated[i] == w
      requires tempV.Length == MINI_SIZE && tempV as object != topRated
      requires StillOpen(tempV[..], Union(picks)) && i !in Union(picks) && favs == Members(picks)
      modifies this`queuedFavored, this`pendingFavored, this`favs, w`favored, tempV
      ensures CountersOk()
      ensures favs == Members(picks + [w]) && queuedFavored == old(queuedFavored) + 1
      ensures StillOpen(tempV[..], Union(picks) + w.hit)
    {
      assert topRated[..][i] == w;
      assert w.traceMini.Some? && Compacts(w.traceMini.value, w.hit) by { HoldsASlot(topRated[..], w); }
      NotPickedBefore(picks, w, i);
      ClearCovered(tempV, w.traceMini.value, Union(picks), w.hit);
      MembersWith(picks, w);
      Favour(w);
    }

    lemma PickExtends(top: seq<RatedEntry?>, i: nat, picks: seq<RatedEntry>, w: RatedEntry)
      requires i < |top| && top[i] == w && i !in Union(picks)
      ensures Union(picks + [w]) == Union(picks) + w.hit
      ensures (picks + [w]) + Picks(top, i + 1, Union(picks + [w])) == picks + Picks(top, i, Union(picks))
    {
      UnionAppends(picks, [w]);
      UnionOfOne(w);
      var rest := Picks(top, i + 1, Union(picks) + w.hit);
      assert Picks(top, i, Union(picks)) == [w] + rest;
      Regrouped(picks, w, rest);
    }

    lemma Regrouped(a: seq<RatedEntry>, w: RatedEntry, b: seq<RatedEntry>)
      ensures (a + [w]) + b == a + ([w] + b)
    {
    }

    method Favour(w: RatedEntry)
      requires CountersOk() && w in entries && w !in favs
      modifies this`queuedFavored, this`pendingFavored, this`favs, w`favored
      ensures CountersOk() && favs == old(favs) + {w} && queuedFavored == old(queuedFavored) + 1
    {
      TallyFavourite(entries, favs, unfuzzed, queuedFavored, pendingFavored, pendingNotFuzzed, w);
      assert w.wasFuzzed <==> w !in unfuzzed;
      favs := favs + {w};
      w.favored := true;
      queuedFavored := queuedFavored + 1;
      if !w.wasFuzzed { pendingFavored := pendingFavored + 1; }
    }

    method ClearFavored()
      requires SlotsOk() && RefsOk() && CountersOk()
      modifies this`queuedFavored, this`pendingFavored, this`favs, entries`favored
      ensures SlotsOk() && RefsOk() && CountersOk() && favs == {} && topRated[..] == old(topRated[..])
    {
      queuedFavored, pendingFavored := 0, 0;
      UnflagAll();
      favs := {};
      assert favs * unfuzzed == {};
      ScoresStay();
    }

    method UnflagAll()
      requires entries == Members(queue)
      modifies entries`favored
      ensures forall e :: e in entries ==> !e.favored
    {
      for k := 0 to |queue|
        invariant forall j :: 0 <= j < k ==> !queue[j].favored
      {
        queue[k].favored := false;
      }
    }
  }
}
