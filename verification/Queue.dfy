/** The seed queue as afl-fuzz keeps it: a linked list, an index with every 100th entry, and a
    cached pointer to the first unhandled entry.  Every operation is proved to compute the
    function of the same purpose in Scheduler. */
module Queue {
  import opened Bytes
  import opened Scheduler

  const SHORTCUTS: nat := 1024

  class QueueEntry {
    const entryId: nat
    const len: nat   // when it was queued
    var proxScore: nat
    var handledInCycle: bool
    var next: QueueEntry?

    constructor (entryId: nat, len: nat, proxScore: nat)
      ensures this.entryId == entryId && this.len == len && this.proxScore == proxScore
      ensures !handledInCycle && next == null
    {
      this.entryId, this.len, this.proxScore := entryId, len, proxScore;
      handledInCycle, next := false, null;
    }
  }

  function NodeAt(ns: seq<QueueEntry>, i: nat): QueueEntry? {
    if i < |ns| then ns[i] else null
  }

  function IdOf(q: QueueEntry?): Option<nat> {
    if q == null then None else Some(q.entryId)
  }

  ghost predicate Distinct(ns: seq<QueueEntry>) {
    forall i, j :: 0 <= i < j < |ns| ==> ns[i] != ns[j]
  }

  ghost predicate Linked(ns: seq<QueueEntry>)
    reads (set n | n in ns)`next
  {
    forall i :: 0 <= i < |ns| ==> ns[i].next == NodeAt(ns, i + 1)
  }

  /** The nodes hold the entries of `list`, in order. */
  ghost predicate Mirrors(ns: seq<QueueEntry>, list: seq<Entry>)
    reads (set n | n in ns)`proxScore, (set n | n in ns)`handledInCycle
  {
    && |ns| == |list|
    && forall i :: 0 <= i < |ns| ==>
         && ns[i].entryId == list[i].id
         && ns[i].proxScore == list[i].score
         && ns[i].handledInCycle == list[i].handled
  }

  // ---------- An insertion and its plan ----------

  /** An insertion decided on but not yet carried out: nodes `N` holding `L` become nodes `F`
      holding `G`, the newcomer being at position `p` and the first unhandled node at `f`. */
  datatype Plan = Plan(N: seq<QueueEntry>, F: seq<QueueEntry>, p: nat, L: seq<Entry>, G: seq<Entry>, f: nat) {
    ghost predicate Ok() {
      && |F| == |G| == |N| + 1 && |L| == |N| && p < |F|
      && Distinct(N) && Distinct(F)
      && IsInsertion(F, N, F[p], p) && F[p] !in N
      && IsInsertion(G, L, G[p], p) && p == InsertPos(L, G[p].score)
      && f <= |G| && (forall k :: 0 <= k < f ==> G[k].handled) && (f < |G| ==> !G[f].handled)
    }
  }

  lemma InsertionKeepsDistinctNodes(F: seq<QueueEntry>, N: seq<QueueEntry>, q: QueueEntry, p: nat)
    requires IsInsertion(F, N, q, p) && Distinct(N) && q !in N
    ensures Distinct(F)
  {
    forall i, j | 0 <= i < j < |F| ensures F[i] != F[j] {
      assert i != p ==> F[i] == N[if i < p then i else i - 1];
      assert j != p ==> F[j] == N[if j < p then j else j - 1];
    }
  }

  lemma PlanInsertion(N: seq<QueueEntry>, q: QueueEntry, L: seq<Entry>) returns (pl: Plan)
    requires Distinct(N) && q !in N && Mirrors(N, L)
    ensures pl.Ok() && pl.N == N && pl.L == L && pl.F[pl.p] == q
    ensures pl.G == Insert(L, Entry(q.entryId, q.proxScore, q.handledInCycle))
    ensures Mirrors(pl.F, pl.G) && pl.f == NextUnhandled(pl.G, 0)
  {
    var e := Entry(q.entryId, q.proxScore, q.handledInCycle);
    var p := InsertPos(L, e.score);
    var F := N[..p] + [q] + N[p..];
    InsertionKeepsDistinctNodes(F, N, q, p);
    InsertIsInsertion(L, e);
    pl := Plan(N, F, p, L, Insert(L, e), NextUnhandled(Insert(L, e), 0));
  }

  ghost predicate Within(ns: seq<QueueEntry>, S: set<QueueEntry>) {
    forall i :: 0 <= i < |ns| ==> ns[i] in S
  }

  lemma WithinTail(ns: seq<QueueEntry>, S: set<QueueEntry>)
    requires ns != [] && Distinct(ns) && Within(ns, S)
    ensures Within(ns[1..], S - {ns[0]})
  {
  }

  lemma WithinAfterInsertion(pl: Plan, S: set<QueueEntry>)
    requires pl.Ok() && Within(pl.N, S)
    ensures Within(pl.F, S + {pl.F[pl.p]})
  {
    forall i | 0 <= i < |pl.F| ensures pl.F[i] in S + {pl.F[pl.p]} {
      assert i != pl.p ==> pl.F[i] == pl.N[if i < pl.p then i else i - 1];
    }
  }

  lemma MirrorsBefore(pl: Plan)
    requires pl.Ok() && Mirrors(pl.F, pl.G)
    ensures Mirrors(pl.N, pl.L)
  {
    forall i | 0 <= i < |pl.N|
      ensures pl.N[i].entryId == pl.L[i].id && pl.N[i].proxScore == pl.L[i].score
           && pl.N[i].handledInCycle == pl.L[i].handled
    {
      var j := if i < pl.p then i else i + 1;
      assert pl.N[i] == pl.F[j] && pl.L[i] == pl.G[j];
    }
  }

  /** The test made at position `i` succeeds exactly just before the place of the newcomer. */
  lemma InsertionDue(pl: Plan, i: nat)
    requires pl.Ok() && Mirrors(pl.F, pl.G) && Linked(pl.N) && i < pl.p
    ensures pl.N[i] == pl.F[i]
    ensures i + 1 == pl.p <==> pl.N[i].next == null || pl.N[i].next.proxScore < pl.F[pl.p].proxScore
  {
    MirrorsBefore(pl);
    assert pl.N[i].next == NodeAt(pl.N, i + 1);
  }

  /** The two pointer writes that put the newcomer behind `prev`. */
  method LinkAfter(prev: QueueEntry, q: QueueEntry, ghost pl: Plan)
    requires pl.Ok() && q == pl.F[pl.p] && Linked(pl.N) && 0 < pl.p && prev == pl.N[pl.p - 1]
    modifies prev`next, q`next
    ensures Linked(pl.F)
  {
    q.next := prev.next;
    prev.next := q;
    forall i | 0 <= i < |pl.F| ensures pl.F[i].next == NodeAt(pl.F, i + 1) {
      if i < pl.p - 1 { assert pl.F[i] == pl.N[i]; }
      if i > pl.p { assert pl.F[i] == pl.N[i - 1] != prev; }
    }
  }

  method LinkBehind(prev: QueueEntry, q: QueueEntry, ghost pl: Plan)
    requires pl.Ok() && q == pl.F[pl.p] && Linked(pl.N) && 0 < pl.p && prev == pl.N[pl.p - 1] && Mirrors(pl.F, pl.G)
    modifies prev`next, q`next
    ensures Linked(pl.F) && Mirrors(pl.F, pl.G)
  {
    LinkAfter(prev, q, pl);
  }

  method LinkFront(q: QueueEntry, head: QueueEntry, ghost pl: Plan)
    requires pl.Ok() && q == pl.F[0] && pl.p == 0 && Linked(pl.N) && pl.N != [] && head == pl.N[0]
    modifies q`next
    ensures Linked(pl.F)
  {
    q.next := head;
    forall i | 0 <= i < |pl.F| ensures pl.F[i].next == NodeAt(pl.F, i + 1) {
      if i > 0 { assert pl.F[i] == pl.N[i - 1]; }
    }
  }

  lemma IdOfNode(ns: seq<QueueEntry>, list: seq<Entry>, i: nat)
    requires Mirrors(ns, list)
    ensures IdOf(NodeAt(ns, i)) == IdAt(list, i)
  {
  }

  lemma PositionOf(ns: seq<QueueEntry>, list: seq<Entry>, q: QueueEntry) returns (k: nat)
    requires Mirrors(ns, list) && DistinctIds(list) && q in ns
    ensures k < |ns| && ns[k] == q && IndexOf(list, q.entryId) == k
  {
    k :| 0 <= k < |ns| && ns[k] == q;
  }

  ghost predicate Grown(before: seq<QueueEntry>, after: seq<QueueEntry>) {
    forall n :: n in before ==> n in after
  }

  /** The entries numbered from `id` on have these lengths. */
  ghost predicate HaveLengths(ns: seq<QueueEntry>, id: nat, lens: seq<nat>) {
    forall j :: 0 <= j < |lens| ==> HasLength(ns, id + j, lens[j])
  }

  ghost predicate HasLength(ns: seq<QueueEntry>, id: nat, len: nat) {
    exists n :: n in ns && n.entryId == id && n.len == len
  }

  /** From the state m0 with the nodes ns0 the first i finds have led to the state m with the nodes ns. */
  ghost predicate Adding(m: State, ns: seq<QueueEntry>, m0: State, ns0: seq<QueueEntry>,
                         lens: seq<nat>, scores: seq<nat>, i: nat) {
    && i <= |scores| == |lens| && QueueOk(m) && Grown(ns0, ns)
    && AddAll(m, scores[i..]) == AddAll(m0, scores)
    && m.nextId == m0.nextId + i && HaveLengths(ns, m0.nextId, lens[..i])
  }

  lemma AddingStarts(m0: State, ns0: seq<QueueEntry>, lens: seq<nat>, scores: seq<nat>)
    requires QueueOk(m0) && |lens| == |scores|
    ensures Adding(m0, ns0, m0, ns0, lens, scores, 0)
  {
    assert scores[0..] == scores;
  }

  lemma AddingStep(m: State, ns: seq<QueueEntry>, m': State, ns': seq<QueueEntry>, m0: State, ns0: seq<QueueEntry>,
                   lens: seq<nat>, scores: seq<nat>, i: nat, q: QueueEntry)
    requires Adding(m, ns, m0, ns0, lens, scores, i) && i < |scores|
    requires m' == Add(m, scores[i]) && Grown(ns, ns') && q in ns' && q.entryId == m.nextId && q.len == lens[i]
    ensures Adding(m', ns', m0, ns0, lens, scores, i + 1)
  {
    AddFacts(m, scores[i]);
    assert scores[i..][1..] == scores[i + 1..];
    OneMoreLength(ns, ns', m0.nextId, lens[..i], q);
    assert lens[..i + 1] == lens[..i] + [lens[i]];
  }

  lemma AddingEnds(m: State, ns: seq<QueueEntry>, m0: State, ns0: seq<QueueEntry>, lens: seq<nat>, scores: seq<nat>)
    requires Adding(m, ns, m0, ns0, lens, scores, |scores|)
    ensures m == AddAll(m0, scores) && HaveLengths(ns, m0.nextId, lens)
  {
    assert scores[|scores|..] == [];
    assert lens[..|lens|] == lens;
  }

  lemma OneMoreLength(before: seq<QueueEntry>, after: seq<QueueEntry>, id: nat, lens: seq<nat>, q: QueueEntry)
    requires HaveLengths(before, id, lens) && Grown(before, after) && q in after && q.entryId == id + |lens|
    ensures HaveLengths(after, id, lens + [q.len])
  {
    var all := lens + [q.len];
    forall j | 0 <= j < |all| ensures HasLength(after, id + j, all[j]) {
      if j < |lens| {
        assert HasLength(before, id + j, lens[j]);
      }
    }
  }

  lemma InsertionGrows(F: seq<QueueEntry>, N: seq<QueueEntry>, q: QueueEntry, p: nat)
    requires IsInsertion(F, N, q, p)
    ensures Grown(N, F)
  {
    forall i | 0 <= i < |N| ensures N[i] in F {
      assert F[if i < p then i else i + 1] == N[i];
    }
  }

  // ---------- Looking entries up ----------

  /** The position the index leads to. */
  function JumpTo(idx: nat): nat { if idx / 100 < SHORTCUTS then 100 * (idx / 100) else 100 * 1023 }

  /** The number of steps made from there, as a 32-bit number. */
  function StepsFrom(idx: nat): nat {
    if idx / 100 < SHORTCUTS then idx - idx / 100 * 100 else (idx - idx / 100 * 1024) % U32_MODULUS
  }

  /** The lookup leads to the idx-th entry exactly if the index reaches that far, and then in at most
      99 steps. */
  lemma LookupIsExact(idx: nat)
    requires idx < U32_MODULUS
    ensures JumpTo(idx) + StepsFrom(idx) == idx <==> idx / 100 < SHORTCUTS
    ensures idx / 100 < SHORTCUTS ==> StepsFrom(idx) <= 99
  {
    if idx / 100 >= SHORTCUTS {
      var d := idx - idx / 100 * 1024;
      assert d == d / U32_MODULUS * U32_MODULUS + d % U32_MODULUS;
    }
  }

  /** Beyond that it runs off the end of any queue of up to 400 million entries. */
  lemma LookupRunsOff(idx: nat, n: nat)
    requires idx < n <= 400_000_000 && idx / 100 >= SHORTCUTS
    ensures JumpTo(idx) + StepsFrom(idx) > n
  {
    var d := idx - idx / 100 * 1024;
    assert -(U32_MODULUS as int) < d < 0;
    assert d % U32_MODULUS == d + U32_MODULUS;
  }

  lemma AddMakes(s: State, score: nat, t: State)
    requires t.list == Insert(s.list, Entry(s.nextId, score, false))
    requires t.firstUnhandled == if s.list == [] then s.firstUnhandled else FirstUnhandled(t.list)
    requires t.cur == s.cur && t.nextId == s.nextId + 1 && t.cycle == s.cycle && t.virgin == s.virgin
    ensures t == Add(s, score)
  {
  }

  lemma AdvanceMakes(s: State, t: State)
    requires s.cur.Some? && t == s.(cur := t.cur, firstUnhandled := None)
    requires t.cur == if s.firstUnhandled.Some? then s.firstUnhandled
                      else IdAt(s.list, NextUnhandled(s.list, IndexOf(s.list, s.cur.value)))
    ensures t == Advance(s)
  {
  }

  lemma {:induction false} AddAllKeepsVirgin(s: State, scores: seq<nat>, virgin: nat)
    ensures AddAll(s.(virgin := virgin), scores) == AddAll(s, scores).(virgin := virgin)
    decreases |scores|
  {
    if scores != [] { AddAllKeepsVirgin(Add(s, scores[0]), scores[1..], virgin); }
  }

  lemma TurnIsDone(s: State, t: State, taken: nat, scores: seq<nat>, virgin: nat)
    requires QueueOk(s) && BeginCycle(s).cur == Some(taken) && virgin + |scores| <= s.virgin
    requires t == Advance(AddAll(Take(BeginCycle(s)).(virgin := virgin), scores))
    ensures Turn(s, t, taken, scores)
  {
    AddAllKeepsVirgin(Take(BeginCycle(s)), scores, virgin);
  }

  class SeedQueue {
    var queue: QueueEntry?
    const shortcutPer100: array<QueueEntry?>
    var firstUnhandled: QueueEntry?
    var queueCur: QueueEntry?
    var queuedPaths: nat
    var queueCycle: nat
    ghost var nodes: seq<QueueEntry>
    ghost var list: seq<Entry>       // what the nodes hold
    ghost var entries: set<QueueEntry>
    ghost var virginBits: nat        // bits not yet cleared in the coverage map; changed elsewhere

    /** The list itself and its index. */
    ghost predicate Valid()
      reads this`nodes, this`list, this`entries, this`queue, shortcutPer100,
            (set n | n in nodes)`next, (set n | n in nodes)`proxScore, (set n | n in nodes)`handledInCycle
    {
      && Distinct(nodes) && Linked(nodes) && Mirrors(nodes, list)
      && Within(nodes, entries)
      && queue == NodeAt(nodes, 0)
      && Indexed(nodes, |nodes|)
    }

    /** The index is right for the positions below `i`. */
    ghost predicate Indexed(ns: seq<QueueEntry>, i: nat)
      reads shortcutPer100
    {
      && shortcutPer100.Length == SHORTCUTS && i <= |ns|
      && forall k: nat :: k < SHORTCUTS && 100 * k < i ==> shortcutPer100[k] == ns[100 * k]
    }

    constructor ()
      ensures Valid() && nodes == [] && entries == {} && fresh(shortcutPer100)
      ensures firstUnhandled == null && queueCur == null && queuedPaths == 0 && queueCycle == 0
    {
      queue, firstUnhandled, queueCur := null, null, null;
      queuedPaths, queueCycle := 0, 0;
      shortcutPer100 := new QueueEntry?[SHORTCUTS](_ => null);
      nodes, list, entries := [], [], {};
    }

    // ---------- Insertion ----------

    /** Puts `q` behind the last entry of the leading run of scores that are not lower. */
    method SortedInsert(q: QueueEntry)
      requires Valid() && q !in entries && q.next == null
      modifies this`queue, this`firstUnhandled, this`nodes, this`list, this`entries, shortcutPer100, (entries + {q})`next
      ensures Valid() && entries == old(entries) + {q}
      ensures list == Insert(old(list), Entry(q.entryId, q.proxScore, q.handledInCycle))
      ensures IsInsertion(nodes, old(nodes), q, InsertPos(old(list), q.proxScore))
      ensures firstUnhandled == if old(nodes) == [] then old(firstUnhandled) else NodeAt(nodes, NextUnhandled(list, 0))
    {
      ghost var pl := PlanInsertion(nodes, q, list);
      WithinAfterInsertion(pl, entries);
      entries := entries + {q};
      list := pl.G;
      Place(q, pl);
    }

    method Place(q: QueueEntry, ghost pl: Plan)
      requires pl.Ok() && q == pl.F[pl.p] && q.next == null && nodes == pl.N && Linked(pl.N) && Mirrors(pl.F, pl.G)
      requires queue == NodeAt(pl.N, 0) && shortcutPer100.Length == SHORTCUTS
      requires Within(pl.F, entries)
      modifies this`queue, this`firstUnhandled, this`nodes, shortcutPer100, entries`next
      ensures Linked(pl.F) && nodes == pl.F && queue == pl.F[0] && Indexed(pl.F, |pl.F|) && Mirrors(pl.F, pl.G)
      ensures firstUnhandled == if pl.N == [] then old(firstUnhandled) else NodeAt(pl.F, pl.f)
    {
      if queue == null {
        InsertIntoEmpty(q, pl);
      } else {
        InsertIntoNonEmpty(q, pl);
      }
    }

    method InsertIntoEmpty(q: QueueEntry, ghost pl: Plan)
      requires pl.Ok() && pl.N == [] && q == pl.F[pl.p] && q.next == null && shortcutPer100.Length == SHORTCUTS
      requires Mirrors(pl.F, pl.G)
      modifies this`queue, this`nodes, shortcutPer100
      ensures Linked(pl.F) && nodes == pl.F && queue == pl.F[0] && Indexed(pl.F, |pl.F|) && Mirrors(pl.F, pl.G)
    {
      queue := q;
      shortcutPer100[0] := q;
      nodes := pl.F;
    }

    method InsertIntoNonEmpty(q: QueueEntry, ghost pl: Plan)
      requires pl.Ok() && pl.N != [] && q == pl.F[pl.p] && nodes == pl.N && Linked(pl.N) && Mirrors(pl.F, pl.G)
      requires queue == pl.N[0] && shortcutPer100.Length == SHORTCUTS
      requires Within(pl.F, entries)
      modifies this`queue, this`firstUnhandled, this`nodes, shortcutPer100, entries`next
      ensures Linked(pl.F) && nodes == pl.F && queue == pl.F[0] && Indexed(pl.F, |pl.F|) && Mirrors(pl.F, pl.G)
      ensures firstUnhandled == NodeAt(pl.F, pl.f)
    {
      firstUnhandled := null;
      var isInserted := PutInFront(q, pl);
      Traverse(q, isInserted, pl);
    }

    /** Where the traversal stands: the list is `N` before the insertion, `F` after it. */
    ghost predicate At(qProbe: QueueEntry?, isInserted: bool, i: nat, pl: Plan)
      reads this`nodes, (set n | n in nodes)`next
    {
      && Linked(nodes) && nodes == (if isInserted then pl.F else pl.N)
      && (!isInserted ==> i < pl.p)
      && i <= |pl.F| && qProbe == NodeAt(pl.F, i)
    }

    method PutInFront(q: QueueEntry, ghost pl: Plan) returns (isInserted: bool)
      requires pl.Ok() && pl.N != [] && q == pl.F[pl.p] && nodes == pl.N && Linked(pl.N) && Mirrors(pl.F, pl.G)
      requires queue == pl.N[0]
      modifies this`queue, this`nodes, q`next
      ensures At(queue, isInserted, 0, pl) && queue == pl.F[0] && Mirrors(pl.F, pl.G)
    {
      isInserted := false;
      assert pl.p != 0 ==> pl.N[0] == pl.F[0];
      assert pl.p == 0 ==> pl.N[0] == pl.F[1] && pl.L[0] == pl.G[1];
      if queue.proxScore < q.proxScore {
        assert pl.p == 0;
        LinkFront(q, queue, pl);
        queue := q;
        nodes := pl.F;
        isInserted := true;
      }
    }

    /** The traversal from the head: index, cache, and the insertion unless it is done already. */
    method Traverse(q: QueueEntry, alreadyInserted: bool, ghost pl: Plan)
      requires pl.Ok() && q == pl.F[pl.p] && Mirrors(pl.F, pl.G) && At(queue, alreadyInserted, 0, pl)
      requires Within(pl.F, entries)
      requires firstUnhandled == null && shortcutPer100.Length == SHORTCUTS
      modifies this`firstUnhandled, this`nodes, shortcutPer100, entries`next
      ensures Linked(pl.F) && nodes == pl.F && Indexed(pl.F, |pl.F|) && Mirrors(pl.F, pl.G)
      ensures firstUnhandled == NodeAt(pl.F, pl.f)
    {
      var qProbe, isInserted, i := queue, alreadyInserted, 0;
      while qProbe != null
        invariant Passed(qProbe, isInserted, i, pl)
        decreases |pl.F| - i
      {
        NodesWithin(qProbe, isInserted, i, pl);
        isInserted, qProbe := StepFrom(qProbe, q, isInserted, i, pl);
        i := i + 1;
      }
    }

    /** The state of the traversal at position i: list, index and cache. */
    ghost predicate Passed(qProbe: QueueEntry?, isInserted: bool, i: nat, pl: Plan)
      reads this`nodes, (set n | n in nodes)`next, this`firstUnhandled, shortcutPer100,
            (set n | n in pl.F)`proxScore, (set n | n in pl.F)`handledInCycle
    {
      && i <= |pl.F| && At(qProbe, isInserted, i, pl) && Indexed(pl.F, i) && Mirrors(pl.F, pl.G)
      && firstUnhandled == if pl.f < i then NodeAt(pl.F, pl.f) else null
    }

    lemma NodesWithin(qProbe: QueueEntry, isInserted: bool, i: nat, pl: Plan)
      requires pl.Ok() && Within(pl.F, entries) && i <= |pl.F| && At(qProbe, isInserted, i, pl)
      ensures i < |pl.F| && qProbe in entries && pl.F[pl.p] in entries
    {
      assert qProbe == pl.F[i];
    }

    /** One turn of the traversal. */
    method StepFrom(qProbe: QueueEntry, q: QueueEntry, isInserted: bool, i: nat, ghost pl: Plan)
      returns (insertedNow: bool, qNext: QueueEntry?)
      requires pl.Ok() && q == pl.F[pl.p] && i < |pl.F| && Passed(qProbe, isInserted, i, pl)
      modifies this`firstUnhandled, this`nodes, shortcutPer100, q`next, qProbe`next
      ensures Passed(qNext, insertedNow, i + 1, pl)
    {
      Visit(qProbe, i, pl);
      assert At(qProbe, isInserted, i, pl);
      insertedNow := InsertHere(qProbe, q, isInserted, i, pl);
      qNext := qProbe.next;
    }

    /** Index and cache bookkeeping for the node at position `i`. */
    method Visit(qProbe: QueueEntry, i: nat, ghost pl: Plan)
      requires pl.Ok() && i < |pl.F| && qProbe == pl.F[i] && Mirrors(pl.F, pl.G) && Indexed(pl.F, i)
      requires firstUnhandled == if pl.f < i then NodeAt(pl.F, pl.f) else null
      modifies this`firstUnhandled, shortcutPer100
      ensures Indexed(pl.F, i + 1) && Mirrors(pl.F, pl.G)
      ensures firstUnhandled == if pl.f < i + 1 then NodeAt(pl.F, pl.f) else null
    {
      if i % 100 == 0 && i / 100 < SHORTCUTS { shortcutPer100[i / 100] := qProbe; }
      if firstUnhandled == null && !qProbe.handledInCycle { firstUnhandled := qProbe; }
    }

    /** Inserts behind the node at position `i` if nothing has been inserted yet and the next
        node is missing or has a lower score. */
    method InsertHere(qProbe: QueueEntry, q: QueueEntry, isInserted: bool, ghost i: nat, ghost pl: Plan)
      returns (insertedNow: bool)
      requires pl.Ok() && q == pl.F[pl.p] && Mirrors(pl.F, pl.G)
      requires i < |pl.F| && At(qProbe, isInserted, i, pl)
      modifies this`nodes, q`next, qProbe`next
      ensures At(qProbe.next, insertedNow, i + 1, pl) && Mirrors(pl.F, pl.G)
    {
      insertedNow := isInserted;
      if !isInserted {
        InsertionDue(pl, i);
        if qProbe.next == null || qProbe.next.proxScore < q.proxScore {
          LinkBehind(qProbe, q, pl);
          nodes := pl.F;
          insertedNow := true;
        }
      }
    }

    // ---------- The operations around it ----------

    /** The abstract state. */
    ghost function Model(): State
      reads this
    {
      State(list, IdOf(firstUnhandled), IdOf(queueCur), queuedPaths, queueCycle, virginBits)
    }

    method AddToQueue(len: nat, proxScore: nat) returns (q: QueueEntry)
      requires Valid()
      modifies this`queue, this`firstUnhandled, this`nodes, this`list, this`entries, this`queuedPaths,
               shortcutPer100, entries`next
      ensures Valid() && fresh(q) && entries == old(entries) + {q}
      ensures q in nodes && q.entryId == old(queuedPaths) && q.len == len
      ensures Model() == Add(old(Model()), proxScore)
      ensures Grown(old(nodes), nodes) && (old(nodes) != [] ==> firstUnhandled == null || firstUnhandled in nodes)
    {
      q := new QueueEntry(queuedPaths, len, proxScore);
      Enqueue(q);
    }

    method Enqueue(q: QueueEntry)
      requires Valid() && q !in entries && q.next == null && !q.handledInCycle && q.entryId == queuedPaths
      modifies this`queue, this`firstUnhandled, this`nodes, this`list, this`entries, this`queuedPaths,
               shortcutPer100, (entries + {q})`next
      ensures Valid() && entries == old(entries) + {q} && q in nodes
      ensures Model() == Add(old(Model()), q.proxScore)
      ensures Grown(old(nodes), nodes) && (old(nodes) != [] ==> firstUnhandled == null || firstUnhandled in nodes)
    {
      ghost var s := Model();
      SortedInsert(q);
      IdOfNode(nodes, list, NextUnhandled(list, 0));
      ghost var t := Model();
      AddMakes(s, q.proxScore, t.(nextId := t.nextId + 1));
      CountEntry();
      InsertionGrows(nodes, old(nodes), q, InsertPos(old(list), q.proxScore));
    }

    method CountEntry()
      requires Valid()
      modifies this`queuedPaths
      ensures Valid() && queuedPaths == old(queuedPaths) + 1
      ensures Model() == old(Model()).(nextId := queuedPaths)
    {
      queuedPaths := queuedPaths + 1;
    }

    /** With no current entry: a new cycle from the head, all flags cleared. */
    method BeginTurn()
      requires Valid() && nodes != []
      modifies this`queueCur, this`queueCycle, this`list, entries`handledInCycle
      ensures Valid() && queueCur != null && (queueCur in nodes || queueCur == old(queueCur))
      ensures Model() == BeginCycle(old(Model()))
    {
      if queueCur == null {
        queueCycle := queueCycle + 1;
        queueCur := queue;
        ClearFlags();
      }
    }

    method ClearFlags()
      requires Valid()
      modifies this`list, entries`handledInCycle
      ensures Valid() && list == ClearHandled(old(list))
    {
      list := ClearHandled(list);
      var qTmp := queue;
      ghost var i := 0;
      while qTmp != null
        modifies entries`handledInCycle
        invariant i <= |nodes| && qTmp == NodeAt(nodes, i)
        invariant forall k :: 0 <= k < i ==> !nodes[k].handledInCycle
        decreases |nodes| - i
      {
        qTmp.handledInCycle := false;
        qTmp := qTmp.next;
        i := i + 1;
      }
    }

    /** Even if fuzzing is skipped, the entry counts as handled. */
    method TakeCurrent()
      requires Valid() && queueCur != null && queueCur in nodes && DistinctIds(list)
      modifies this`list, queueCur`handledInCycle
      ensures Valid() && Model() == Take(old(Model()))
    {
      ghost var k := PositionOf(nodes, list, queueCur);
      queueCur.handledInCycle := true;
      list := MarkHandled(list, queueCur.entryId);
    }

    /** The next entry: the cached one, or the next unhandled one from the current on. */
    method AdvanceCurrent()
      requires Valid() && queueCur != null && queueCur in nodes && DistinctIds(list)
      requires firstUnhandled == null || firstUnhandled in nodes
      modifies this`queueCur, this`firstUnhandled
      ensures Valid() && Model() == Advance(old(Model()))
      ensures firstUnhandled == null && (queueCur == null || queueCur in nodes)
    {
      ghost var s := Model();
      var q := firstUnhandled;
      if q == null { q := NextFrom(queueCur); }
      MoveTo(q);
      AdvanceMakes(s, Model());
    }

    method MoveTo(q: QueueEntry?)
      requires Valid()
      modifies this`queueCur, this`firstUnhandled
      ensures Valid() && queueCur == q && firstUnhandled == null
      ensures Model() == old(Model()).(cur := IdOf(q), firstUnhandled := None)
    {
      queueCur, firstUnhandled := q, null;
    }

    /** The next unhandled entry from `cur` on. */
    method NextFrom(cur: QueueEntry) returns (q: QueueEntry?)
      requires Valid() && cur in nodes && DistinctIds(list)
      ensures IdOf(q) == IdAt(list, NextUnhandled(list, IndexOf(list, cur.entryId)))
      ensures q == null || q in nodes
    {
      ghost var k := PositionOf(nodes, list, cur);
      q := SkipHandled(cur, k);
      IdOfNode(nodes, list, NextUnhandled(list, k));
    }

    /** Moves on from position `i` to the next unhandled node. */
    method SkipHandled(from: QueueEntry, ghost i: nat) returns (q: QueueEntry?)
      requires Linked(nodes) && Mirrors(nodes, list) && i < |nodes| && from == nodes[i]
      ensures q == NodeAt(nodes, NextUnhandled(list, i))
    {
      q := from;
      ghost var j, target := i, NextUnhandled(list, i);
      while q != null && q.handledInCycle
        invariant j <= target && q == NodeAt(nodes, j)
        decreases |nodes| - j
      {
        q := q.next;
        j := j + 1;
      }
    }

    ghost predicate PointersOk()
      reads this`queueCur, this`firstUnhandled, this`nodes
    {
      (queueCur == null || queueCur in nodes) && (firstUnhandled == null || firstUnhandled in nodes)
    }

    /** One turn of the main loop: fuzzing the current entry queues finds of the given lengths and
        scores, each of which cleared at least one virgin bit. */
    method MainTurn(lens: seq<nat>, scores: seq<nat>, ghost virginAfter: nat) returns (taken: nat)
      requires Valid() && QueueOk(Model()) && PointersOk()
      requires |lens| == |scores| && virginAfter + |scores| <= virginBits
      modifies this, shortcutPer100, entries`next, entries`handledInCycle
      ensures Valid() && QueueOk(Model()) && PointersOk()
      ensures Turn(old(Model()), Model(), taken, scores)
      ensures old(Inv(Model())) ==> Inv(Model())
      ensures forall e :: e in entries && e !in old(entries) ==> fresh(e)
      ensures virginBits == virginAfter && queuedPaths == old(queuedPaths) + |scores|
      ensures HaveLengths(nodes, old(queuedPaths), lens)
    {
      ghost var s := Model();
      TurnStages(s);
      taken := TakeNext();
      FinishTurn(lens, scores, virginAfter);
      ghost var t := Model();
      TurnIsDone(s, t, taken, scores, virginAfter);
      TurnKeepsQueueOk(s, t, taken, scores);
    }

    /** The entry to be fuzzed. */
    method TakeNext() returns (taken: nat)
      requires Valid() && QueueOk(Model()) && PointersOk()
      modifies this`queueCur, this`queueCycle, this`list, entries`handledInCycle
      ensures Valid() && PointersOk() && queueCur != null
      ensures Model() == Take(BeginCycle(old(Model()))) && BeginCycle(old(Model())).cur == Some(taken)
    {
      ghost var s := Model();
      TurnStages(s);
      BeginTurn();
      taken := queueCur.entryId;
      TakeCurrent();
    }

    method FinishTurn(lens: seq<nat>, scores: seq<nat>, ghost virginAfter: nat)
      requires Valid() && QueueOk(Model()) && PointersOk() && queueCur != null
      requires |lens| == |scores|
      modifies this, shortcutPer100, entries`next
      ensures Valid() && PointersOk()
      ensures Model() == Advance(AddAll(old(Model()).(virgin := virginAfter), scores))
      ensures HaveLengths(nodes, old(queuedPaths), lens)
      ensures virginBits == virginAfter
      ensures forall e :: e in entries && e !in old(entries) ==> fresh(e)
    {
      AddFindsOfTurn(lens, scores, virginAfter);
      AdvanceCurrent();
    }

    /** The finds of a turn, after the coverage maps were updated. */
    method AddFindsOfTurn(lens: seq<nat>, scores: seq<nat>, ghost virginAfter: nat)
      requires Valid() && QueueOk(Model()) && PointersOk() && queueCur != null && |lens| == |scores|
      modifies this`virginBits, this`queue, this`firstUnhandled, this`nodes, this`list, this`entries, this`queuedPaths,
               shortcutPer100, entries`next
      ensures Valid() && QueueOk(Model()) && PointersOk() && virginBits == virginAfter
      ensures forall e :: e in entries && e !in old(entries) ==> fresh(e)
      ensures Model() == AddAll(old(Model()).(virgin := virginAfter), scores)
      ensures HaveLengths(nodes, old(queuedPaths), lens)
    {
      virginBits := virginAfter;
      AddFinds(lens, scores);
    }

    method AddFinds(lens: seq<nat>, scores: seq<nat>)
      requires Valid() && QueueOk(Model()) && |lens| == |scores|
      requires firstUnhandled == null || firstUnhandled in nodes
      modifies this`queue, this`firstUnhandled, this`nodes, this`list, this`entries, this`queuedPaths,
               shortcutPer100, entries`next
      ensures Valid() && QueueOk(Model()) && Grown(old(nodes), nodes)
      ensures forall e :: e in entries && e !in old(entries) ==> fresh(e)
      ensures firstUnhandled == null || firstUnhandled in nodes
      ensures Model() == AddAll(old(Model()), scores)
      ensures HaveLengths(nodes, old(queuedPaths), lens)
    {
      ghost var m0, ns0 := Model(), nodes;
      AddingStarts(m0, ns0, lens, scores);
      var i := 0;
      while i < |scores|
        modifies this`queue, this`firstUnhandled, this`nodes, this`list, this`entries, this`queuedPaths,
                 shortcutPer100, entries`next
        invariant 0 <= i <= |scores| && Valid() && Adding(Model(), nodes, m0, ns0, lens, scores, i)
        invariant firstUnhandled == null || firstUnhandled in nodes
        invariant forall e :: e in entries && e !in old(entries) ==> fresh(e)
      {
        ghost var m, ns := Model(), nodes;
        var q := AddToQueue(lens[i], scores[i]);
        AddingStep(m, ns, Model(), nodes, m0, ns0, lens, scores, i, q);
        i := i + 1;
      }
      AddingEnds(Model(), nodes, m0, ns0, lens, scores);
    }

    /** Looks an entry up for splicing: one jump through the index, then a number of steps.  `lost`
        tells that the steps lead beyond the end of the list. */
    method Lookup(idx: nat) returns (target: QueueEntry?, lost: bool)
      requires Valid() && idx < |nodes| && idx < U32_MODULUS
      ensures lost <==> JumpTo(idx) + StepsFrom(idx) > |nodes|
      ensures !lost ==> target == NodeAt(nodes, JumpTo(idx) + StepsFrom(idx))
    {
      var idxDiv := idx / 100;
      var t, rest := null, 0;
      if idxDiv < SHORTCUTS {
        t := shortcutPer100[idxDiv];
        rest := idx - idxDiv * 100;
      } else {
        t := shortcutPer100[1023];
        rest := (idx - idxDiv * 1024) % U32_MODULUS;
      }
      ghost var at := JumpTo(idx);
      while rest > 0
        invariant 0 <= rest && at <= |nodes| && at + rest == JumpTo(idx) + StepsFrom(idx)
        invariant t == NodeAt(nodes, at)
        decreases rest
      {
        if t == null { return null, true; }
        t := t.next;
        rest, at := rest - 1, at + 1;
      }
      return t, false;
    }

    // ---------- Sorting ----------

    /** Takes the list apart and inserts its nodes again, one by one. */
    method SortQueue()
      requires Valid()
      modifies this`queue, this`firstUnhandled, this`nodes, this`list, this`entries, shortcutPer100, entries`next
      ensures Valid() && list == Sorted(old(list))
      ensures firstUnhandled == if |list| >= 2 then NodeAt(nodes, NextUnhandled(list, 0)) else old(firstUnhandled)
    {
      var qCur := queue;
      ghost var rest, restList := nodes, list;
      queue := null;
      nodes, list, entries := [], [], {};
      ResetIndex();
      while qCur != null
        invariant Valid() && Detached(qCur, rest, restList)
        invariant entries <= old(entries) && Within(rest, old(entries) - entries)
        invariant SortOnto(list, restList) == Sorted(old(list))
        invariant firstUnhandled == if |list| >= 2 then NodeAt(nodes, NextUnhandled(list, 0)) else old(firstUnhandled)
        decreases |rest|
      {
        assert rest[0] in old(entries) - entries;
        WithinTail(rest, old(entries) - entries);
        qCur := InsertDetached(qCur, rest, restList);
        rest, restList := rest[1..], restList[1..];
      }
    }

    method ResetIndex()
      requires shortcutPer100.Length == SHORTCUTS
      modifies shortcutPer100
      ensures Indexed([], 0)
      ensures forall k :: 0 <= k < SHORTCUTS ==> shortcutPer100[k] == null
    {
      var i := 0;
      while i < SHORTCUTS
        invariant 0 <= i <= SHORTCUTS
        invariant forall k :: 0 <= k < i ==> shortcutPer100[k] == null
      {
        shortcutPer100[i] := null;
        i := i + 1;
      }
    }

    /** What is left of the old list. */
    ghost predicate Detached(qCur: QueueEntry?, rest: seq<QueueEntry>, restList: seq<Entry>)
      reads (set n | n in rest)`next, (set n | n in rest)`proxScore, (set n | n in rest)`handledInCycle
    {
      Distinct(rest) && Linked(rest) && Mirrors(rest, restList) && qCur == NodeAt(rest, 0)
    }

    method InsertDetached(qCur: QueueEntry, ghost rest: seq<QueueEntry>, ghost restList: seq<Entry>)
      returns (qNext: QueueEntry?)
      requires Valid() && Detached(qCur, rest, restList) && rest != []
      requires forall k :: 0 <= k < |rest| ==> rest[k] !in entries
      modifies this`queue, this`firstUnhandled, this`nodes, this`list, this`entries, shortcutPer100,
               (entries + {qCur})`next
      ensures Valid() && entries == old(entries) + {qCur} && list == Insert(old(list), restList[0])
      ensures Detached(qNext, rest[1..], restList[1..])
      ensures firstUnhandled == if |list| >= 2 then NodeAt(nodes, NextUnhandled(list, 0)) else old(firstUnhandled)
    {
      ghost var tail, tailList := rest[1..], restList[1..];
      qNext := qCur.next;
      qCur.next := null;
      assert Detached(qNext, tail, tailList);
      SortedInsert(qCur);
    }

    // ---------- The start of a session ----------

    /** The seeds are queued with the score 0. */
    method ReadSeeds(lens: seq<nat>)
      requires Valid() && nodes == [] && entries == {} && queuedPaths == 0 && firstUnhandled == null
      modifies this`queue, this`firstUnhandled, this`nodes, this`list, this`entries, this`queuedPaths, shortcutPer100
      ensures Valid() && Fresh(list) && queuedPaths == |list| == |lens| && fresh(entries)
      ensures |lens| <= 1 ==> firstUnhandled == null
    {
      var i := 0;
      while i < |lens|
        modifies this`queue, this`firstUnhandled, this`nodes, this`list, this`entries, this`queuedPaths,
                 shortcutPer100, entries`next
        invariant 0 <= i <= |lens| && Valid() && fresh(entries)
        invariant Fresh(list) && queuedPaths == |list| == i
        invariant forall k :: 0 <= k < |list| ==> list[k].score == 0
        invariant i <= 1 ==> firstUnhandled == null
      {
        UnscoredSeedIsAppended(list);
        assert Model().list == list && Model().nextId == queuedPaths;
        assert IdOf(firstUnhandled).None? <==> firstUnhandled == null;
        var q := AddToQueue(lens[i], 0);
        assert Model().list == list && Model().nextId == queuedPaths;
        i := i + 1;
      }
    }

    /** The dry run calibrates every seed, which gives it its score. */
    method DryRun(scores: seq<nat>)
      requires Valid() && |scores| == |list|
      modifies this`list, entries`proxScore
      ensures Valid() && list == Rescored(old(list), scores)
    {
      list := Rescored(list, scores);
      var q := queue;
      var i := 0;
      while q != null
        modifies entries`proxScore
        invariant 0 <= i <= |nodes| && q == NodeAt(nodes, i)
        invariant forall k :: 0 <= k < i ==> nodes[k].proxScore == scores[k]
        decreases |nodes| - i
      {
        q.proxScore := scores[i];
        q := q.next;
        i := i + 1;
      }
    }

    /** Reading, calibrating and sorting leave the queue as the main loop is entered. */
    method Startup(lens: seq<nat>, scores: seq<nat>)
      requires Valid() && nodes == [] && entries == {} && queuedPaths == 0 && firstUnhandled == null
      requires queueCur == null && queueCycle == 0 && |lens| == |scores| > 0
      modifies this`queue, this`firstUnhandled, this`nodes, this`list, this`entries, this`queuedPaths, shortcutPer100
      ensures Valid() && PointersOk() && QueueOk(Model()) && queuedPaths == |lens|
      ensures |lens| == 1 ==> Start(Model())
      ensures |lens| >= 2 ==> SortedStart(Model())
    {
      ReadSeeds(lens);
      DryRun(scores);
      ghost var seeds := list;
      SortQueue();
      SortedSeeds(seeds);
      assert NextUnhandled(list, 0) == 0;
    }
  }
}
