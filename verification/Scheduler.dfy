/** DAFL's seed scheduler on plain values: a queue ordered by proximity score, one handled flag
    per entry, and the main loop that picks the next entry to fuzz.  Module Queue proves that
    the linked list, its skip index and its cache compute these functions. */
module Scheduler {
  import opened Bytes

  datatype Entry = Entry(id: nat, score: nat, handled: bool)

  // ---------- Insertion ----------

  /** The first position whose entry has a lower score. */
  function InsertPos(list: seq<Entry>, score: nat): (p: nat)
    ensures p <= |list|
    ensures forall j: nat :: j < p ==> list[j].score >= score
    ensures p < |list| ==> list[p].score < score
  {
    if list == [] || list[0].score < score then 0
    else
      var p := 1 + InsertPos(list[1..], score);
      assert forall j: nat :: 0 < j < p ==> list[j] == list[1..][j - 1];
      p
  }

  function Insert(list: seq<Entry>, e: Entry): (r: seq<Entry>)
    ensures |r| == |list| + 1
  {
    var p := InsertPos(list, e.score);
    list[..p] + [e] + list[p..]
  }

  /** `F` is `N` with `q` put at position `p`. */
  ghost predicate IsInsertion<T>(F: seq<T>, N: seq<T>, q: T, p: nat) {
    && p <= |N| && |F| == |N| + 1 && F[p] == q
    && (forall i :: 0 <= i < p ==> F[i] == N[i])
    && (forall i :: p < i < |F| ==> F[i] == N[i - 1])
  }

  lemma InsertIsInsertion(list: seq<Entry>, e: Entry)
    ensures IsInsertion(Insert(list, e), list, e, InsertPos(list, e.score))
  {
  }

  lemma InsertAddsOne(list: seq<Entry>, e: Entry)
    ensures multiset(Insert(list, e)) == multiset(list) + multiset{e}
  {
    var p := InsertPos(list, e.score);
    assert list == list[..p] + list[p..];
  }

  ghost predicate Descending(list: seq<Entry>) {
    forall i, j :: 0 <= i < j < |list| ==> list[i].score >= list[j].score
  }

  /** Higher score first; among equal scores, lower id (older) first. */
  ghost predicate Before(a: Entry, b: Entry) {
    a.score > b.score || (a.score == b.score && a.id < b.id)
  }

  ghost predicate Ordered(list: seq<Entry>) {
    forall i, j :: 0 <= i < j < |list| ==> Before(list[i], list[j])
  }

  ghost predicate IdsBelow(list: seq<Entry>, bound: nat) {
    forall i :: 0 <= i < |list| ==> list[i].id < bound
  }

  lemma InsertKeepsDescending(list: seq<Entry>, e: Entry)
    requires Descending(list)
    ensures Descending(Insert(list, e))
  {
    var p, r := InsertPos(list, e.score), Insert(list, e);
    forall i, j | 0 <= i < j < |r| ensures r[i].score >= r[j].score {
      assert r[i] == if i < p then list[i] else if i == p then e else list[i - 1];
      assert r[j] == if j < p then list[j] else if j == p then e else list[j - 1];
    }
  }

  /** A newcomer, having the highest id, is put behind every entry of its own score. */
  lemma InsertKeepsOrdered(list: seq<Entry>, e: Entry)
    requires Ordered(list) && IdsBelow(list, e.id)
    ensures Ordered(Insert(list, e)) && IdsBelow(Insert(list, e), e.id + 1)
  {
    var p, r := InsertPos(list, e.score), Insert(list, e);
    forall i, j | 0 <= i < j < |r| ensures Before(r[i], r[j]) {
      assert r[i] == if i < p then list[i] else if i == p then e else list[i - 1];
      assert r[j] == if j < p then list[j] else if j == p then e else list[j - 1];
    }
  }

  // ---------- Sorting by repeated insertion ----------

  function SortOnto(acc: seq<Entry>, rest: seq<Entry>): (r: seq<Entry>)
    ensures |r| == |acc| + |rest|
    decreases |rest|
  {
    if rest == [] then acc else SortOnto(Insert(acc, rest[0]), rest[1..])
  }

  function Sorted(list: seq<Entry>): seq<Entry> { SortOnto([], list) }

  /** The entries with one given score, in the order of the list. */
  function OfScore(list: seq<Entry>, score: nat): seq<Entry> {
    if list == [] then []
    else (if list[0].score == score then [list[0]] else []) + OfScore(list[1..], score)
  }

  lemma {:induction false} OfScoreConcat(a: seq<Entry>, b: seq<Entry>, score: nat)
    ensures OfScore(a + b, score) == OfScore(a, score) + OfScore(b, score)
  {
    if a == [] {
      assert a + b == b;
    } else {
      assert (a + b)[1..] == a[1..] + b && (a + b)[0] == a[0];
      OfScoreConcat(a[1..], b, score);
      var h := if a[0].score == score then [a[0]] else [];
      assert OfScore(a + b, score) == h + (OfScore(a[1..], score) + OfScore(b, score));
      assert OfScore(a, score) == h + OfScore(a[1..], score);
    }
  }

  lemma {:induction false} NoneOfScore(list: seq<Entry>, score: nat)
    requires forall i :: 0 <= i < |list| ==> list[i].score != score
    ensures OfScore(list, score) == []
  {
    if list != [] { NoneOfScore(list[1..], score); }
  }

  lemma OfScoreSplit(list: seq<Entry>, p: nat, e: Entry, score: nat)
    requires p <= |list|
    ensures OfScore(list, score) == OfScore(list[..p], score) + OfScore(list[p..], score)
    ensures OfScore(list[..p] + [e] + list[p..], score)
         == OfScore(list[..p], score) + (if e.score == score then [e] else []) + OfScore(list[p..], score)
  {
    assert list == list[..p] + list[p..];
    OfScoreConcat(list[..p], list[p..], score);
    OfScoreConcat(list[..p], [e], score);
    OfScoreConcat(list[..p] + [e], list[p..], score);
    assert OfScore([e], score) == (if e.score == score then [e] else []) + OfScore([], score);
  }

  lemma InsertIsStable(list: seq<Entry>, e: Entry, score: nat)
    requires Descending(list)
    ensures OfScore(Insert(list, e), score) == OfScore(list, score) + (if e.score == score then [e] else [])
  {
    var p := InsertPos(list, e.score);
    OfScoreSplit(list, p, e, score);
    if e.score == score {
      forall i | 0 <= i < |list[p..]| ensures list[p..][i].score != score {
        assert list[p].score >= list[p + i].score;
      }
      NoneOfScore(list[p..], score);
    }
  }

  lemma {:induction false} SortOntoIsStableSort(acc: seq<Entry>, rest: seq<Entry>)
    requires Descending(acc)
    ensures Descending(SortOnto(acc, rest))
    ensures multiset(SortOnto(acc, rest)) == multiset(acc) + multiset(rest)
    ensures forall score: nat :: OfScore(SortOnto(acc, rest), score) == OfScore(acc, score) + OfScore(rest, score)
    decreases |rest|
  {
    if rest == [] {
    } else {
      var e := rest[0];
      assert rest == [e] + rest[1..];
      InsertKeepsDescending(acc, e);
      InsertAddsOne(acc, e);
      SortOntoIsStableSort(Insert(acc, e), rest[1..]);
      forall score: nat
        ensures OfScore(SortOnto(acc, rest), score) == OfScore(acc, score) + OfScore(rest, score)
      {
        InsertIsStable(acc, e, score);
      }
    }
  }

  /** `sort_queue` is a stable sort by descending score. */
  lemma SortedIsStableSort(list: seq<Entry>)
    ensures Descending(Sorted(list)) && multiset(Sorted(list)) == multiset(list)
    ensures forall score: nat :: OfScore(Sorted(list), score) == OfScore(list, score)
  {
    SortOntoIsStableSort([], list);
  }

  /** Only one arrangement is sorted and stable: the result does not depend on the method. */
  lemma {:induction false} StableSortIsUnique(a: seq<Entry>, b: seq<Entry>)
    requires Descending(a) && Descending(b)
    requires forall score: nat :: OfScore(a, score) == OfScore(b, score)
    ensures a == b
    decreases |a|
  {
    if a == [] {
      if b != [] { HeadHasItsScore(b); }
    } else {
      HeadHasItsScore(a);
      HeadOfHighestScore(b, a[0].score);
      HeadHasItsScore(b);
      HeadOfHighestScore(a, b[0].score);
      assert a[0] == b[0];
      forall score: nat ensures OfScore(a[1..], score) == OfScore(b[1..], score) {
        TailOfScore(a, score);
        TailOfScore(b, score);
      }
      StableSortIsUnique(a[1..], b[1..]);
      assert a == [a[0]] + a[1..] && b == [b[0]] + b[1..];
    }
  }

  lemma HeadHasItsScore(list: seq<Entry>)
    requires list != []
    ensures OfScore(list, list[0].score) != [] && OfScore(list, list[0].score)[0] == list[0]
  {
  }

  lemma TailOfScore(list: seq<Entry>, score: nat)
    requires list != []
    ensures OfScore(list[1..], score)
         == if list[0].score == score then OfScore(list, score)[1..] else OfScore(list, score)
  {
    assert OfScore(list, score) == (if list[0].score == score then [list[0]] else []) + OfScore(list[1..], score);
  }

  lemma HeadOfHighestScore(list: seq<Entry>, score: nat)
    requires Descending(list) && OfScore(list, score) != []
    ensures list != [] && list[0].score >= score
  {
    if list != [] && list[0].score < score {
      NoneOfScore(list, score);
    }
  }

  // ---------- The main loop ----------

  /** What the main loop works on.  `firstUnhandled` and `cur` are entry ids; `virgin` counts
      the coverage bits no run has cleared yet, of which every addition clears at least one. */
  datatype State = State(list: seq<Entry>, firstUnhandled: Option<nat>, cur: Option<nat>,
                         nextId: nat, cycle: nat, virgin: nat)

  function IndexOf(list: seq<Entry>, id: nat): (i: nat)
    ensures i <= |list|
    ensures i < |list| ==> list[i].id == id
    ensures forall j: nat :: j < i ==> list[j].id != id
  {
    if list == [] || list[0].id == id then 0
    else
      var i := 1 + IndexOf(list[1..], id);
      assert forall j: nat :: 0 < j < i ==> list[j] == list[1..][j - 1];
      i
  }

  /** The first unhandled position at or after `i`. */
  function NextUnhandled(list: seq<Entry>, i: nat): (j: nat)
    requires i <= |list|
    ensures i <= j <= |list|
    ensures forall k :: i <= k < j ==> list[k].handled
    ensures j < |list| ==> !list[j].handled
    decreases |list| - i
  {
    if i == |list| || !list[i].handled then i else NextUnhandled(list, i + 1)
  }

  function IdAt(list: seq<Entry>, j: nat): Option<nat> {
    if j < |list| then Some(list[j].id) else None
  }

  function FirstUnhandled(list: seq<Entry>): Option<nat> { IdAt(list, NextUnhandled(list, 0)) }

  function ClearHandled(list: seq<Entry>): (r: seq<Entry>)
    ensures |r| == |list|
    ensures forall i :: 0 <= i < |list| ==> r[i] == list[i].(handled := false)
  {
    seq(|list|, i requires 0 <= i < |list| => list[i].(handled := false))
  }

  /** With no current entry, a new cycle starts at the head with all flags cleared. */
  function BeginCycle(s: State): State
    requires s.list != []
  {
    if s.cur.None?
    then s.(cycle := s.cycle + 1, cur := Some(s.list[0].id), list := ClearHandled(s.list))
    else s
  }

  function MarkHandled(list: seq<Entry>, id: nat): (r: seq<Entry>)
    ensures |r| == |list|
  {
    var i := IndexOf(list, id);
    if i < |list| then list[i := list[i].(handled := true)] else list
  }

  function Take(s: State): State
    requires s.cur.Some?
  {
    s.(list := MarkHandled(s.list, s.cur.value))
  }

  /** `add_to_queue`: the cache is recomputed only when the queue was not empty. */
  function Add(s: State, score: nat): State {
    var list := Insert(s.list, Entry(s.nextId, score, false));
    s.(list := list, nextId := s.nextId + 1,
       firstUnhandled := if s.list == [] then s.firstUnhandled else FirstUnhandled(list))
  }

  function AddAll(s: State, scores: seq<nat>): (r: State)
    ensures r.cur == s.cur
    decreases |scores|
  {
    if scores == [] then s else AddAll(Add(s, scores[0]), scores[1..])
  }

  /** The cached entry if an addition has set one, otherwise the next unhandled one from here. */
  function Advance(s: State): State
    requires s.cur.Some?
  {
    if s.firstUnhandled.Some? then s.(cur := s.firstUnhandled, firstUnhandled := None)
    else s.(cur := IdAt(s.list, NextUnhandled(s.list, IndexOf(s.list, s.cur.value))))
  }

  /** One turn of the loop: `taken` is fuzzed, and fuzzing it queued finds with these scores. */
  ghost predicate Turn(s: State, s': State, taken: nat, scores: seq<nat>) {
    && s.list != []
    && BeginCycle(s).cur == Some(taken)
    && s'.virgin + |scores| <= s.virgin
    && s' == Advance(AddAll(Take(BeginCycle(s)), scores)).(virgin := s'.virgin)
  }

  // ---------- The loop invariant ----------

  ghost predicate DistinctIds(list: seq<Entry>) {
    forall i, j :: 0 <= i < j < |list| ==> list[i].id != list[j].id
  }

  ghost predicate QueueOk(s: State) {
    s.list != [] && Ordered(s.list) && DistinctIds(s.list) && IdsBelow(s.list, s.nextId)
  }

  /** Between turns: the cache is empty and the current entry is the first unhandled one, or
      there is none and (but for the very start) everything is handled. */
  ghost predicate Inv(s: State) {
    && QueueOk(s)
    && s.firstUnhandled.None?
    && (s.cur.Some? ==> FirstUnhandled(s.list) == s.cur)
    && (s.cur.None? && s.cycle > 0 ==> FirstUnhandled(s.list).None?)
  }

  function HandledIds(list: seq<Entry>): set<nat> {
    set i | 0 <= i < |list| && list[i].handled :: list[i].id
  }

  lemma InsertionKeepsDistinct(F: seq<Entry>, N: seq<Entry>, e: Entry, p: nat)
    requires IsInsertion(F, N, e, p) && DistinctIds(N) && IdsBelow(N, e.id)
    ensures DistinctIds(F)
  {
    forall i, j | 0 <= i < j < |F| ensures F[i].id != F[j].id {
      var i', j' := if i < p then i else i - 1, if j < p then j else j - 1;
      assert i != p ==> F[i] == N[i'];
      assert j != p ==> F[j] == N[j'];
    }
  }

  lemma InsertionKeepsHandled(F: seq<Entry>, N: seq<Entry>, e: Entry, p: nat)
    requires IsInsertion(F, N, e, p) && !e.handled
    ensures HandledIds(F) == HandledIds(N)
  {
    forall i | 0 <= i < |N| && N[i].handled ensures N[i].id in HandledIds(F) {
      var k := if i < p then i else i + 1;
      assert F[k] == N[i];
    }
    forall i | 0 <= i < |F| && F[i].handled ensures F[i].id in HandledIds(N) {
      var k := if i < p then i else i - 1;
      assert F[i] == N[k];
    }
  }

  lemma AddFacts(s: State, score: nat)
    requires QueueOk(s)
    ensures var t := Add(s, score);
      && QueueOk(t) && |t.list| == |s.list| + 1 && t.cur == s.cur
      && HandledIds(t.list) == HandledIds(s.list)
      && t.firstUnhandled == FirstUnhandled(t.list) && t.firstUnhandled.Some?
  {
    var e := Entry(s.nextId, score, false);
    InsertIsInsertion(s.list, e);
    InsertionKeepsDistinct(Insert(s.list, e), s.list, e, InsertPos(s.list, score));
    InsertionKeepsHandled(Insert(s.list, e), s.list, e, InsertPos(s.list, score));
    InsertKeepsOrdered(s.list, e);
    assert Insert(s.list, e)[InsertPos(s.list, score)] == e;
  }

  lemma {:induction false} AddAllFacts(s: State, scores: seq<nat>)
    requires QueueOk(s)
    ensures var t := AddAll(s, scores);
      && QueueOk(t) && |t.list| == |s.list| + |scores| && t.cur == s.cur
      && t.virgin == s.virgin && t.cycle == s.cycle
      && HandledIds(t.list) == HandledIds(s.list)
      && (scores == [] ==> t == s)
      && (scores != [] ==> t.firstUnhandled == FirstUnhandled(t.list) && t.firstUnhandled.Some?)
    decreases |scores|
  {
    if scores != [] {
      AddFacts(s, scores[0]);
      AddAllFacts(Add(s, scores[0]), scores[1..]);
    }
  }

  lemma TakeFacts(s: State)
    requires QueueOk(s) && s.cur.Some? && FirstUnhandled(s.list) == s.cur
    ensures QueueOk(Take(s)) && |Take(s).list| == |s.list|
    ensures s.cur.value !in HandledIds(s.list)
    ensures HandledIds(Take(s).list) == HandledIds(s.list) + {s.cur.value}
    ensures var i := IndexOf(s.list, s.cur.value);
      i < |s.list| && forall k :: 0 <= k <= i ==> Take(s).list[k].handled
  {
    var i := NextUnhandled(s.list, 0);
    assert i < |s.list| && s.list[i].id == s.cur.value;
    assert IndexOf(s.list, s.cur.value) == i;
    MarkingOneHandled(s.list, i);
  }

  lemma MarkingOneHandled(list: seq<Entry>, i: nat)
    requires i < |list| && DistinctIds(list) && !list[i].handled
    ensures var r := list[i := list[i].(handled := true)];
      HandledIds(r) == HandledIds(list) + {list[i].id} && list[i].id !in HandledIds(list)
  {
    var r := list[i := list[i].(handled := true)];
    forall k | 0 <= k < |list| && list[k].handled ensures list[k].id in HandledIds(r) {
      assert r[k] == list[k];
    }
    assert r[i].id in HandledIds(r);
    forall k | 0 <= k < |r| && r[k].handled ensures r[k].id in HandledIds(list) + {list[i].id} {
      assert k != i ==> r[k] == list[k];
    }
  }

  lemma BeginCycleFacts(s: State)
    requires Inv(s)
    ensures var b := BeginCycle(s);
      && QueueOk(b) && b.firstUnhandled.None? && b.virgin == s.virgin && |b.list| == |s.list|
      && b.cur.Some? && FirstUnhandled(b.list) == b.cur && b.cycle >= s.cycle
      && HandledIds(b.list) == (if s.cur.None? then {} else HandledIds(s.list))
  {
  }

  /** Every turn keeps the invariant, fuzzes the first unhandled entry and nothing that was
      handled already, and ends without a current entry exactly when everything is handled. */
  lemma TurnKeepsInv(s: State, s': State, taken: nat, scores: seq<nat>)
    requires Inv(s) && Turn(s, s', taken, scores)
    ensures Inv(s') && s'.cycle == BeginCycle(s).cycle
    ensures FirstUnhandled(BeginCycle(s).list) == Some(taken)
    ensures taken !in HandledIds(BeginCycle(s).list)
    ensures HandledIds(s'.list) == HandledIds(BeginCycle(s).list) + {taken}
    ensures |s'.list| == |s.list| + |scores|
    ensures s'.cur == FirstUnhandled(s'.list)
  {
    BeginCycleFacts(s);
    var b := BeginCycle(s);
    TakeFacts(b);
    var t := Take(b);
    AddAllFacts(t, scores);
    if scores == [] {
      var i := IndexOf(t.list, taken);
      assert forall k :: 0 <= k < |t.list| ==> t.list[k].id == b.list[k].id;
      assert i == IndexOf(b.list, taken);
      SkippingHandledPrefix(t.list, i);
    }
  }

  ghost predicate OnlyFlagsDiffer(a: seq<Entry>, b: seq<Entry>) {
    |a| == |b| && forall i :: 0 <= i < |a| ==> b[i] == a[i].(handled := b[i].handled)
  }

  lemma FlagsDoNotMatter(a: seq<Entry>, b: seq<Entry>, bound: nat)
    requires OnlyFlagsDiffer(a, b) && Ordered(a) && DistinctIds(a) && IdsBelow(a, bound)
    ensures Ordered(b) && DistinctIds(b) && IdsBelow(b, bound)
  {
    forall i, j | 0 <= i < j < |b| ensures Before(b[i], b[j]) && b[i].id != b[j].id {
      assert Before(a[i], a[j]) && a[i].id != a[j].id;
    }
  }

  lemma TurnStages(s: State)
    requires QueueOk(s)
    ensures QueueOk(BeginCycle(s)) && QueueOk(Take(BeginCycle(s)))
    ensures BeginCycle(s).nextId == s.nextId == Take(BeginCycle(s)).nextId
  {
    var b := BeginCycle(s);
    FlagsDoNotMatter(s.list, b.list, s.nextId);
    FlagsDoNotMatter(b.list, Take(b).list, s.nextId);
  }

  lemma AdvanceKeepsQueueOk(s: State, s': State, virgin: nat)
    requires QueueOk(s) && s.cur.Some? && s' == Advance(s).(virgin := virgin)
    ensures QueueOk(s') && s'.nextId == s.nextId
  {
  }

  /** From any orderly state, the startup states included, a turn leads to an orderly one. */
  lemma TurnKeepsQueueOk(s: State, s': State, taken: nat, scores: seq<nat>)
    requires QueueOk(s) && Turn(s, s', taken, scores)
    ensures QueueOk(s') && s'.nextId == s.nextId + |scores|
    ensures Inv(s) ==> Inv(s')
  {
    var t := Take(BeginCycle(s));
    TurnStages(s);
    AddAllFacts(t, scores);
    AddAllNumbers(t, scores);
    AdvanceKeepsQueueOk(AddAll(t, scores), s', s'.virgin);
    if Inv(s) { TurnKeepsInv(s, s', taken, scores); }
  }

  lemma {:induction false} AddAllNumbers(s: State, scores: seq<nat>)
    ensures AddAll(s, scores).nextId == s.nextId + |scores|
    decreases |scores|
  {
    if scores != [] { AddAllNumbers(Add(s, scores[0]), scores[1..]); }
  }

  /** The entries with their scores. */
  function Scores(list: seq<Entry>): set<(nat, nat)> {
    set i | 0 <= i < |list| :: (list[i].id, list[i].score)
  }

  /** The finds numbered from `id` on, with their scores. */
  function Numbered(id: nat, scores: seq<nat>): set<(nat, nat)> {
    set j | 0 <= j < |scores| :: (id + j, scores[j])
  }

  lemma InsertionScores(F: seq<Entry>, N: seq<Entry>, e: Entry, p: nat)
    requires IsInsertion(F, N, e, p)
    ensures Scores(F) == Scores(N) + {(e.id, e.score)}
  {
    forall i | 0 <= i < |N| ensures (N[i].id, N[i].score) in Scores(F) {
      assert F[if i < p then i else i + 1] == N[i];
    }
    assert (F[p].id, F[p].score) in Scores(F);
    forall i | 0 <= i < |F| ensures (F[i].id, F[i].score) in Scores(N) + {(e.id, e.score)} {
      if i != p { assert F[i] == N[if i < p then i else i - 1]; }
    }
  }

  lemma NumberedFrom(id: nat, scores: seq<nat>)
    requires scores != []
    ensures Numbered(id, scores) == {(id, scores[0])} + Numbered(id + 1, scores[1..])
  {
    forall j | 0 <= j < |scores| ensures (id + j, scores[j]) in {(id, scores[0])} + Numbered(id + 1, scores[1..]) {
      if j > 0 { assert (id + 1 + (j - 1), scores[1..][j - 1]) in Numbered(id + 1, scores[1..]); }
    }
    forall j | 0 <= j < |scores| - 1 ensures (id + 1 + j, scores[1..][j]) in Numbered(id, scores) {
      assert (id + (j + 1), scores[j + 1]) in Numbered(id, scores);
    }
    assert (id + 0, scores[0]) in Numbered(id, scores);
  }

  lemma AddScores(s: State, score: nat)
    ensures Scores(Add(s, score).list) == Scores(s.list) + {(s.nextId, score)}
    ensures Add(s, score).nextId == s.nextId + 1
  {
    var e := Entry(s.nextId, score, false);
    InsertIsInsertion(s.list, e);
    InsertionScores(Insert(s.list, e), s.list, e, InsertPos(s.list, e.score));
  }

  lemma UnionAssociates<T>(a: set<T>, b: set<T>, c: set<T>)
    ensures (a + b) + c == a + (b + c)
  {
  }

  lemma {:induction false} AddAllScores(s: State, scores: seq<nat>)
    ensures Scores(AddAll(s, scores).list) == Scores(s.list) + Numbered(s.nextId, scores)
    decreases |scores|
  {
    if scores == [] {
      assert Numbered(s.nextId, scores) == {};
    } else {
      AddScores(s, scores[0]);
      AddAllScores(Add(s, scores[0]), scores[1..]);
      NumberedFrom(s.nextId, scores);
      UnionAssociates(Scores(s.list), {(s.nextId, scores[0])}, Numbered(s.nextId + 1, scores[1..]));
    }
  }

  lemma FlagsKeepScores(a: seq<Entry>, b: seq<Entry>)
    requires OnlyFlagsDiffer(a, b)
    ensures Scores(a) == Scores(b)
  {
    assert forall i :: 0 <= i < |a| ==> (a[i].id, a[i].score) == (b[i].id, b[i].score);
  }

  /** After a turn the queue holds what it held, with the same scores, and the finds with theirs; and a turn
      without a current entry to begin with is counted as a new cycle. */
  lemma TurnKeepsScores(s: State, s': State, taken: nat, scores: seq<nat>)
    requires QueueOk(s) && Turn(s, s', taken, scores)
    ensures Scores(s'.list) == Scores(s.list) + Numbered(s.nextId, scores)
    ensures s'.cycle == s.cycle + if s.cur.None? then 1 else 0
  {
    var b := BeginCycle(s);
    TurnStages(s);
    FlagsKeepScores(s.list, b.list);
    FlagsKeepScores(b.list, Take(b).list);
    AddAllScores(Take(b), scores);
    AddAllFacts(Take(b), scores);
  }

  lemma SkippingHandledPrefix(list: seq<Entry>, i: nat)
    requires i <= |list| && forall k :: 0 <= k < i ==> list[k].handled
    ensures NextUnhandled(list, i) == NextUnhandled(list, 0)
  {
  }

  /** The entry a turn fuzzes has the highest score among the unhandled entries, and is the
      oldest of those that share it. */
  lemma TakenIsBestUnhandled(s: State, s': State, taken: nat, scores: seq<nat>, e: Entry)
    requires Inv(s) && Turn(s, s', taken, scores)
    requires e in BeginCycle(s).list && !e.handled && e.id != taken
    ensures exists best :: best in BeginCycle(s).list && best.id == taken && Before(best, e)
  {
    BeginCycleFacts(s);
    var list := BeginCycle(s).list;
    var j := NextUnhandled(list, 0);
    var k :| 0 <= k < |list| && list[k] == e;
    assert k > j;
    assert list[j] in list;
  }

  // ---------- Whole runs ----------

  ghost predicate Run(states: seq<State>, taken: seq<nat>, adds: seq<seq<nat>>) {
    && |states| == |taken| + 1 == |adds| + 1
    && forall i :: 0 <= i < |taken| ==> Turn(states[i], states[i + 1], taken[i], adds[i])
  }

  /** The turns from the start of a cycle to its end or to some point before it. */
  ghost predicate OneCycle(states: seq<State>, taken: seq<nat>, adds: seq<seq<nat>>) {
    && Run(states, taken, adds)
    && Inv(states[0]) && states[0].cur.None?
    && forall i :: 0 < i < |taken| ==> states[i].cur.Some?
  }

  lemma {:induction false} RunKeepsInv(states: seq<State>, taken: seq<nat>, adds: seq<seq<nat>>, n: nat)
    requires Run(states, taken, adds) && Inv(states[0]) && n <= |taken|
    ensures Inv(states[n])
  {
    if n > 0 {
      RunKeepsInv(states, taken, adds, n - 1);
      TurnKeepsInv(states[n - 1], states[n], taken[n - 1], adds[n - 1]);
    }
  }

  function TakenSet(taken: seq<nat>, n: nat): set<nat>
    requires n <= |taken|
  {
    set i | 0 <= i < n :: taken[i]
  }

  lemma TurnHandlesOneMore(states: seq<State>, taken: seq<nat>, adds: seq<seq<nat>>, m: nat)
    requires OneCycle(states, taken, adds) && m < |taken| && Inv(states[m])
    ensures Inv(states[m + 1])
    ensures |states[m + 1].list| + states[m + 1].virgin <= |states[m].list| + states[m].virgin
    ensures var before := if m == 0 then {} else HandledIds(states[m].list);
      taken[m] !in before && HandledIds(states[m + 1].list) == before + {taken[m]}
  {
    BeginCycleFacts(states[m]);
    TurnKeepsInv(states[m], states[m + 1], taken[m], adds[m]);
  }

  lemma TakenSetGrows(taken: seq<nat>, n: nat)
    requires n < |taken| && taken[n] !in TakenSet(taken, n)
    ensures TakenSet(taken, n + 1) == TakenSet(taken, n) + {taken[n]}
    ensures |TakenSet(taken, n + 1)| == |TakenSet(taken, n)| + 1
    ensures forall i :: 0 <= i < n ==> taken[i] != taken[n]
  {
    assert forall i :: 0 <= i < n ==> taken[i] in TakenSet(taken, n);
    assert TakenSet(taken, n + 1) == TakenSet(taken, n) + {taken[n]};
  }

  /** After n turns of a cycle exactly the n entries taken so far are handled; and each addition
      has been paid for with a virgin bit. */
  lemma {:induction false} AfterTurns(states: seq<State>, taken: seq<nat>, adds: seq<seq<nat>>, n: nat)
    requires OneCycle(states, taken, adds) && n <= |taken|
    ensures 0 < n ==> HandledIds(states[n].list) == TakenSet(taken, n)
    ensures |TakenSet(taken, n)| == n
    ensures forall i, j :: 0 <= i < j < n ==> taken[i] != taken[j]
    ensures |states[n].list| + states[n].virgin <= |states[0].list| + states[0].virgin
    ensures Inv(states[n])
  {
    if n == 0 {
      assert TakenSet(taken, 0) == {};
    } else {
      var m := n - 1;
      AfterTurns(states, taken, adds, m);
      TurnHandlesOneMore(states, taken, adds, m);
      TakenSetGrows(taken, m);
      DistinctWithOneMore(taken, m);
    }
  }

  lemma DistinctWithOneMore(taken: seq<nat>, m: nat)
    requires m < |taken| && forall i, j :: 0 <= i < j < m ==> taken[i] != taken[j]
    requires forall i :: 0 <= i < m ==> taken[i] != taken[m]
    ensures forall i, j :: 0 <= i < j < m + 1 ==> taken[i] != taken[j]
  {
  }

  lemma {:induction false} HandledIdsFit(list: seq<Entry>)
    ensures |HandledIds(list)| <= |list|
  {
    if list != [] {
      var init, last := list[..|list| - 1], list[|list| - 1];
      HandledIdsFit(init);
      assert HandledIds(list) == HandledIds(init) + (if last.handled then {last.id} else {}) by {
        assert forall i :: 0 <= i < |init| ==> init[i] == list[i];
      }
    }
  }

  lemma {:induction false} AllHandledIds(list: seq<Entry>)
    requires DistinctIds(list) && forall i :: 0 <= i < |list| ==> list[i].handled
    ensures |HandledIds(list)| == |list|
  {
    if list != [] {
      var init, last := list[..|list| - 1], list[|list| - 1];
      AllHandledIds(init);
      assert HandledIds(list) == HandledIds(init) + {last.id} by {
        assert forall i :: 0 <= i < |init| ==> init[i] == list[i];
      }
      assert last.id !in HandledIds(init);
    }
  }

  /** No cycle takes an entry twice, and every cycle ends: additions and turns together never
      exceed the entries and virgin bits there were when it began. */
  lemma CycleIsBounded(states: seq<State>, taken: seq<nat>, adds: seq<seq<nat>>)
    requires OneCycle(states, taken, adds)
    ensures forall i, j :: 0 <= i < j < |taken| ==> taken[i] != taken[j]
    ensures |taken| <= |states[0].list| + states[0].virgin
  {
    AfterTurns(states, taken, adds, |taken|);
    if |taken| > 0 { HandledIdsFit(states[|taken|].list); }
  }

  function Ids(list: seq<Entry>): set<nat> {
    set i | 0 <= i < |list| :: list[i].id
  }

  /** A completed cycle has taken every entry of the queue exactly once, those that were added
      on the way included. */
  lemma CompletedCycleTakesAll(states: seq<State>, taken: seq<nat>, adds: seq<seq<nat>>)
    requires OneCycle(states, taken, adds) && |taken| > 0 && states[|taken|].cur.None?
    ensures |taken| == |states[|taken|].list|
    ensures TakenSet(taken, |taken|) == Ids(states[|taken|].list)
  {
    var n := |taken|;
    AfterTurns(states, taken, adds, n);
    TurnEndsCycle(states, taken, adds);
    var list := states[n].list;
    AllHandledIds(list);
    assert HandledIds(list) == Ids(list);
  }

  lemma TurnEndsCycle(states: seq<State>, taken: seq<nat>, adds: seq<seq<nat>>)
    requires OneCycle(states, taken, adds) && |taken| > 0 && states[|taken|].cur.None?
    ensures forall i :: 0 <= i < |states[|taken|].list| ==> states[|taken|].list[i].handled
  {
    var m := |taken| - 1;
    AfterTurns(states, taken, adds, m);
    TurnKeepsInv(states[m], states[m + 1], taken[m], adds[m]);
    assert NextUnhandled(states[m + 1].list, 0) == |states[m + 1].list|;
  }

  // ---------- The start of a session ----------

  /** The seeds as they are read: numbered in order, nothing handled. */
  ghost predicate Fresh(list: seq<Entry>) {
    forall i: nat :: i < |list| ==> list[i].id == i && !list[i].handled
  }

  function Rescored(list: seq<Entry>, scores: seq<nat>): (r: seq<Entry>)
    requires |scores| == |list|
    ensures |r| == |list|
    ensures forall i :: 0 <= i < |list| ==> r[i] == list[i].(score := scores[i])
  {
    seq(|list|, i requires 0 <= i < |list| => list[i].(score := scores[i]))
  }

  /** While all scores are 0, a newcomer goes to the end. */
  lemma UnscoredSeedIsAppended(list: seq<Entry>)
    requires Fresh(list) && forall i :: 0 <= i < |list| ==> list[i].score == 0
    ensures Insert(list, Entry(|list|, 0, false)) == list + [Entry(|list|, 0, false)]
  {
    assert InsertPos(list, 0) == |list|;
  }

  lemma InsertStaysDistinct(list: seq<Entry>, e: Entry)
    requires Ordered(list) && DistinctIds(list) && IdsBelow(list, e.id)
    ensures Ordered(Insert(list, e)) && DistinctIds(Insert(list, e)) && IdsBelow(Insert(list, e), e.id + 1)
  {
    InsertKeepsOrdered(list, e);
    InsertIsInsertion(list, e);
    InsertionKeepsDistinct(Insert(list, e), list, e, InsertPos(list, e.score));
  }

  lemma {:induction false} SortOntoIsOrdered(acc: seq<Entry>, rest: seq<Entry>, n: nat, r: seq<Entry>)
    requires Ordered(acc) && DistinctIds(acc) && IdsBelow(acc, n) && r == SortOnto(acc, rest)
    requires forall i: nat :: i < |rest| ==> rest[i].id == n + i
    ensures Ordered(r) && DistinctIds(r) && IdsBelow(r, n + |rest|)
    decreases |rest|
  {
    if rest != [] {
      InsertStaysDistinct(acc, rest[0]);
      SortOntoIsOrdered(Insert(acc, rest[0]), rest[1..], n + 1, r);
    }
  }

  lemma SortedSeeds(list: seq<Entry>)
    requires Fresh(list)
    ensures var r := Sorted(list);
      && |r| == |list| && Ordered(r) && DistinctIds(r) && IdsBelow(r, |list|)
      && forall i :: 0 <= i < |r| ==> !r[i].handled
  {
    var r := Sorted(list);
    SortOntoIsOrdered([], list, 0, r);
    SortedIsStableSort(list);
    forall i | 0 <= i < |r| ensures !r[i].handled {
      assert r[i] in multiset(list);
    }
  }

  /** The state before the first turn when there is one seed, whose insertion left the cache empty. */
  ghost predicate Start(s: State) {
    QueueOk(s) && s.firstUnhandled.None? && s.cur.None? && s.cycle == 0
  }

  /** The state `sort_queue` leaves behind when there are two or more seeds: the cache still
      names the head. */
  ghost predicate SortedStart(s: State) {
    && QueueOk(s) && |s.list| >= 2 && s.cycle == 0 && s.cur.None?
    && s.firstUnhandled == Some(s.list[0].id)
  }

  lemma StartInv(s: State)
    requires Start(s)
    ensures Inv(s)
  {
  }

  /** From there the head is chosen twice in the first cycle exactly when fuzzing it the first
      time queued nothing; from the second turn at the latest the loop invariant holds. */
  lemma SortedStartRepeatsHead(s: State, s1: State, taken: nat, scores: seq<nat>)
    requires SortedStart(s) && Turn(s, s1, taken, scores)
    ensures taken == s.list[0].id
    ensures s1.cur == Some(taken) <==> scores == []
    ensures scores != [] ==> Inv(s1)
    ensures scores == [] ==> forall s2, again, more :: Turn(s1, s2, again, more) ==> again == taken && Inv(s2)
  {
    var b := BeginCycle(s);
    assert b.list[0].id == s.list[0].id;
    assert IndexOf(b.list, taken) == 0;
    assert FirstUnhandled(b.list) == Some(taken);
    TakeFacts(b);
    var t := Take(b);
    AddAllFacts(t, scores);
    if scores != [] {
      var list := AddAll(t, scores).list;
      var j := NextUnhandled(list, 0);
      assert taken in HandledIds(list);
      assert list[j].id != taken by {
        var i :| 0 <= i < |list| && list[i].handled && list[i].id == taken;
      }
    } else {
      assert s1.list[0].handled && s1.list[0].id == taken;
      forall s2, again, more | Turn(s1, s2, again, more) ensures again == taken && Inv(s2) {
        SecondTurnOfHead(s1, s2, again, more);
      }
    }
  }

  lemma SecondTurnOfHead(s1: State, s2: State, again: nat, more: seq<nat>)
    requires QueueOk(s1) && s1.firstUnhandled.None? && s1.list[0].handled && s1.cur == Some(s1.list[0].id)
    requires Turn(s1, s2, again, more)
    ensures again == s1.list[0].id && Inv(s2)
  {
    var t := Take(s1);
    assert IndexOf(s1.list, again) == 0;
    assert t.list == s1.list;
    AddAllFacts(t, more);
    SkippingHandledPrefix(t.list, 0);
  }
}
