/** The main loop with real finds: every turn runs executions through the session, and what the
    session queues goes to the seed queue.  The virgin bits that pay for additions are those that are
    left in the session's map. */
module FuzzLoop {
  import opened Bytes
  import opened Coverage
  import opened SaveCase
  import Scheduler
  import opened Queue

  /** One execution of a mutated input: its outcome and trace, what its calibration and a second run
      would show, and the length and score it would be queued with. */
  datatype Exec = Exec(fault: Fault, trace: Map, runs: seq<CalRun>, rerunFault: Fault, rerunTrace: Map, len: nat, score: nat) {
    ghost predicate Ok() {
      |trace| == MAP_SIZE && IsClassified(trace) && AreRuns(runs) && |rerunTrace| == MAP_SIZE
    }
  }

  ghost predicate AllOk(execs: seq<Exec>) {
    forall k :: 0 <= k < |execs| ==> execs[k].Ok()
  }

  /** Is the execution queued, given what was recorded before it? */
  ghost predicate IsFind(mode: Fault, recorded: seq<Map>, exec: Exec)
    requires AreMaps(recorded) && exec.Ok()
  {
    exec.fault == mode && HasNewClass(exec.trace, recorded)
  }

  /** What is recorded after it: its trace if it had the expected outcome, and what calibration records. */
  ghost function Recorded(mode: Fault, recorded: seq<Map>, exec: Exec): (r: seq<Map>)
    requires AreMaps(recorded) && exec.Ok()
    ensures AreMaps(r)
  {
    recorded
    + (if exec.fault == mode then [exec.trace] else [])
    + (if IsFind(mode, recorded, exec) then CalTraces(exec.trace, exec.runs, mode) else [])
  }

  /** What is recorded before the k-th execution. */
  ghost function Before(mode: Fault, recorded: seq<Map>, execs: seq<Exec>, k: nat): (r: seq<Map>)
    requires AreMaps(recorded) && AllOk(execs) && k <= |execs|
    ensures AreMaps(r)
  {
    if k == 0 then recorded else Recorded(mode, Before(mode, recorded, execs, k - 1), execs[k - 1])
  }

  ghost predicate FindAt(mode: Fault, recorded: seq<Map>, execs: seq<Exec>, k: nat)
    requires AreMaps(recorded) && AllOk(execs) && k < |execs|
  {
    IsFind(mode, Before(mode, recorded, execs, k), execs[k])
  }

  /** The finds among the first n executions, in order. */
  ghost predicate AreFinds(finds: seq<nat>, n: nat, mode: Fault, recorded: seq<Map>, execs: seq<Exec>)
    requires AreMaps(recorded) && AllOk(execs) && n <= |execs|
  {
    && Ascending(finds, |finds|, n)
    && forall k: nat :: k < n ==> (k in finds <==> FindAt(mode, recorded, execs, k))
  }

  /** These are the lengths and scores of the finds, in order. */
  ghost predicate Reported(finds: seq<nat>, lens: seq<nat>, scores: seq<nat>, execs: seq<Exec>) {
    && |finds| == |lens| == |scores|
    && forall j :: 0 <= j < |finds| ==>
         finds[j] < |execs| && lens[j] == execs[finds[j]].len && scores[j] == execs[finds[j]].score
  }

  /** After k executions: the finds so far, and what is recorded. */
  ghost predicate Running(k: nat, finds: seq<nat>, lens: seq<nat>, scores: seq<nat>, now: seq<Map>,
                          mode: Fault, recorded: seq<Map>, execs: seq<Exec>)
    requires AreMaps(recorded) && AllOk(execs) && k <= |execs|
  {
    && AreFinds(finds, k, mode, recorded, execs) && Reported(finds, lens, scores, execs)
    && now == Before(mode, recorded, execs, k)
  }

  lemma FindAdded(finds: seq<nat>, n: nat, mode: Fault, recorded: seq<Map>, execs: seq<Exec>)
    requires AreMaps(recorded) && AllOk(execs) && n < |execs| && AreFinds(finds, n, mode, recorded, execs)
    requires FindAt(mode, recorded, execs, n)
    ensures AreFinds(finds + [n], n + 1, mode, recorded, execs)
  {
    assert forall k: nat :: k in finds + [n] <==> k in finds || k == n;
  }

  lemma NoFindAdded(finds: seq<nat>, n: nat, mode: Fault, recorded: seq<Map>, execs: seq<Exec>)
    requires AreMaps(recorded) && AllOk(execs) && n < |execs| && AreFinds(finds, n, mode, recorded, execs)
    requires !FindAt(mode, recorded, execs, n)
    ensures AreFinds(finds, n + 1, mode, recorded, execs)
  {
  }

  lemma OneMoreRun(k: nat, finds: seq<nat>, lens: seq<nat>, scores: seq<nat>, now: seq<Map>,
                   mode: Fault, recorded: seq<Map>, execs: seq<Exec>)
    requires AreMaps(recorded) && AllOk(execs) && k < |execs|
    requires Running(k, finds, lens, scores, now, mode, recorded, execs)
    ensures IsFind(mode, now, execs[k]) ==>
      Running(k + 1, finds + [k], lens + [execs[k].len], scores + [execs[k].score], Recorded(mode, now, execs[k]),
              mode, recorded, execs)
    ensures !IsFind(mode, now, execs[k]) ==>
      Running(k + 1, finds, lens, scores, Recorded(mode, now, execs[k]), mode, recorded, execs)
  {
    if IsFind(mode, now, execs[k]) {
      FindAdded(finds, k, mode, recorded, execs);
    } else {
      NoFindAdded(finds, k, mode, recorded, execs);
    }
  }

  /** One execution: queued iff it had the expected outcome and a class no recorded trace had. */
  method RunOne(ses: Session, exec: Exec) returns (keeping: bool)
    requires ses.Valid() && exec.Ok()
    modifies ses, ses.queueMap`recorded, ses.queueMap.virgin, ses.crashMap`examined, ses.crashMap.virgin,
             ses.hangMap`examined, ses.hangMap.virgin, ses.traceBits
    ensures ses.Valid()
    ensures keeping <==> exec.fault == ses.crashMode && HasNewClass(exec.trace, old(ses.queueMap.recorded))
    ensures ses.queuedPaths == old(ses.queuedPaths) + if keeping then 1 else 0
    ensures ses.queueMap.Left() + (if keeping then 1 else 0) <= old(ses.queueMap.Left())
    ensures ses.queueMap.recorded == Recorded(ses.crashMode, old(ses.queueMap.recorded), exec)
  {
    ses.LoadTrace(exec.trace);
    var kept;
    keeping, kept := ses.SaveIfInteresting(exec.fault, exec.runs, exec.rerunFault, exec.rerunTrace);
  }

  /** The executions of one turn.  Those and only those are reported, in order and with their lengths and
      scores, that had the expected outcome and a class nothing recorded before them had; and every find
      has been paid for with a virgin bit. */
  method RunAll(ses: Session, execs: seq<Exec>) returns (lens: seq<nat>, scores: seq<nat>, ghost finds: seq<nat>)
    requires ses.Valid() && AllOk(execs)
    modifies ses, ses.queueMap`recorded, ses.queueMap.virgin, ses.crashMap`examined, ses.crashMap.virgin,
             ses.hangMap`examined, ses.hangMap.virgin, ses.traceBits
    ensures ses.Valid()
    ensures AreFinds(finds, |execs|, ses.crashMode, old(ses.queueMap.recorded), execs)
    ensures Reported(finds, lens, scores, execs)
    ensures ses.queueMap.recorded == Before(ses.crashMode, old(ses.queueMap.recorded), execs, |execs|)
    ensures ses.queuedPaths == old(ses.queuedPaths) + |scores|
    ensures ses.queueMap.Left() + |scores| <= old(ses.queueMap.Left())
  {
    lens, scores, finds := [], [], [];
    for k := 0 to |execs|
      invariant ses.Valid()
      invariant Running(k, finds, lens, scores, ses.queueMap.recorded, ses.crashMode, old(ses.queueMap.recorded), execs)
      invariant ses.queuedPaths == old(ses.queuedPaths) + |scores|
      invariant ses.queueMap.Left() + |scores| <= old(ses.queueMap.Left())
    {
      ghost var recorded, now := old(ses.queueMap.recorded), ses.queueMap.recorded;
      var keeping := RunOne(ses, execs[k]);
      OneMoreRun(k, finds, lens, scores, now, ses.crashMode, recorded, execs);
      if keeping { lens, scores, finds := lens + [execs[k].len], scores + [execs[k].score], finds + [k]; }
    }
  }

  /** Queue and session agree on the number of entries and on the virgin bits that are left. */
  ghost predicate Joined(q: SeedQueue, ses: Session)
    reads q, ses, ses.queueMap.virgin
  {
    q.queuedPaths == ses.queuedPaths && q.virginBits == ses.queueMap.Left()
  }

  ghost predicate Ready(q: SeedQueue)
    reads q, q.shortcutPer100, q.nodes, q.entries
  {
    q.Valid() && Scheduler.QueueOk(q.Model()) && q.PointersOk()
  }

  /** Running executions does not touch the queue. */
  twostate lemma QueueStays(q: SeedQueue)
    requires old(Ready(q)) && unchanged(q) && unchanged(q.shortcutPer100) && unchanged(q.entries)
    ensures Ready(q) && q.Model() == old(q.Model())
  {
    assert forall n :: n in q.nodes ==> n in q.entries;
  }

  /** Nor does a turn of the queue touch the session. */
  twostate lemma SessionStays(ses: Session)
    requires old(ses.Valid()) && unchanged(ses) && unchanged(ses.traceBits)
    requires unchanged(ses.queueMap) && unchanged(ses.crashMap) && unchanged(ses.hangMap)
    requires unchanged(ses.queueMap.virgin) && unchanged(ses.crashMap.virgin) && unchanged(ses.hangMap.virgin)
    ensures ses.Valid() && ses.queueMap.Left() == old(ses.queueMap.Left())
  {
  }

  /** The finds of a turn go to the queue. */
  method Schedule(q: SeedQueue, ses: Session, lens: seq<nat>, scores: seq<nat>) returns (taken: nat)
    requires Ready(q) && ses.Valid() && |lens| == |scores| && ses.queueMap.Left() + |scores| <= q.virginBits
    modifies q, q.shortcutPer100, q.entries`next, q.entries`handledInCycle
    ensures Ready(q) && ses.Valid()
    ensures forall e :: e in q.entries && e !in old(q.entries) ==> fresh(e)
    ensures q.virginBits == ses.queueMap.Left() && q.queuedPaths == old(q.queuedPaths) + |scores|
    ensures ses.queuedPaths == old(ses.queuedPaths)
    ensures Scheduler.Turn(old(q.Model()), q.Model(), taken, scores)
    ensures old(Scheduler.Inv(q.Model())) ==> Scheduler.Inv(q.Model())
    ensures HaveLengths(q.nodes, old(q.queuedPaths), lens)
    ensures Scheduler.Scores(q.Model().list)
         == Scheduler.Scores(old(q.Model()).list) + Scheduler.Numbered(old(q.queuedPaths), scores)
  {
    ghost var s := q.Model();
    taken := q.MainTurn(lens, scores, ses.queueMap.Left());
    SessionStays(ses);
    Scheduler.TurnKeepsScores(s, q.Model(), taken, scores);
  }

  /** One turn: the scheduler's turn, with nothing assumed about the finds.  Afterwards the queue holds what it
      held and the finds of these executions, numbered in order, with their own scores and lengths. */
  method FuzzTurn(q: SeedQueue, ses: Session, execs: seq<Exec>)
    returns (taken: nat, ghost scores: seq<nat>, ghost finds: seq<nat>)
    requires Ready(q)
    requires ses.Valid() && AllOk(execs) && Joined(q, ses)
    modifies q, q.shortcutPer100, q.entries`next, q.entries`handledInCycle
    modifies ses, ses.queueMap`recorded, ses.queueMap.virgin, ses.crashMap`examined, ses.crashMap.virgin,
             ses.hangMap`examined, ses.hangMap.virgin, ses.traceBits
    ensures Ready(q)
    ensures ses.Valid() && Joined(q, ses)
    ensures forall e :: e in q.entries && e !in old(q.entries) ==> fresh(e)
    ensures q.queuedPaths + q.virginBits <= old(q.queuedPaths + q.virginBits)
    ensures Scheduler.Turn(old(q.Model()), q.Model(), taken, scores)
    ensures old(Scheduler.Inv(q.Model())) ==> Scheduler.Inv(q.Model())
    ensures AreFinds(finds, |execs|, ses.crashMode, old(ses.queueMap.recorded), execs)
    ensures |scores| == |finds| && forall j :: 0 <= j < |finds| ==> scores[j] == execs[finds[j]].score
    ensures Scheduler.Scores(q.Model().list)
         == Scheduler.Scores(old(q.Model()).list) + Scheduler.Numbered(old(q.queuedPaths), scores)
    ensures HaveLengths(q.nodes, old(q.queuedPaths), seq(|finds|, j requires 0 <= j < |finds| => execs[finds[j]].len))
    ensures ses.queueMap.recorded == Before(ses.crashMode, old(ses.queueMap.recorded), execs, |execs|)
  {
    var lens, results;
    lens, results, finds := RunAll(ses, execs);
    scores := results;
    assert lens == seq(|finds|, j requires 0 <= j < |finds| => execs[finds[j]].len);
    QueueStays(q);
    taken := Schedule(q, ses, lens, results);
  }

  /** The seeds are read, calibrated and sorted; from then on the session's virgin bits count. */
  method Begin(q: SeedQueue, ses: Session, lens: seq<nat>, scores: seq<nat>)
    requires q.Valid() && q.nodes == [] && q.entries == {} && q.queuedPaths == 0 && q.firstUnhandled == null
    requires q.queueCur == null && q.queueCycle == 0
    requires ses.Valid() && ses.queuedPaths == |lens| == |scores| > 0
    modifies q, q.shortcutPer100
    ensures Ready(q) && ses.Valid() && Joined(q, ses)
    ensures |lens| == 1 ==> Scheduler.Start(q.Model())
    ensures |lens| >= 2 ==> Scheduler.SortedStart(q.Model())
  {
    q.Startup(lens, scores);
    SetBits(q, ses);
  }

  ghost method SetBits(q: SeedQueue, ses: Session)
    requires Ready(q) && ses.Valid()
    modifies q`virginBits
    ensures Ready(q) && ses.Valid() && q.queuedPaths == old(q.queuedPaths)
    ensures q.virginBits == ses.queueMap.Left() && q.Model() == old(q.Model()).(virgin := ses.queueMap.Left())
  {
    q.virginBits := ses.queueMap.Left();
  }

  /** The states of a run, the entries it took and the scores it added. */
  datatype History = History(states: seq<Scheduler.State>, taken: seq<nat>, adds: seq<seq<nat>>) {
    ghost predicate From(first: Scheduler.State, last: Scheduler.State, n: nat) {
      && Scheduler.Run(states, taken, adds) && |taken| == n
      && states[0] == first && states[n] == last
    }

    function And(next: Scheduler.State, t: nat, scores: seq<nat>): History {
      History(states + [next], taken + [t], adds + [scores])
    }
  }

  lemma OneMoreTurn(h: History, first: Scheduler.State, last: Scheduler.State, n: nat,
                    next: Scheduler.State, t: nat, scores: seq<nat>)
    requires h.From(first, last, n) && Scheduler.Turn(last, next, t, scores)
    ensures h.And(next, t, scores).From(first, next, n + 1)
  {
    var g := h.And(next, t, scores);
    forall i | 0 <= i < |g.taken| ensures Scheduler.Turn(g.states[i], g.states[i + 1], g.taken[i], g.adds[i]) {
      if i < n {
        assert g.states[i] == h.states[i] && g.states[i + 1] == h.states[i + 1];
        assert g.taken[i] == h.taken[i] && g.adds[i] == h.adds[i];
      }
    }
  }

  ghost predicate TurnsOk(turns: seq<seq<Exec>>) {
    forall k :: 0 <= k < |turns| ==> AllOk(turns[k])
  }

  /** What is recorded before the k-th turn. */
  ghost function BeforeTurn(mode: Fault, recorded: seq<Map>, turns: seq<seq<Exec>>, k: nat): (r: seq<Map>)
    requires AreMaps(recorded) && TurnsOk(turns) && k <= |turns|
    ensures AreMaps(r)
  {
    if k == 0 then recorded
    else Before(mode, BeforeTurn(mode, recorded, turns, k - 1), turns[k - 1], |turns[k - 1]|)
  }

  /** A turn adds the scores of its finds. */
  ghost predicate Adds(mode: Fault, recorded: seq<Map>, execs: seq<Exec>, scores: seq<nat>)
    requires AreMaps(recorded) && AllOk(execs)
  {
    exists finds: seq<nat> :: AreFinds(finds, |execs|, mode, recorded, execs) && ScoresOf(finds, execs, scores)
  }

  ghost predicate ScoresOf(finds: seq<nat>, execs: seq<Exec>, scores: seq<nat>) {
    |scores| == |finds| && forall j :: 0 <= j < |finds| ==> finds[j] < |execs| && scores[j] == execs[finds[j]].score
  }

  ghost predicate AllAdd(mode: Fault, recorded: seq<Map>, turns: seq<seq<Exec>>, adds: seq<seq<nat>>)
    requires AreMaps(recorded) && TurnsOk(turns) && |adds| <= |turns|
  {
    forall k :: 0 <= k < |adds| ==> Adds(mode, BeforeTurn(mode, recorded, turns, k), turns[k], adds[k])
  }

  /** What these turns have added, and what has been recorded by now. */
  ghost predicate Told(mode: Fault, recorded: seq<Map>, turns: seq<seq<Exec>>, adds: seq<seq<nat>>, now: seq<Map>) {
    && AreMaps(recorded) && TurnsOk(turns) && |adds| <= |turns|
    && AllAdd(mode, recorded, turns, adds) && now == BeforeTurn(mode, recorded, turns, |adds|)
  }

  lemma OneMoreTold(mode: Fault, recorded: seq<Map>, turns: seq<seq<Exec>>, adds: seq<seq<nat>>, scores: seq<nat>,
                    now: seq<Map>, then': seq<Map>)
    requires Told(mode, recorded, turns, adds, now) && |adds| < |turns| && Adds(mode, now, turns[|adds|], scores)
    requires then' == Before(mode, now, turns[|adds|], |turns[|adds|]|)
    ensures Told(mode, recorded, turns, adds + [scores], then')
  {
    var all := adds + [scores];
    forall k | 0 <= k < |all| ensures Adds(mode, BeforeTurn(mode, recorded, turns, k), turns[k], all[k]) {
      if k < |adds| { assert all[k] == adds[k]; }
    }
  }

  /** After n turns that led from `first` to the present state. */
  ghost predicate After(q: SeedQueue, ses: Session, h: History, first: Scheduler.State, n: nat, bound: nat)
    reads q, q.shortcutPer100, q.nodes, q.entries,
          ses, ses.queueMap, ses.queueMap.virgin, ses.crashMap, ses.crashMap.virgin, ses.hangMap, ses.hangMap.virgin,
          ses.traceBits
  {
    && Ready(q) && ses.Valid() && Joined(q, ses)
    && h.From(first, q.Model(), n)
    && q.queuedPaths + q.virginBits <= bound
    && (Scheduler.Inv(first) ==> Scheduler.Inv(q.Model()))
  }

  method NextTurn(q: SeedQueue, ses: Session, execs: seq<Exec>, ghost h: History, ghost first: Scheduler.State,
                  ghost n: nat, ghost bound: nat, ghost recorded: seq<Map>, ghost turns: seq<seq<Exec>>)
    returns (ghost h': History)
    requires After(q, ses, h, first, n, bound) && AllOk(execs)
    requires |h.adds| == n < |turns| && execs == turns[n]
    requires Told(ses.crashMode, recorded, turns, h.adds, ses.queueMap.recorded)
    modifies q, q.shortcutPer100, q.entries`next, q.entries`handledInCycle
    modifies ses, ses.queueMap`recorded, ses.queueMap.virgin, ses.crashMap`examined, ses.crashMap.virgin,
             ses.hangMap`examined, ses.hangMap.virgin, ses.traceBits
    ensures After(q, ses, h', first, n + 1, bound)
    ensures forall e :: e in q.entries && e !in old(q.entries) ==> fresh(e)
    ensures |h'.adds| == n + 1 && Told(ses.crashMode, recorded, turns, h'.adds, ses.queueMap.recorded)
  {
    ghost var last, now := q.Model(), ses.queueMap.recorded;
    var taken;
    ghost var scores, finds;
    taken, scores, finds := FuzzTurn(q, ses, execs);
    OneMoreTurn(h, first, last, n, q.Model(), taken, scores);
    assert ScoresOf(finds, execs, scores);
    OneMoreTold(ses.crashMode, recorded, turns, h.adds, scores, now, ses.queueMap.recorded);
    h' := h.And(q.Model(), taken, scores);
  }

  /** A session: its turns are a run of the scheduler in which every turn adds the scores of its finds, so that
      what is proved about runs applies to it; and the entries it adds never exceed the virgin bits there
      were. */
  method Fuzz(q: SeedQueue, ses: Session, turns: seq<seq<Exec>>) returns (ghost h: History)
    requires Ready(q) && ses.Valid() && Joined(q, ses) && TurnsOk(turns)
    modifies q, q.shortcutPer100, q.entries`next, q.entries`handledInCycle
    modifies ses, ses.queueMap`recorded, ses.queueMap.virgin, ses.crashMap`examined, ses.crashMap.virgin,
             ses.hangMap`examined, ses.hangMap.virgin, ses.traceBits
    ensures After(q, ses, h, old(q.Model()), |turns|, old(q.queuedPaths + q.virginBits))
    ensures |h.adds| == |turns| && Told(ses.crashMode, old(ses.queueMap.recorded), turns, h.adds, ses.queueMap.recorded)
  {
    ghost var first, bound := q.Model(), q.queuedPaths + q.virginBits;
    ghost var recorded := ses.queueMap.recorded;
    h := History([first], [], []);
    for k := 0 to |turns|
      invariant After(q, ses, h, first, k, bound)
      invariant forall e :: e in q.entries && e !in old(q.entries) ==> fresh(e)
      invariant |h.adds| == k && Told(ses.crashMode, recorded, turns, h.adds, ses.queueMap.recorded)
    {
      h := NextTurn(q, ses, turns[k], h, first, k, bound, recorded, turns);
    }
  }
}
