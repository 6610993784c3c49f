/** What afl-fuzz does with the outcome of an execution: queue it, save it as a crash or a hang,
    or drop it; and what that amounts to over a whole session. */
module SaveCase {
  import opened Bytes
  import opened Coverage

  /** The map that guards the queue, with the traces it has recorded. */
  class QueueMap {
    const virgin: array<bv8>
    ghost var recorded: seq<Map>

    ghost predicate Valid()
      reads this, virgin
    {
      && virgin.Length == MAP_SIZE && AreMaps(recorded)
      && (forall k :: 0 <= k < |recorded| ==> IsClassified(recorded[k]))
      && virgin[..] == VirginAfter(recorded)
    }

    /** Virgin bits that are left. */
    ghost function Left(): nat
      reads virgin
    {
      BitCount(virgin[..])
    }

    constructor ()
      ensures Valid() && recorded == [] && fresh(virgin)
    {
      virgin := new bv8[MAP_SIZE](_ => 0xFF);
      recorded := [];
    }

    /** 2 iff the trace hits an index no recorded trace hit; at least 1 iff it has, somewhere, a
        hit-count class no recorded trace had there. */
    method Record(traceBits: array<bv8>) returns (hnb: nat)
      requires Valid() && traceBits != virgin && traceBits.Length == MAP_SIZE && IsClassified(traceBits[..])
      modifies this`recorded, virgin
      ensures Valid() && recorded == old(recorded) + [traceBits[..]]
      ensures hnb <= 2 && (hnb == 2 <==> HitsNewIndex(traceBits[..], old(recorded)))
      ensures hnb != 0 <==> HasNewClass(traceBits[..], old(recorded))
      ensures Left() <= old(Left()) && (hnb != 0 ==> Left() < old(Left()))
    {
      ghost var t, v := traceBits[..], virgin[..];
      hnb := HasNewBits(traceBits, virgin);
      RecordFacts(recorded, t, v, hnb);
      recorded := recorded + [t];
    }
  }

  ghost predicate HitsNewIndex(t: Map, earlier: seq<Map>)
    requires |t| == MAP_SIZE && AreMaps(earlier)
  {
    exists i :: 0 <= i < MAP_SIZE && t[i] != 0 && forall k :: 0 <= k < |earlier| ==> earlier[k][i] == 0
  }

  ghost predicate HasNewClass(t: Map, earlier: seq<Map>)
    requires |t| == MAP_SIZE && AreMaps(earlier)
  {
    exists i :: 0 <= i < MAP_SIZE && t[i] != 0 && forall k :: 0 <= k < |earlier| ==> earlier[k][i] != t[i]
  }

  lemma RecordFacts(ts: seq<Map>, t: Map, v: Map, hnb: nat)
    requires AreMaps(ts) && |t| == MAP_SIZE && IsClassified(t)
    requires forall k :: 0 <= k < |ts| ==> IsClassified(ts[k])
    requires v == VirginAfter(ts) && hnb == Novelty(t, v)
    ensures AreMaps(ts + [t]) && VirginAfter(ts + [t]) == Cleared(t, v)
    ensures hnb == 2 <==> HitsNewIndex(t, ts)
    ensures hnb != 0 <==> HasNewClass(t, ts)
    ensures BitCount(Cleared(t, v)) <= BitCount(v) && (hnb != 0 ==> BitCount(Cleared(t, v)) < BitCount(v))
  {
    NoveltyOverRun(ts, t);
    ExtendVirgin(ts, t);
    ClearingLowersBitCount(t, v, Cleared(t, v));
    if NewTuple(t, v, 0, MAP_SIZE) { NewTupleIsNewBit(t, v, 0, MAP_SIZE); }
  }

  /** A run of the target during calibration; `differs` tells that the checksum of its trace is not the
      entry's own. */
  datatype CalRun = CalRun(fault: Fault, trace: Map, differs: bool)

  ghost predicate AreRuns(runs: seq<CalRun>) {
    forall k :: 0 <= k < |runs| ==> |runs[k].trace| == MAP_SIZE && IsClassified(runs[k].trace)
  }

  predicate Blank(t: Map) { forall i :: 0 <= i < |t| ==> t[i] == 0 }

  /** Calibration ends at a run with an unexpected outcome and at a first one without instrumentation. */
  predicate Aborts(runs: seq<CalRun>, expected: Fault, k: nat)
    requires k < |runs|
  {
    runs[k].fault != expected || (k == 0 && Blank(runs[k].trace))
  }

  /** The number of runs before the one that ends calibration. */
  function Completed(runs: seq<CalRun>, expected: Fault, k: nat): (n: nat)
    requires k <= |runs|
    ensures k <= n <= |runs| && (n < |runs| ==> Aborts(runs, expected, n))
    ensures forall j: nat :: k <= j < n ==> !Aborts(runs, expected, j)
    decreases |runs| - k
  {
    if k == |runs| || Aborts(runs, expected, k) then k else Completed(runs, expected, k + 1)
  }

  /** The traces with a checksum of their own. */
  ghost function Differing(runs: seq<CalRun>, n: nat): (r: seq<Map>)
    requires n <= |runs|
    ensures AreRuns(runs) ==> AreMaps(r)
  {
    if n == 0 then [] else Differing(runs, n - 1) + if runs[n - 1].differs then [runs[n - 1].trace] else []
  }

  /** What calibration records: the entry's own trace again, and those that differ. */
  ghost function CalTraces(t: Map, runs: seq<CalRun>, expected: Fault): (r: seq<Map>)
    requires |t| == MAP_SIZE && AreRuns(runs)
    ensures AreMaps(r)
  {
    [t] + Differing(runs, Completed(runs, expected, 0))
  }

  /** The trace it leaves, which may be that of the run that ended it. */
  ghost function TraceAfter(t: Map, runs: seq<CalRun>, expected: Fault): (r: Map)
    requires |t| == MAP_SIZE && AreRuns(runs)
    ensures |r| == MAP_SIZE
  {
    var n := Completed(runs, expected, 0);
    if n < |runs| then runs[n].trace else if n > 0 then runs[n - 1].trace else t
  }

  ghost function FaultAfter(runs: seq<CalRun>, expected: Fault): Fault {
    var n := Completed(runs, expected, 0);
    if n == |runs| then expected else if runs[n].fault != expected then runs[n].fault else FaultNoInst
  }

  /** The numbers of the runs with a checksum of their own. */
  lemma {:induction false} DifferingRuns(runs: seq<CalRun>, n: nat) returns (ks: seq<nat>)
    requires n <= |runs|
    ensures forall j :: 0 <= j < |ks| ==> ks[j] < n && runs[ks[j]].differs
    ensures |ks| == |Differing(runs, n)| && forall j :: 0 <= j < |ks| ==> Differing(runs, n)[j] == runs[ks[j]].trace
    ensures forall i, j :: 0 <= i < j < |ks| ==> ks[i] < ks[j]
    ensures forall k :: 0 <= k < n && runs[k].differs ==> k in ks
  {
    ks := [];
    if n > 0 {
      ks := DifferingRuns(runs, n - 1);
      if runs[n - 1].differs { ks := ks + [n - 1]; }
    }
  }

  /** Calibration in terms of the runs: they count up to the first with an unexpected outcome, or the very
      first if its trace is empty.  Recorded are the entry's own trace and, in order, those of the runs
      before that have a checksum of their own; the trace left is the last one that was made. */
  lemma CalibrationMeans(t: Map, runs: seq<CalRun>, expected: Fault) returns (n: nat, ks: seq<nat>)
    requires |t| == MAP_SIZE && AreRuns(runs)
    ensures n <= |runs| && forall j :: 0 <= j < n ==> runs[j].fault == expected
    ensures n > 0 ==> exists i :: 0 <= i < MAP_SIZE && runs[0].trace[i] != 0
    ensures n < |runs| && runs[n].fault == expected ==> n == 0 && forall i :: 0 <= i < MAP_SIZE ==> runs[0].trace[i] == 0
    ensures forall i, j :: 0 <= i < j < |ks| ==> ks[i] < ks[j]
    ensures forall k: nat :: k in ks <==> k < n && runs[k].differs
    ensures |CalTraces(t, runs, expected)| == 1 + |ks| && CalTraces(t, runs, expected)[0] == t
    ensures forall j :: 0 <= j < |ks| ==> ks[j] < |runs| && CalTraces(t, runs, expected)[1 + j] == runs[ks[j]].trace
    ensures TraceAfter(t, runs, expected) == if n < |runs| then runs[n].trace else if n > 0 then runs[n - 1].trace else t
    ensures FaultAfter(runs, expected)
         == if n == |runs| then expected else if runs[n].fault != expected then runs[n].fault else FaultNoInst
  {
    n := Completed(runs, expected, 0);
    ks := DifferingRuns(runs, n);
    forall j | 0 <= j < n ensures runs[j].fault == expected { assert !Aborts(runs, expected, j); }
    if n > 0 { assert !Aborts(runs, expected, 0); }
  }

  /** Where calibration stands after k completed runs: the traces recorded and the one left behind. */
  datatype Calibration = Calibration(k: nat, done: seq<Map>, last: Map) {
    ghost predicate Fits(t: Map, runs: seq<CalRun>, expected: Fault) {
      && k <= |runs| && done == [t] + Differing(runs, k)
      && Completed(runs, expected, k) == Completed(runs, expected, 0)
      && last == (if k == 0 then t else runs[k - 1].trace)
    }

    function After(run: CalRun): Calibration {
      Calibration(k + 1, if run.differs then done + [run.trace] else done, run.trace)
    }
  }

  lemma CalibrationStep(cal: Calibration, t: Map, runs: seq<CalRun>, expected: Fault)
    requires |t| == MAP_SIZE && AreRuns(runs) && cal.Fits(t, runs, expected) && cal.k < |runs|
    ensures !Aborts(runs, expected, cal.k) ==> cal.After(runs[cal.k]).Fits(t, runs, expected)
    ensures Aborts(runs, expected, cal.k) ==>
      && CalTraces(t, runs, expected) == cal.done && TraceAfter(t, runs, expected) == runs[cal.k].trace
      && FaultAfter(runs, expected) == if runs[cal.k].fault != expected then runs[cal.k].fault else FaultNoInst
  {
    var d := Differing(runs, cal.k);
    var x := [runs[cal.k].trace];
    assert [t] + (d + x) == ([t] + d) + x;
    assert [t] + (d + []) == [t] + d;
  }

  lemma CalibrationEnds(cal: Calibration, t: Map, runs: seq<CalRun>, expected: Fault)
    requires |t| == MAP_SIZE && AreRuns(runs) && cal.Fits(t, runs, expected) && cal.k == |runs|
    ensures CalTraces(t, runs, expected) == cal.done && TraceAfter(t, runs, expected) == cal.last
    ensures FaultAfter(runs, expected) == expected
  {
  }

  /** Does one of these traces, recorded in turn, hit an index that none before it hit? */
  ghost predicate SomeHitsNew(earlier: seq<Map>, ts: seq<Map>)
    requires AreMaps(earlier) && AreMaps(ts)
  {
    exists k :: 0 <= k < |ts| && HitsNewIndex(ts[k], earlier + ts[..k])
  }

  lemma OneMoreHits(earlier: seq<Map>, ts: seq<Map>, t: Map)
    requires AreMaps(earlier) && AreMaps(ts) && |t| == MAP_SIZE
    ensures AreMaps(ts + [t])
    ensures SomeHitsNew(earlier, ts + [t]) <==> SomeHitsNew(earlier, ts) || HitsNewIndex(t, earlier + ts)
  {
    var all := ts + [t];
    assert all[..|ts|] == ts;
    if SomeHitsNew(earlier, ts) {
      var k :| 0 <= k < |ts| && HitsNewIndex(ts[k], earlier + ts[..k]);
      assert all[k] == ts[k] && all[..k] == ts[..k];
    }
    if HitsNewIndex(t, earlier + ts) { assert all[|ts|] == t; }
    if SomeHitsNew(earlier, all) {
      var k :| 0 <= k < |all| && HitsNewIndex(all[k], earlier + all[..k]);
      if k < |ts| { assert all[k] == ts[k] && all[..k] == ts[..k]; }
    }
  }

  /** Below the cap a crash or hang is examined, and is new if it is distinguished from all that were
      examined before. */
  ghost predicate IsNewSample(saved: nat, cap: nat, t: Map, earlier: seq<Map>)
    requires |t| == MAP_SIZE && AreMaps(earlier)
  {
    saved < cap && Distinguished(t, earlier)
  }

  /** The caps are 5000 crashes and 500 hangs. */
  lemma SamplesAreCapped(saved: nat, t: Map, earlier: seq<Map>)
    requires |t| == MAP_SIZE && AreMaps(earlier)
    ensures IsNewSample(saved, KEEP_UNIQUE_CRASH, t, earlier) <==> saved < 5000 && Distinguished(t, earlier)
    ensures IsNewSample(saved, KEEP_UNIQUE_HANG, t, earlier) <==> saved < 500 && Distinguished(t, earlier)
    ensures ExaminedAfter(saved, KEEP_UNIQUE_CRASH, t, earlier) == if saved < 5000 then earlier + [t] else earlier
    ensures ExaminedAfter(saved, KEEP_UNIQUE_HANG, t, earlier) == if saved < 500 then earlier + [t] else earlier
  {
  }

  ghost function ExaminedAfter(saved: nat, cap: nat, t: Map, earlier: seq<Map>): seq<Map> {
    if saved < cap then earlier + [t] else earlier
  }

  /** The fuzzer's side of a session. */
  class Session {
    const crashMode: Fault
    const generousHangs: bool       // exec_tmout < hang_tmout: hangs are run again before they are saved
    const queueMap: QueueMap
    const crashMap: UniqueMap
    const hangMap: UniqueMap
    const traceBits: array<bv8>
    var queuedPaths: nat
    var queuedWithCov: nat
    var totalCrashes: nat
    var uniqueCrashes: nat
    var totalTmouts: nat
    var uniqueTmouts: nat
    var uniqueHangs: nat
    ghost const queuedAtStart: nat
    ghost const bitsAtStart: nat

    /** The maps are separate, and every addition has been paid for with a virgin bit. */
    ghost predicate Valid()
      reads this, queueMap, queueMap.virgin, crashMap, crashMap.virgin, hangMap, hangMap.virgin, traceBits
    {
      && queueMap.Valid() && crashMap.Valid() && hangMap.Valid() && crashMap != hangMap
      && Separate()
      && traceBits.Length == MAP_SIZE
      && queuedPaths + queueMap.Left() <= queuedAtStart + bitsAtStart
    }

    ghost predicate Separate() {
      && traceBits != queueMap.virgin && traceBits != crashMap.virgin && traceBits != hangMap.virgin
      && queueMap.virgin != crashMap.virgin && queueMap.virgin != hangMap.virgin && crashMap.virgin != hangMap.virgin
    }

    constructor (crashMode: Fault, generousHangs: bool, queued: nat)
      ensures Valid() && this.crashMode == crashMode && this.generousHangs == generousHangs
      ensures queueMap.recorded == [] && crashMap.examined == [] && hangMap.examined == []
      ensures queuedPaths == queued && uniqueCrashes == 0 && uniqueHangs == 0
    {
      this.crashMode, this.generousHangs := crashMode, generousHangs;
      var q := new QueueMap();
      var c := new UniqueMap();
      var h := new UniqueMap();
      queueMap, crashMap, hangMap := q, c, h;
      traceBits := new bv8[MAP_SIZE](_ => 0);
      queuedPaths, queuedAtStart := queued, queued;
      queuedWithCov, totalCrashes, uniqueCrashes, totalTmouts, uniqueTmouts, uniqueHangs := 0, 0, 0, 0, 0, 0;
      bitsAtStart := q.Left();
    }

    /** A crash: counted always, and below the cap kept iff it is distinguished from every crash
        examined before. */
    method KeepAsCrash() returns (kept: Kept)
      requires Valid()
      modifies this`totalCrashes, this`uniqueCrashes, crashMap`examined, crashMap.virgin, traceBits
      ensures Valid()
      ensures totalCrashes == old(totalCrashes) + 1
      ensures kept == if IsNewSample(old(uniqueCrashes), KEEP_UNIQUE_CRASH, old(traceBits[..]), old(crashMap.examined))
                      then CrashSample else NoSample
      ensures uniqueCrashes == old(uniqueCrashes) + if kept == CrashSample then 1 else 0
      ensures crashMap.examined
           == ExaminedAfter(old(uniqueCrashes), KEEP_UNIQUE_CRASH, old(traceBits[..]), old(crashMap.examined))
    {
      totalCrashes := totalCrashes + 1;
      if uniqueCrashes >= KEEP_UNIQUE_CRASH { return NoSample; }
      var isNew := crashMap.Examine(traceBits);
      if !isNew { return NoSample; }
      uniqueCrashes := uniqueCrashes + 1;
      kept := CrashSample;
    }

    /** A timeout: below the cap it must be distinguished from every hang examined before, and
        then, unless the timeout was generous already, be confirmed by a second run, which may
        turn out to be a crash. */
    method KeepAsHang(rerunFault: Fault, rerunTrace: Map) returns (kept: Kept)
      requires Valid() && |rerunTrace| == MAP_SIZE
      modifies this`totalTmouts, this`uniqueTmouts, this`uniqueHangs, this`totalCrashes, this`uniqueCrashes,
               hangMap`examined, hangMap.virgin, crashMap`examined, crashMap.virgin, traceBits
      ensures Valid()
      ensures totalTmouts == old(totalTmouts) + 1
      ensures uniqueHangs == old(uniqueHangs) + if kept == HangSample then 1 else 0
      ensures hangMap.examined
           == ExaminedAfter(old(uniqueHangs), KEEP_UNIQUE_HANG, old(traceBits[..]), old(hangMap.examined))
      ensures var candidate := IsNewSample(old(uniqueHangs), KEEP_UNIQUE_HANG, old(traceBits[..]), old(hangMap.examined));
        var crashes := candidate && generousHangs && rerunFault == FaultCrash;
        && uniqueTmouts == old(uniqueTmouts) + (if candidate then 1 else 0)
        && (kept == HangSample <==> candidate && (generousHangs ==> rerunFault == FaultTmout))
        && (kept == CrashSample <==>
            crashes && IsNewSample(old(uniqueCrashes), KEEP_UNIQUE_CRASH, rerunTrace, old(crashMap.examined)))
        && kept != Fatal
        && crashMap.examined == (if crashes
             then ExaminedAfter(old(uniqueCrashes), KEEP_UNIQUE_CRASH, rerunTrace, old(crashMap.examined))
             else old(crashMap.examined))
      ensures uniqueCrashes == old(uniqueCrashes) + if kept == CrashSample then 1 else 0
    {
      totalTmouts := totalTmouts + 1;
      if uniqueHangs >= KEEP_UNIQUE_HANG { return NoSample; }
      var isNew := hangMap.Examine(traceBits);
      if !isNew { return NoSample; }
      uniqueTmouts := uniqueTmouts + 1;
      kept := ConfirmHang(rerunFault, rerunTrace);
    }

    /** A hang that is new. */
    method ConfirmHang(rerunFault: Fault, rerunTrace: Map) returns (kept: Kept)
      requires Valid() && |rerunTrace| == MAP_SIZE
      modifies this`uniqueHangs, this`totalCrashes, this`uniqueCrashes, crashMap`examined, crashMap.virgin, traceBits
      ensures Valid()
      ensures uniqueHangs == old(uniqueHangs) + if kept == HangSample then 1 else 0
      ensures uniqueCrashes == old(uniqueCrashes) + if kept == CrashSample then 1 else 0
      ensures var crashes := generousHangs && rerunFault == FaultCrash;
        && (kept == HangSample <==> (generousHangs ==> rerunFault == FaultTmout))
        && (kept == CrashSample <==>
            crashes && IsNewSample(old(uniqueCrashes), KEEP_UNIQUE_CRASH, rerunTrace, old(crashMap.examined)))
        && kept != Fatal
        && crashMap.examined == (if crashes
             then ExaminedAfter(old(uniqueCrashes), KEEP_UNIQUE_CRASH, rerunTrace, old(crashMap.examined))
             else old(crashMap.examined))
    {
      if generousHangs {
        LoadTrace(rerunTrace);
        if rerunFault == FaultCrash {
          kept := KeepAsCrash();
          return kept;
        }
        if rerunFault != FaultTmout { return NoSample; }
      }
      uniqueHangs := uniqueHangs + 1;
      kept := HangSample;
    }

    /** The target runs again and leaves this trace. */
    method LoadTrace(t: Map)
      requires |t| == MAP_SIZE == traceBits.Length
      modifies traceBits
      ensures traceBits[..] == t
    {
      for i := 0 to MAP_SIZE
        invariant forall k :: 0 <= k < i ==> traceBits[k] == t[k]
      {
        traceBits[i] := t[i];
      }
    }

    /** Where calibration stands after the first k runs: the traces `done` are recorded, and `newCov`
        tells whether one of them hit a new index. */
    ghost predicate Calibrating(before: seq<Map>, done: seq<Map>, newCov: bool, left: nat)
      reads this, queueMap, queueMap.virgin, crashMap, crashMap.virgin, hangMap, hangMap.virgin, traceBits
    {
      && Valid() && AreMaps(before) && AreMaps(done)
      && queueMap.recorded == before + done && queueMap.Left() <= left
      && (newCov <==> SomeHitsNew(before, done))
    }

    /** The trace in the shared map is recorded. */
    method RecordCalibration(newCov: bool, ghost before: seq<Map>, ghost done: seq<Map>, ghost left: nat)
      returns (newCov': bool)
      requires Calibrating(before, done, newCov, left) && IsClassified(traceBits[..])
      modifies queueMap`recorded, queueMap.virgin
      ensures Calibrating(before, done + [traceBits[..]], newCov', left)
    {
      OneMoreHits(before, done, traceBits[..]);
      var hnb := queueMap.Record(traceBits);
      newCov' := newCov || hnb == 2;
      assert before + (done + [traceBits[..]]) == (before + done) + [traceBits[..]];
    }

    /** A new queue entry is calibrated by running it again.  What differs is recorded, and if it hits a
        new index the entry counts as new coverage unless it does already. */
    method Calibrate(runs: seq<CalRun>, hasNewCov: bool) returns (fault: Fault)
      requires Valid() && IsClassified(traceBits[..]) && AreRuns(runs)
      modifies this`queuedWithCov, queueMap`recorded, queueMap.virgin, traceBits
      ensures Valid()
      ensures queueMap.recorded == old(queueMap.recorded) + CalTraces(old(traceBits[..]), runs, crashMode)
      ensures queueMap.Left() <= old(queueMap.Left())
      ensures traceBits[..] == TraceAfter(old(traceBits[..]), runs, crashMode)
      ensures fault == FaultAfter(runs, crashMode)
      ensures queuedWithCov == old(queuedWithCov)
        + if !hasNewCov && SomeHitsNew(old(queueMap.recorded), CalTraces(old(traceBits[..]), runs, crashMode)) then 1 else 0
    {
      ghost var before, left, t := queueMap.recorded, queueMap.Left(), traceBits[..];
      var newCov;
      fault, newCov := CalibrateRuns(runs, before, left, t);
      if newCov && !hasNewCov { queuedWithCov := queuedWithCov + 1; }
    }

    method LoadRun(run: CalRun, ghost before: seq<Map>, ghost done: seq<Map>, ghost newCov: bool, ghost left: nat)
      requires Calibrating(before, done, newCov, left) && |run.trace| == MAP_SIZE
      modifies traceBits
      ensures Calibrating(before, done, newCov, left) && traceBits[..] == run.trace
    {
      LoadTrace(run.trace);
    }

    /** One run of calibration. */
    method CalibrateRun(run: CalRun, first: bool, newCov: bool, ghost before: seq<Map>, ghost done: seq<Map>, ghost left: nat)
      returns (aborted: bool, fault: Fault, newCov': bool)
      requires Calibrating(before, done, newCov, left) && |run.trace| == MAP_SIZE && IsClassified(run.trace)
      modifies queueMap`recorded, queueMap.virgin, traceBits
      ensures traceBits[..] == run.trace
      ensures aborted <==> run.fault != crashMode || (first && Blank(run.trace))
      ensures aborted ==> fault == if run.fault != crashMode then run.fault else FaultNoInst
      ensures Calibrating(before, if !aborted && run.differs then done + [run.trace] else done, newCov', left)
    {
      aborted, fault, newCov' := true, run.fault, newCov;
      LoadRun(run, before, done, newCov, left);
      if run.fault != crashMode { return; }
      if first && Blank(traceBits[..]) { return true, FaultNoInst, newCov; }
      aborted := false;
      if run.differs { newCov' := RecordCalibration(newCov, before, done, left); }
    }

    method CalibrateRuns(runs: seq<CalRun>, ghost before: seq<Map>, ghost left: nat, ghost t: Map)
      returns (fault: Fault, newCov: bool)
      requires Valid() && traceBits[..] == t && IsClassified(t) && AreRuns(runs)
      requires before == queueMap.recorded && left == queueMap.Left()
      modifies queueMap`recorded, queueMap.virgin, traceBits
      ensures Calibrating(before, CalTraces(t, runs, crashMode), newCov, left)
      ensures traceBits[..] == TraceAfter(t, runs, crashMode)
      ensures fault == FaultAfter(runs, crashMode)
    {
      newCov := RecordFirst(before, left, t);
      ghost var cal := Calibration(0, [t], t);
      var k := 0;
      while k < |runs|
        invariant 0 <= k <= |runs| && k == cal.k && cal.Fits(t, runs, crashMode)
        invariant Calibrating(before, cal.done, newCov, left) && traceBits[..] == cal.last
      {
        var aborted;
        CalibrationStep(cal, t, runs, crashMode);
        aborted, fault, newCov := CalibrateRun(runs[k], k == 0, newCov, before, cal.done, left);
        if aborted { return; }
        cal := cal.After(runs[k]);
        k := k + 1;
      }
      CalibrationEnds(cal, t, runs, crashMode);
      fault := crashMode;
    }

    method RecordFirst(ghost before: seq<Map>, ghost left: nat, ghost t: Map) returns (newCov: bool)
      requires Valid() && traceBits[..] == t && IsClassified(t) && before == queueMap.recorded && left == queueMap.Left()
      modifies queueMap`recorded, queueMap.virgin
      ensures Calibrating(before, [t], newCov, left)
    {
      assert before + [] == before && [] + [t] == [t];
      newCov := RecordCalibration(false, before, [], left);
    }

    /** The expected outcome: queued iff it has a class no recorded trace had. */
    method QueueIfNew(runs: seq<CalRun>) returns (keeping: bool, fatal: bool)
      requires Valid() && IsClassified(traceBits[..]) && AreRuns(runs)
      modifies this`queuedPaths, this`queuedWithCov, this`totalCrashes, queueMap`recorded, queueMap.virgin, traceBits
      ensures Valid()
      ensures keeping <==> HasNewClass(old(traceBits[..]), old(queueMap.recorded))
      ensures fatal <==> keeping && FaultAfter(runs, crashMode) == FaultError
      ensures queuedPaths == old(queuedPaths) + if keeping then 1 else 0
      ensures keeping ==> queueMap.Left() < old(queueMap.Left())
      ensures queueMap.Left() <= old(queueMap.Left())
      ensures var t, before := old(traceBits[..]), old(queueMap.recorded);
        && queueMap.recorded == before + [t] + (if keeping then CalTraces(t, runs, crashMode) else [])
        && traceBits[..] == (if keeping then TraceAfter(t, runs, crashMode) else t)
        && queuedWithCov == old(queuedWithCov)
             + if keeping && CoversNew(before, t, CalTraces(t, runs, crashMode)) then 1 else 0
    {
      ghost var t, before := traceBits[..], queueMap.recorded;
      var hnb := queueMap.Record(traceBits);
      keeping, fatal := hnb != 0, false;
      if !keeping {
        if crashMode != FaultNone { totalCrashes := totalCrashes + 1; }
        return;
      }
      queuedPaths := queuedPaths + 1;
      if hnb == 2 { queuedWithCov := queuedWithCov + 1; }
      var fault := Calibrate(runs, hnb == 2);
      fatal := fault == FaultError;
    }

    /** The trace hits a new index, or one of those recorded after it does. */
    ghost predicate CoversNew(before: seq<Map>, t: Map, more: seq<Map>)
      requires AreMaps(before) && |t| == MAP_SIZE && AreMaps(more)
    {
      HitsNewIndex(t, before) || SomeHitsNew(before + [t], more)
    }

    /** What a run with trace t is kept as, given the hangs and the crashes kept and examined before. */
    ghost function Verdict(fault: Fault, rerunFault: Fault, rerunTrace: Map, t: Map,
                           hangs: nat, hung: seq<Map>, crashes: nat, crashed: seq<Map>): Kept
      requires |t| == |rerunTrace| == MAP_SIZE && AreMaps(hung) && AreMaps(crashed)
    {
      match fault
      case FaultTmout =>
        if !IsNewSample(hangs, KEEP_UNIQUE_HANG, t, hung) then NoSample
        else if !generousHangs || rerunFault == FaultTmout then HangSample
        else if rerunFault == FaultCrash && IsNewSample(crashes, KEEP_UNIQUE_CRASH, rerunTrace, crashed) then CrashSample
        else NoSample
      case FaultCrash => if IsNewSample(crashes, KEEP_UNIQUE_CRASH, t, crashed) then CrashSample else NoSample
      case FaultError => Fatal
      case _ => NoSample
    }

    /** The crashes examined after such a run. */
    ghost function CrashesAfter(fault: Fault, rerunFault: Fault, rerunTrace: Map, t: Map,
                                hangs: nat, hung: seq<Map>, crashes: nat, crashed: seq<Map>): seq<Map>
      requires |t| == |rerunTrace| == MAP_SIZE && AreMaps(hung)
    {
      if fault == FaultCrash then ExaminedAfter(crashes, KEEP_UNIQUE_CRASH, t, crashed)
      else if fault == FaultTmout && IsNewSample(hangs, KEEP_UNIQUE_HANG, t, hung) && generousHangs && rerunFault == FaultCrash
      then ExaminedAfter(crashes, KEEP_UNIQUE_CRASH, rerunTrace, crashed)
      else crashed
    }

    ghost function HangsAfter(fault: Fault, t: Map, hangs: nat, hung: seq<Map>): seq<Map> {
      if fault == FaultTmout then ExaminedAfter(hangs, KEEP_UNIQUE_HANG, t, hung) else hung
    }

    ghost predicate IsNewHang(fault: Fault, t: Map, hangs: nat, hung: seq<Map>)
      requires |t| == MAP_SIZE && AreMaps(hung)
    {
      fault == FaultTmout && hangs < 500 && Distinguished(t, hung)
    }

    ghost predicate SecondRunCrashes(fault: Fault, rerunFault: Fault, t: Map, hangs: nat, hung: seq<Map>)
      requires |t| == MAP_SIZE && AreMaps(hung)
    {
      IsNewHang(fault, t, hangs, hung) && generousHangs && rerunFault == FaultCrash
    }

    /** The verdict case by case: a distinguished crash below its cap, in the run or in the second run of a
        distinguished hang below its cap, is a crash; such a hang is one if no second run is needed or
        it times out as well. */
    lemma VerdictMeans(fault: Fault, rerunFault: Fault, rerunTrace: Map, t: Map,
                       hangs: nat, hung: seq<Map>, crashes: nat, crashed: seq<Map>)
      requires |t| == |rerunTrace| == MAP_SIZE && AreMaps(hung) && AreMaps(crashed)
      ensures var v := Verdict(fault, rerunFault, rerunTrace, t, hangs, hung, crashes, crashed);
        && (v == CrashSample <==>
              crashes < 5000
              && ((fault == FaultCrash && Distinguished(t, crashed))
                  || (SecondRunCrashes(fault, rerunFault, t, hangs, hung) && Distinguished(rerunTrace, crashed))))
        && (v == HangSample <==> IsNewHang(fault, t, hangs, hung) && (generousHangs ==> rerunFault == FaultTmout))
        && (v == Fatal <==> fault == FaultError)
      ensures HangsAfter(fault, t, hangs, hung) == if fault == FaultTmout && hangs < 500 then hung + [t] else hung
      ensures CrashesAfter(fault, rerunFault, rerunTrace, t, hangs, hung, crashes, crashed)
           == if crashes >= 5000 then crashed
              else if fault == FaultCrash then crashed + [t]
              else if SecondRunCrashes(fault, rerunFault, t, hangs, hung) then crashed + [rerunTrace]
              else crashed
    {
      SamplesAreCapped(hangs, t, hung);
      SamplesAreCapped(crashes, t, crashed);
      SamplesAreCapped(crashes, rerunTrace, crashed);
    }

    /** Hangs and crashes. */
    method KeepAsFault(fault: Fault, rerunFault: Fault, rerunTrace: Map) returns (kept: Kept)
      requires Valid() && |rerunTrace| == MAP_SIZE
      modifies this`totalTmouts, this`uniqueTmouts, this`uniqueHangs, this`totalCrashes, this`uniqueCrashes,
               hangMap`examined, hangMap.virgin, crashMap`examined, crashMap.virgin, traceBits
      ensures Valid()
      ensures kept == Verdict(fault, rerunFault, rerunTrace, old(traceBits[..]), old(uniqueHangs), old(hangMap.examined),
                              old(uniqueCrashes), old(crashMap.examined))
      ensures uniqueHangs == old(uniqueHangs) + if kept == HangSample then 1 else 0
      ensures uniqueCrashes == old(uniqueCrashes) + if kept == CrashSample then 1 else 0
      ensures hangMap.examined == HangsAfter(fault, old(traceBits[..]), old(uniqueHangs), old(hangMap.examined))
      ensures crashMap.examined == CrashesAfter(fault, rerunFault, rerunTrace, old(traceBits[..]), old(uniqueHangs),
                                                old(hangMap.examined), old(uniqueCrashes), old(crashMap.examined))
    {
      match fault
      case FaultTmout => kept := KeepAsHang(rerunFault, rerunTrace);
      case FaultCrash => kept := KeepAsCrash();
      case FaultError => kept := Fatal;
      case _ => kept := NoSample;
    }

    /** `save_if_interesting`: a run with the expected outcome is dropped unless it is queued; a queued
        one goes on, with the trace its calibration left, to be counted as what it is. */
    method SaveIfInteresting(fault: Fault, runs: seq<CalRun>, rerunFault: Fault, rerunTrace: Map)
      returns (keeping: bool, kept: Kept)
      requires Valid() && IsClassified(traceBits[..]) && AreRuns(runs) && |rerunTrace| == MAP_SIZE
      modifies this, queueMap`recorded, queueMap.virgin, crashMap`examined, crashMap.virgin,
               hangMap`examined, hangMap.virgin, traceBits
      ensures Valid()
      ensures keeping <==> fault == crashMode && HasNewClass(old(traceBits[..]), old(queueMap.recorded))
      ensures queuedPaths == old(queuedPaths) + if keeping then 1 else 0
      ensures queueMap.Left() + (if keeping then 1 else 0) <= old(queueMap.Left())
      ensures queueMap.recorded == old(queueMap.recorded)
        + (if fault == crashMode then [old(traceBits[..])] else [])
        + (if keeping then CalTraces(old(traceBits[..]), runs, crashMode) else [])
      ensures keeping && FaultAfter(runs, crashMode) == FaultError ==> kept == Fatal
      ensures fault == crashMode && !keeping ==>
        kept == NoSample && hangMap.examined == old(hangMap.examined) && crashMap.examined == old(crashMap.examined)
      ensures fault != crashMode || (keeping && FaultAfter(runs, crashMode) != FaultError) ==>
        var t, h, hung, c, crashed :=
          if keeping then TraceAfter(old(traceBits[..]), runs, crashMode) else old(traceBits[..]),
          old(uniqueHangs), old(hangMap.examined), old(uniqueCrashes), old(crashMap.examined);
        && kept == Verdict(fault, rerunFault, rerunTrace, t, h, hung, c, crashed)
        && hangMap.examined == HangsAfter(fault, t, h, hung)
        && crashMap.examined == CrashesAfter(fault, rerunFault, rerunTrace, t, h, hung, c, crashed)
      ensures uniqueHangs == old(uniqueHangs) + if kept == HangSample then 1 else 0
      ensures uniqueCrashes == old(uniqueCrashes) + if kept == CrashSample then 1 else 0
    {
      keeping := false;
      if fault == crashMode {
        var fatal;
        keeping, fatal := QueueIfNew(runs);
        if fatal { return true, Fatal; }
        if !keeping { return false, NoSample; }
      }
      kept := KeepAsFault(fault, rerunFault, rerunTrace);
    }
  }
}
