/** The fork server protocol: the fuzzer, the server inside the target, its children in persistent
    mode and the timeout signal, as a step relation over all their interleavings. */
module ForkServer {
  import opened Bytes

  // ---------- The persistent loop of a child ----------

  /** What a call of the loop macro does: run the body, stop first and then run it, or leave. */
  datatype LoopCall = Body | StopThenBody | Leave

  /** The loop's static variables. */
  datatype LoopState = LoopState(firstPass: bool, cycleCnt: nat)

  const FRESH_LOOP := LoopState(true, 0)

  /** One call; the counter is an unsigned 32-bit number. */
  function LoopNext(l: LoopState, maxCnt: nat, persistent: bool): (LoopState, LoopCall) {
    if l.firstPass then (LoopState(false, maxCnt), Body)
    else if !persistent then (l, Leave)
    else
      var cnt := (l.cycleCnt + U32_MODULUS - 1) % U32_MODULUS;
      (l.(cycleCnt := cnt), if cnt != 0 then StopThenBody else Leave)
  }

  class PersistentLoop {
    var firstPass: bool
    var cycleCnt: nat

    constructor ()
      ensures State() == FRESH_LOOP
    {
      firstPass, cycleCnt := true, 0;
    }

    ghost function State(): LoopState
      reads this
    {
      LoopState(firstPass, cycleCnt)
    }

    method Call(maxCnt: nat, persistent: bool) returns (r: LoopCall)
      requires maxCnt < U32_MODULUS && cycleCnt < U32_MODULUS
      modifies this
      ensures (State(), r) == LoopNext(old(State()), maxCnt, persistent)
    {
      if firstPass {
        cycleCnt := maxCnt;
        firstPass := false;
        return Body;
      }
      if persistent {
        cycleCnt := if cycleCnt == 0 then U32_MODULUS - 1 else cycleCnt - 1;
        if cycleCnt != 0 { return StopThenBody; }
      }
      return Leave;
    }
  }

  // ---------- The state of the system ----------

  datatype Life =
    | Starting   // forked or continued, on its way to the loop body
    | Working    // in the loop body
    | Leaving    // out of the loop, on its way to the exit
    | Stopped
    | Dead       // exited, crashed or killed; not yet waited for
    | Reaped

  /** A child, the requests it was given and the loop bodies it has begun. */
  datatype Child = Child(life: Life, served: nat, begun: nat, loop: LoopState)

  datatype FuzzerAt = Idle | AwaitPid | GotPid | AwaitStatus | GotStatus

  /** `alarm` tells that the timer is armed and has not fired. */
  datatype Fuzzer = Fuzzer(at: FuzzerAt, childPid: nat, timedOut: bool, prevTimedOut: bool, alarm: bool)

  datatype ServerAt = ReadRequest | GotRequest(wasKilled: bool) | WriteOff | Launch | WritePid | Wait | WriteStatus(stopped: bool)

  datatype Server = Server(at: ServerAt, childPid: nat, childStopped: bool)

  datatype Message = Request(wasKilled: bool) | Pid(pid: nat) | Status(wasStopped: bool)

  /** Children are numbered from 1.  `wire` holds the messages written and not yet read, `sent` all
      that were ever written. */
  datatype State = State(fuzzer: Fuzzer, server: Server, children: seq<Child>, wire: seq<Message>, sent: seq<Message>)

  datatype Config = Config(persistent: bool, maxCnt: nat)

  const START := State(Fuzzer(Idle, 0, false, false, false), Server(ReadRequest, 0, false), [], [], [])

  datatype Action =
    | SendRequest | ReceivePid | ArmTimer | ReceiveStatus | DisarmTimer
    | Alarm
    | ReceiveRequest | SkipWriteOff | StartWriteOff | FinishWriteOff | ForkChild | ContinueChild | SendPid | WaitReturns | SendStatus
    | ChildCallsLoop(pid: nat) | ChildEnds(pid: nat)

  // ---------- The steps ----------

  function ChildAt(s: State, pid: nat): Child
    requires 1 <= pid <= |s.children|
  {
    s.children[pid - 1]
  }

  function WithLife(s: State, pid: nat, life: Life): State
    requires 1 <= pid <= |s.children|
  {
    s.(children := s.children[pid - 1 := ChildAt(s, pid).(life := life)])
  }

  function Write(s: State, m: Message): State { s.(wire := s.wire + [m], sent := s.sent + [m]) }

  /** SIGKILL ends any living child, stopped or not; a process that is gone does not notice. */
  function Kill(s: State, pid: nat): State {
    if 1 <= pid <= |s.children| && ChildAt(s, pid).life != Reaped then WithLife(s, pid, Dead) else s
  }

  /** A child calls the loop macro, or comes back from the stop in it. */
  function AfterLoopCall(c: Config, child: Child): Option<Child> {
    if child.life == Starting && !child.loop.firstPass then
      Some(child.(life := Working, begun := child.begun + 1))
    else if child.life == Starting || child.life == Working then
      var (loop, call) := LoopNext(child.loop, c.maxCnt, c.persistent);
      Some(match call
           case Body => child.(life := Working, begun := child.begun + 1, loop := loop)
           case StopThenBody => child.(life := Stopped, loop := loop)
           case Leave => child.(life := Leaving, loop := loop))
    else None
  }

  /** The state after an action, if the action is possible. */
  function Next(c: Config, s: State, a: Action): Option<State> {
    match a
    // the fuzzer: run_target
    case SendRequest =>
      if s.fuzzer.at != Idle then None
      else Some(Write(s.(fuzzer := s.fuzzer.(at := AwaitPid, timedOut := false)), Request(s.fuzzer.prevTimedOut)))
    case ReceivePid =>
      if s.fuzzer.at != AwaitPid || |s.wire| == 0 || !s.wire[0].Pid? then None
      else Some(s.(fuzzer := s.fuzzer.(at := GotPid, childPid := s.wire[0].pid), wire := s.wire[1..]))
    case ArmTimer =>
      if s.fuzzer.at != GotPid then None else Some(s.(fuzzer := s.fuzzer.(at := AwaitStatus, alarm := true)))
    case ReceiveStatus =>
      if s.fuzzer.at != AwaitStatus || |s.wire| == 0 || !s.wire[0].Status? then None
      else
        var pid := if s.wire[0].wasStopped then s.fuzzer.childPid else 0;
        Some(s.(fuzzer := s.fuzzer.(at := GotStatus, childPid := pid), wire := s.wire[1..]))
    case DisarmTimer =>
      if s.fuzzer.at != GotStatus then None
      else Some(s.(fuzzer := s.fuzzer.(at := Idle, alarm := false, prevTimedOut := s.fuzzer.timedOut)))
    // the timer: handle_timeout
    case Alarm =>
      if !s.fuzzer.alarm then None
      else if s.fuzzer.childPid == 0 then Some(s.(fuzzer := s.fuzzer.(alarm := false)))
      else Some(Kill(s.(fuzzer := s.fuzzer.(alarm := false, timedOut := true)), s.fuzzer.childPid))
    // the server: __afl_start_forkserver
    case ReceiveRequest =>
      if s.server.at != ReadRequest || |s.wire| == 0 || !s.wire[0].Request? then None
      else Some(s.(server := s.server.(at := GotRequest(s.wire[0].wasKilled)), wire := s.wire[1..]))
    case SkipWriteOff =>
      if !s.server.at.GotRequest? || (s.server.childStopped && s.server.at.wasKilled) then None
      else Some(s.(server := s.server.(at := Launch)))
    case StartWriteOff =>
      if !s.server.at.GotRequest? || !(s.server.childStopped && s.server.at.wasKilled) then None
      else Some(s.(server := s.server.(at := WriteOff, childStopped := false)))
    case FinishWriteOff =>
      if s.server.at != WriteOff || !(1 <= s.server.childPid <= |s.children|)
         || ChildAt(s, s.server.childPid).life != Dead then None
      else Some(WithLife(s.(server := s.server.(at := Launch)), s.server.childPid, Reaped))
    case ForkChild =>
      if s.server.at != Launch || s.server.childStopped then None
      else
        Some(s.(server := s.server.(at := WritePid, childPid := |s.children| + 1),
                children := s.children + [Child(Starting, 1, 0, FRESH_LOOP)]))
    case ContinueChild =>
      if s.server.at != Launch || !s.server.childStopped || !(1 <= s.server.childPid <= |s.children|) then None
      else
        var child := ChildAt(s, s.server.childPid);
        var woken := if child.life == Stopped then child.(life := Starting, served := child.served + 1) else child;
        Some(s.(server := s.server.(at := WritePid, childStopped := false),
                children := s.children[s.server.childPid - 1 := woken]))
    case SendPid =>
      if s.server.at != WritePid then None
      else Some(Write(s.(server := s.server.(at := Wait)), Pid(s.server.childPid)))
    case WaitReturns =>
      if s.server.at != Wait || !(1 <= s.server.childPid <= |s.children|) then None
      else
        var life := ChildAt(s, s.server.childPid).life;
        if life == Dead then Some(WithLife(s.(server := s.server.(at := WriteStatus(false))), s.server.childPid, Reaped))
        else if life == Stopped && c.persistent
        then Some(s.(server := s.server.(at := WriteStatus(true), childStopped := true)))
        else None
    case SendStatus =>
      if !s.server.at.WriteStatus? then None
      else Some(Write(s.(server := s.server.(at := ReadRequest)), Status(s.server.at.stopped)))
    // a child: __afl_persistent_loop and the end of the process
    case ChildCallsLoop(pid) =>
      if !(1 <= pid <= |s.children|) then None
      else
        match AfterLoopCall(c, ChildAt(s, pid)) {
          case None => None
          case Some(child) => Some(s.(children := s.children[pid - 1 := child]))
        }
    case ChildEnds(pid) =>
      if !(1 <= pid <= |s.children|) || ChildAt(s, pid).life in {Stopped, Dead, Reaped} then None
      else Some(WithLife(s, pid, Dead))
  }

  /** The state after a sequence of actions, if all of them are possible. */
  function Run(c: Config, actions: seq<Action>): Option<State> {
    if |actions| == 0 then Some(START)
    else
      match Run(c, actions[..|actions| - 1])
      case None => None
      case Some(s) => Next(c, s, actions[|actions| - 1])
  }

  // ---------- What every interleaving keeps ----------

  ghost predicate Turn(m: Message, k: nat) {
    if k % 3 == 0 then m.Request? else if k % 3 == 1 then m.Pid? else m.Status?
  }

  /** Requests, process numbers and statuses take turns. */
  ghost predicate Alternate(sent: seq<Message>) {
    forall k :: 0 <= k < |sent| ==> Turn(sent[k], k)
  }

  /** Where both sides are and what is on the wire fits together. */
  ghost predicate Coupled(s: State) {
    var n, f, v := |s.children|, s.fuzzer, s.server;
    && v.childPid == n
    && (f.at.Idle? || f.at.GotStatus? ==> v.at.ReadRequest? && s.wire == [])
    && (f.at.GotPid? || f.at.AwaitStatus? ==>
          || ((v.at.Wait? || v.at.WriteStatus?) && s.wire == [])
          || (v.at.ReadRequest? && s.wire == [Status(v.childStopped)]))
    && (f.at.AwaitPid? ==>
          || (v.at.ReadRequest? && s.wire == [Request(f.prevTimedOut)])
          || (v.at == GotRequest(f.prevTimedOut) && s.wire == [])
          || ((v.at.WriteOff? || v.at.Launch? || v.at.WritePid?) && s.wire == [])
          || ((v.at.Wait? || v.at.WriteStatus?) && s.wire == [Pid(n)] && n > 0)
          || (v.at.ReadRequest? && s.wire == [Pid(n), Status(v.childStopped)] && n > 0))
    && (f.alarm ==> f.at.AwaitStatus? || f.at.GotStatus?)
    && (f.at.AwaitStatus? && !f.alarm ==> f.timedOut)
    && (f.at.AwaitPid? || f.at.GotPid? ==> !f.timedOut)
    && (f.at.GotPid? || f.at.AwaitStatus? ==> f.childPid == n > 0)
    && (f.at.GotStatus? || f.at.Idle? ==> f.childPid == if v.childStopped then n else 0)
    && (v.at.WriteStatus? ==> v.at.stopped == v.childStopped)
    && (v.at.WritePid? || v.at.Wait? || v.at.WriteOff? ==> n > 0 && !v.childStopped)
    && (v.childStopped ==> n > 0)
    && (v.at.WriteOff? ==> f.prevTimedOut)
    && (v.at.Launch? && v.childStopped ==> !f.prevTimedOut)
  }

  /** Did the timer kill the child of the run that is ending or has just ended? */
  ghost predicate KilledLast(s: State) {
    if s.fuzzer.at.Idle? || (s.fuzzer.at.AwaitPid? && (s.server.at.GotRequest? || (s.wire != [] && s.wire[0].Request?)))
    then s.fuzzer.prevTimedOut else s.fuzzer.timedOut
  }

  /** All children but the last are gone, and the last is in the state the server takes it for. */
  ghost predicate Family(s: State) {
    var n, v := |s.children|, s.server;
    && (forall k :: 0 <= k < n - 1 ==> s.children[k].life == Reaped)
    && (n > 0 ==>
          var life := s.children[n - 1].life;
          match v.at
          case WriteOff => life == Dead
          case Launch => life == if v.childStopped then Stopped else Reaped
          case WritePid => life != Reaped
          case Wait => life != Reaped && (s.fuzzer.timedOut ==> life == Dead)
          case _ => life == if !v.childStopped then Reaped else if KilledLast(s) then Dead else Stopped)
  }

  /** The number of loop bodies a child may run: 0 stands for 2^32. */
  function MaxBodies(c: Config): nat { if c.maxCnt == 0 then U32_MODULUS else c.maxCnt }

  /** Requests and loop bodies of a child keep pace, within the limit. */
  ghost predicate InStep(c: Config, child: Child) {
    var max := MaxBodies(c);
    && child.begun <= child.served <= child.begun + 1 && 1 <= child.served <= max
    && (child.begun == 0 <==> child.loop.firstPass)
    && (child.life == Starting ==> child.served == child.begun + 1)
    && (child.life == Working || child.life == Stopped ==> child.served == child.begun)
    && (child.life == Working ==> child.loop.cycleCnt == (max - (child.begun - 1)) % U32_MODULUS)
    && (child.life == Stopped || (child.life == Starting && child.begun > 0) ==>
          c.persistent && child.begun < max && child.loop.cycleCnt == max - child.begun)
    && (!c.persistent ==> child.begun <= 1)
  }

  ghost predicate AllInStep(c: Config, s: State) {
    forall k :: 0 <= k < |s.children| ==> InStep(c, s.children[k])
  }

  /** How far the current exchange is. */
  function MessagesOfRun(s: State): nat {
    match s.server.at
    case Wait => 2
    case WriteStatus(_) => 2
    case ReadRequest => if s.wire != [] && s.wire[0].Request? then 1 else 0
    case _ => 1
  }

  ghost predicate Inv(c: Config, s: State) {
    && Coupled(s) && Family(s) && AllInStep(c, s)
    && Alternate(s.sent) && |s.sent| % 3 == MessagesOfRun(s)
  }

  lemma StartInv(c: Config)
    ensures Inv(c, START)
  {
  }

  lemma NextTurn(sent: seq<Message>, m: Message)
    requires Alternate(sent) && Turn(m, |sent|)
    ensures Alternate(sent + [m]) && |sent + [m]| % 3 == (|sent| % 3 + 1) % 3
  {
  }

  lemma SendRequestKeepsInv(c: Config, s: State)
    requires c.maxCnt < U32_MODULUS && Inv(c, s) && Next(c, s, SendRequest).Some?
    ensures Inv(c, Next(c, s, SendRequest).value)
  {
    NextTurn(s.sent, Request(s.fuzzer.prevTimedOut));
  }

  lemma ReceivePidKeepsInv(c: Config, s: State)
    requires c.maxCnt < U32_MODULUS && Inv(c, s) && Next(c, s, ReceivePid).Some?
    ensures Inv(c, Next(c, s, ReceivePid).value)
  {
  }

  lemma ArmTimerKeepsInv(c: Config, s: State)
    requires c.maxCnt < U32_MODULUS && Inv(c, s) && Next(c, s, ArmTimer).Some?
    ensures Inv(c, Next(c, s, ArmTimer).value)
  {
  }

  lemma ReceiveStatusKeepsInv(c: Config, s: State)
    requires c.maxCnt < U32_MODULUS && Inv(c, s) && Next(c, s, ReceiveStatus).Some?
    ensures Inv(c, Next(c, s, ReceiveStatus).value)
  {
  }

  lemma DisarmTimerKeepsInv(c: Config, s: State)
    requires c.maxCnt < U32_MODULUS && Inv(c, s) && Next(c, s, DisarmTimer).Some?
    ensures Inv(c, Next(c, s, DisarmTimer).value)
  {
  }

  lemma AlarmKeepsInv(c: Config, s: State)
    requires c.maxCnt < U32_MODULUS && Inv(c, s) && Next(c, s, Alarm).Some?
    ensures Inv(c, Next(c, s, Alarm).value)
  {
  }

  lemma RequestKeepsInv(c: Config, s: State, a: Action)
    requires c.maxCnt < U32_MODULUS && Inv(c, s) && Next(c, s, a).Some?
    requires a.ReceiveRequest? || a.SkipWriteOff? || a.StartWriteOff?
    ensures Inv(c, Next(c, s, a).value)
  {
  }

  lemma WriteOffKeepsInv(c: Config, s: State)
    requires c.maxCnt < U32_MODULUS && Inv(c, s) && Next(c, s, FinishWriteOff).Some?
    ensures Inv(c, Next(c, s, FinishWriteOff).value)
  {
  }

  lemma ForkKeepsInv(c: Config, s: State)
    requires c.maxCnt < U32_MODULUS && Inv(c, s) && Next(c, s, ForkChild).Some?
    ensures Inv(c, Next(c, s, ForkChild).value)
  {
  }

  lemma ContinueKeepsInv(c: Config, s: State)
    requires c.maxCnt < U32_MODULUS && Inv(c, s) && Next(c, s, ContinueChild).Some?
    ensures Inv(c, Next(c, s, ContinueChild).value)
  {
  }

  lemma SendPidKeepsInv(c: Config, s: State)
    requires c.maxCnt < U32_MODULUS && Inv(c, s) && Next(c, s, SendPid).Some?
    ensures Inv(c, Next(c, s, SendPid).value)
  {
    NextTurn(s.sent, Pid(s.server.childPid));
  }

  lemma WaitKeepsInv(c: Config, s: State)
    requires c.maxCnt < U32_MODULUS && Inv(c, s) && Next(c, s, WaitReturns).Some?
    ensures Inv(c, Next(c, s, WaitReturns).value)
  {
  }

  lemma SendStatusKeepsInv(c: Config, s: State)
    requires c.maxCnt < U32_MODULUS && Inv(c, s) && Next(c, s, SendStatus).Some?
    ensures Inv(c, Next(c, s, SendStatus).value)
  {
    NextTurn(s.sent, Status(s.server.at.stopped));
  }

  lemma LoopCallKeepsStep(c: Config, child: Child)
    requires c.maxCnt < U32_MODULUS && InStep(c, child) && AfterLoopCall(c, child).Some?
    ensures InStep(c, AfterLoopCall(c, child).value)
    ensures AfterLoopCall(c, child).value.life in {Working, Stopped, Leaving}
  {
    if child.loop.firstPass {
      FirstBodyKeepsStep(c, child);
    } else if child.life == Working {
      NextBodyKeepsStep(c, child);
    } else {
      BodyAfterStopKeepsStep(c, child);
    }
  }

  /** The first loop body. */
  lemma FirstBodyKeepsStep(c: Config, child: Child)
    requires c.maxCnt < U32_MODULUS && InStep(c, child) && child.loop.firstPass && AfterLoopCall(c, child).Some?
    ensures InStep(c, AfterLoopCall(c, child).value) && AfterLoopCall(c, child).value.life == Working
  {
  }

  /** The loop body for the request that woke the child. */
  lemma BodyAfterStopKeepsStep(c: Config, child: Child)
    requires c.maxCnt < U32_MODULUS && InStep(c, child) && child.life == Starting && !child.loop.firstPass && AfterLoopCall(c, child).Some?
    ensures InStep(c, AfterLoopCall(c, child).value) && AfterLoopCall(c, child).value.life == Working
  {
  }

  /** From one loop body to the next, or out of the loop. */
  lemma NextBodyKeepsStep(c: Config, child: Child)
    requires c.maxCnt < U32_MODULUS && InStep(c, child) && child.life == Working && !child.loop.firstPass
    ensures AfterLoopCall(c, child).Some? && InStep(c, AfterLoopCall(c, child).value)
    ensures AfterLoopCall(c, child).value.life in {Stopped, Leaving}
  {
  }

  lemma LoopCallKeepsInv(c: Config, s: State, pid: nat)
    requires c.maxCnt < U32_MODULUS && Inv(c, s) && Next(c, s, ChildCallsLoop(pid)).Some?
    ensures Inv(c, Next(c, s, ChildCallsLoop(pid)).value)
  {
    LoopCallKeepsStep(c, ChildAt(s, pid));
  }

  lemma ChildEndKeepsInv(c: Config, s: State, pid: nat)
    requires c.maxCnt < U32_MODULUS && Inv(c, s) && Next(c, s, ChildEnds(pid)).Some?
    ensures Inv(c, Next(c, s, ChildEnds(pid)).value)
  {
  }

  lemma NextKeepsInv(c: Config, s: State, a: Action)
    requires c.maxCnt < U32_MODULUS && Inv(c, s) && Next(c, s, a).Some?
    ensures Inv(c, Next(c, s, a).value)
  {
    match a
    case SendRequest => SendRequestKeepsInv(c, s);
    case ReceivePid => ReceivePidKeepsInv(c, s);
    case ArmTimer => ArmTimerKeepsInv(c, s);
    case ReceiveStatus => ReceiveStatusKeepsInv(c, s);
    case DisarmTimer => DisarmTimerKeepsInv(c, s);
    case Alarm => AlarmKeepsInv(c, s);
    case FinishWriteOff => WriteOffKeepsInv(c, s);
    case ForkChild => ForkKeepsInv(c, s);
    case ContinueChild => ContinueKeepsInv(c, s);
    case SendPid => SendPidKeepsInv(c, s);
    case WaitReturns => WaitKeepsInv(c, s);
    case SendStatus => SendStatusKeepsInv(c, s);
    case ChildCallsLoop(pid) => LoopCallKeepsInv(c, s, pid);
    case ChildEnds(pid) => ChildEndKeepsInv(c, s, pid);
    case _ => RequestKeepsInv(c, s, a);
  }

  lemma {:induction false} RunKeepsInv(c: Config, actions: seq<Action>)
    requires c.maxCnt < U32_MODULUS && Run(c, actions).Some?
    ensures Inv(c, Run(c, actions).value)
  {
    if |actions| == 0 {
      StartInv(c);
    } else {
      var before := actions[..|actions| - 1];
      RunKeepsInv(c, before);
      NextKeepsInv(c, Run(c, before).value, actions[|actions| - 1]);
    }
  }

  // ---------- The protocol ----------

  /** In every interleaving: messages take turns with at most two under way, and all children but
      the last have been waited for. */
  lemma MessagesAndChildren(c: Config, actions: seq<Action>, s: State)
    requires c.maxCnt < U32_MODULUS && Run(c, actions) == Some(s)
    ensures Alternate(s.sent) && |s.wire| <= 2
    ensures forall k :: 0 <= k < |s.children| - 1 ==> s.children[k].life == Reaped
  {
    RunKeepsInv(c, actions);
  }

  /** SIGCONT finds a child that is stopped: neither running nor killed by the timer. */
  lemma ContinuesOnlyStopped(c: Config, actions: seq<Action>, s: State)
    requires c.maxCnt < U32_MODULUS && Run(c, actions) == Some(s) && Next(c, s, ContinueChild).Some?
    ensures ChildAt(s, s.server.childPid).life == Stopped
    ensures !s.fuzzer.prevTimedOut
  {
    RunKeepsInv(c, actions);
  }

  /** The wait that writes a child off is for a child that was killed: it cannot block. */
  lemma WriteOffNeverBlocks(c: Config, actions: seq<Action>, s: State)
    requires c.maxCnt < U32_MODULUS && Run(c, actions) == Some(s) && s.server.at == WriteOff
    ensures Next(c, s, FinishWriteOff).Some? && s.fuzzer.prevTimedOut
  {
    RunKeepsInv(c, actions);
  }

  /** The request that a child is serving in its loop is as manieth as the loop body it is in, and
      there are at most MaxBodies of both. */
  lemma RequestIsLoopBody(c: Config, actions: seq<Action>, s: State, k: nat)
    requires c.maxCnt < U32_MODULUS && Run(c, actions) == Some(s) && k < |s.children|
    ensures s.children[k].served <= MaxBodies(c) && s.children[k].begun <= s.children[k].served
    ensures s.children[k].life == Working || s.children[k].life == Stopped ==> s.children[k].begun == s.children[k].served
    ensures !c.persistent ==> s.children[k].begun <= 1
  {
    RunKeepsInv(c, actions);
  }

  /** What a call of the loop leads to, for a child that keeps pace: on its way it begins the next body; out
      of a body it leaves exactly if it is not persistent or has run all its bodies, and stops otherwise. */
  lemma LoopCallDecides(c: Config, child: Child)
    requires c.maxCnt < U32_MODULUS && InStep(c, child) && AfterLoopCall(c, child).Some?
    ensures var next := AfterLoopCall(c, child).value;
      && (child.life == Starting ==> next.life == Working && next.begun == child.begun + 1)
      && (child.life == Working ==>
            && next.begun == child.begun
            && next.life == if !c.persistent || child.begun == MaxBodies(c) then Leaving else Stopped)
  {
  }

  /** A child goes on as long as it may: in every interleaving a call of the loop leads out of it exactly
      from a body, and if the child is not persistent or this body was its last one. */
  lemma LeavesOnlyAtTheEnd(c: Config, actions: seq<Action>, s: State, pid: nat)
    requires c.maxCnt < U32_MODULUS && Run(c, actions) == Some(s) && Next(c, s, ChildCallsLoop(pid)).Some?
    ensures var child, next := ChildAt(s, pid), ChildAt(Next(c, s, ChildCallsLoop(pid)).value, pid);
      && (next.life == Leaving <==> child.life == Working && (!c.persistent || child.begun == MaxBodies(c)))
      && (child.life == Working && c.persistent && child.begun < MaxBodies(c) ==> next.life == Stopped)
      && (child.life == Starting ==> next.life == Working && next.begun == child.begun + 1)
  {
    RunKeepsInv(c, actions);
    LoopCallDecides(c, ChildAt(s, pid));
  }

  /** And it is not replaced before it is gone: a process is forked only when all before it have been waited
      for, and one that is stopped is woken instead. */
  lemma ForksOnlyWhenGone(c: Config, actions: seq<Action>, s: State)
    requires c.maxCnt < U32_MODULUS && Run(c, actions) == Some(s)
    ensures Next(c, s, ForkChild).Some? ==> forall k :: 0 <= k < |s.children| ==> s.children[k].life == Reaped
    ensures s.server.at == Launch && (exists k :: 0 <= k < |s.children| && s.children[k].life == Stopped) ==>
              Next(c, s, ContinueChild).Some?
  {
    RunKeepsInv(c, actions);
  }

  /** There is always a next step, and one that does not depend on the target: no interleaving leads
      to a deadlock, not even with a child that hangs. */
  lemma NeverStuck(c: Config, actions: seq<Action>, s: State) returns (a: Action)
    requires c.maxCnt < U32_MODULUS && Run(c, actions) == Some(s)
    ensures Next(c, s, a).Some? && !a.ChildCallsLoop? && !a.ChildEnds?
  {
    RunKeepsInv(c, actions);
    match s.fuzzer.at
    case Idle => a := SendRequest;
    case GotPid => a := ArmTimer;
    case GotStatus => a := DisarmTimer;
    case _ =>
      if s.server.at == Wait {
        a := WaitIsNotStuck(c, s);
      } else {
        a := ServerIsNotStuck(c, s);
      }
  }

  /** The server waits for a child: it has stopped or is gone, or the fuzzer has still to learn its
      number, or the timer is armed. */
  lemma WaitIsNotStuck(c: Config, s: State) returns (a: Action)
    requires Inv(c, s) && s.server.at == Wait && (s.fuzzer.at.AwaitPid? || s.fuzzer.at.AwaitStatus?)
    ensures Next(c, s, a).Some? && (a.WaitReturns? || a.ReceivePid? || a.Alarm?)
  {
    var life := ChildAt(s, s.server.childPid).life;
    a := if life == Dead || life == Stopped then WaitReturns else if s.wire != [] then ReceivePid else Alarm;
  }

  lemma ServerIsNotStuck(c: Config, s: State) returns (a: Action)
    requires Inv(c, s) && s.server.at != Wait && (s.fuzzer.at.AwaitPid? || s.fuzzer.at.AwaitStatus?)
    ensures Next(c, s, a).Some? && !a.ChildCallsLoop? && !a.ChildEnds?
  {
    match s.server.at
    case ReadRequest =>
      a := if s.wire[0].Request? then ReceiveRequest else if s.wire[0].Pid? then ReceivePid else ReceiveStatus;
    case GotRequest(wasKilled) => a := if s.server.childStopped && wasKilled then StartWriteOff else SkipWriteOff;
    case WriteOff => a := FinishWriteOff;
    case Launch => a := if s.server.childStopped then ContinueChild else ForkChild;
    case WritePid => a := SendPid;
    case WriteStatus(_) => a := SendStatus;
  }
}
