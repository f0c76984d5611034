/** How a function process and its runner go away: the send loop, the receive loop,
    the process shutdown that waits for both while holding the invocation lock, and
    the runner shutdown that waits for them before taking the lock.

    Every access to shared state is its own step, in any interleaving.  A process
    connection is an incarnation; its channels are numbered by it.  Closing a channel
    that is already closed is a panic, after which nothing runs.
 */
module ShutdownProtocol {

  import opened RuntimeEvents

  // The receive loop of one incarnation: it joins the wait group after the lock is
  // released, reads until the connection fails, leaves the group, and then runs the
  // process shutdown, which takes the lock and keeps it until the group is empty.
  datatype Recv = Joining | Reading | Left | Locked | Gone

  // The send loop is blocked on the stop channel it selected on, or is writing a
  // request, or has left the wait group.
  datatype Send = Selecting(channel: nat) | Writing | Quit

  // The runner thread: connected, waiting for the group to empty, past the wait but
  // not yet holding the lock.
  datatype Runner = Absent | Connected | Waiting | Passed

  datatype State = State(
    state: RuntimeState,
    locked: bool,
    group: int,
    recvs: seq<Recv>,
    sends: seq<Send>,
    stopClosed: seq<bool>,
    stoppingClosed: seq<bool>,
    runClosed: bool,
    runner: Runner,
    panicked: bool)

  datatype Step =
    | ProcessConnect
    | RecvJoin(k: nat)
    | RecvEnd(k: nat)
    | ShutdownBegin(k: nat)
    | ShutdownEnd(k: nat)
    | SendTake(k: nat)
    | SendWritten(k: nat)
    | SendQuit(k: nat)
    | CoolDown
    | Dispatch(to: RuntimeState)
    | RunnerConnect
    | RunnerLost
    | RunnerPass
    | RunnerClose

  predicate Initial(s: State) {
    s.state in {Closed, Merged} && s == State(s.state, false, 0, [], [], [], [], false, Absent, false)
  }

  predicate WellFormed(s: State) {
    |s.recvs| == |s.sends| == |s.stopClosed| == |s.stoppingClosed|
  }

  // The moves of the dispatcher that need no channel: occupy, merge, roll back and
  // retrieve.
  predicate DispatchMove(a: RuntimeState, b: RuntimeState) {
    || (a == Cold && (b == WarmUp || b == Merged))
    || ((a == WarmUp || a == Merged) && b == Cold)
    || ((a == Merged || a == Reclaiming) && b == Reclaiming)
  }

  predicate Enabled(s: State, step: Step) {
    && WellFormed(s)
    && !s.panicked
    && match step
       case ProcessConnect => !s.locked && (s.state == Cold || s.state == WarmUp)
       case RecvJoin(k) => k < |s.recvs| && s.recvs[k].Joining?
       case RecvEnd(k) => k < |s.recvs| && s.recvs[k].Reading?
       case ShutdownBegin(k) => k < |s.recvs| && s.recvs[k].Left? && !s.locked
       case ShutdownEnd(k) => k < |s.recvs| && s.recvs[k].Locked? && s.group == 0
       case SendTake(k) => k < |s.sends| && s.sends[k].Selecting?
       case SendWritten(k) => k < |s.sends| && s.sends[k].Writing?
       case SendQuit(k) =>
         k < |s.sends| && s.sends[k].Selecting? && s.sends[k].channel < |s.stopClosed| && s.stopClosed[s.sends[k].channel]
       case CoolDown => !s.locked && s.state == Warm && |s.stoppingClosed| > 0
       case Dispatch(to) => !s.locked && DispatchMove(s.state, to)
       case RunnerConnect => !s.locked && s.state == Closed
       case RunnerLost => s.runner.Connected?
       case RunnerPass => s.runner.Waiting? && s.group == 0
       case RunnerClose => s.runner.Passed? && !s.locked
  }

  function Next(s: State, step: Step): State
    requires Enabled(s, step)
  {
    match step
    case ProcessConnect =>
      // Fresh stop and stopping channels; the run channel is closed here and made
      // anew only by the process shutdown.
      s.(state := Warm, recvs := s.recvs + [Joining], sends := s.sends + [Selecting(|s.sends|)],
         stopClosed := s.stopClosed + [false], stoppingClosed := s.stoppingClosed + [false],
         group := s.group + 1, runClosed := true, panicked := s.runClosed)
    case RecvJoin(k) => s.(recvs := s.recvs[k := Reading], group := s.group + 1)
    case RecvEnd(k) => s.(recvs := s.recvs[k := Left], group := s.group - 1)
    case ShutdownBegin(k) =>
      // The stop channel closed is the one the record holds now: the latest.
      var cur := |s.stopClosed| - 1;
      s.(recvs := s.recvs[k := Locked], locked := true,
         stopClosed := s.stopClosed[cur := true], panicked := s.stopClosed[cur])
    case ShutdownEnd(k) =>
      s.(recvs := s.recvs[k := Gone], locked := false, state := Stopped, runClosed := false)
    case SendTake(k) => s.(sends := s.sends[k := Writing])
    case SendWritten(k) => s.(sends := s.sends[k := Selecting(|s.stopClosed| - 1)])
    case SendQuit(k) => s.(sends := s.sends[k := Quit], group := s.group - 1)
    case CoolDown =>
      var cur := |s.stoppingClosed| - 1;
      s.(state := Stopping, stoppingClosed := s.stoppingClosed[cur := true], panicked := s.stoppingClosed[cur])
    case Dispatch(to) => s.(state := to)
    case RunnerConnect => s.(state := Cold, runner := Connected)
    case RunnerLost => s.(runner := Waiting)
    case RunnerPass => s.(runner := Passed)
    case RunnerClose =>
      s.(runner := Absent, state := if s.state == Merged || s.state == Reclaiming then s.state else Closed)
  }

  // ---------------------------------------------------------------------------
  // What every interleaving keeps until a panic

  predicate Live(s: State) {
    |s.recvs| > 0 && !s.recvs[|s.recvs| - 1].Gone?
  }

  function InGroup(s: State): int
    requires WellFormed(s) && |s.recvs| > 0
  {
    var n := |s.recvs| - 1;
    (if s.sends[n].Quit? then 0 else 1) + (if s.recvs[n].Reading? then 1 else 0)
  }

  // Only the latest incarnation can be alive; it is the only user of the lock across
  // steps, of the wait group and of the open channels.
  predicate Inv(s: State) {
    && WellFormed(s)
    && (forall k :: 0 <= k < |s.recvs| - 1 ==> s.recvs[k].Gone? && s.sends[k].Quit?)
    && s.group == (if |s.recvs| > 0 then InGroup(s) else 0)
    && s.runClosed == Live(s)
    && s.locked == (|s.recvs| > 0 && s.recvs[|s.recvs| - 1].Locked?)
    && (|s.recvs| > 0 ==>
          var n := |s.recvs| - 1;
          && (s.sends[n].Selecting? ==> s.sends[n].channel == n)
          && s.stopClosed[n] == (s.recvs[n].Locked? || s.recvs[n].Gone?)
          && (s.sends[n].Quit? ==> s.stopClosed[n])
          && (s.recvs[n].Gone? ==> s.sends[n].Quit?))
    && (s.state == Warm ==> Live(s) && !s.stoppingClosed[|s.recvs| - 1])
    && (s.state == Closed ==> s.runner.Absent?)
  }

  lemma InvStep(s: State, step: Step)
    requires Inv(s) && Enabled(s, step) && !Next(s, step).panicked
    ensures Inv(Next(s, step))
  {
    match step
    case ProcessConnect => ConnectKeepsInv(s);
    case RecvJoin(k) => RecvKeepsInv(s, step, k);
    case RecvEnd(k) => RecvKeepsInv(s, step, k);
    case ShutdownBegin(k) => RecvKeepsInv(s, step, k);
    case ShutdownEnd(k) => RecvKeepsInv(s, step, k);
    case SendTake(k) => SendKeepsInv(s, step, k);
    case SendWritten(k) => SendKeepsInv(s, step, k);
    case SendQuit(k) => SendKeepsInv(s, step, k);
    case _ => StateKeepsInv(s, step);
  }

  lemma ConnectKeepsInv(s: State)
    requires Inv(s) && Enabled(s, ProcessConnect) && !s.runClosed
    ensures Inv(Next(s, ProcessConnect))
  {
  }

  lemma RecvKeepsInv(s: State, step: Step, k: nat)
    requires Inv(s) && Enabled(s, step) && !Next(s, step).panicked
    requires step in {RecvJoin(k), RecvEnd(k), ShutdownBegin(k), ShutdownEnd(k)}
    ensures k == |s.recvs| - 1
    ensures Inv(Next(s, step))
  {
    assert k == |s.recvs| - 1;
  }

  lemma SendKeepsInv(s: State, step: Step, k: nat)
    requires Inv(s) && Enabled(s, step)
    requires step in {SendTake(k), SendWritten(k), SendQuit(k)}
    ensures Inv(Next(s, step))
  {
    assert k == |s.recvs| - 1;
  }

  lemma StateKeepsInv(s: State, step: Step)
    requires Inv(s) && Enabled(s, step) && !Next(s, step).panicked
    requires step.CoolDown? || step.Dispatch? || step.RunnerConnect? || step.RunnerLost? || step.RunnerPass? || step.RunnerClose?
    ensures Inv(Next(s, step))
  {
  }

  // The only close that can panic is that of the run channel, by a second process
  // connecting while one is alive: until then every stop and stopping channel is
  // closed at most once.
  lemma OnlyPanic(s: State, step: Step)
    requires Inv(s) && Enabled(s, step)
    ensures Next(s, step).panicked <==> step == ProcessConnect && Live(s)
  {
  }

  // ---------------------------------------------------------------------------
  // Runs

  ghost predicate IsRun(s: State, steps: seq<Step>)
    decreases |steps|
  {
    steps == [] || (Enabled(s, steps[0]) && IsRun(Next(s, steps[0]), steps[1..]))
  }

  ghost function After(s: State, steps: seq<Step>): State
    requires IsRun(s, steps)
    decreases |steps|
  {
    if steps == [] then s else After(Next(s, steps[0]), steps[1..])
  }

  lemma {:induction false} InvRun(s: State, steps: seq<Step>)
    requires Inv(s) && !s.panicked && IsRun(s, steps)
    ensures !After(s, steps).panicked ==> Inv(After(s, steps)) && After(s, steps).group >= 0
    decreases |steps|
  {
    if steps != [] {
      var s' := Next(s, steps[0]);
      if s'.panicked {
        assert steps[1..] == [];
      } else {
        InvStep(s, steps[0]);
        InvRun(s', steps[1..]);
      }
    }
  }

  // ---------------------------------------------------------------------------
  // Closed comes after Stopped

  // A runner is on its way out and incarnation n was alive when it started to wait.
  predicate Leaving(s: State, n: nat) {
    && |s.recvs| == n + 1
    && (s.runner.Waiting? || s.runner.Passed?)
    && (s.recvs[n].Gone? ==> s.state == Stopped)
    && (s.runner.Passed? ==> s.recvs[n].Locked? || s.recvs[n].Gone?)
  }

  lemma LeavingStep(s: State, step: Step, n: nat)
    requires Inv(s) && Leaving(s, n) && Enabled(s, step) && !Next(s, step).panicked && !step.RunnerClose?
    ensures Leaving(Next(s, step), n)
  {
    OnlyPanic(s, step);
  }

  // In every interleaving, a runner that starts waiting while a process is alive
  // closes the runtime only after that process's shutdown has finished: at that
  // moment the runtime is stopped and becomes closed.
  lemma {:induction false} ClosedAfterStopped(s: State, steps: seq<Step>, n: nat)
    requires Inv(s) && Leaving(s, n) && IsRun(s, steps)
    requires forall k :: 0 <= k < |steps| ==> !steps[k].RunnerClose?
    requires Enabled(After(s, steps), RunnerClose)
    ensures var e := After(s, steps);
            && |e.recvs| == n + 1 && e.recvs[n].Gone? && e.state == Stopped
            && Next(e, RunnerClose).state == Closed
    decreases |steps|
  {
    if steps != [] {
      var s' := Next(s, steps[0]);
      InvStep(s, steps[0]);
      assert !steps[0].RunnerClose?;
      LeavingStep(s, steps[0], n);
      assert forall k :: 0 <= k < |steps[1..]| ==> steps[1..][k] == steps[k + 1];
      ClosedAfterStopped(s', steps[1..], n);
    }
  }

  lemma LosingRunnerLeaves(s: State)
    requires Inv(s) && Live(s) && Enabled(s, RunnerLost)
    ensures Leaving(Next(s, RunnerLost), |s.recvs| - 1)
  {
  }

  // ---------------------------------------------------------------------------
  // The shutdown that waits under the lock always finishes

  // While the lock is held for a shutdown, nobody joins the wait group, and the
  // shutdown stays in progress until it ends itself.
  lemma WaitingUnderLock(s: State, step: Step)
    requires Inv(s) && Enabled(s, step) && s.locked && !step.ShutdownEnd?
    ensures var s' := Next(s, step);
            !s'.panicked && s'.locked && s'.group <= s.group && |s'.recvs| == |s.recvs|
  {
    OnlyPanic(s, step);
  }

  // The send loop alone can always bring the wait to an end.
  function WayOut(s: State): seq<Step>
    requires WellFormed(s) && |s.recvs| > 0
  {
    var n := |s.recvs| - 1;
    match s.sends[n]
    case Writing => [SendWritten(n), SendQuit(n), ShutdownEnd(n)]
    case Selecting(_) => [SendQuit(n), ShutdownEnd(n)]
    case Quit => [ShutdownEnd(n)]
  }

  lemma NoDeadlock(s: State)
    requires Inv(s) && !s.panicked && s.locked && |s.recvs| > 0
    ensures IsRun(s, WayOut(s))
    ensures var e := After(s, WayOut(s)); !e.locked && e.state == Stopped && !e.panicked
    decreases s.sends[|s.recvs| - 1].Writing?
  {
    var n := |s.recvs| - 1;
    match s.sends[n] {
      case Quit => EndsNow(s);
      case Selecting(_) =>
        InvStep(s, SendQuit(n));
        EndsNow(Next(s, SendQuit(n)));
        assert [SendQuit(n), ShutdownEnd(n)][1..] == [ShutdownEnd(n)];
      case Writing =>
        InvStep(s, SendWritten(n));
        NoDeadlock(Next(s, SendWritten(n)));
        assert [SendWritten(n), SendQuit(n), ShutdownEnd(n)][1..] == [SendQuit(n), ShutdownEnd(n)];
    }
  }

  lemma EndsNow(s: State)
    requires Inv(s) && !s.panicked && s.locked && |s.recvs| > 0 && s.sends[|s.recvs| - 1].Quit?
    ensures var steps := [ShutdownEnd(|s.recvs| - 1)];
            IsRun(s, steps) && var e := After(s, steps); !e.locked && e.state == Stopped && !e.panicked
  {
    assert [ShutdownEnd(|s.recvs| - 1)][1..] == [];
  }

  // ---------------------------------------------------------------------------
  // When nothing panics

  // A process connects in the window between a runner's wait and its lock.
  predicate InWindow(s: State, step: Step) {
    step.ProcessConnect? && s.runner.Passed?
  }

  ghost predicate AvoidsWindow(s: State, steps: seq<Step>)
    requires IsRun(s, steps)
    decreases |steps|
  {
    steps == [] || (!InWindow(s, steps[0]) && AvoidsWindow(Next(s, steps[0]), steps[1..]))
  }

  // Without that window a live process is warm or stopping, and a runner past its wait
  // coexists with a process only while that process is shutting down.
  predicate Strict(s: State) {
    && (Live(s) ==> s.state == Warm || s.state == Stopping)
    && (s.runner.Passed? ==> !Live(s) || s.recvs[|s.recvs| - 1].Locked?)
  }

  lemma StrictStep(s: State, step: Step)
    requires Inv(s) && Strict(s) && Enabled(s, step) && !InWindow(s, step)
    ensures !Next(s, step).panicked && Strict(Next(s, step))
  {
    OnlyPanic(s, step);
  }

  lemma {:induction false} NoPanicOutsideWindow(s: State, steps: seq<Step>)
    requires Inv(s) && Strict(s) && !s.panicked && IsRun(s, steps) && AvoidsWindow(s, steps)
    ensures !After(s, steps).panicked && Inv(After(s, steps)) && Strict(After(s, steps))
    decreases |steps|
  {
    if steps != [] {
      StrictStep(s, steps[0]);
      InvStep(s, steps[0]);
      NoPanicOutsideWindow(Next(s, steps[0]), steps[1..]);
    }
  }

  lemma InitialStrict(s: State)
    requires Initial(s)
    ensures Inv(s) && Strict(s)
  {
  }

  // The condition is exact: whenever a process connects in the window, the run can
  // continue to a panic.  The runner marks the runtime closed although a process is
  // alive, the next runner makes it cold, and the next process closes the run channel
  // a second time.
  lemma WindowPanics(s: State)
    requires Inv(s) && !Live(s) && Enabled(s, ProcessConnect) && InWindow(s, ProcessConnect)
    ensures var steps := [ProcessConnect, RunnerClose, RunnerConnect, ProcessConnect];
            IsRun(s, steps) && After(s, steps).panicked
  {
    var s1 := Next(s, ProcessConnect);
    var s2 := Next(s1, RunnerClose);
    var s3 := Next(s2, RunnerConnect);
    var s4 := Next(s3, ProcessConnect);
    var t3 := [ProcessConnect];
    assert t3[1..] == [];
    assert IsRun(s3, t3) && After(s3, t3) == s4;
    var t2 := [RunnerConnect, ProcessConnect];
    assert t2[1..] == t3;
    assert IsRun(s2, t2) && After(s2, t2) == s4;
    var t1 := [RunnerClose, RunnerConnect, ProcessConnect];
    assert t1[1..] == t2;
    assert IsRun(s1, t1) && After(s1, t1) == s4;
    assert [ProcessConnect, RunnerClose, RunnerConnect, ProcessConnect][1..] == t1;
  }

  // The window is reachable: a runner is lost while its runtime is warming up.
  lemma WindowReachable(s: State)
    requires Initial(s) && s.state == Closed
    ensures var steps := [RunnerConnect, Dispatch(WarmUp), RunnerLost, RunnerPass];
            IsRun(s, steps) && !Live(After(s, steps)) && Enabled(After(s, steps), ProcessConnect)
            && InWindow(After(s, steps), ProcessConnect)
  {
    var s1 := Next(s, RunnerConnect);
    var s2 := Next(s1, Dispatch(WarmUp));
    var s3 := Next(s2, RunnerLost);
    var s4 := Next(s3, RunnerPass);
    var t3 := [RunnerPass];
    assert t3[1..] == [];
    assert IsRun(s3, t3) && After(s3, t3) == s4;
    var t2 := [RunnerLost, RunnerPass];
    assert t2[1..] == t3;
    assert IsRun(s2, t2) && After(s2, t2) == s4;
    var t1 := [Dispatch(WarmUp), RunnerLost, RunnerPass];
    assert t1[1..] == t2;
    assert IsRun(s1, t1) && After(s1, t1) == s4;
    assert [RunnerConnect, Dispatch(WarmUp), RunnerLost, RunnerPass][1..] == t1;
  }

  // ---------------------------------------------------------------------------
  // A process that outlives its runner

  lemma RunPrepend(s: State, step: Step, rest: seq<Step>)
    requires Enabled(s, step) && IsRun(Next(s, step), rest)
    ensures IsRun(s, [step] + rest) && After(s, [step] + rest) == After(Next(s, step), rest)
  {
    assert ([step] + rest)[1..] == rest;
  }

  ghost predicate Reaches(s: State, to: RuntimeState) {
    exists steps :: IsRun(s, steps) && After(s, steps).state == to
  }

  lemma ReachesBefore(s: State, step: Step, to: RuntimeState)
    requires Enabled(s, step) && Reaches(Next(s, step), to)
    ensures Reaches(s, to)
  {
    var rest :| IsRun(Next(s, step), rest) && After(Next(s, step), rest).state == to;
    RunPrepend(s, step, rest);
  }

  // Whatever state the runtime is in, a connected process whose shutdown has not begun
  // can end, and its end leaves the runtime stopped.
  lemma LiveProcessStops(s: State)
    requires Inv(s) && !s.panicked && Live(s) && !s.locked
    ensures Reaches(s, Stopped)
    decreases if s.recvs[|s.recvs| - 1].Joining? then 2 else if s.recvs[|s.recvs| - 1].Reading? then 1 else 0
  {
    var n := |s.recvs| - 1;
    var step := if s.recvs[n].Joining? then RecvJoin(n) else if s.recvs[n].Reading? then RecvEnd(n) else ShutdownBegin(n);
    OnlyPanic(s, step);
    InvStep(s, step);
    var s' := Next(s, step);
    if step.ShutdownBegin? {
      NoDeadlock(s');
      assert IsRun(s', WayOut(s'));
    } else {
      LiveProcessStops(s');
    }
    ReachesBefore(s, step, Stopped);
  }

  // A connection in the window keeps its process beyond the runner, the next runner and
  // a merge, and lets even a reclaiming container be left.
  lemma WindowFreesReclaiming(s: State)
    requires Inv(s) && !Live(s) && Enabled(s, ProcessConnect) && InWindow(s, ProcessConnect)
    ensures var steps := [ProcessConnect] + ([RunnerClose] + ([RunnerConnect] + ([Dispatch(Merged)] + ([Dispatch(Reclaiming)] + []))));
            && IsRun(s, steps)
            && After(s, steps).state == Reclaiming && Live(After(s, steps)) && Reaches(After(s, steps), Stopped)
  {
    var s1 := Next(s, ProcessConnect);
    var s2 := Next(s1, RunnerClose);
    var s3 := Next(s2, RunnerConnect);
    var s4 := Next(s3, Dispatch(Merged));
    var s5 := Next(s4, Dispatch(Reclaiming));
    InvStep(s, ProcessConnect);
    InvStep(s1, RunnerClose);
    InvStep(s2, RunnerConnect);
    InvStep(s3, Dispatch(Merged));
    InvStep(s4, Dispatch(Reclaiming));
    LiveProcessStops(s5);
    hide Inv;
    RunPrepend(s4, Dispatch(Reclaiming), []);
    RunPrepend(s3, Dispatch(Merged), [Dispatch(Reclaiming)] + []);
    RunPrepend(s2, RunnerConnect, [Dispatch(Merged)] + ([Dispatch(Reclaiming)] + []));
    RunPrepend(s1, RunnerClose, [RunnerConnect] + ([Dispatch(Merged)] + ([Dispatch(Reclaiming)] + [])));
    RunPrepend(s, ProcessConnect, [RunnerClose] + ([RunnerConnect] + ([Dispatch(Merged)] + ([Dispatch(Reclaiming)] + []))));
  }
}
