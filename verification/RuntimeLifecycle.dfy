/** Theorems about one runtime along a run: it cannot be acquired between a stop and
    the next runner, a request only reaches a process of its own commit, and it gives
    back as many containers as it took.
 */
module RuntimeLifecycle {
  import opened RuntimeEvents
  import opened RuntimePool
  import opened Options
  import opened SchedulerRuns
  import opened SchedulerSafety
  import opened MarkedAccounting

  // ---------------------------------------------------------------------------
  // Out of service

  predicate OutOfService(r: Runtime) {
    r.state in {Stopping, Stopped, Closed, Merged, Reclaiming}
  }

  // Out of service, or flagged abnormal in whatever state.
  predicate Unavailable(r: Runtime) {
    OutOfService(r) || r.abnormal
  }

  ghost predicate NoRunner(steps: seq<Step>, i: nat) {
    forall k :: 0 <= k < |steps| ==> steps[k] != Local(i, RunnerIn)
  }

  // The step hands runtime i to a request, or merges it into another one.
  ghost predicate Acquires(s: Sched, step: Step, i: nat)
    requires WellFormed(s) && Enabled(s, step)
  {
    match step
    case Acquire(req, now) =>
      var t := OccupyCold(s.pool, req, now).1;
      t.Some? && (i == t.value.target || i in t.value.merged)
    case Reuse(commit, quota, now) => FindWarm(s.pool, commit, quota, now).1 == Some(i)
    case _ => false
  }

  lemma OutOfServiceEvent(r: Runtime, ev: Event, now: int)
    requires OutOfService(r) && Check(r, ev).Ok? && !ev.Rollback?
    ensures OutOfService(Set(r, ev, now))
    ensures r.state == Reclaiming ==> Set(r, ev, now).state == Reclaiming
    ensures !ev.Occupy? && !ev.Merge? && !ev.Mark?
  {
    hide Check;
    CheckMeaning(r, ev);
  }

  lemma OutOfServiceLocal(r: Runtime, l: Option<string>, what: LocalEvent)
    requires OutOfService(r) && Sound(r, l) && Allowed(r, l, Alone(what))
    ensures !what.RunnerIn? ==> OutOfService(LocalNext(r, what))
    ensures r.state == Reclaiming && !what.ProcessOut? ==> LocalNext(r, what).state == Reclaiming
  {
    hide Check, Set, Apply, Changed;
  }

  lemma OutOfServiceChange(r: Runtime, l: Option<string>, c: Change)
    requires OutOfService(r) && Sound(r, l) && Allowed(r, l, c)
    ensures c != Alone(RunnerIn) ==> OutOfService(Changed(r, c))
    ensures r.state == Reclaiming && c != Alone(ProcessOut) ==> Changed(r, c).state == Reclaiming
    ensures c.Done? ==> !c.ev.Occupy? && !c.ev.Merge? && !c.ev.Mark?
  {
    hide Check, Apply, Set, LocalNext;
    match c
    case Kept =>
    case Done(ev, now) => OutOfServiceEvent(r, ev, now);
    case TakenBack(ev, now) =>
    case Alone(what) => OutOfServiceLocal(r, l, what);
    case Settled(job, ok, bad) =>
  }

  lemma UnavailableChange(r: Runtime, l: Option<string>, c: Change)
    requires Unavailable(r) && Sound(r, l) && Allowed(r, l, c)
    ensures c != Alone(RunnerIn) ==> Unavailable(Changed(r, c)) && (OutOfService(r) ==> OutOfService(Changed(r, c)))
    ensures c.Done? ==> !c.ev.Occupy? && !c.ev.Merge? && !c.ev.Mark?
  {
    if OutOfService(r) {
      OutOfServiceChange(r, l, c);
    } else {
      hide Check, Apply, Set, LocalNext;
      match c
      case Kept =>
      case Done(ev, now) =>
        CheckMeaning(r, ev);
        FieldsWritten(r, ev, now);
      case TakenBack(ev, now) =>
      case Alone(what) => LocalStateWritten(r, what);
      case Settled(job, ok, bad) =>
    }
  }

  lemma AcquiresByChange(s: Sched, step: Step, i: nat)
    requires WellFormed(s) && Enabled(s, step) && i < |s.pool.rts| && Acquires(s, step, i)
    ensures var c := ChangeOf(s, step, i); c.Done? && (c.ev.Occupy? || c.ev.Merge? || c.ev.Mark?)
  {
    if step.Acquire? {
      ColdChoiceSplits(s.pool.rts, Needed(step.req.mem, s.pool.base));
    }
  }

  // From a state where runtime i is out of service or flagged abnormal, no request
  // acquires it, and it stays so, until a runner connects to it.
  lemma {:induction false} NotAcquiredUntilRunner(s: Sched, steps: seq<Step>, i: nat)
    requires Inv(s) && IsRun(s, steps) && i < |s.pool.rts|
    requires Unavailable(s.pool.rts[i]) && NoRunner(steps, i)
    ensures i < |After(s, steps).pool.rts| && Unavailable(After(s, steps).pool.rts[i])
    ensures OutOfService(s.pool.rts[i]) ==> OutOfService(After(s, steps).pool.rts[i])
    ensures forall k :: 0 <= k < |steps| ==>
              && IsRun(s, steps[..k])
              && WellFormed(After(s, steps[..k]))
              && Enabled(After(s, steps[..k]), steps[k])
              && !Acquires(After(s, steps[..k]), steps[k], i)
    decreases |steps|
  {
    if steps != [] {
      hide Changed, ChangeOf, Acquires, OutOfService, Unavailable, Next, Enabled;
      var step, rest := steps[0], steps[1..];
      StepByChange(s, step, i);
      assert step != Local(i, RunnerIn);
      UnavailableChange(s.pool.rts[i], s.live[i], ChangeOf(s, step, i));
      ChangeIsNotRunner(s, step, i);
      InvStep(s, step);
      var s' := Next(s, step);
      assert forall k :: 0 <= k < |rest| ==> rest[k] == steps[k + 1];
      NotAcquiredUntilRunner(s', rest, i);
      if Acquires(s, step, i) {
        AcquiresByChange(s, step, i);
      }
      forall k | 0 <= k < |steps|
        ensures IsRun(s, steps[..k]) && WellFormed(After(s, steps[..k]))
          && Enabled(After(s, steps[..k]), steps[k]) && !Acquires(After(s, steps[..k]), steps[k], i)
      {
        if k > 0 {
          assert steps[..k][1..] == rest[..k - 1];
          assert IsRun(s', rest[..k - 1]);
        }
      }
    }
  }

  lemma ChangeIsNotRunner(s: Sched, step: Step, i: nat)
    requires WellFormed(s) && Enabled(s, step) && step != Local(i, RunnerIn)
    ensures ChangeOf(s, step, i) != Alone(RunnerIn)
  {
  }

  // A cool-down that stops a runtime puts it out of service.
  lemma StopTakesOutOfService(s: Sched, i: nat, deadline: int, resetDeadline: int, now: int)
    requires WellFormed(s) && Enabled(s, Begin(CoolDownJob, i, deadline, resetDeadline, now))
    ensures var s' := Next(s, Begin(CoolDownJob, i, deadline, resetDeadline, now));
            i in s'.jobs ==> i < |s'.pool.rts| && s'.pool.rts[i].state == Stopping
  {
    RetireByChange(s.pool, i, Stop(deadline), resetDeadline, now, i);
  }

  // Reclaiming has no exit once no function process is connected.
  lemma {:induction false} ReclaimingForever(s: Sched, steps: seq<Step>, i: nat)
    requires Inv(s) && IsRun(s, steps) && i < |s.pool.rts|
    requires s.pool.rts[i].state == Reclaiming && s.live[i].None?
    ensures i < |After(s, steps).pool.rts| && After(s, steps).pool.rts[i].state == Reclaiming
    decreases |steps|
  {
    if steps != [] {
      hide Changed, Next, Enabled;
      StepByChange(s, steps[0], i);
      LiveByChange(s, steps[0], i);
      ReclaimingStep(s, steps[0], i);
      InvStep(s, steps[0]);
      ReclaimingForever(Next(s, steps[0]), steps[1..], i);
    }
  }

  lemma ReclaimingStep(s: Sched, step: Step, i: nat)
    requires Inv(s) && Enabled(s, step) && i < |s.pool.rts|
    requires s.pool.rts[i].state == Reclaiming && s.live[i].None?
    ensures Changed(s.pool.rts[i], ChangeOf(s, step, i)).state == Reclaiming
    ensures LiveChanged(s.live[i], s.pool.rts[i], ChangeOf(s, step, i)).None?
  {
    hide Changed, Next;
    StepByChange(s, step, i);
    OutOfServiceChange(s.pool.rts[i], s.live[i], ChangeOf(s, step, i));
  }

  ghost predicate StaysReclaiming(s: Sched, i: nat) {
    forall steps :: IsRun(s, steps) ==>
      i < |After(s, steps).pool.rts| && After(s, steps).pool.rts[i].state == Reclaiming
  }

  // The condition is exact: a process still connected ends one day, and its end moves
  // the record to Stopped.
  lemma ReclaimingForeverIff(s: Sched, i: nat)
    requires Inv(s) && i < |s.pool.rts| && s.pool.rts[i].state == Reclaiming
    ensures StaysReclaiming(s, i) <==> s.live[i].None?
  {
    if s.live[i].None? {
      forall steps | IsRun(s, steps)
        ensures i < |After(s, steps).pool.rts| && After(s, steps).pool.rts[i].state == Reclaiming
      {
        ReclaimingForever(s, steps, i);
      }
    } else {
      var step := Local(i, ProcessOut);
      InvStep(s, step);
      RunPrepend(s, step, []);
      assert After(s, [step] + []).pool.rts[i].state == Stopped;
    }
  }

  // ---------------------------------------------------------------------------
  // A request reaches only a process of its commit

  // The last check before a request is sent: the runtime is warm and its commit is
  // the one asked for.
  predicate PassesWait(r: Runtime, commit: string) {
    r.state == Warm && commit == r.commitID
  }

  lemma RequestReachesItsCommit(s: Sched, steps: seq<Step>, i: nat, commit: string)
    requires Initial(s) && IsRun(s, steps) && i < |After(s, steps).pool.rts| && commit != ""
    ensures var e := After(s, steps);
            && |e.live| == |e.pool.rts|
            && (PassesWait(e.pool.rts[i], commit) ==> e.live[i] == Some(commit))
            && (forall quota, now :: e.pool.rts[i].state == Warm && FindWarm(e.pool, commit, quota, now).1 == Some(i)
                  ==> e.live[i] == Some(commit))
  {
    InitialInv(s);
    InvRun(s, steps);
    var e := After(s, steps);
    assert Sound(e.pool.rts[i], e.live[i]);
    forall quota, now | e.pool.rts[i].state == Warm && FindWarm(e.pool, commit, quota, now).1 == Some(i)
      ensures e.live[i] == Some(commit)
    {
      ReuseByChange(e.pool, commit, quota, now);
    }
  }

  // ---------------------------------------------------------------------------
  // Scale-down asks for what scale-up took

  // Runtime i stays reserved along the run and is not occupied again.
  ghost predicate Holds(s: Sched, steps: seq<Step>, i: nat)
    requires IsRun(s, steps)
    decreases |steps|
  {
    && i < |s.pool.rts| && s.pool.rts[i].marked
    && (steps == [] || (!Reoccupied(s, steps[0], i) && Holds(Next(s, steps[0]), steps[1..], i)))
  }

  ghost predicate Reoccupied(s: Sched, step: Step, i: nat)
    requires WellFormed(s) && Enabled(s, step)
  {
    step.Acquire? && var t := OccupyCold(s.pool, step.req, step.now).1; t.Some? && t.value.target == i
  }

  lemma HeldChange(r: Runtime, l: Option<string>, c: Change)
    requires Allowed(r, l, c) && r.marked && Changed(r, c).marked
    requires !(c.Done? && c.ev.Occupy?)
    ensures Changed(r, c).memory == r.memory
  {
    hide Check, Set, Apply, LocalNext;
    match c
    case Kept =>
    case Done(ev, now) => EventKeepsReservation(r, ev, now);
    case TakenBack(ev, now) =>
      RollbackRestores(r, ev, now, now);
      AcceptedWhenAvailable(r, ev, now);
      assert false;
    case Alone(what) => LocalKeepsReservation(r, what);
    case Settled(job, ok, bad) =>
  }

  // While a runtime stays reserved, its recorded memory does not change.
  lemma {:induction false} HeldMemoryIsFixed(s: Sched, steps: seq<Step>, i: nat)
    requires IsRun(s, steps) && Holds(s, steps, i)
    ensures i < |After(s, steps).pool.rts|
    ensures After(s, steps).pool.rts[i].memory == s.pool.rts[i].memory
    decreases |steps|
  {
    if steps != [] {
      hide Changed, Allowed, Next, Enabled;
      StepByChange(s, steps[0], i);
      NotReoccupied(s, steps[0], i);
      HeldChange(s.pool.rts[i], s.live[i], ChangeOf(s, steps[0], i));
      HeldMemoryIsFixed(Next(s, steps[0]), steps[1..], i);
    }
  }

  lemma NotReoccupied(s: Sched, step: Step, i: nat)
    requires WellFormed(s) && Enabled(s, step) && !Reoccupied(s, step, i) && i < |s.pool.rts|
    ensures !(ChangeOf(s, step, i).Done? && ChangeOf(s, step, i).ev.Occupy?)
  {
  }

  // A runtime occupied for a large function and held since asks, when it is cooled
  // down or reset under the same base memory, for exactly as many containers as were
  // merged into it.
  lemma ScaleDownMatchesScaleUp(s: Sched, req: Request, now: int, steps: seq<Step>,
                                kind: JobKind, deadline: int, resetDeadline: int, later: int)
    requires WellFormed(s) && req.mem > s.pool.base
    requires OccupyCold(s.pool, req, now).1.Some?
    requires var s1 := Next(s, Acquire(req, now));
             var i := OccupyCold(s.pool, req, now).1.value.target;
             IsRun(s1, steps) && Holds(s1, steps, i) && After(s1, steps).pool.base == s.pool.base
    ensures var taken := OccupyCold(s.pool, req, now).1.value;
            var p := After(Next(s, Acquire(req, now)), steps).pool;
            && taken.target < |p.rts|
            && p.base > 0
            && p.rts[taken.target].memory == req.mem
            && |taken.merged| == ScaleCount(req.mem, p.base)
            && var down := Retire(p, taken.target, JobEvent(kind, deadline), resetDeadline, later).1;
               down.Some? ==>
                 !down.value.NotNeeded? && (down.value.Recommended? ==> |down.value.reset| == |taken.merged|)
  {
    hide Check, Apply, OccupyCold, Pick;
    var taken := OccupyCold(s.pool, req, now).1.value;
    ScaleUpSuccess(s.pool, req, now);
    var s1 := Next(s, Acquire(req, now));
    HeldMemoryIsFixed(s1, steps, taken.target);
    RunEndsWellFormed(s1, steps);
  }

  lemma {:induction false} RunEndsWellFormed(s: Sched, steps: seq<Step>)
    requires IsRun(s, steps)
    ensures WellFormed(After(s, steps))
    decreases |steps|
  {
    if steps != [] {
      RunEndsWellFormed(Next(s, steps[0]), steps[1..]);
    }
  }
}
