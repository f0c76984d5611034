/** The concurrency counter of a runtime along a run: how it is bounded, when a cold
    runtime is idle, and what it counts.
 */
module ConcurrencyBound {
  import opened RuntimeEvents
  import opened RuntimePool
  import opened Options
  import opened SchedulerRuns
  import opened SchedulerSafety

  function Limit(quota: Uint64): (n: nat) {
    if quota == 0 then 1 else quota
  }

  // Requests without a commit id mark a runtime under their own quota before its
  // process reports a commit, and stay on it afterwards.
  function Most(quota: string -> Uint64, commit: string): (n: nat) {
    if Limit(quota(commit)) < Limit(quota("")) then Limit(quota("")) else Limit(quota(commit))
  }

  // At most the commit's limit or that of requests without a commit, and nothing
  // counted in a state where no request can hold the runtime.
  predicate Bounded(r: Runtime, quota: string -> Uint64) {
    && r.concurrency <= Most(quota, r.commitID)
    && (r.commitID == "" ==> r.concurrency <= Limit(quota("")))
    && (r.state in {Cold, Merged, Reclaiming, Stopping, Stopped} ==> r.concurrency == 0)
  }

  ghost predicate AllBounded(s: Sched, quota: string -> Uint64) {
    forall i :: 0 <= i < |s.pool.rts| ==> Bounded(s.pool.rts[i], quota)
  }

  // Every request for a commit carries its quota.
  predicate Uniform(step: Step, quota: string -> Uint64) {
    step.Reuse? ==> step.quota == quota(step.commit)
  }

  // Requests that mark a runtime name a commit.
  predicate Named(step: Step) {
    step.Reuse? ==> step.commit != ""
  }

  ghost predicate NamedRun(steps: seq<Step>) {
    forall k :: 0 <= k < |steps| ==> Named(steps[k])
  }

  ghost predicate UniformRun(steps: seq<Step>, quota: string -> Uint64) {
    forall k :: 0 <= k < |steps| ==> Uniform(steps[k], quota)
  }

  // A runner comes back to a closed runtime only once its counter has been reset.
  predicate IdleConnect(s: Sched, step: Step) {
    step.Local? && step.what.RunnerIn? && step.i < |s.pool.rts| && s.pool.rts[step.i].state == Closed
    ==> s.pool.rts[step.i].concurrency == 0
  }

  // ---------------------------------------------------------------------------
  // One change

  predicate UniformChange(c: Change, quota: string -> Uint64) {
    c.Done? && c.ev.Mark? ==> c.ev.quota == quota(c.ev.commit)
  }

  predicate NamedChange(c: Change) {
    c.Done? && c.ev.Mark? ==> c.ev.commit != ""
  }

  lemma BoundedEvent(r: Runtime, ev: Event, now: int, quota: string -> Uint64)
    requires Bounded(r, quota) && Check(r, ev).Ok? && !ev.Rollback?
    requires UniformChange(Done(ev, now), quota)
    ensures Bounded(Set(r, ev, now), quota)
    ensures ev.Occupy? || ev.Mark? ==> Set(r, ev, now).concurrency == r.concurrency + 1
  {
    hide Check;
    CheckMeaning(r, ev);
  }

  lemma BoundedLocal(r: Runtime, l: Option<string>, what: LocalEvent, quota: string -> Uint64)
    requires Bounded(r, quota) && Sound(r, l) && Allowed(r, l, Alone(what))
    requires what.RunnerIn? && r.state == Closed ==> r.concurrency == 0
    ensures Bounded(LocalNext(r, what), quota)
  {
  }

  lemma BoundedTakenBack(r: Runtime, ev: Event, now: int, quota: string -> Uint64)
    requires Bounded(r, quota) && Available(r) && (ev.Occupy? || ev.Merge?)
    ensures Bounded(Changed(r, TakenBack(ev, now)), quota)
  {
  }

  lemma BoundedChange(r: Runtime, l: Option<string>, c: Change, quota: string -> Uint64)
    requires Bounded(r, quota) && Sound(r, l) && Allowed(r, l, c) && UniformChange(c, quota)
    requires c == Alone(RunnerIn) && r.state == Closed ==> r.concurrency == 0
    ensures Bounded(Changed(r, c), quota)
  {
    hide Check, Set, Apply, LocalNext;
    match c
    case Kept =>
    case Done(ev, now) => BoundedEvent(r, ev, now, quota);
    case TakenBack(ev, now) => BoundedTakenBack(r, ev, now, quota);
    case Alone(what) => BoundedLocal(r, l, what, quota);
    case Settled(job, ok, bad) =>
  }

  lemma UniformByChange(s: Sched, step: Step, i: nat, quota: string -> Uint64)
    requires WellFormed(s) && Enabled(s, step) && Uniform(step, quota)
    ensures UniformChange(ChangeOf(s, step, i), quota)
  {
  }

  lemma BoundedStep(s: Sched, step: Step, quota: string -> Uint64)
    requires Inv(s) && Enabled(s, step) && AllBounded(s, quota)
    requires Uniform(step, quota) && IdleConnect(s, step)
    ensures AllBounded(Next(s, step), quota)
  {
    hide Changed, Allowed, Bounded;
    SizesKept(s, step);
    forall i | 0 <= i < |s.pool.rts|
      ensures Bounded(Next(s, step).pool.rts[i], quota)
    {
      StepByChange(s, step, i);
      UniformByChange(s, step, i, quota);
      BoundedChange(s.pool.rts[i], s.live[i], ChangeOf(s, step, i), quota);
    }
  }

  // ---------------------------------------------------------------------------
  // Every run

  ghost predicate ConnectsIdle(s: Sched, steps: seq<Step>)
    requires IsRun(s, steps)
    decreases |steps|
  {
    steps == [] || (IdleConnect(s, steps[0]) && ConnectsIdle(Next(s, steps[0]), steps[1..]))
  }

  ghost predicate ColdIdle(s: Sched) {
    forall i :: 0 <= i < |s.pool.rts| && s.pool.rts[i].state == Cold ==> s.pool.rts[i].concurrency == 0
  }

  ghost predicate AlwaysColdIdle(s: Sched, steps: seq<Step>)
    requires IsRun(s, steps)
    decreases |steps|
  {
    ColdIdle(s) && (steps == [] || AlwaysColdIdle(Next(s, steps[0]), steps[1..]))
  }

  lemma {:induction false} BoundedRun(s: Sched, steps: seq<Step>, quota: string -> Uint64)
    requires Inv(s) && AllBounded(s, quota)
    requires IsRun(s, steps) && UniformRun(steps, quota) && ConnectsIdle(s, steps)
    ensures AllBounded(After(s, steps), quota)
    decreases |steps|
  {
    if steps != [] {
      BoundedStep(s, steps[0], quota);
      InvStep(s, steps[0]);
      assert forall k :: 0 <= k < |steps[1..]| ==> steps[1..][k] == steps[k + 1];
      BoundedRun(Next(s, steps[0]), steps[1..], quota);
    }
  }

  // Under uniform quotas, when runners come back only to idle runtimes, no counter
  // ever exceeds its commit's limit or that of requests without a commit, so it never
  // wraps, and a cold runtime is idle.
  lemma ConcurrencyWithinMost(s: Sched, steps: seq<Step>, quota: string -> Uint64, i: nat)
    requires Initial(s) && IsRun(s, steps) && UniformRun(steps, quota) && ConnectsIdle(s, steps)
    requires i < |After(s, steps).pool.rts|
    ensures var r := After(s, steps).pool.rts[i];
            && r.concurrency <= Most(quota, r.commitID)
            && (r.state in {Cold, Merged, Reclaiming, Stopping, Stopped} ==> r.concurrency == 0)
  {
    InitialInv(s);
    BoundedRun(s, steps, quota);
  }

  // When no request without a commit marks a runtime, the limit is the commit's own.
  lemma ConcurrencyWithinLimit(s: Sched, steps: seq<Step>, quota: string -> Uint64, i: nat)
    requires Initial(s) && IsRun(s, steps) && UniformRun(steps, quota) && NamedRun(steps) && ConnectsIdle(s, steps)
    requires i < |After(s, steps).pool.rts|
    ensures After(s, steps).pool.rts[i].concurrency <= Limit(quota(After(s, steps).pool.rts[i].commitID))
  {
    var own: string -> Uint64 := c => if c == "" then 0 else quota(c);
    assert UniformRun(steps, own) by {
      assert forall k :: 0 <= k < |steps| ==> Uniform(steps[k], quota) && Named(steps[k]);
    }
    ConcurrencyWithinMost(s, steps, own, i);
  }

  // The condition is exact: every cold runtime of the run is idle if and only if every
  // runner came back to an idle runtime.
  lemma {:induction false} ColdIdleIff(s: Sched, steps: seq<Step>, quota: string -> Uint64)
    requires Inv(s) && AllBounded(s, quota)
    requires IsRun(s, steps) && UniformRun(steps, quota)
    ensures AlwaysColdIdle(s, steps) <==> ConnectsIdle(s, steps)
    decreases |steps|
  {
    if steps != [] {
      var step, rest := steps[0], steps[1..];
      var s' := Next(s, step);
      InvStep(s, step);
      assert forall k :: 0 <= k < |rest| ==> rest[k] == steps[k + 1];
      if IdleConnect(s, step) {
        BoundedStep(s, step, quota);
        ColdIdleIff(s', rest, quota);
      } else {
        BusyConnectIsCold(s, step);
        assert !ColdIdle(s');
        assert !AlwaysColdIdle(s', rest);
      }
    }
  }

  lemma BusyConnectIsCold(s: Sched, step: Step)
    requires WellFormed(s) && Enabled(s, step) && !IdleConnect(s, step)
    ensures var s' := Next(s, step);
            step.i < |s'.pool.rts| && s'.pool.rts[step.i].state == Cold && s'.pool.rts[step.i].concurrency > 0
  {
  }

  // A runtime that a stop or a reset has emptied: nothing can acquire it except
  // through a function process, whose end empties it again.
  predicate Emptied(r: Runtime) {
    && !Available(r)
    && (r.state != Warm ==> r.concurrency == 0)
    && (r.state == WarmUp ==> r.commitID == "")
  }

  lemma EmptiedEvent(r: Runtime, ev: Event, now: int)
    requires Emptied(r) && Check(r, ev).Ok? && !ev.Rollback? && NamedChange(Done(ev, now))
    ensures Emptied(Set(r, ev, now))
  {
    hide Check;
    CheckMeaning(r, ev);
  }

  lemma EmptiedLocal(r: Runtime, l: Option<string>, what: LocalEvent)
    requires Emptied(r) && Sound(r, l) && Allowed(r, l, Alone(what)) && !what.RunnerIn? && (what.RunnerOut? ==> l.None?)
    ensures Emptied(LocalNext(r, what))
  {
    hide Check, Set, Apply, Changed;
  }

  lemma EmptiedChange(r: Runtime, l: Option<string>, c: Change)
    requires Emptied(r) && Sound(r, l) && Allowed(r, l, c) && NamedChange(c) && c != Alone(RunnerIn)
    requires c == Alone(RunnerOut) ==> l.None?
    ensures Emptied(Changed(r, c))
  {
    hide Check, Set, Apply, LocalNext;
    match c
    case Kept =>
    case Done(ev, now) => EmptiedEvent(r, ev, now);
    case TakenBack(ev, now) =>
    case Alone(what) => EmptiedLocal(r, l, what);
    case Settled(job, ok, bad) =>
  }

  // No runner of runtime i connects, and none is gone while a process is connected.
  ghost predicate Undisturbed(s: Sched, steps: seq<Step>, i: nat)
    requires IsRun(s, steps)
    decreases |steps|
  {
    steps == [] ||
    (&& steps[0] != Local(i, RunnerIn)
     && (steps[0] == Local(i, RunnerOut) ==> i < |s.live| && s.live[i].None?)
     && Undisturbed(Next(s, steps[0]), steps[1..], i))
  }

  // Any cool-down or reborn call establishes the condition: however the run goes on,
  // the next runner finds the runtime's counter at zero.
  lemma RetiredThenIdle(s: Sched, kind: JobKind, i: nat, deadline: int, resetDeadline: int, now: int, steps: seq<Step>)
    requires Inv(s) && Enabled(s, Begin(kind, i, deadline, resetDeadline, now))
    requires i in Next(s, Begin(kind, i, deadline, resetDeadline, now)).jobs
    requires IsRun(Next(s, Begin(kind, i, deadline, resetDeadline, now)), steps) && NamedRun(steps)
    requires Undisturbed(Next(s, Begin(kind, i, deadline, resetDeadline, now)), steps, i)
    ensures IdleConnect(After(Next(s, Begin(kind, i, deadline, resetDeadline, now)), steps), Local(i, RunnerIn))
  {
    var begin := Begin(kind, i, deadline, resetDeadline, now);
    RetireByChange(s.pool, i, JobEvent(kind, deadline), resetDeadline, now, i);
    CheckMeaning(s.pool.rts[i], JobEvent(kind, deadline));
    InvStep(s, begin);
    EmptiedRun(Next(s, begin), steps, i);
  }

  lemma {:induction false} EmptiedRun(s: Sched, steps: seq<Step>, i: nat)
    requires Inv(s) && i < |s.pool.rts| && Emptied(s.pool.rts[i])
    requires IsRun(s, steps) && NamedRun(steps) && Undisturbed(s, steps, i)
    ensures i < |After(s, steps).pool.rts| && Emptied(After(s, steps).pool.rts[i])
    decreases |steps|
  {
    if steps != [] {
      hide Changed, Allowed, Next, Enabled, Emptied;
      StepByChange(s, steps[0], i);
      NamedByChange(s, steps[0], i);
      EmptiedChange(s.pool.rts[i], s.live[i], ChangeOf(s, steps[0], i));
      InvStep(s, steps[0]);
      assert forall k :: 0 <= k < |steps[1..]| ==> steps[1..][k] == steps[k + 1];
      EmptiedRun(Next(s, steps[0]), steps[1..], i);
    }
  }

  lemma NamedByChange(s: Sched, step: Step, i: nat)
    requires WellFormed(s) && Enabled(s, step) && Named(step)
    ensures NamedChange(ChangeOf(s, step, i))
    ensures step != Local(i, RunnerIn) ==> ChangeOf(s, step, i) != Alone(RunnerIn)
    ensures step != Local(i, RunnerOut) ==> ChangeOf(s, step, i) != Alone(RunnerOut)
  {
  }

  // ---------------------------------------------------------------------------
  // What the counter counts

  // Steps that set the counter of runtime i to zero.
  predicate Zeroes(c: Change) {
    || (c.Done? && (c.ev.Stop? || c.ev.Reset? || c.ev.Retrieve?))
    || c == Alone(ProcessOut)
  }

  ghost function Acquired(s: Sched, steps: seq<Step>, i: nat): nat
    requires IsRun(s, steps)
    decreases |steps|
  {
    if steps == [] then 0
    else
      var c := ChangeOf(s, steps[0], i);
      (if c.Done? && (c.ev.Occupy? || c.ev.Mark?) then 1 else 0) + Acquired(Next(s, steps[0]), steps[1..], i)
  }

  // Releases that found something to release; the others report an error.
  ghost function Returned(s: Sched, steps: seq<Step>, i: nat): nat
    requires IsRun(s, steps) && i < |s.pool.rts|
    decreases |steps|
  {
    if steps == [] then 0
    else
      SizesKept(s, steps[0]);
      var c := ChangeOf(s, steps[0], i);
      (if c == Alone(Freed) && s.pool.rts[i].concurrency > 0 then 1 else 0) + Returned(Next(s, steps[0]), steps[1..], i)
  }

  ghost predicate NeverZeroed(s: Sched, steps: seq<Step>, i: nat)
    requires IsRun(s, steps)
    decreases |steps|
  {
    steps == [] || (!Zeroes(ChangeOf(s, steps[0], i)) && NeverZeroed(Next(s, steps[0]), steps[1..], i))
  }

  lemma CountedChange(r: Runtime, l: Option<string>, c: Change, quota: string -> Uint64)
    requires Bounded(r, quota) && Allowed(r, l, c) && UniformChange(c, quota) && !Zeroes(c)
    ensures Changed(r, c).concurrency
         == r.concurrency + (if c.Done? && (c.ev.Occupy? || c.ev.Mark?) then 1 else 0)
                          - (if c == Alone(Freed) && r.concurrency > 0 then 1 else 0)
  {
    hide Check, Apply, LocalNext;
    match c
    case Kept =>
    case Done(ev, now) => CountedEvent(r, l, ev, now, quota);
    case TakenBack(ev, now) =>
      RollbackRestores(r, ev, now, now);
      AcceptedWhenAvailable(r, ev, now);
      hide Set;
    case Alone(what) => CountedLocal(r, what);
    case Settled(job, ok, bad) =>
      hide Set;
  }

  lemma CountedLocal(r: Runtime, what: LocalEvent)
    requires !Zeroes(Alone(what))
    ensures LocalNext(r, what).concurrency == r.concurrency - if what == Freed && r.concurrency > 0 then 1 else 0
  {
    hide LocalNext;
    LocalStateWritten(r, what);
  }

  lemma CountedEvent(r: Runtime, l: Option<string>, ev: Event, now: int, quota: string -> Uint64)
    requires Bounded(r, quota) && Allowed(r, l, Done(ev, now)) && UniformChange(Done(ev, now), quota) && !Zeroes(Done(ev, now))
    ensures Changed(r, Done(ev, now)).concurrency == r.concurrency + if ev.Occupy? || ev.Mark? then 1 else 0
  {
    hide Check;
    BoundedEvent(r, ev, now, quota);
  }

  // Until a stop or a reset intervenes, the counter is what it was plus the
  // acquisitions minus the releases.
  lemma {:induction false} CounterCountsHolders(s: Sched, steps: seq<Step>, quota: string -> Uint64, i: nat)
    requires Inv(s) && AllBounded(s, quota) && i < |s.pool.rts|
    requires IsRun(s, steps) && UniformRun(steps, quota) && ConnectsIdle(s, steps) && NeverZeroed(s, steps, i)
    ensures i < |After(s, steps).pool.rts|
    ensures After(s, steps).pool.rts[i].concurrency + Returned(s, steps, i)
         == s.pool.rts[i].concurrency + Acquired(s, steps, i)
    decreases |steps|
  {
    if steps != [] {
      hide Changed, Allowed, Next, Enabled, Bounded;
      BoundedStep(s, steps[0], quota);
      InvStep(s, steps[0]);
      StepByChange(s, steps[0], i);
      UniformByChange(s, steps[0], i, quota);
      CountedChange(s.pool.rts[i], s.live[i], ChangeOf(s, steps[0], i), quota);
      assert forall k :: 0 <= k < |steps[1..]| ==> steps[1..][k] == steps[k + 1];
      CounterCountsHolders(Next(s, steps[0]), steps[1..], quota, i);
    }
  }
}
