/** What holds in every state of every scheduler run. */
module SchedulerSafety {
  import opened RuntimeEvents
  import opened RuntimePool
  import opened Options
  import opened SchedulerRuns

  ghost predicate IsRun(s: Sched, steps: seq<Step>)
    decreases |steps|
  {
    && WellFormed(s)
    && (steps == [] || (Enabled(s, steps[0]) && IsRun(Next(s, steps[0]), steps[1..])))
  }

  ghost function After(s: Sched, steps: seq<Step>): Sched
    requires IsRun(s, steps)
    decreases |steps|
  {
    if steps == [] then s else After(Next(s, steps[0]), steps[1..])
  }

  lemma RunPrepend(s: Sched, step: Step, rest: seq<Step>)
    requires WellFormed(s) && Enabled(s, step) && IsRun(Next(s, step), rest)
    ensures IsRun(s, [step] + rest) && After(s, [step] + rest) == After(Next(s, step), rest)
  {
    assert ([step] + rest)[1..] == rest;
  }

  // ---------------------------------------------------------------------------
  // Invariants

  // A warm runtime has a function process and serves its commit; a reserved amount is
  // never negative.
  predicate Sound(r: Runtime, l: Option<string>) {
    && (r.state == Warm ==> l.Some? && (r.commitID == "" || r.commitID == l.value))
    && (r.marked ==> r.memory >= 0)
  }

  // While a call is outstanding its target cannot be taken and still holds exactly
  // the reservation the call will return.
  predicate Pending(r: Runtime, job: Job) {
    && r.marked == job.marked
    && (job.marked ==> r.memory == job.memory)
    && !Available(r)
  }

  ghost predicate Inv(s: Sched) {
    && WellFormed(s)
    && (forall i :: 0 <= i < |s.pool.rts| ==> Sound(s.pool.rts[i], s.live[i]))
    && (forall t :: t in s.jobs ==> Pending(s.pool.rts[t], s.jobs[t]))
  }

  function LiveChanged(l: Option<string>, r: Runtime, c: Change): Option<string> {
    if c.Alone? then LiveNext(l, r, c.what) else l
  }

  lemma SoundEvent(r: Runtime, l: Option<string>, ev: Event, now: int)
    requires Sound(r, l) && Check(r, ev).Ok? && !ev.Rollback?
    ensures Sound(Set(r, ev, now), l)
  {
    hide Check;
    CheckMeaning(r, ev);
  }

  lemma SoundLocal(r: Runtime, l: Option<string>, what: LocalEvent)
    requires Sound(r, l) && Allowed(r, l, Alone(what))
    ensures Sound(LocalNext(r, what), LiveNext(l, r, what))
  {
    hide Check, Set, Apply, Changed;
  }

  lemma SoundChange(r: Runtime, l: Option<string>, c: Change)
    requires Sound(r, l) && Allowed(r, l, c)
    ensures Sound(Changed(r, c), LiveChanged(l, r, c))
  {
    hide Check, Set, Apply, LocalNext, LiveNext;
    match c
    case Kept =>
    case Done(ev, now) => SoundEvent(r, l, ev, now);
    case TakenBack(ev, now) =>
      RollbackRestores(r, ev, now, now);
      AcceptedWhenAvailable(r, ev, now);
    case Alone(what) => SoundLocal(r, l, what);
    case Settled(job, ok, bad) =>
  }

  lemma AcceptedWhenAvailable(r: Runtime, ev: Event, now: int)
    requires Available(r) && (ev.Occupy? || ev.Merge?)
    ensures Apply(r, ev, now) == Set(r, ev, now)
  {
  }

  lemma PendingEvent(r: Runtime, job: Job, ev: Event, now: int)
    requires Pending(r, job) && Check(r, ev).Ok? && !ev.Rollback?
    ensures Pending(Set(r, ev, now), job)
  {
    hide Check;
    CheckMeaning(r, ev);
  }

  lemma PendingLocal(r: Runtime, job: Job, what: LocalEvent)
    requires Pending(r, job) && !what.RunnerIn?
    ensures Pending(LocalNext(r, what), job)
  {
  }

  lemma PendingChange(r: Runtime, l: Option<string>, job: Job, c: Change)
    requires Pending(r, job) && Allowed(r, l, c)
    requires !(c.Alone? && c.what.RunnerIn?) && !(c.Settled? && c.ok)
    ensures Pending(Changed(r, c), job)
  {
    hide Check, Set, Apply, LocalNext;
    match c
    case Kept =>
    case Done(ev, now) => PendingEvent(r, job, ev, now);
    case TakenBack(ev, now) =>
    case Alone(what) => PendingLocal(r, job, what);
    case Settled(j, ok, bad) =>
  }

  lemma StartedPending(r: Runtime, kind: JobKind, deadline: int, now: int, job: Job)
    requires Check(r, JobEvent(kind, deadline)).Ok?
    requires var r' := Set(r, JobEvent(kind, deadline), now); job.marked == r'.marked && job.memory == r'.memory
    ensures Pending(Set(r, JobEvent(kind, deadline), now), job)
  {
  }

  lemma InvStep(s: Sched, step: Step)
    requires Inv(s) && Enabled(s, step)
    ensures Inv(Next(s, step))
  {
    hide Changed, Allowed, ChangeOf, Check, Set, Apply, Sound, Pending;
    var s' := Next(s, step);
    SizesKept(s, step);
    forall i | 0 <= i < |s.pool.rts|
      ensures Sound(s'.pool.rts[i], s'.live[i])
    {
      StepByChange(s, step, i);
      SoundChange(s.pool.rts[i], s.live[i], ChangeOf(s, step, i));
      LiveByChange(s, step, i);
    }
    forall t | t in s'.jobs
      ensures Pending(s'.pool.rts[t], s'.jobs[t])
    {
      JobKept(s, step, t);
    }
  }

  lemma SizesKept(s: Sched, step: Step)
    requires WellFormed(s) && Enabled(s, step)
    ensures WellFormed(Next(s, step))
    ensures |Next(s, step).pool.rts| == |s.pool.rts|
  {
    hide Check, Set, Apply;
    match step
    case Acquire(req, now) =>
    case Reuse(commit, quota, now) =>
    case Local(i, what) =>
    case Begin(kind, target, deadline, resetDeadline, now) =>
      RetireByChange(s.pool, target, JobEvent(kind, deadline), resetDeadline, now, target);
    case Finish(t, reply) =>
    case SyncNode(_, _, _) =>
  }

  lemma LiveByChange(s: Sched, step: Step, i: nat)
    requires WellFormed(s) && Enabled(s, step) && i < |s.pool.rts|
    ensures Next(s, step).live[i] == LiveChanged(s.live[i], s.pool.rts[i], ChangeOf(s, step, i))
  {
    StepByChange(s, step, i);
  }

  lemma JobKept(s: Sched, step: Step, t: nat)
    requires Inv(s) && Enabled(s, step) && t in Next(s, step).jobs
    ensures t < |s.pool.rts| == |Next(s, step).pool.rts|
    ensures Pending(Next(s, step).pool.rts[t], Next(s, step).jobs[t])
  {
    hide Changed, Allowed, Check, Set, Apply;
    SizesKept(s, step);
    if t in s.jobs && !(step.Begin? && step.i == t) {
      StepByChange(s, step, t);
      var c := ChangeOf(s, step, t);
      assert Involved(s, t);
      PendingChange(s.pool.rts[t], s.live[t], s.jobs[t], c);
    } else {
      var pool := Next(s, step).pool;
      RetireByChange(s.pool, t, JobEvent(step.kind, step.deadline), step.resetDeadline, step.now, t);
      StartedPending(s.pool.rts[t], step.kind, step.deadline, step.now, Next(s, step).jobs[t]);
    }
  }

  lemma {:induction false} InvRun(s: Sched, steps: seq<Step>)
    requires Inv(s) && IsRun(s, steps)
    ensures Inv(After(s, steps))
    decreases |steps|
  {
    if steps != [] {
      InvStep(s, steps[0]);
      InvRun(Next(s, steps[0]), steps[1..]);
    }
  }

  lemma InitialInv(s: Sched)
    requires Initial(s)
    ensures Inv(s)
  {
  }
}
