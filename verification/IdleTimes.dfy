/** What the time stamps of a runtime are for: a runtime in use is not cooled down, a
    runner that reports is not reset, and a container just given back is not given back
    again.
 */
module IdleTimes {
  import opened RuntimeEvents
  import opened RuntimePool
  import opened Options
  import opened SchedulerRuns
  import opened SchedulerSafety

  // The clock readings of a step are not before t.
  predicate NotBefore(step: Step, t: int) {
    match step
    case Acquire(_, now) => now >= t
    case Reuse(_, _, now) => now >= t
    case Begin(_, _, _, _, now) => now >= t
    case Local(_, Beat(time)) => time >= t
    case _ => true
  }

  ghost predicate RunNotBefore(steps: seq<Step>, t: int) {
    forall k :: 0 <= k < |steps| ==> NotBefore(steps[k], t)
  }

  predicate ChangeNotBefore(c: Change, t: int) {
    match c
    case Done(_, now) => now >= t
    case TakenBack(_, now) => now >= t
    case Alone(Beat(time)) => time >= t
    case _ => true
  }

  // No stamp goes back behind t.
  predicate Later(r: Runtime, r': Runtime, t: int) {
    && (r.lastAccess >= t ==> r'.lastAccess >= t)
    && (r.lastReset >= t ==> r'.lastReset >= t)
    && (r.lastLiveness >= t ==> r'.lastLiveness >= t)
  }

  lemma ChangeKeepsStamps(r: Runtime, l: Option<string>, c: Change, t: int)
    requires Allowed(r, l, c) && ChangeNotBefore(c, t)
    ensures Later(r, Changed(r, c), t)
  {
    hide Check, Set, Apply, LocalNext;
    match c
    case Kept =>
    case Done(ev, now) => FieldsWritten(r, ev, now);
    case TakenBack(ev, now) =>
      RollbackRestores(r, ev, now, now);
      AcceptedWhenAvailable(r, ev, now);
      FieldsWritten(r, ev, now);
    case Alone(what) => LocalFieldsWritten(r, what); LocalFieldsKept(r, what);
    case Settled(job, ok, bad) =>
  }

  lemma ReadingByChange(s: Sched, step: Step, i: nat, t: int)
    requires WellFormed(s) && Enabled(s, step) && NotBefore(step, t)
    ensures ChangeNotBefore(ChangeOf(s, step, i), t)
  {
  }

  lemma {:induction false} StampsNeverGoBack(s: Sched, steps: seq<Step>, i: nat, t: int)
    requires IsRun(s, steps) && RunNotBefore(steps, t) && i < |s.pool.rts|
    ensures i < |After(s, steps).pool.rts| && Later(s.pool.rts[i], After(s, steps).pool.rts[i], t)
    decreases |steps|
  {
    if steps != [] {
      hide Changed, Allowed, Next, Enabled, ChangeOf;
      StepByChange(s, steps[0], i);
      ReadingByChange(s, steps[0], i, t);
      ChangeKeepsStamps(s.pool.rts[i], s.live[i], ChangeOf(s, steps[0], i), t);
      assert forall k :: 0 <= k < |steps[1..]| ==> steps[1..][k] == steps[k + 1];
      StampsNeverGoBack(Next(s, steps[0]), steps[1..], i, t);
    }
  }

  // ---------------------------------------------------------------------------
  // Use and cool-down

  // The step hands runtime i to a request at time t.
  predicate HandsOut(s: Sched, step: Step, i: nat, t: int)
    requires WellFormed(s)
  {
    match step
    case Acquire(req, now) => var taken := OccupyCold(s.pool, req, now).1; now == t && taken.Some? && taken.value.target == i
    case Reuse(commit, quota, now) => now == t && FindWarm(s.pool, commit, quota, now).1 == Some(i)
    case _ => false
  }

  lemma HandingOutStamps(s: Sched, step: Step, i: nat, t: int)
    requires WellFormed(s) && Enabled(s, step) && HandsOut(s, step, i, t)
    ensures i < |Next(s, step).pool.rts| && Next(s, step).pool.rts[i].lastAccess == t
  {
    if step.Acquire? {
      ScaleUpSuccess(s.pool, step.req, step.now);
    } else {
      FirstWarmIsMarked(s.pool, step.commit, step.quota, step.now);
    }
    hide OccupyCold, FindWarm;
  }

  // A cool-down is sent only for a runtime whose every use lies before the deadline.
  lemma CoolDownOnlyAfterIdle(s: Sched, step: Step, steps: seq<Step>, i: nat, t: int, deadline: int, resetDeadline: int, now: int)
    requires WellFormed(s) && Enabled(s, step) && HandsOut(s, step, i, t)
    requires IsRun(Next(s, step), steps) && RunNotBefore(steps, t)
    requires var e := After(Next(s, step), steps);
             WellFormed(e) && Enabled(e, Begin(CoolDownJob, i, deadline, resetDeadline, now))
    ensures var e := After(Next(s, step), steps);
            i in Next(e, Begin(CoolDownJob, i, deadline, resetDeadline, now)).jobs ==> t < deadline
  {
    HandingOutStamps(s, step, i, t);
    StampsNeverGoBack(Next(s, step), steps, i, t);
    CallRemembers(After(Next(s, step), steps), CoolDownJob, i, deadline, resetDeadline, now);
    hide Next, Enabled, IsRun, After;
  }

  // ---------------------------------------------------------------------------
  // Reports and reset

  // A reset is sent only for a runtime whose every report lies before the deadline.
  lemma ResetOnlyAfterSilence(s: Sched, steps: seq<Step>, i: nat, t: int, deadline: int, resetDeadline: int, now: int)
    requires WellFormed(s) && Enabled(s, Local(i, Beat(t)))
    requires IsRun(Next(s, Local(i, Beat(t))), steps) && RunNotBefore(steps, t)
    requires var e := After(Next(s, Local(i, Beat(t))), steps);
             WellFormed(e) && Enabled(e, Begin(RebornJob, i, deadline, resetDeadline, now))
    ensures var e := After(Next(s, Local(i, Beat(t))), steps);
            i in Next(e, Begin(RebornJob, i, deadline, resetDeadline, now)).jobs ==> t < deadline
  {
    var s' := Next(s, Local(i, Beat(t)));
    assert s'.pool.rts[i].lastLiveness == t;
    StampsNeverGoBack(s', steps, i, t);
    CallRemembers(After(s', steps), RebornJob, i, deadline, resetDeadline, now);
    hide Next, Enabled, IsRun, After;
  }

  // ---------------------------------------------------------------------------
  // Giving back

  // The step gives container i back, or resets it, at time t.
  ghost predicate GivesBack(s: Sched, step: Step, i: nat, t: int)
    requires WellFormed(s) && Enabled(s, step)
  {
    var c := ChangeOf(s, step, i);
    c.Done? && c.now == t && (c.ev.Retrieve? || c.ev.Reset?)
  }

  // A container that is being reclaimed is given back again only by a scale-down whose
  // reset deadline its last time has reached.
  lemma GivenBackOnlyAfterTimeout(s: Sched, step: Step, steps: seq<Step>, i: nat, t: int, later: Step)
    requires WellFormed(s) && Enabled(s, step) && i < |s.pool.rts| && GivesBack(s, step, i, t)
    requires IsRun(Next(s, step), steps) && RunNotBefore(steps, t)
    requires WellFormed(After(Next(s, step), steps)) && Enabled(After(Next(s, step), steps), later)
    ensures var e := After(Next(s, step), steps);
            i < |e.pool.rts| && (e.pool.rts[i].state == Reclaiming && later.Begin? && later.i != i && GivesBack(e, later, i, later.now)
              ==> t <= later.resetDeadline)
  {
    StepByChange(s, step, i);
    FieldsWritten(s.pool.rts[i], ChangeOf(s, step, i).ev, t);
    var s' := Next(s, step);
    assert s'.pool.rts[i].lastReset == t;
    StampsNeverGoBack(s', steps, i, t);
    var e := After(s', steps);
    if e.pool.rts[i].state == Reclaiming && later.Begin? && later.i != i && GivesBack(e, later, i, later.now) {
      RetrievedInTime(e, later, i);
    }
  }

  lemma RetrievedInTime(e: Sched, later: Step, i: nat)
    requires WellFormed(e) && Enabled(e, later) && later.Begin? && later.i != i && i < |e.pool.rts|
    requires e.pool.rts[i].state == Reclaiming && ChangeOf(e, later, i).Done?
    ensures e.pool.rts[i].lastReset <= later.resetDeadline
  {
    StepByChange(e, later, i);
    CheckMeaning(e.pool.rts[i], Retrieve(later.resetDeadline));
    hide Check;
    assert ChangeOf(e, later, i).ev == Retrieve(later.resetDeadline);
  }
}
