/** The node's reserved memory against the reservations of its runtimes, over every
    run.

    The two differ only by what has leaked: a runtime that is taken while an earlier
    reservation is still recorded on it (its cool-down or reborn call failed) has that
    record overwritten or cleared, and the old amount is never returned.
 */
module MarkedAccounting {
  import opened RuntimeEvents
  import opened RuntimePool
  import opened Options
  import opened SchedulerRuns
  import opened SchedulerSafety

  function Reserved(r: Runtime): int {
    if r.marked then r.memory else 0
  }

  function TotalReserved(rts: seq<Runtime>): int {
    if rts == [] then 0 else TotalReserved(rts[..|rts| - 1]) + Reserved(rts[|rts| - 1])
  }

  // The reservations recorded at the given indices.
  function ReservedAt(rts: seq<Runtime>, choice: seq<nat>): int
    requires forall j :: 0 <= j < |choice| ==> choice[j] < |rts|
  {
    if choice == [] then 0
    else ReservedAt(rts, choice[..|choice| - 1]) + Reserved(rts[choice[|choice| - 1]])
  }

  function Slack(s: Sched): int {
    s.pool.marked - TotalReserved(s.pool.rts)
  }

  // The runtimes whose record a step overwrites or clears without returning the
  // memory: the target of a successful occupation, and everything a failed one took
  // and rolled back.
  function Overwritten(s: Sched, step: Step): (choice: seq<nat>)
    requires WellFormed(s) && Enabled(s, step)
    ensures forall j :: 0 <= j < |choice| ==> choice[j] < |s.pool.rts|
  {
    if !step.Acquire? || !Fits(s.pool, step.req.mem) then []
    else
      var need := Needed(step.req.mem, s.pool.base);
      var choice := ColdChoice(s.pool.rts, need);
      if |choice| == need then [choice[0]] else choice
  }

  function Lost(s: Sched, step: Step): int
    requires WellFormed(s) && Enabled(s, step)
  {
    ReservedAt(s.pool.rts, Overwritten(s, step))
  }

  ghost function TotalLost(s: Sched, steps: seq<Step>): int
    requires IsRun(s, steps)
    decreases |steps|
  {
    if steps == [] then 0 else Lost(s, steps[0]) + TotalLost(Next(s, steps[0]), steps[1..])
  }

  // ---------------------------------------------------------------------------
  // Sums

  lemma {:induction false} TotalUpdate(rts: seq<Runtime>, i: nat, r: Runtime)
    requires i < |rts|
    ensures TotalReserved(rts[i := r]) == TotalReserved(rts) - Reserved(rts[i]) + Reserved(r)
  {
    var n := |rts| - 1;
    if i == n {
      assert rts[i := r][..n] == rts[..n];
    } else {
      assert rts[i := r][..n] == rts[..n][i := r];
      TotalUpdate(rts[..n], i, r);
    }
  }

  lemma {:induction false} TotalSame(a: seq<Runtime>, b: seq<Runtime>)
    requires |a| == |b|
    requires forall i :: 0 <= i < |a| ==> Reserved(a[i]) == Reserved(b[i])
    ensures TotalReserved(a) == TotalReserved(b)
  {
    if a != [] {
      var n := |a| - 1;
      TotalSame(a[..n], b[..n]);
    }
  }

  // Clearing the flag at distinct indices removes exactly their reservations.
  lemma {:induction false} TotalCleared(a: seq<Runtime>, b: seq<Runtime>, choice: seq<nat>)
    requires |a| == |b|
    requires forall j :: 0 <= j < |choice| ==> choice[j] < |a|
    requires forall i, j :: 0 <= i < j < |choice| ==> choice[i] != choice[j]
    requires forall i :: 0 <= i < |a| ==> Reserved(b[i]) == if i in choice then 0 else Reserved(a[i])
    ensures TotalReserved(b) == TotalReserved(a) - ReservedAt(a, choice)
    decreases |choice|
  {
    if choice == [] {
      TotalSame(a, b);
    } else {
      var m := |choice| - 1;
      var last := choice[m];
      assert choice == choice[..m] + [last];
      assert last !in choice[..m];
      var mid := b[last := a[last]];
      TotalUpdate(b, last, a[last]);
      assert Reserved(b[last]) == 0 by {
        assert last in choice;
      }
      TotalCleared(a, mid, choice[..m]);
    }
  }

  lemma {:induction false} ReservedNonNegative(rts: seq<Runtime>, choice: seq<nat>)
    requires forall j :: 0 <= j < |choice| ==> choice[j] < |rts|
    requires forall i :: 0 <= i < |rts| ==> Reserved(rts[i]) >= 0
    ensures ReservedAt(rts, choice) >= 0
    ensures ReservedAt(rts, choice) == 0 <==> forall j :: 0 <= j < |choice| ==> Reserved(rts[choice[j]]) == 0
  {
    if choice != [] {
      var m := |choice| - 1;
      ReservedNonNegative(rts, choice[..m]);
      assert forall j :: 0 <= j < m ==> choice[..m][j] == choice[j];
    }
  }

  lemma {:induction false} TotalNonNegative(rts: seq<Runtime>)
    requires forall i :: 0 <= i < |rts| ==> Reserved(rts[i]) >= 0
    ensures TotalReserved(rts) >= 0
  {
    if rts != [] {
      TotalNonNegative(rts[..|rts| - 1]);
    }
  }

  // ---------------------------------------------------------------------------
  // One step

  lemma AcquireSlack(s: Sched, req: Request, now: int)
    requires WellFormed(s)
    ensures Slack(Next(s, Acquire(req, now))) == Slack(s) + Lost(s, Acquire(req, now))
  {
    hide OccupyCold, ColdChoice, TotalReserved;
    var need := Needed(req.mem, s.pool.base);
    if !Fits(s.pool, req.mem) {
      NothingTaken(s.pool, req, now);
    } else if |ColdChoice(s.pool.rts, need)| == need {
      TakenTotal(s.pool, req, now);
    } else {
      RolledBackTotal(s.pool, req, now);
    }
  }

  lemma NothingTaken(p: Pool, req: Request, now: int)
    requires p.base > 0 && !Fits(p, req.mem)
    ensures OccupyCold(p, req, now).0 == p
  {
  }

  lemma TakenTotal(p: Pool, req: Request, now: int)
    requires p.base > 0 && Fits(p, req.mem)
    requires |ColdChoice(p.rts, Needed(req.mem, p.base))| == Needed(req.mem, p.base)
    ensures var p' := OccupyCold(p, req, now).0;
            var t := ColdChoice(p.rts, Needed(req.mem, p.base))[0];
            && p'.marked == p.marked + req.mem
            && t < |p.rts|
            && TotalReserved(p'.rts) == TotalReserved(p.rts) + req.mem - ReservedAt(p.rts, [t])
  {
    hide Check, Apply, Pick, TotalReserved;
    var p' := OccupyCold(p, req, now).0;
    ScaleUpSuccess(p, req, now);
    var t := OccupyCold(p, req, now).1.value.target;
    var mid := p.rts[t := p'.rts[t]];
    TotalUpdate(p.rts, t, p'.rts[t]);
    forall i | 0 <= i < |mid|
      ensures Reserved(mid[i]) == Reserved(p'.rts[i])
    {
    }
    TotalSame(mid, p'.rts);
    assert [t][..0] == [];
  }

  lemma RolledBackTotal(p: Pool, req: Request, now: int)
    requires p.base > 0 && Fits(p, req.mem)
    requires |ColdChoice(p.rts, Needed(req.mem, p.base))| != Needed(req.mem, p.base)
    ensures var p' := OccupyCold(p, req, now).0;
            && p'.marked == p.marked
            && TotalReserved(p'.rts) == TotalReserved(p.rts) - ReservedAt(p.rts, ColdChoice(p.rts, Needed(req.mem, p.base)))
  {
    hide Check, Apply, Set, Pick, TotalReserved;
    var p' := OccupyCold(p, req, now).0;
    var choice := ColdChoice(p.rts, Needed(req.mem, p.base));
    ColdChoiceSplits(p.rts, Needed(req.mem, p.base));
    forall i | 0 <= i < |p.rts|
      ensures Reserved(p'.rts[i]) == if i in choice then 0 else Reserved(p.rts[i])
    {
      RolledBackUnmarked(p, req, now, i);
    }
    TotalCleared(p.rts, p'.rts, choice);
  }

  lemma RolledBackUnmarked(p: Pool, req: Request, now: int, i: nat)
    requires p.base > 0 && i < |p.rts| && Fits(p, req.mem)
    requires |ColdChoice(p.rts, Needed(req.mem, p.base))| < Needed(req.mem, p.base)
    ensures var p' := OccupyCold(p, req, now).0;
            if i in ColdChoice(p.rts, Needed(req.mem, p.base)) then !p'.rts[i].marked else p'.rts[i] == p.rts[i]
  {
    var choice := ColdChoice(p.rts, Needed(req.mem, p.base));
    ColdChoiceSplits(p.rts, Needed(req.mem, p.base));
    var ev := OccupyEvent(p.base, p.defaultCPUs, req);
    hide Set, Apply, ColdChoice, OccupyEvent, Needed;
    if i in choice {
      RollbackRestores(p.rts[i], ev, now, now);
      RollbackRestores(p.rts[i], Merge(req.commit), now, now);
      AcceptedWhenAvailable(p.rts[i], ev, now);
      AcceptedWhenAvailable(p.rts[i], Merge(req.commit), now);
    }
  }

  // Apart from occupations, a step keeps the difference between the node's total and
  // the recorded reservations.
  lemma OtherSlack(s: Sched, step: Step)
    requires Inv(s) && Enabled(s, step) && !step.Acquire?
    ensures Slack(Next(s, step)) == Slack(s)
  {
    hide Check, Apply, Set, LocalNext, Changed, ChangeOf, Pick;
    SizesKept(s, step);
    var s' := Next(s, step);
    match step
    case Acquire(req, now) =>
    case Reuse(commit, quota, now) => OthersKeepReservations(s, step);
    case Local(i, what) => OthersKeepReservations(s, step);
    case Begin(kind, target, deadline, resetDeadline, now) =>
      RetireByChange(s.pool, target, JobEvent(kind, deadline), resetDeadline, now, target);
      OthersKeepReservations(s, step);
    case Finish(t, reply) => FinishSlack(s, t, reply);
    case SyncNode(_, _, _) =>
  }

  // The answer of the node agent returns what the target had reserved, or nothing.
  lemma FinishSlack(s: Sched, t: nat, reply: Reply)
    requires Inv(s) && Enabled(s, Finish(t, reply))
    ensures Slack(Next(s, Finish(t, reply))) == Slack(s)
  {
    assert Pending(s.pool.rts[t], s.jobs[t]);
    SettleSlack(s.pool, s.jobs[t], reply);
    hide Settle, Sound;
  }

  lemma SettleSlack(p: Pool, job: Job, reply: Reply)
    requires job.target < |p.rts| && Pending(p.rts[job.target], job)
    ensures var p' := Settle(p, job, reply); p'.marked - TotalReserved(p'.rts) == p.marked - TotalReserved(p.rts)
  {
    hide Failed, TotalReserved;
    var r := p.rts[job.target];
    var mid := if reply.ok then p.rts[job.target := Unreserved(r, job)] else p.rts;
    TotalUpdate(p.rts, job.target, Unreserved(r, job));
    TotalSame(mid, Settle(p, job, reply).rts);
  }

  lemma OthersKeepReservations(s: Sched, step: Step)
    requires Inv(s) && Enabled(s, step) && !step.Acquire? && !step.Finish?
    ensures |Next(s, step).pool.rts| == |s.pool.rts|
    ensures TotalReserved(Next(s, step).pool.rts) == TotalReserved(s.pool.rts)
  {
    hide Check, Apply, Set, LocalNext;
    SizesKept(s, step);
    forall i | 0 <= i < |s.pool.rts|
      ensures Reserved(Next(s, step).pool.rts[i]) == Reserved(s.pool.rts[i])
    {
      StepByChange(s, step, i);
      ReservationKept(s.pool.rts[i], ChangeOf(s, step, i));
    }
    TotalSame(s.pool.rts, Next(s, step).pool.rts);
  }

  lemma ReservationKept(r: Runtime, c: Change)
    requires c.Kept? || c.Alone? || (c.Done? && !c.ev.Occupy? && !c.ev.Rollback?)
    ensures Changed(r, c).marked == r.marked
    ensures r.marked ==> Changed(r, c).memory == r.memory
  {
    hide Check, Apply, Set, LocalNext;
    match c
    case Kept =>
    case Done(ev, now) => EventKeepsReservation(r, ev, now);
    case Alone(what) => LocalKeepsReservation(r, what);
  }

  lemma EventKeepsReservation(r: Runtime, ev: Event, now: int)
    requires !ev.Occupy? && !ev.Rollback?
    ensures Set(r, ev, now).marked == r.marked && Set(r, ev, now).memory == r.memory
  {
    match ev
    case Merge(_) =>
    case Mark(_, _) =>
    case _ => VacatedKeepsReservation(r);
  }

  lemma VacatedKeepsReservation(r: Runtime)
    ensures Vacated(r).marked == r.marked && Vacated(r).memory == r.memory
  {
  }

  lemma LocalKeepsReservation(r: Runtime, what: LocalEvent)
    ensures LocalNext(r, what).marked == r.marked
    ensures r.marked ==> LocalNext(r, what).memory == r.memory
  {
    hide LocalNext;
    LocalFieldsKept(r, what);
  }

  lemma SlackStep(s: Sched, step: Step)
    requires Inv(s) && Enabled(s, step)
    ensures Slack(Next(s, step)) == Slack(s) + Lost(s, step)
  {
    if step.Acquire? {
      AcquireSlack(s, step.req, step.now);
    } else {
      OtherSlack(s, step);
    }
  }

  // What a step loses is never negative, and it loses nothing exactly when no
  // runtime it overwrites still records a reservation.
  lemma LostNothingIff(s: Sched, step: Step)
    requires Inv(s) && Enabled(s, step)
    ensures Lost(s, step) >= 0
    ensures Lost(s, step) == 0 <==>
            forall j :: 0 <= j < |Overwritten(s, step)| ==>
              var r := s.pool.rts[Overwritten(s, step)[j]]; !r.marked || r.memory == 0
  {
    ReservedNonNegative(s.pool.rts, Overwritten(s, step));
  }

  // ---------------------------------------------------------------------------
  // Every run

  lemma {:induction false} SlackRun(s: Sched, steps: seq<Step>)
    requires Inv(s) && IsRun(s, steps)
    ensures Slack(After(s, steps)) == Slack(s) + TotalLost(s, steps)
    ensures TotalLost(s, steps) >= 0
    decreases |steps|
  {
    if steps != [] {
      SlackStep(s, steps[0]);
      LostNothingIff(s, steps[0]);
      InvStep(s, steps[0]);
      SlackRun(Next(s, steps[0]), steps[1..]);
    }
  }

  // A run is clean when no step overwrites a record that still holds a reservation.
  ghost predicate CleanRun(s: Sched, steps: seq<Step>)
    requires IsRun(s, steps)
    decreases |steps|
  {
    steps == []
    || ((forall j :: 0 <= j < |Overwritten(s, steps[0])| ==>
           var r := s.pool.rts[Overwritten(s, steps[0])[j]]; !r.marked || r.memory == 0)
        && CleanRun(Next(s, steps[0]), steps[1..]))
  }

  lemma {:induction false} CleanRunLosesNothing(s: Sched, steps: seq<Step>)
    requires Inv(s) && IsRun(s, steps)
    ensures CleanRun(s, steps) <==> TotalLost(s, steps) == 0
    decreases |steps|
  {
    if steps != [] {
      LostNothingIff(s, steps[0]);
      InvStep(s, steps[0]);
      SlackRun(Next(s, steps[0]), steps[1..]);
      CleanRunLosesNothing(Next(s, steps[0]), steps[1..]);
    }
  }

  // In every state of every run the node's reserved memory covers the reservations
  // of its runtimes and is never negative; it is exactly their sum if and only if no
  // occupation ever took a runtime that still recorded one.
  lemma MarkedCoversReservations(s: Sched, steps: seq<Step>)
    requires Initial(s) && IsRun(s, steps)
    ensures var p := After(s, steps).pool;
            && p.marked == TotalReserved(p.rts) + TotalLost(s, steps)
            && p.marked >= TotalReserved(p.rts) >= 0
            && (p.marked == TotalReserved(p.rts) <==> CleanRun(s, steps))
  {
    InitialInv(s);
    forall i | 0 <= i < |s.pool.rts|
      ensures Reserved(s.pool.rts[i]) == 0
    {
    }
    NothingReserved(s.pool.rts);
    SlackRun(s, steps);
    InvRun(s, steps);
    CleanRunLosesNothing(s, steps);
    TotalNonNegative(After(s, steps).pool.rts);
  }

  lemma {:induction false} NothingReserved(rts: seq<Runtime>)
    requires forall i :: 0 <= i < |rts| ==> Reserved(rts[i]) == 0
    ensures TotalReserved(rts) == 0
  {
    if rts != [] {
      NothingReserved(rts[..|rts| - 1]);
    }
  }

  // ---------------------------------------------------------------------------
  // Never more than the node has

  predicate Within(s: Sched) {
    s.pool.marked <= s.pool.allocatable
  }

  // A report of the node's memory covers what is reserved at that moment.
  predicate Covers(s: Sched, step: Step) {
    step.SyncNode? ==> s.pool.marked <= step.allocatable
  }

  ghost predicate ReportsCover(s: Sched, steps: seq<Step>)
    requires IsRun(s, steps)
    decreases |steps|
  {
    steps == [] || (Covers(s, steps[0]) && ReportsCover(Next(s, steps[0]), steps[1..]))
  }

  ghost predicate AlwaysWithin(s: Sched, steps: seq<Step>)
    requires IsRun(s, steps)
    decreases |steps|
  {
    Within(s) && (steps == [] || AlwaysWithin(Next(s, steps[0]), steps[1..]))
  }

  lemma WithinStep(s: Sched, step: Step)
    requires Inv(s) && Enabled(s, step) && Within(s)
    ensures Within(Next(s, step)) <==> Covers(s, step)
  {
    hide Check, Apply, Set, Pick, OccupyRuntimes;
    match step
    case Acquire(req, now) =>
    case Reuse(commit, quota, now) =>
    case Local(i, what) =>
    case Begin(kind, i, deadline, resetDeadline, now) =>
      RetireByChange(s.pool, i, JobEvent(kind, deadline), resetDeadline, now, i);
    case Finish(t, reply) =>
      assert Pending(s.pool.rts[t], s.jobs[t]) && Sound(s.pool.rts[t], s.live[t]);
    case SyncNode(_, _, _) =>
  }

  // With check and add in one step, whatever requests, answers and connections do, the
  // reserved memory stays within the node's in every state of the run if and only if
  // every report of the node's memory covers what is reserved when it arrives.
  lemma {:induction false} NeverOvercommittedIff(s: Sched, steps: seq<Step>)
    requires Inv(s) && IsRun(s, steps) && Within(s)
    ensures AlwaysWithin(s, steps) <==> ReportsCover(s, steps)
    decreases |steps|
  {
    if steps != [] {
      hide Next, Enabled;
      WithinStep(s, steps[0]);
      InvStep(s, steps[0]);
      if Covers(s, steps[0]) {
        NeverOvercommittedIff(Next(s, steps[0]), steps[1..]);
      }
    }
  }

  // In particular while the node's memory is fixed.
  lemma {:induction false} NeverOvercommitted(s: Sched, steps: seq<Step>)
    requires Inv(s) && IsRun(s, steps) && Within(s)
    requires forall k :: 0 <= k < |steps| ==> !steps[k].SyncNode?
    ensures AlwaysWithin(s, steps) && Within(After(s, steps))
    decreases |steps|
  {
    if steps != [] {
      hide Next, Enabled;
      WithinStep(s, steps[0]);
      InvStep(s, steps[0]);
      assert forall k :: 0 <= k < |steps[1..]| ==> steps[1..][k] == steps[k + 1];
      NeverOvercommitted(Next(s, steps[0]), steps[1..]);
    }
  }
}
