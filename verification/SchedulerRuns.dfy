/** Every run of the scheduler: requests acquire and release runtimes, the node
    agent answers, runners and function processes come and go, and the periodic
    task cools runtimes down, resets them and synchronises memory figures.

    One dispatcher call is one step.  Sending a cool-down or reborn call is one step
    and its answer is another; in between, a runner of an involved container cannot
    connect, and the target has no second call outstanding.
 */
module SchedulerRuns {
  import opened RuntimeEvents
  import opened RuntimePool
  import opened Options

  // `live[i]` is the commit id the function process of runtime i reported, if one is
  // connected; `jobs` holds the outstanding cool-down and reborn calls by target.
  datatype Sched = Sched(pool: Pool, live: seq<Option<string>>, jobs: map<nat, Job>)

  // What can happen to one runtime on its own.
  datatype LocalEvent =
    | WarmedUp(quota: Uint64)
    | Freed
    | Flagged
    | RunnerIn
    | RunnerOut
    | Beat(time: int)
    | ProcessIn(commit: string, single: bool)
    | ProcessOut
    | Synced(mem: int, cpus: int)
    | Claimed(user: string)

  datatype Step =
    | Acquire(req: Request, now: int)
    | Reuse(commit: string, quota: Uint64, now: int)
    | Local(i: nat, what: LocalEvent)
    | Begin(kind: JobKind, i: nat, deadline: int, resetDeadline: int, now: int)
    | Finish(i: nat, reply: Reply)
    | SyncNode(allocatable: int, base: nat, cpus: int)

  function LocalNext(r: Runtime, what: LocalEvent): Runtime {
    match what
    case WarmedUp(quota) => if quota == 0 then r.(concurrentMode := false) else r
    case Freed => Released(r)
    case Flagged => Invalidated(r)
    case RunnerIn => RunnerUp(r)
    case RunnerOut => RunnerDown(r)
    case Beat(time) => r.(lastLiveness := time)
    case ProcessIn(commit, single) => RuntimeUp(r, commit, single)
    case ProcessOut => RuntimeDown(r)
    case Synced(mem, cpus) => if r.used || r.marked then r else r.(memory := mem, milliCPUs := cpus)
    case Claimed(user) => r.(userID := user)
  }

  function LiveNext(l: Option<string>, r: Runtime, what: LocalEvent): Option<string> {
    match what
    case ProcessIn(commit, _) => if AcceptsRuntime(r, commit) then Some(commit) else l
    case ProcessOut => None
    case _ => l
  }

  ghost predicate Involved(s: Sched, i: nat) {
    exists t :: t in s.jobs && (t == i || (s.jobs[t].reset.Some? && i in s.jobs[t].reset.value))
  }

  ghost predicate WellFormed(s: Sched) {
    && s.pool.base > 0
    && |s.live| == |s.pool.rts|
    && forall t :: t in s.jobs ==> t < |s.pool.rts| && s.jobs[t].target == t
  }

  function JobEvent(kind: JobKind, deadline: int): Event {
    if kind.CoolDownJob? then Stop(deadline) else Reset(deadline)
  }

  // A runner waits until no call involving it is outstanding.  Its end may find a
  // function process connected, when the process came after the runner's shutdown had
  // waited; a second process connecting to a live one ends the controller.
  ghost predicate Enabled(s: Sched, step: Step)
    requires WellFormed(s)
  {
    match step
    case Acquire(_, _) => true
    case Reuse(_, _, _) => true
    case Local(i, what) =>
      && i < |s.pool.rts|
      && (what.RunnerIn? ==> !Involved(s, i))
      && (what.ProcessIn? && AcceptsRuntime(s.pool.rts[i], what.commit) ==> s.live[i].None?)
      && (what.ProcessOut? ==> s.live[i].Some?)
    case Begin(_, i, _, _, _) => i < |s.pool.rts| && i !in s.jobs
    case Finish(i, _) => i in s.jobs
    case SyncNode(_, base, _) => base > 0
  }

  function Next(s: Sched, step: Step): Sched
    requires WellFormed(s) && Enabled(s, step)
  {
    match step
    case Acquire(req, now) => s.(pool := OccupyCold(s.pool, req, now).0)
    case Reuse(commit, quota, now) => s.(pool := FindWarm(s.pool, commit, quota, now).0)
    case Local(i, what) =>
      s.(pool := s.pool.(rts := s.pool.rts[i := LocalNext(s.pool.rts[i], what)]),
         live := s.live[i := LiveNext(s.live[i], s.pool.rts[i], what)])
    case Begin(kind, i, deadline, resetDeadline, now) =>
      var (pool, down) := Retire(s.pool, i, JobEvent(kind, deadline), resetDeadline, now);
      if down.None? then s
      else s.(pool := pool, jobs := s.jobs[i := StartJob(pool, kind, i, down.value)])
    case Finish(i, reply) => s.(pool := Settle(s.pool, s.jobs[i], reply), jobs := s.jobs - {i})
    case SyncNode(allocatable, base, cpus) =>
      s.(pool := s.pool.(allocatable := allocatable, base := base, defaultCPUs := cpus))
  }

  ghost predicate Initial(s: Sched) {
    && WellFormed(s)
    && s.pool.marked == 0
    && s.jobs == map[]
    && (forall i :: 0 <= i < |s.live| ==> s.live[i].None?)
    && forall i :: 0 <= i < |s.pool.rts| ==> Unused(s.pool.rts[i])
  }

  // A process reports a commit to a record that takes it.
  predicate Serves(r: Runtime, what: LocalEvent) {
    what.ProcessIn? && r.state in {Cold, WarmUp} && r.commitID in {"", what.commit}
  }

  // What happens to one runtime on its own, field by field.  Access and reset times,
  // the reservation flag and the identity are never written.
  lemma LocalStateWritten(r: Runtime, what: LocalEvent)
    ensures var r' := LocalNext(r, what);
            && r'.state == (if what.RunnerIn? && r.state == Closed then Cold
                            else if what.RunnerOut? && r.state !in {Merged, Reclaiming} then Closed
                            else if Serves(r, what) then Warm
                            else if what.ProcessOut? then Stopped
                            else r.state)
            && r'.abnormal == (what.Flagged? || (r.abnormal && !(what.RunnerIn? && r.state == Closed)))
            && r'.concurrency == (if what.ProcessOut? then 0
                                  else if what.Freed? && r.concurrency > 0 then r.concurrency - 1
                                  else r.concurrency)
  {
    match what
    case ProcessIn(commit, single) => ServesAccepted(r, commit, single);
    case _ =>
  }

  lemma LocalFieldsWritten(r: Runtime, what: LocalEvent)
    ensures var r' := LocalNext(r, what);
            && r'.used == (r.used || Serves(r, what))
            && r'.commitID == (if Serves(r, what) then what.commit else r.commitID)
            && r'.concurrentMode == (r.concurrentMode && what != WarmedUp(0) && !(Serves(r, what) && what.single))
            && r'.streamMode == (r.streamMode && !what.ProcessOut?)
            && r'.lastLiveness == (if what.Beat? then what.time else r.lastLiveness)
            && r'.userID == (if what.Claimed? then what.user else r.userID)
  {
    match what
    case ProcessIn(commit, single) => ServesAccepted(r, commit, single);
    case _ =>
  }

  lemma LocalFieldsKept(r: Runtime, what: LocalEvent)
    ensures var r' := LocalNext(r, what);
            && r'.memory == (if what.Synced? && !r.used && !r.marked then what.mem else r.memory)
            && r'.milliCPUs == (if what.Synced? && !r.used && !r.marked then what.cpus else r.milliCPUs)
            && r'.id == r.id && r'.marked == r.marked && r'.defaultConcurrentMode == r.defaultConcurrentMode
            && r'.lastAccess == r.lastAccess && r'.lastReset == r.lastReset
  {
    hide AcceptsRuntime;
  }

  lemma ServesAccepted(r: Runtime, commit: string, single: bool)
    ensures RuntimeUp(r, commit, single)
         == if Serves(r, ProcessIn(commit, single))
            then r.(commitID := commit, concurrentMode := r.concurrentMode && !single, state := Warm, used := true) else r
  {
  }

  // A process is connected from the moment it is accepted until it ends.
  lemma LiveWritten(l: Option<string>, r: Runtime, what: LocalEvent)
    ensures LiveNext(l, r, what)
         == if what.ProcessOut? then None
            else if Serves(r, what) then Some(what.commit)
            else l
  {
  }

  // What a cool-down or reborn call remembers: a call is sent exactly when the stop or
  // reset is accepted, and it notes the reservation and use its target has then.
  lemma CallRemembers(s: Sched, kind: JobKind, i: nat, deadline: int, resetDeadline: int, now: int)
    requires WellFormed(s) && Enabled(s, Begin(kind, i, deadline, resetDeadline, now))
    ensures var s' := Next(s, Begin(kind, i, deadline, resetDeadline, now));
            var r := s.pool.rts[i];
            && (i in s'.jobs <==>
                  if kind.CoolDownJob? then r.state == Warm && r.concurrency == 0 && r.lastAccess < deadline
                  else r.lastLiveness < deadline && (r.abnormal || r.state in {WarmUp, Stopping, Stopped, Closed}))
            && s'.jobs - {i} == s.jobs && s'.live == s.live
            && (i !in s'.jobs ==> s' == s)
            && (i in s'.jobs ==>
                  && (s'.jobs[i].kind, s'.jobs[i].target) == (kind, i)
                  && (s'.jobs[i].memory, s'.jobs[i].used, s'.jobs[i].marked) == (r.memory, r.used, r.marked)
                  && (s'.jobs[i].reset.Some? ==>
                        |s'.jobs[i].reset.value| == AsUint64(r.memory) / s.pool.base - 1
                        && forall j :: j in s'.jobs[i].reset.value ==>
                             j < |s'.pool.rts| && j != i && s'.pool.rts[j].state == Reclaiming))
  {
    var ev := JobEvent(kind, deadline);
    CheckMeaning(s.pool.rts[i], ev);
    ScaleDownOutcome(s.pool, i, ev, resetDeadline, now);
    hide Retire, Check;
  }

  // ---------------------------------------------------------------------------
  // What one step does to one runtime

  datatype Change =
    | Kept
    | Done(ev: Event, now: int)
    | TakenBack(ev: Event, now: int)
    | Alone(what: LocalEvent)
    | Settled(job: Job, ok: bool, bad: bool)

  function Changed(r: Runtime, c: Change): Runtime {
    match c
    case Kept => r
    case Done(ev, now) => Set(r, ev, now)
    case TakenBack(ev, now) =>
      if ev.Occupy? || ev.Merge? then Apply(Set(r, ev, now), Rollback(ev.commit), now) else r
    case Alone(what) => LocalNext(r, what)
    case Settled(job, ok, bad) =>
      var u := if ok then Unreserved(r, job) else r;
      if bad then Invalidated(u) else u
  }

  // When such a change can happen.
  predicate Allowed(r: Runtime, l: Option<string>, c: Change) {
    match c
    case Kept => true
    case Done(ev, _) => Check(r, ev).Ok? && !ev.Rollback?
    case TakenBack(ev, _) => Available(r) && (ev.Occupy? || ev.Merge?)
    case Alone(what) =>
      && (what.ProcessIn? && AcceptsRuntime(r, what.commit) ==> l.None?)
      && (what.ProcessOut? ==> l.Some?)
    case Settled(_, _, _) => true
  }

  function AcquireChange(p: Pool, req: Request, now: int, i: nat): Change
    requires p.base > 0
  {
    var choice := ColdChoice(p.rts, Needed(req.mem, p.base));
    var ev := if |choice| > 0 && i == choice[0] then OccupyEvent(p.base, p.defaultCPUs, req) else Merge(req.commit);
    if !Fits(p, req.mem) || i !in choice then Kept
    else if |choice| == Needed(req.mem, p.base) then Done(ev, now)
    else TakenBack(ev, now)
  }

  function RetireChange(p: Pool, target: nat, ev: Event, deadline: int, now: int, i: nat): Change
    requires p.base > 0 && target < |p.rts| && (ev.Stop? || ev.Reset?)
  {
    var mem := AsUint64(p.rts[target].memory);
    var rts := p.rts[target := Set(p.rts[target], ev, now)];
    if Check(p.rts[target], ev).Err? then Kept
    else if i == target then Done(ev, now)
    else if mem > p.base && i in Pick(|rts|, ScaleCount(mem, p.base), CanRetrieve(rts, target, deadline))
    then Done(Retrieve(deadline), now)
    else Kept
  }

  function ChangeOf(s: Sched, step: Step, i: nat): Change
    requires WellFormed(s) && Enabled(s, step)
  {
    match step
    case Acquire(req, now) => AcquireChange(s.pool, req, now, i)
    case Reuse(commit, quota, now) =>
      if FindWarm(s.pool, commit, quota, now).1 == Some(i) then Done(Mark(commit, quota), now) else Kept
    case Local(j, what) => if i == j then Alone(what) else Kept
    case Begin(kind, target, deadline, resetDeadline, now) =>
      RetireChange(s.pool, target, JobEvent(kind, deadline), resetDeadline, now, i)
    case Finish(t, reply) => Settled(s.jobs[t], reply.ok && i == t, i in Failed(s.jobs[t], reply))
    case SyncNode(_, _, _) => Kept
  }

  lemma AcquireByChange(p: Pool, req: Request, now: int, i: nat)
    requires p.base > 0 && i < |p.rts|
    ensures var p' := OccupyCold(p, req, now).0;
            |p'.rts| == |p.rts| && p'.rts[i] == Changed(p.rts[i], AcquireChange(p, req, now, i))
    ensures Allowed(p.rts[i], None, AcquireChange(p, req, now, i))
  {
    ColdChoiceSplits(p.rts, Needed(req.mem, p.base));
  }

  lemma ReuseByChange(p: Pool, commit: string, quota: Uint64, now: int)
    ensures var (p', t) := FindWarm(p, commit, quota, now);
            if t.None? then p' == p
            else t.value < |p.rts| && Markable(p.rts[t.value], commit, quota)
                 && p' == p.(rts := p.rts[t.value := Set(p.rts[t.value], Mark(commit, quota), now)])
  {
  }

  lemma RetireByChange(p: Pool, target: nat, ev: Event, deadline: int, now: int, i: nat)
    requires p.base > 0 && target < |p.rts| && (ev.Stop? || ev.Reset?) && i < |p.rts|
    ensures var p' := Retire(p, target, ev, deadline, now).0;
            && p' == p.(rts := p'.rts) && |p'.rts| == |p.rts|
            && p'.rts[i] == Changed(p.rts[i], RetireChange(p, target, ev, deadline, now, i))
    ensures Allowed(p.rts[i], None, RetireChange(p, target, ev, deadline, now, i))
  {
    hide Check;
    if Check(p.rts[target], ev).Ok? {
      var rts := p.rts[target := Set(p.rts[target], ev, now)];
      assert rts[target].memory == p.rts[target].memory;
      if i != target {
        CheckMeaning(p.rts[i], Retrieve(deadline));
      }
    }
  }

  // Every step changes every runtime by an allowed change.
  lemma StepByChange(s: Sched, step: Step, i: nat)
    requires WellFormed(s) && Enabled(s, step) && i < |s.pool.rts|
    ensures var s' := Next(s, step);
            && |s'.pool.rts| == |s.pool.rts| && |s'.live| == |s.live|
            && s'.pool.rts[i] == Changed(s.pool.rts[i], ChangeOf(s, step, i))
            && s'.live[i] == (if step.Local? && step.i == i then LiveNext(s.live[i], s.pool.rts[i], step.what) else s.live[i])
    ensures Allowed(s.pool.rts[i], s.live[i], ChangeOf(s, step, i))
  {
    match step
    case Acquire(req, now) =>
      AcquireByChange(s.pool, req, now, i);
    case Reuse(commit, quota, now) =>
      ReuseByChange(s.pool, commit, quota, now);
      CheckMeaning(s.pool.rts[i], Mark(commit, quota));
    case Local(_, _) =>
    case Begin(kind, target, deadline, resetDeadline, now) =>
      RetireByChange(s.pool, target, JobEvent(kind, deadline), resetDeadline, now, i);
    case Finish(t, reply) =>
    case SyncNode(_, _, _) =>
  }
}
