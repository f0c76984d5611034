/** Concrete runs on a node with one container and 10 units of memory in which a runner
    comes back to a runtime that still records a reservation.
 */
module LeakExample {
  import opened RuntimeEvents
  import opened RuntimePool
  import opened Options
  import opened SchedulerRuns
  import opened SchedulerSafety
  import opened MarkedAccounting
  import opened ConcurrencyBound

  const IN := Local(0, RunnerIn)
  const OUT := Local(0, RunnerOut)

  // A request for one unit.
  function Take(commit: string): Step {
    Acquire(Request(commit, false, 1), 0)
  }

  function Occupied(r: Runtime, commit: string): Runtime {
    Set(r, Occupy(commit, false, 1, 0), 0)
  }

  function Node(r: Runtime, marked: int, live: Option<string>, jobs: map<nat, Job>): Sched {
    Sched(Pool([r], marked, 10, 5, 0), [live], jobs)
  }

  const CLOSED: Runtime := NewRuntime("r", true, false, false, 0, 0, 0)

  const START: Sched := Node(CLOSED, 0, None, map[])

  // ---------------------------------------------------------------------------
  // Single steps

  lemma TakeStep(r: Runtime, marked: int, live: Option<string>, commit: string)
    requires Available(r) && marked <= 5
    ensures Next(Node(r, marked, live, map[]), Take(commit)) == Node(Occupied(r, commit), marked + 1, live, map[])
  {
    var rts := [r];
    PickHead(0, 1, 1, IsCold(rts), (i: nat) => false);
    assert Pick(1, 0, (i: nat) => false) == [];
    assert ColdChoice(rts, 1) == [0];
  }

  lemma LocalStep(r: Runtime, marked: int, live: Option<string>, what: LocalEvent)
    requires Allowed(r, live, Alone(what))
    ensures Enabled(Node(r, marked, live, map[]), Local(0, what))
    ensures Next(Node(r, marked, live, map[]), Local(0, what))
         == Node(LocalNext(r, what), marked, LiveNext(live, r, what), map[])
  {
    assert !Involved(Node(r, marked, live, map[]), 0);
  }

  // A run from one state to another in which runners meet idle runtimes only.
  ghost predicate Leads(s: Sched, steps: seq<Step>, e: Sched) {
    IsRun(s, steps) && After(s, steps) == e && ConnectsIdle(s, steps)
  }

  lemma Lead(s: Sched, step: Step, s': Sched, rest: seq<Step>, e: Sched)
    requires WellFormed(s) && Enabled(s, step) && Next(s, step) == s' && IdleConnect(s, step) && Leads(s', rest, e)
    ensures Leads(s, [step] + rest, e)
  {
    assert ([step] + rest)[1..] == rest;
  }

  lemma LeadNowhere(s: Sched)
    requires WellFormed(s)
    ensures Leads(s, [], s)
  {
  }

  lemma LeadTake(r: Runtime, marked: int, commit: string, rest: seq<Step>, e: Sched)
    requires Available(r) && marked <= 5 && Leads(Node(Occupied(r, commit), marked + 1, None, map[]), rest, e)
    ensures Leads(Node(r, marked, None, map[]), [Take(commit)] + rest, e)
  {
    hide Leads;
    TakeStep(r, marked, None, commit);
    Lead(Node(r, marked, None, map[]), Take(commit), Node(Occupied(r, commit), marked + 1, None, map[]), rest, e);
  }

  lemma LeadLocal(r: Runtime, marked: int, live: Option<string>, what: LocalEvent, rest: seq<Step>, e: Sched)
    requires Allowed(r, live, Alone(what)) && (what.RunnerIn? ==> r.concurrency == 0)
    requires Leads(Node(LocalNext(r, what), marked, LiveNext(live, r, what), map[]), rest, e)
    ensures Leads(Node(r, marked, live, map[]), [Local(0, what)] + rest, e)
  {
    hide Leads;
    LocalStep(r, marked, live, what);
    Lead(Node(r, marked, live, map[]), Local(0, what),
         Node(LocalNext(r, what), marked, LiveNext(live, r, what), map[]), rest, e);
  }

  // ---------------------------------------------------------------------------
  // The runner drops while the runtime is warming up and comes back before a reset

  const WARMING: Runtime := Occupied(RunnerUp(CLOSED), "a")

  const TWICE: Runtime := Occupied(RunnerUp(RunnerDown(WARMING)), "a")

  const DROPPED: seq<Step> := [IN] + ([Take("a")] + ([OUT] + ([IN] + ([Take("a")] + []))))

  // One commit with quota 1.  The counter exceeds its limit, and one of the two
  // reserved units has no owner.
  lemma ReconnectWithoutReset()
    ensures Initial(START) && IsRun(START, DROPPED) && UniformRun(DROPPED, c => 1) && NamedRun(DROPPED)
    ensures !ConnectsIdle(START, DROPPED) && !CleanRun(START, DROPPED)
    ensures After(START, DROPPED) == Node(TWICE, 2, None, map[])
    ensures TWICE.concurrency == 2 > Limit(1) && TotalReserved([TWICE]) == 1
  {
    hide Next, Enabled, IsRun, After, ConnectsIdle;
    WarmingFacts();
    BusyReturn();
    LocalStep(WARMING, 1, None, RunnerOut);
    Prepend(Node(WARMING, 1, None, map[]), OUT, [IN] + ([Take("a")] + []));
    TakeStep(RunnerUp(CLOSED), 0, None, "a");
    CanTake(RunnerUp(CLOSED), 0, None, "a");
    Prepend(Node(RunnerUp(CLOSED), 0, None, map[]), Take("a"), [OUT] + ([IN] + ([Take("a")] + [])));
    LocalStep(CLOSED, 0, None, RunnerIn);
    Prepend(START, IN, [Take("a")] + ([OUT] + ([IN] + ([Take("a")] + []))));
    NotClean(START, DROPPED, TWICE);
  }

  lemma NotClean(s: Sched, steps: seq<Step>, r: Runtime)
    requires Initial(s) && IsRun(s, steps) && After(s, steps) == Node(r, 2, None, map[]) && TotalReserved([r]) == 1
    ensures !CleanRun(s, steps)
  {
    hide IsRun, After, CleanRun, TotalReserved;
    MarkedCoversReservations(s, steps);
  }

  // A step in front of a run.
  lemma Prepend(s: Sched, step: Step, rest: seq<Step>)
    requires WellFormed(s) && Enabled(s, step) && IsRun(Next(s, step), rest)
    ensures IsRun(s, [step] + rest) && After(s, [step] + rest) == After(Next(s, step), rest)
    ensures ConnectsIdle(s, [step] + rest) ==> IdleConnect(s, step) && ConnectsIdle(Next(s, step), rest)
  {
    assert ([step] + rest)[1..] == rest;
  }

  lemma BusyReturn()
    ensures var s, steps := Node(RunnerDown(WARMING), 1, None, map[]), [IN] + ([Take("a")] + []);
            IsRun(s, steps) && After(s, steps) == Node(TWICE, 2, None, map[]) && !ConnectsIdle(s, steps)
  {
    hide Next, Enabled, Leads;
    WarmingFacts();
    var back := RunnerUp(RunnerDown(WARMING));
    LeadNowhere(Node(TWICE, 2, None, map[]));
    LeadTake(back, 1, "a", [], Node(TWICE, 2, None, map[]));
    LeadsRuns(Node(back, 1, None, map[]), [Take("a")] + [], Node(TWICE, 2, None, map[]));
    LocalStep(RunnerDown(WARMING), 1, None, RunnerIn);
    Prepend(Node(RunnerDown(WARMING), 1, None, map[]), IN, [Take("a")] + []);
  }

  lemma LeadsRuns(s: Sched, steps: seq<Step>, e: Sched)
    requires Leads(s, steps, e)
    ensures IsRun(s, steps) && After(s, steps) == e && ConnectsIdle(s, steps)
  {
  }

  lemma CanTake(r: Runtime, marked: int, live: Option<string>, commit: string)
    ensures WellFormed(Node(r, marked, live, map[])) && Enabled(Node(r, marked, live, map[]), Take(commit))
  {
  }

  lemma WarmingFacts()
    ensures Available(RunnerUp(CLOSED)) && Available(RunnerUp(RunnerDown(WARMING)))
    ensures RunnerDown(WARMING).state == Closed && RunnerDown(WARMING).concurrency == 1
    ensures TWICE.concurrency == 2 && TotalReserved([TWICE]) == 1
  {
    assert [TWICE][..0] == [];
  }

  // ---------------------------------------------------------------------------
  // A cool-down whose call to the node agent fails

  const SERVING: Runtime := RuntimeUp(WARMING, "a", false)

  const IDLE: Runtime := Released(SERVING)

  const STOPPING: Runtime := Set(IDLE, Stop(1), 0)

  const FLAGGED: Runtime := Invalidated(STOPPING)

  const GONE: Runtime := RunnerDown(RuntimeDown(FLAGGED))

  const AGAIN: Runtime := Occupied(RunnerUp(GONE), "a")

  const COOL: Step := Begin(CoolDownJob, 0, 1, 0, 0)

  const JOB: Job := Job(CoolDownJob, 0, 1, true, true, None)

  const REFUSED: Step := Finish(0, Reply(false, false, []))

  const AFTERWARDS: seq<Step> := [Local(0, ProcessOut)] + ([OUT] + ([IN] + ([Take("a")] + [])))

  const FAILED_COOL_DOWN: seq<Step> :=
    [IN] + ([Take("a")] + ([Local(0, ProcessIn("a", false))] + ([Local(0, Freed)] + ([COOL] + ([REFUSED] + AFTERWARDS)))))

  // The runner finds an idle runtime, so the counter stays in order, but the record
  // still holds the reservation that the failed call did not return, and the next
  // occupation overwrites it.
  lemma FailedCoolDownLeaks()
    ensures Initial(START) && IsRun(START, FAILED_COOL_DOWN)
    ensures UniformRun(FAILED_COOL_DOWN, c => 1) && NamedRun(FAILED_COOL_DOWN) && ConnectsIdle(START, FAILED_COOL_DOWN)
    ensures After(START, FAILED_COOL_DOWN) == Node(AGAIN, 2, None, map[])
    ensures AGAIN.concurrency == 1 && TotalReserved([AGAIN]) == 1
    ensures !CleanRun(START, FAILED_COOL_DOWN)
  {
    hide Leads, IsRun, After, ConnectsIdle;
    ServingFacts();
    CoolDownRefused();
    UpToCoolDown([COOL] + ([REFUSED] + AFTERWARDS));
    LeadsRuns(START, FAILED_COOL_DOWN, Node(AGAIN, 2, None, map[]));
    NothingReused();
    NotClean(START, FAILED_COOL_DOWN, AGAIN);
  }

  lemma NothingReused()
    ensures UniformRun(FAILED_COOL_DOWN, c => 1) && NamedRun(FAILED_COOL_DOWN)
  {
    assert forall step :: step in AFTERWARDS ==> !step.Reuse?;
    assert forall step :: step in FAILED_COOL_DOWN ==> !step.Reuse?;
  }

  lemma UpToCoolDown(rest: seq<Step>)
    requires Leads(Node(IDLE, 1, Some("a"), map[]), rest, Node(AGAIN, 2, None, map[]))
    ensures Leads(START, [IN] + ([Take("a")] + ([Local(0, ProcessIn("a", false))] + ([Local(0, Freed)] + rest))),
                  Node(AGAIN, 2, None, map[]))
  {
    hide Leads;
    WarmingFacts();
    ServingFacts();
    var e := Node(AGAIN, 2, None, map[]);
    var t1 := [Local(0, Freed)] + rest;
    var t2 := [Local(0, ProcessIn("a", false))] + t1;
    LeadLocal(SERVING, 1, Some("a"), Freed, rest, e);
    LeadLocal(WARMING, 1, None, ProcessIn("a", false), t1, e);
    LeadTake(RunnerUp(CLOSED), 0, "a", t2, e);
    LeadLocal(CLOSED, 0, None, RunnerIn, [Take("a")] + t2, e);
  }

  lemma CoolDownRefused()
    ensures Leads(Node(IDLE, 1, Some("a"), map[]), [COOL] + ([REFUSED] + AFTERWARDS), Node(AGAIN, 2, None, map[]))
  {
    hide Leads, Next, Enabled;
    CoolDownStep();
    RefusedStep();
    AfterRefusal();
    var e := Node(AGAIN, 2, None, map[]);
    Lead(Node(STOPPING, 1, Some("a"), map[0 := JOB]), REFUSED, Node(FLAGGED, 1, Some("a"), map[]), AFTERWARDS, e);
    Lead(Node(IDLE, 1, Some("a"), map[]), COOL, Node(STOPPING, 1, Some("a"), map[0 := JOB]), [REFUSED] + AFTERWARDS, e);
  }

  lemma ServingFacts()
    ensures SERVING.state == Warm && AcceptsRuntime(WARMING, "a")
    ensures GONE.state == Closed && GONE.concurrency == 0 && GONE.marked && Available(RunnerUp(GONE))
    ensures AGAIN.concurrency == 1 && TotalReserved([AGAIN]) == 1
  {
    assert [AGAIN][..0] == [];
  }

  lemma CoolDownStep()
    ensures WellFormed(Node(IDLE, 1, Some("a"), map[])) && Enabled(Node(IDLE, 1, Some("a"), map[]), COOL)
    ensures Next(Node(IDLE, 1, Some("a"), map[]), COOL) == Node(STOPPING, 1, Some("a"), map[0 := JOB])
  {
    var p := Pool([IDLE], 1, 10, 5, 0);
    assert p.rts[0 := STOPPING] == [STOPPING];
    assert Retire(p, 0, Stop(1), 0, 0) == (p.(rts := [STOPPING]), Some(NotNeeded));
  }

  lemma RefusedStep()
    ensures var s := Node(STOPPING, 1, Some("a"), map[0 := JOB]);
            WellFormed(s) && Enabled(s, REFUSED) && Next(s, REFUSED) == Node(FLAGGED, 1, Some("a"), map[])
  {
    assert Failed(JOB, REFUSED.reply) == [0];
    assert InvalidateAll([STOPPING], [0]) == [FLAGGED];
    assert map[0 := JOB] - {0} == map[];
  }

  lemma AfterRefusal()
    ensures Leads(Node(FLAGGED, 1, Some("a"), map[]), AFTERWARDS, Node(AGAIN, 2, None, map[]))
  {
    hide Leads;
    ServingFacts();
    var e := Node(AGAIN, 2, None, map[]);
    LeadNowhere(e);
    LeadTake(RunnerUp(GONE), 1, "a", [], e);
    LeadLocal(GONE, 1, None, RunnerIn, [Take("a")] + [], e);
    LeadLocal(RuntimeDown(FLAGGED), 1, None, RunnerOut, [IN] + ([Take("a")] + []), e);
    LeadLocal(FLAGGED, 1, Some("a"), ProcessOut, [OUT] + ([IN] + ([Take("a")] + [])), e);
  }
}
