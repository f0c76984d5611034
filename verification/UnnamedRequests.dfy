/** When the limit of a runtime's own commit bounds its counter: requests without a
    commit id can fill a warming runtime up to their own quota before its process
    reports a commit with a smaller one.
 */
module UnnamedRequests {
  import opened RuntimeEvents
  import opened RuntimePool
  import opened Options
  import opened SchedulerRuns
  import opened SchedulerSafety
  import opened ConcurrencyBound
  import opened LeakExample

  // A warming runtime without a commit, held k times.
  function Held(k: Uint64): Runtime {
    Occupied(RunnerUp(CLOSED), "").(concurrency := k)
  }

  // Requests without a commit mark it up to the quota q, then the process of commit c
  // connects.
  function FillThenConnect(k: nat, q: nat, c: string): seq<Step>
    requires q <= MAX_UINT64
    decreases q - k
  {
    if k >= q then [Local(0, ProcessIn(c, false))] + [] else [Reuse("", q, 0)] + FillThenConnect(k + 1, q, c)
  }

  function Crowded(q: Uint64, c: string): Sched {
    Node(RuntimeUp(Held(q), c, false), 1, Some(c), map[])
  }

  lemma MarkHeld(k: Uint64, q: Uint64)
    requires 0 < k < q
    ensures Next(Node(Held(k), 1, None, map[]), Reuse("", q, 0)) == Node(Held(k + 1), 1, None, map[])
  {
    var rts := [Held(k)];
    var can := CanMark(rts, "", q);
    assert Markable(rts[0], "", q);
    assert can(0);
    assert Pick(0, 1, can) == [];
    assert Pick(1, 1, can) == [0];
    assert rts[0 := Held(k + 1)] == [Held(k + 1)];
  }

  lemma {:induction false} FillingRun(k: nat, q: Uint64, c: string)
    requires 0 < k <= q
    ensures Leads(Node(Held(k), 1, None, map[]), FillThenConnect(k, q, c), Crowded(q, c))
    decreases q - k
  {
    hide Leads;
    if k == q {
      LeadNowhere(Crowded(q, c));
      LeadLocal(Held(q), 1, None, ProcessIn(c, false), [], Crowded(q, c));
    } else {
      FillingRun(k + 1, q, c);
      MarkHeld(k, q);
      hide Next;
      Lead(Node(Held(k), 1, None, map[]), Reuse("", q, 0), Node(Held(k + 1), 1, None, map[]), FillThenConnect(k + 1, q, c), Crowded(q, c));
    }
  }

  lemma {:induction false} FillingUniform(k: nat, q: Uint64, c: string, quota: string -> Uint64, j: nat)
    requires q == quota("") && j < |FillThenConnect(k, q, c)|
    ensures Uniform(FillThenConnect(k, q, c)[j], quota)
    decreases q - k
  {
    if k < q && j > 0 {
      FillingUniform(k + 1, q, c, quota, j - 1);
    }
  }

  // In every uniform run from a fresh node whose runners meet idle runtimes, every
  // counter is within the limit of its own commit.
  ghost predicate OwnLimitHolds(quota: string -> Uint64) {
    forall s, steps, i: nat ::
      Initial(s) && IsRun(s, steps) && UniformRun(steps, quota) && ConnectsIdle(s, steps) && i < |After(s, steps).pool.rts| ==>
        WithinOwn(After(s, steps), quota, i)
  }

  predicate WithinOwn(s: Sched, quota: string -> Uint64, i: nat)
    requires i < |s.pool.rts|
  {
    s.pool.rts[i].concurrency <= Limit(quota(s.pool.rts[i].commitID))
  }

  // That holds exactly when requests without a commit have the smallest limit.
  lemma OwnLimitIff(quota: string -> Uint64)
    ensures OwnLimitHolds(quota) <==> forall c :: Limit(quota("")) <= Limit(quota(c))
  {
    if forall c :: Limit(quota("")) <= Limit(quota(c)) {
      forall s, steps, i: nat |
        Initial(s) && IsRun(s, steps) && UniformRun(steps, quota) && ConnectsIdle(s, steps) && i < |After(s, steps).pool.rts|
        ensures WithinOwn(After(s, steps), quota, i)
      {
        ConcurrencyWithinMost(s, steps, quota, i);
      }
    } else {
      var c :| Limit(quota("")) > Limit(quota(c));
      ExceedsOwnLimit(quota, c);
    }
  }

  lemma ExceedsOwnLimit(quota: string -> Uint64, c: string)
    requires Limit(quota("")) > Limit(quota(c))
    ensures !OwnLimitHolds(quota)
  {
    hide Leads, IsRun, After, ConnectsIdle, FillThenConnect;
    var q := quota("");
    var fill := FillThenConnect(1, q, c);
    var steps := [IN] + ([Take("")] + fill);
    FillingRun(1, q, c);
    FirstFacts();
    LeadTake(RunnerUp(CLOSED), 0, "", fill, Crowded(q, c));
    LeadLocal(CLOSED, 0, None, RunnerIn, [Take("")] + fill, Crowded(q, c));
    LeadsRuns(START, steps, Crowded(q, c));
    forall j | 0 <= j < |steps|
      ensures Uniform(steps[j], quota)
    {
      if j >= 2 {
        FillingUniform(1, q, c, quota, j - 2);
      }
    }
    assert Crowded(q, c).pool.rts[0].commitID == c;
    assert !WithinOwn(Crowded(q, c), quota, 0);
  }

  lemma FirstFacts()
    ensures Initial(START) && Available(RunnerUp(CLOSED)) && Occupied(RunnerUp(CLOSED), "") == Held(1)
  {
  }
}
