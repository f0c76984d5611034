/** What the dispatcher operations do to the whole pool of runtimes, as functions
    on values: reserve memory, take the first cold runtimes in list order, merge
    the extra ones, take retrievable containers back.

    The operations here pick all the runtimes they need at once; the class in
    RuntimeManager scans and updates one runtime at a time and is proved to agree.
 */
module RuntimePool {
  import opened RuntimeEvents
  import opened Options

  datatype Pool = Pool(rts: seq<Runtime>, marked: int, allocatable: int, base: nat, defaultCPUs: int)

  datatype Request = Request(commit: string, stream: bool, mem: nat)

  // The first runtime taken and the containers merged into it.
  datatype Taken = Taken(target: nat, merged: seq<nat>)

  // Stopping or resetting a runtime of the given memory yields the containers to
  // give back, or none when there are not enough of them.
  datatype ScaleDown = NotNeeded | Recommended(reset: seq<nat>) | Incomplete

  // ---------------------------------------------------------------------------
  // Picking indices in list order

  // The first `count` indices below n that satisfy p, fewer if there are not as many.
  function Pick(n: nat, count: nat, p: nat -> bool): (s: seq<nat>)
    ensures |s| <= count
    ensures forall j :: 0 <= j < |s| ==> s[j] < n && p(s[j])
  {
    if n == 0 then []
    else
      var s := Pick(n - 1, count, p);
      if |s| < count && p(n - 1) then s + [n - 1] else s
  }

  // The picked indices increase, and an index that was passed over is either no
  // match or comes after a full pick.
  lemma {:induction false} PickSpec(n: nat, count: nat, p: nat -> bool)
    ensures var s := Pick(n, count, p);
            && (forall i, j :: 0 <= i < j < |s| ==> s[i] < s[j])
            && (forall i :: 0 <= i < n && p(i) && i !in s ==> |s| == count && forall j :: 0 <= j < |s| ==> s[j] < i)
  {
    if n > 0 {
      PickSpec(n - 1, count, p);
    }
  }

  lemma {:induction false} PickSame(n: nat, count: nat, p: nat -> bool, q: nat -> bool)
    requires forall i :: 0 <= i < n ==> p(i) == q(i)
    ensures Pick(n, count, p) == Pick(n, count, q)
  {
    if n > 0 {
      PickSame(n - 1, count, p, q);
    }
  }

  // Once enough are picked, scanning further changes nothing.
  lemma {:induction false} PickStable(k: nat, n: nat, count: nat, p: nat -> bool)
    requires k <= n && |Pick(k, count, p)| == count
    ensures Pick(n, count, p) == Pick(k, count, p)
  {
    if k < n {
      PickStable(k, n - 1, count, p);
    }
  }

  lemma {:induction false} PickNone(n: nat, count: nat, p: nat -> bool)
    requires forall j :: 0 <= j < n ==> !p(j)
    ensures Pick(n, count, p) == []
  {
    if n > 0 {
      PickNone(n - 1, count, p);
    }
  }

  // The first match heads the pick; the rest is what a second scan finds once the
  // first match no longer qualifies.
  lemma {:induction false} PickHead(k: nat, n: nat, count: nat, p: nat -> bool, q: nat -> bool)
    requires k < n && count > 0
    requires forall j :: 0 <= j < k ==> !p(j)
    requires p(k)
    requires forall j :: 0 <= j < n ==> q(j) == (p(j) && j != k)
    ensures Pick(n, count, p) == [k] + Pick(n, count - 1, q)
  {
    if n == k + 1 {
      PickNone(k, count, p);
      PickNone(n, count - 1, q);
    } else {
      PickHead(k, n - 1, count, p, q);
    }
  }

  // `count` indices are found exactly when at least that many match.
  lemma {:induction false} PickFull(n: nat, count: nat, p: nat -> bool)
    ensures |Pick(n, count, p)| == count <==> |set i | 0 <= i < n && p(i)| >= count
    ensures |Pick(n, count, p)| <= |set i | 0 <= i < n && p(i)|
    ensures |Pick(n, count, p)| < count ==> |Pick(n, count, p)| == |set i | 0 <= i < n && p(i)|
  {
    var all := set i | 0 <= i < n && p(i);
    if n > 0 {
      var rest := set i | 0 <= i < n - 1 && p(i);
      PickFull(n - 1, count, p);
      assert all == if p(n - 1) then rest + {n - 1} else rest;
      assert |all| == |rest| + if p(n - 1) then 1 else 0;
    } else {
      assert all == {};
    }
  }

  // The event takes effect at every chosen index.
  function SetAll(rts: seq<Runtime>, choice: seq<nat>, ev: Event, now: int): (r: seq<Runtime>)
    ensures |r| == |rts|
  {
    seq(|rts|, i requires 0 <= i < |rts| => if i in choice then Set(rts[i], ev, now) else rts[i])
  }

  function Accepting(rts: seq<Runtime>, ev: Event, skip: int): nat -> bool {
    (i: nat) => i < |rts| && i != skip && Check(rts[i], ev).Ok?
  }

  lemma ScanStart(before: seq<Runtime>, count: nat, ev: Event, skip: int, now: int)
    ensures Pick(0, count, Accepting(before, ev, skip)) == []
    ensures SetAll(before, [], ev, now) == before
  {
  }

  // One more step of a scan that sets the runtimes it picks: the one at k is set if
  // it accepts the event and is kept otherwise.
  lemma ScanStep(before: seq<Runtime>, k: nat, count: nat, ev: Event, skip: int, now: int)
    requires k < |before|
    requires |Pick(k, count, Accepting(before, ev, skip))| < count
    ensures var p := Accepting(before, ev, skip);
            var s := Pick(k, count, p);
            var cur := SetAll(before, s, ev, now);
            var next := SetAll(before, Pick(k + 1, count, p), ev, now);
            && Pick(k + 1, count, p) == (if k != skip && Check(before[k], ev).Ok? then s + [k] else s)
            && cur[k] == before[k]
            && next == if k != skip then cur[k := Apply(before[k], ev, now)] else cur
  {
  }

  // ---------------------------------------------------------------------------
  // Reservation, occupation and rollback

  function Ceil(x: real): int {
    -((-x).Floor)
  }

  // How many extra containers a function of this size takes over.  The quotient has
  // already been rounded down when the ceiling is taken, so the ceiling adds nothing.
  function ScaleCount(mem: nat, base: nat): (count: int)
    requires base > 0
    ensures count == mem / base - 1
  {
    Ceil((mem / base) as real) - 1
  }

  // The number of cold containers an occupation needs in all.
  function Needed(mem: nat, base: nat): (k: nat)
    requires base > 0
    ensures k >= 1
  {
    if mem > base then ScaleCount(mem, base) + 1 else 1
  }

  function OccupyEvent(base: nat, cpus: int, req: Request): (ev: Event)
    requires base > 0
    ensures ev.Occupy? && ev.commit == req.commit
  {
    Occupy(req.commit, req.stream, req.mem, if req.mem > base then (req.mem / base) * cpus else cpus)
  }

  function IsCold(rts: seq<Runtime>): nat -> bool {
    (i: nat) => i < |rts| && Available(rts[i])
  }

  function ColdChoice(rts: seq<Runtime>, need: nat): seq<nat> {
    Pick(|rts|, need, IsCold(rts))
  }

  predicate Fits(p: Pool, mem: nat) {
    p.allocatable - p.marked - mem >= 0
  }

  // The target is occupied and the others are merged into it.
  function TakeAll(rts: seq<Runtime>, choice: seq<nat>, ev: Event, now: int): (r: seq<Runtime>)
    requires ev.Occupy?
    ensures |r| == |rts|
  {
    seq(|rts|, i requires 0 <= i < |rts| =>
      if i !in choice then rts[i]
      else if i == choice[0] then Set(rts[i], ev, now)
      else Set(rts[i], Merge(ev.commit), now))
  }

  function RollbackAll(rts: seq<Runtime>, choice: seq<nat>, commit: string, now: int): (r: seq<Runtime>)
    ensures |r| == |rts|
  {
    seq(|rts|, i requires 0 <= i < |rts| => if i in choice then Apply(rts[i], Rollback(commit), now) else rts[i])
  }

  function OccupyRuntimes(rts: seq<Runtime>, need: nat, ev: Event, now: int): (r: (seq<Runtime>, Option<Taken>))
    requires need > 0 && ev.Occupy?
  {
    var choice := ColdChoice(rts, need);
    var taken := TakeAll(rts, choice, ev, now);
    if |choice| == need then (taken, Some(Taken(choice[0], choice[1..])))
    else (RollbackAll(taken, choice, ev.commit, now), None)
  }

  function OccupyCold(p: Pool, req: Request, now: int): (r: (Pool, Option<Taken>))
    requires p.base > 0
  {
    if !Fits(p, req.mem) then (p, None)
    else
      var (rts, t) :=
        OccupyRuntimes(p.rts, Needed(req.mem, p.base), OccupyEvent(p.base, p.defaultCPUs, req), now);
      (p.(rts := rts, marked := if t.Some? then p.marked + req.mem else p.marked), t)
  }

  // ---------------------------------------------------------------------------
  // Marking a warm runtime

  function CanMark(rts: seq<Runtime>, commit: string, quota: Uint64): nat -> bool {
    (i: nat) => i < |rts| && Markable(rts[i], commit, quota)
  }

  function FindWarm(p: Pool, commit: string, quota: Uint64, now: int): (r: (Pool, Option<nat>)) {
    var choice := Pick(|p.rts|, 1, CanMark(p.rts, commit, quota));
    if choice == [] then (p, None)
    else (p.(rts := p.rts[choice[0] := Set(p.rts[choice[0]], Mark(commit, quota), now)]), Some(choice[0]))
  }

  // ---------------------------------------------------------------------------
  // Stopping, resetting and giving merged containers back

  // A signed byte count read as unsigned.
  function AsUint64(m: int): nat {
    if m >= 0 then m else if m + MAX_UINT64 + 1 >= 0 then m + MAX_UINT64 + 1 else 0
  }

  function CanRetrieve(rts: seq<Runtime>, target: nat, deadline: int): nat -> bool {
    (i: nat) => i < |rts| && i != target && Retrievable(rts[i], deadline)
  }

  // Containers already retrieved stay retrieved even when there are too few.
  function TakeBack(p: Pool, target: nat, deadline: int, now: int): (r: (Pool, ScaleDown))
    requires p.base > 0 && target < |p.rts|
  {
    var mem := AsUint64(p.rts[target].memory);
    if mem <= p.base then (p, NotNeeded)
    else
      var choice := Pick(|p.rts|, ScaleCount(mem, p.base), CanRetrieve(p.rts, target, deadline));
      (p.(rts := SetAll(p.rts, choice, Retrieve(deadline), now)),
       if |choice| == ScaleCount(mem, p.base) then Recommended(choice) else Incomplete)
  }

  // Cool-down (Stop) and reborn (Reset) share the rest of their work.
  function Retire(p: Pool, target: nat, ev: Event, deadline: int, now: int): (r: (Pool, Option<ScaleDown>))
    requires p.base > 0 && target < |p.rts|
    requires ev.Stop? || ev.Reset?
  {
    if Check(p.rts[target], ev).Err? then (p, None)
    else
      var (p', down) := TakeBack(p.(rts := p.rts[target := Set(p.rts[target], ev, now)]), target, deadline, now);
      (p', Some(down))
  }

  // ---------------------------------------------------------------------------
  // Settling a cool-down or reborn call with the answer of the node agent

  datatype JobKind = CoolDownJob | RebornJob

  // What the controller remembers between sending the call and its answer.
  datatype Job = Job(kind: JobKind, target: nat, memory: int, used: bool, marked: bool, reset: Option<seq<nat>>)

  datatype Reply = Reply(ok: bool, hasResponse: bool, fails: seq<nat>)

  function StartJob(p: Pool, kind: JobKind, target: nat, down: ScaleDown): Job
    requires target < |p.rts|
  {
    Job(kind, target, p.rts[target].memory, p.rts[target].used, p.rts[target].marked,
        if down.Recommended? then Some(down.reset) else None)
  }

  // The containers flagged abnormal because of the answer.
  function Failed(job: Job, reply: Reply): seq<nat> {
    (if job.kind.CoolDownJob? && !reply.ok then [job.target] else [])
    + (if job.reset.Some? && !reply.hasResponse then job.reset.value else [])
    + (if reply.hasResponse then reply.fails else [])
  }

  function Unreserved(r: Runtime, job: Job): Runtime {
    r.(used := r.used && !job.used, marked := r.marked && !job.marked)
  }

  function InvalidateAll(rts: seq<Runtime>, bad: seq<nat>): (r: seq<Runtime>)
    ensures |r| == |rts|
  {
    seq(|rts|, i requires 0 <= i < |rts| => if i in bad then Invalidated(rts[i]) else rts[i])
  }

  function Settle(p: Pool, job: Job, reply: Reply): (p': Pool)
    requires job.target < |p.rts|
    ensures |p'.rts| == |p.rts|
  {
    var rts := if reply.ok then p.rts[job.target := Unreserved(p.rts[job.target], job)] else p.rts;
    p.(rts := InvalidateAll(rts, Failed(job, reply)),
       marked := if reply.ok && job.marked then p.marked - job.memory else p.marked)
  }

  // ---------------------------------------------------------------------------
  // Scale-up is all or nothing

  // Everything a rolled-back container keeps.
  predicate SameButReservation(a: Runtime, b: Runtime) {
    b == a.(streamMode := b.streamMode, memory := b.memory, milliCPUs := b.milliCPUs, commitID := b.commitID,
            marked := b.marked, lastAccess := b.lastAccess)
  }

  lemma ColdChoiceSplits(rts: seq<Runtime>, need: nat)
    ensures var choice := ColdChoice(rts, need);
            && (forall i :: i in choice ==> i < |rts| && Available(rts[i]))
            && (forall i, j :: 0 <= i < j < |choice| ==> choice[i] < choice[j])
            && (|choice| > 0 ==>
                  choice[0] !in choice[1..] && forall i :: i in choice <==> i == choice[0] || i in choice[1..])
            && (|choice| == need ==> forall i, j :: 0 <= i < |rts| && Available(rts[i]) && i !in choice && j in choice ==> i > j)
  {
    PickSpec(|rts|, need, IsCold(rts));
    var choice := ColdChoice(rts, need);
    if |choice| > 0 {
      assert choice == [choice[0]] + choice[1..];
    }
  }

  // Success: the first available runtime is warming up for the request with the
  // processor share of all containers it takes, exactly the missing number of the next
  // available ones are merged, nothing else changed, and the node's reservation grew by
  // the request.
  ghost predicate ScaledUp(p: Pool, p': Pool, req: Request, taken: Taken, now: int)
    requires p.base > 0
  {
    && p' == p.(rts := p'.rts, marked := p.marked + req.mem)
    && |p'.rts| == |p.rts|
    && taken.target < |p.rts| && Available(p.rts[taken.target])
    && p'.rts[taken.target] == p.rts[taken.target].(
         state := WarmUp, lastAccess := now, streamMode := req.stream, memory := req.mem,
         milliCPUs := (|taken.merged| + 1) * p.defaultCPUs, concurrency := Inc(p.rts[taken.target].concurrency),
         commitID := req.commit, marked := true)
    && |taken.merged| == (if req.mem > p.base then req.mem / p.base - 1 else 0)
    && (forall i, j :: 0 <= i < j < |taken.merged| ==> taken.merged[i] < taken.merged[j])
    && (forall i :: i in taken.merged ==>
          && taken.target < i < |p.rts| && Available(p.rts[i])
          && p'.rts[i] == p.rts[i].(state := Merged, commitID := req.commit))
    && (forall i :: 0 <= i < |p.rts| && Available(p.rts[i]) && i != taken.target && i !in taken.merged ==>
          i > taken.target && forall j :: j in taken.merged ==> i > j)
    && (forall i :: 0 <= i < |p.rts| && i != taken.target && i !in taken.merged ==> p'.rts[i] == p.rts[i])
  }

  lemma ScaleUpSuccess(p: Pool, req: Request, now: int)
    requires p.base > 0
    requires OccupyCold(p, req, now).1.Some?
    ensures var (p', t) := OccupyCold(p, req, now);
            p'.marked <= p.allocatable && ScaledUp(p, p', req, t.value, now)
  {
    hide Available, Set, OccupyEvent, ColdChoice, TakeAll, RollbackAll;
    var need := Needed(req.mem, p.base);
    var choice := ColdChoice(p.rts, need);
    ColdChoiceSplits(p.rts, need);
    ChoiceTail(choice);
    TakenRecords(p, req, choice[0], now);
    TakeAllAt(p.rts, choice, OccupyEvent(p.base, p.defaultCPUs, req), now);
    hide Needed, Fits;
  }

  lemma ChoiceTail(choice: seq<nat>)
    requires |choice| > 0 && forall i, j :: 0 <= i < j < |choice| ==> choice[i] < choice[j]
    ensures forall i, j :: 0 <= i < j < |choice[1..]| ==> choice[1..][i] < choice[1..][j]
    ensures forall i :: i in choice[1..] ==> choice[0] < i
    ensures forall i :: i in choice <==> i == choice[0] || i in choice[1..]
  {
    forall i | i in choice[1..]
      ensures choice[0] < i
    {
      var k :| 0 <= k < |choice[1..]| && choice[1..][k] == i;
      assert choice[k + 1] == i;
    }
    assert choice == [choice[0]] + choice[1..];
  }

  lemma TakeAllAt(rts: seq<Runtime>, choice: seq<nat>, ev: Event, now: int)
    requires ev.Occupy? && |choice| > 0 && choice[0] < |rts| && choice[0] !in choice[1..]
    requires forall i :: i in choice <==> i == choice[0] || i in choice[1..]
    ensures TakeAll(rts, choice, ev, now)[choice[0]] == Set(rts[choice[0]], ev, now)
    ensures forall i :: 0 <= i < |rts| && i in choice[1..] ==>
              TakeAll(rts, choice, ev, now)[i] == Set(rts[i], Merge(ev.commit), now)
    ensures forall i :: 0 <= i < |rts| && i != choice[0] && i !in choice[1..] ==> TakeAll(rts, choice, ev, now)[i] == rts[i]
  {
    hide Set;
  }

  lemma TakenRecords(p: Pool, req: Request, t: nat, now: int)
    requires p.base > 0 && t < |p.rts|
    ensures Set(p.rts[t], OccupyEvent(p.base, p.defaultCPUs, req), now)
         == p.rts[t].(state := WarmUp, lastAccess := now, streamMode := req.stream, memory := req.mem,
                      milliCPUs := Needed(req.mem, p.base) * p.defaultCPUs, concurrency := Inc(p.rts[t].concurrency),
                      commitID := req.commit, marked := true)
    ensures forall i :: 0 <= i < |p.rts| ==>
              Set(p.rts[i], Merge(req.commit), now) == p.rts[i].(state := Merged, commitID := req.commit)
  {
  }

  // Failure: the reservation total is what it was, and every runtime keeps its
  // state, its concurrency and everything but its reservation fields; runtimes that
  // were not cold and available are untouched.
  lemma ScaleUpFailure(p: Pool, req: Request, now: int)
    requires p.base > 0
    requires OccupyCold(p, req, now).1.None?
    ensures var p' := OccupyCold(p, req, now).0;
            && p' == p.(rts := p'.rts)
            && |p'.rts| == |p.rts|
            && (forall i :: 0 <= i < |p.rts| ==>
                  && p'.rts[i].state == p.rts[i].state
                  && p'.rts[i].concurrency == p.rts[i].concurrency
                  && SameButReservation(p.rts[i], p'.rts[i]))
            && (forall i :: 0 <= i < |p.rts| && !Available(p.rts[i]) ==> p'.rts[i] == p.rts[i])
  {
    var choice := ColdChoice(p.rts, Needed(req.mem, p.base));
    var ev := OccupyEvent(p.base, p.defaultCPUs, req);
    ColdChoiceSplits(p.rts, Needed(req.mem, p.base));
    forall i | 0 <= i < |p.rts| && i in choice
      ensures Apply(Set(p.rts[i], ev, now), Rollback(req.commit), now).state == Cold
      ensures SameButReservation(p.rts[i], Apply(Set(p.rts[i], ev, now), Rollback(req.commit), now))
      ensures SameButReservation(p.rts[i], Apply(Set(p.rts[i], Merge(req.commit), now), Rollback(req.commit), now))
    {
      RollbackRestores(p.rts[i], ev, now, now);
      RollbackRestores(p.rts[i], Merge(req.commit), now, now);
    }
  }

  // What a failure leaves, exactly: refused for memory, nothing changes; short of
  // containers, every available one has been taken and its reservation fields are
  // cleared, and the first of them has a new time of access.
  lemma ScaleUpFailureRecords(p: Pool, req: Request, now: int, i: nat)
    requires p.base > 0 && i < |p.rts|
    requires OccupyCold(p, req, now).1.None?
    ensures p.marked + req.mem > p.allocatable ==> OccupyCold(p, req, now).0 == p
    ensures p.marked + req.mem <= p.allocatable ==>
              var r, r' := p.rts[i], OccupyCold(p, req, now).0.rts[i];
              if !Available(r) then r' == r
              else r' == r.(streamMode := false, memory := 0, milliCPUs := 0, commitID := "", marked := false,
                            lastAccess := if exists j :: 0 <= j < i && Available(p.rts[j]) then r.lastAccess else now)
  {
    var need := Needed(req.mem, p.base);
    var choice := ColdChoice(p.rts, need);
    ColdChoiceSplits(p.rts, need);
    PickSpec(|p.rts|, need, IsCold(p.rts));
    assert forall j :: 0 <= j < |p.rts| && Available(p.rts[j]) ==> IsCold(p.rts)(j);
    if Fits(p, req.mem) && Available(p.rts[i]) {
      assert i in choice;
      var ev := OccupyEvent(p.base, p.defaultCPUs, req);
      RolledBackRecord(p.rts[i], ev, now);
      RolledBackRecord(p.rts[i], Merge(req.commit), now);
      FirstOfChoice(p.rts, choice, i);
      hide Set, Apply, ColdChoice, OccupyEvent, Needed, Available, IsCold;
    }
  }

  lemma FirstOfChoice(rts: seq<Runtime>, choice: seq<nat>, i: nat)
    requires i in choice && forall j, k :: 0 <= j < k < |choice| ==> choice[j] < choice[k]
    requires forall j :: j in choice <==> 0 <= j < |rts| && Available(rts[j])
    ensures i == choice[0] <==> !exists j :: 0 <= j < i && Available(rts[j])
  {
    hide Available;
    if i != choice[0] {
      assert choice[0] in choice;
    }
    if j :| 0 <= j < i && Available(rts[j]) {
      assert j in choice;
    }
  }

  lemma RolledBackRecord(r: Runtime, take: Event, now: int)
    requires (take.Occupy? || take.Merge?) && Available(r)
    ensures Apply(Set(r, take, now), Rollback(take.commit), now)
         == r.(streamMode := false, memory := 0, milliCPUs := 0, commitID := "", marked := false,
               lastAccess := if take.Occupy? then now else r.lastAccess)
  {
  }

  // An occupation succeeds exactly when the memory fits and enough cold runtimes
  // are available.
  lemma OccupySucceedsIff(p: Pool, req: Request, now: int)
    requires p.base > 0
    ensures OccupyCold(p, req, now).1.Some? <==>
            && p.marked + req.mem <= p.allocatable
            && |set i | 0 <= i < |p.rts| && Available(p.rts[i])| >= (if req.mem > p.base then req.mem / p.base else 1)
  {
    PickFull(|p.rts|, Needed(req.mem, p.base), IsCold(p.rts));
    assert (set i | 0 <= i < |p.rts| && IsCold(p.rts)(i)) == (set i | 0 <= i < |p.rts| && Available(p.rts[i]));
  }

  // A warm runtime is found exactly when one has room, and then it is the first such
  // one, it gains one holder and a new time of access, and nothing else changes.
  lemma FirstWarmIsMarked(p: Pool, commit: string, quota: Uint64, now: int)
    ensures var (p', t) := FindWarm(p, commit, quota, now);
            && (t.None? <==> forall i :: 0 <= i < |p.rts| ==> !Markable(p.rts[i], commit, quota))
            && (t.None? ==> p' == p)
            && (t.Some? ==>
                  && t.value < |p.rts| && Markable(p.rts[t.value], commit, quota)
                  && (forall i :: 0 <= i < t.value ==> !Markable(p.rts[i], commit, quota))
                  && p.rts[t.value].concurrency < MAX_UINT64
                  && p' == p.(rts := p.rts[t.value :=
                       p.rts[t.value].(concurrency := p.rts[t.value].concurrency + 1, lastAccess := now)]))
  {
    var can := CanMark(p.rts, commit, quota);
    PickSpec(|p.rts|, 1, can);
    assert forall i: nat :: i < |p.rts| && Markable(p.rts[i], commit, quota) ==> can(i);
  }

  // The containers a retirement may take back.
  function Retrievables(p: Pool, target: nat, deadline: int): set<nat> {
    set i: nat | i < |p.rts| && i != target && Retrievable(p.rts[i], deadline)
  }

  // The records of a container taken back and of the target, written out.
  function Reclaimed(r: Runtime, now: int): Runtime {
    r.(state := Reclaiming, commitID := "", userID := "", concurrency := 0, concurrentMode := r.defaultConcurrentMode,
       lastReset := now)
  }

  function Retired(r: Runtime, ev: Event, now: int): Runtime {
    r.(state := if ev.Stop? then Stopping else r.state, commitID := "", userID := "", concurrency := 0,
       concurrentMode := r.defaultConcurrentMode, lastReset := if ev.Stop? then r.lastReset else now)
  }

  // What a retirement does.  Refused, it changes nothing.  Accepted, a small target
  // gives nothing back; a scaled-up one takes back exactly its scale count of other,
  // retrievable containers, the first in list order, or, when there are too few of
  // them, every one of them without recommending any.
  lemma ScaleDownOutcome(p: Pool, target: nat, ev: Event, deadline: int, now: int)
    requires p.base > 0 && target < |p.rts| && (ev.Stop? || ev.Reset?)
    ensures var (p', d) := Retire(p, target, ev, deadline, now);
            var mem, all := AsUint64(p.rts[target].memory), Retrievables(p, target, deadline);
            && (d.None? <==> Check(p.rts[target], ev).Err?)
            && (d.None? ==> p' == p)
            && (d.Some? ==>
                  && p' == p.(rts := p'.rts) && |p'.rts| == |p.rts|
                  && p'.rts[target] == Retired(p.rts[target], ev, now)
                  && (d.value.NotNeeded? <==> mem <= p.base)
                  && (d.value.Recommended? <==> mem > p.base && |all| >= mem / p.base - 1)
                  && (d.value.Recommended? ==>
                        && |d.value.reset| == mem / p.base - 1
                        && (forall i, j :: 0 <= i < j < |d.value.reset| ==> d.value.reset[i] < d.value.reset[j])
                        && (forall i :: i in d.value.reset ==> i in all)
                        && (forall i, j :: i in all && i !in d.value.reset && j in d.value.reset ==> i > j))
                  && forall i :: 0 <= i < |p.rts| && i != target ==>
                       p'.rts[i] == if (d.value.Recommended? && i in d.value.reset) || (d.value.Incomplete? && i in all)
                                    then Reclaimed(p.rts[i], now) else p.rts[i])
  {
    RetiredRecords(p.rts, target, ev, deadline, now);
    hide Check, Set, Retrievable, Pick, AsUint64, Retired, Reclaimed;
    MemoryKept(p.rts[target], ev, now);
    var mem := AsUint64(p.rts[target].memory);
    if mem > p.base {
      RetrievalPick(p, target, Set(p.rts[target], ev, now), deadline, ScaleCount(mem, p.base));
    }
  }

  lemma RetiredRecords(rts: seq<Runtime>, target: nat, ev: Event, deadline: int, now: int)
    requires target < |rts| && (ev.Stop? || ev.Reset?)
    ensures Set(rts[target], ev, now) == Retired(rts[target], ev, now)
    ensures forall i :: 0 <= i < |rts| ==> Set(rts[i], Retrieve(deadline), now) == Reclaimed(rts[i], now)
  {
  }

  lemma RetrievalPick(p: Pool, target: nat, r: Runtime, deadline: int, count: nat)
    requires target < |p.rts|
    ensures var choice := Pick(|p.rts|, count, CanRetrieve(p.rts[target := r], target, deadline));
            var all := Retrievables(p, target, deadline);
            && (|choice| == count <==> |all| >= count)
            && (forall i, j :: 0 <= i < j < |choice| ==> choice[i] < choice[j])
            && (forall i :: i in choice ==> i in all)
            && (forall i, j :: i in all && i !in choice && j in choice ==> i > j)
            && (|choice| < count ==> forall i :: i in all ==> i in choice)
  {
    hide Retrievable;
    var can := CanRetrieve(p.rts[target := r], target, deadline);
    PickSpec(|p.rts|, count, can);
    PickFull(|p.rts|, count, can);
    assert (set i | 0 <= i < |p.rts| && can(i)) == Retrievables(p, target, deadline);
  }

  lemma MemoryKept(r: Runtime, ev: Event, now: int)
    requires ev.Stop? || ev.Reset?
    ensures Set(r, ev, now).memory == r.memory
  {
  }

  // A byte count that is not negative is taken as it is; a negative one, as two's
  // complement has it, is a huge one.
  lemma AsUint64Meaning(m: int)
    ensures m >= 0 ==> AsUint64(m) == m
    ensures -0x8000_0000_0000_0000 <= m < 0 ==>
              0x8000_0000_0000_0000 <= AsUint64(m) <= MAX_UINT64 && AsUint64(m) - m == 0x1_0000_0000_0000_0000
  {
  }

  // What the answer to a call does, container by container.  Answered without error,
  // what the target had reserved and used is given back, and the node's total drops by
  // the memory noted when the call was sent.  Flagged abnormal are the target of a
  // failed cool-down, the recommended containers when no response came, and those a
  // response names; nothing else changes.
  lemma SettleOutcome(p: Pool, job: Job, reply: Reply)
    requires job.target < |p.rts|
    ensures var p' := Settle(p, job, reply);
            && p' == p.(rts := p'.rts, marked := p'.marked) && |p'.rts| == |p.rts|
            && p'.marked == p.marked - (if reply.ok && job.marked then job.memory else 0)
            && forall i :: 0 <= i < |p.rts| ==>
                 var r, r' := p.rts[i], p'.rts[i];
                 && r' == r.(abnormal := r'.abnormal, used := r'.used, marked := r'.marked)
                 && (r'.used <==> r.used && !(i == job.target && reply.ok && job.used))
                 && (r'.marked <==> r.marked && !(i == job.target && reply.ok && job.marked))
                 && (r'.abnormal <==>
                       || r.abnormal
                       || (i == job.target && job.kind.CoolDownJob? && !reply.ok)
                       || (job.reset.Some? && i in job.reset.value && !reply.hasResponse)
                       || (reply.hasResponse && i in reply.fails))
  {
    var rts := if reply.ok then p.rts[job.target := Unreserved(p.rts[job.target], job)] else p.rts;
    FlaggedIff(job, reply);
    hide Failed;
    forall i | 0 <= i < |p.rts|
      ensures Settle(p, job, reply).rts[i] == if i in Failed(job, reply) then rts[i].(abnormal := true) else rts[i]
    {
    }
  }

  lemma FlaggedIff(job: Job, reply: Reply)
    ensures forall i :: i in Failed(job, reply) <==>
              || (i == job.target && job.kind.CoolDownJob? && !reply.ok)
              || (job.reset.Some? && i in job.reset.value && !reply.hasResponse)
              || (reply.hasResponse && i in reply.fails)
  {
  }

  // The count covers the request from below and leaves less than one container of
  // memory uncovered; the cover is exact when the base divides the request.
  lemma ScaleCountCovers(mem: nat, base: nat)
    requires base > 0
    ensures var count := ScaleCount(mem, base);
            && (count + 1) * base <= mem < (count + 2) * base
            && (mem % base == 0 <==> (count + 1) * base == mem)
  {
    assert mem == (mem / base) * base + mem % base;
  }
}
