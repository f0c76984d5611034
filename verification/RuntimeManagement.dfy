/** The dispatcher object: it owns the list of runtimes and the node's reservation
    total, and every operation scans the list and updates one runtime at a time.
    Each operation is proved to have the effect its pool function describes.
 */
module RuntimeManagement {
  import opened RuntimeEvents
  import opened RuntimePool
  import opened Options

  datatype ScaleUpRecommendation = ScaleUpRecommendation(target: string, merged: seq<string>)

  predicate Below(choice: seq<nat>, n: nat) {
    forall j :: 0 <= j < |choice| ==> choice[j] < n
  }

  class RuntimeManager {
    var rtArray: seq<RuntimeInfo>
    var marked: int
    var allocatable: int
    var base: nat
    var defaultCPUs: int

    // The records of rtArray as values.
    ghost var views: seq<Runtime>

    // Runtimes are distinct records with distinct ids.  A zero base memory would
    // make every scaling decision divide by zero.
    ghost predicate Valid()
      reads this, rtArray
    {
      && base > 0
      && |views| == |rtArray|
      && (forall i :: 0 <= i < |rtArray| ==> rtArray[i].info == views[i])
      && forall i, j :: 0 <= i < j < |rtArray| ==> rtArray[i] != rtArray[j] && rtArray[i].id != rtArray[j].id
    }

    ghost function View(): Pool
      reads this
    {
      Pool(views, marked, allocatable, base, defaultCPUs)
    }

    function IDs(choice: seq<nat>): seq<string>
      requires Below(choice, |rtArray|)
      reads this
    {
      if choice == [] then [] else IDs(choice[..|choice| - 1]) + [rtArray[choice[|choice| - 1]].id]
    }

    constructor (allocatable: int, base: nat, cpus: int)
      requires base > 0
      ensures Valid() && View() == Pool([], 0, allocatable, base, cpus)
    {
      rtArray, marked, views := [], 0, [];
      this.allocatable, this.base, defaultCPUs := allocatable, base, cpus;
    }

    method CheckAndMarkResource(mem: nat) returns (ok: bool)
      modifies this`marked
      ensures ok == old(allocatable - marked - mem >= 0)
      ensures marked == if ok then old(marked) + mem else old(marked)
    {
      if allocatable - marked - mem < 0 {
        return false;
      }
      marked := marked + mem;
      return true;
    }

    method ReleaseMarkedResource(mem: int)
      modifies this`marked
      ensures marked == old(marked) - mem
    {
      marked := marked - mem;
    }

    // One check-and-set in place: only the runtime at k can change.
    method CasAt(k: nat, ev: Event, now: int) returns (r: Outcome)
      requires Valid() && k < |rtArray|
      modifies this`views, rtArray[k]
      ensures Valid()
      ensures r == Check(old(views)[k], ev)
      ensures views == old(views)[k := Apply(old(views)[k], ev, now)]
    {
      r := rtArray[k].CAS(ev, now);
      views := views[k := rtArray[k].info];
    }

    // The first runtime in list order that accepts the event.
    method FirstToAccept(ev: Event, now: int) returns (k: nat)
      requires Valid()
      modifies this`views, rtArray
      ensures Valid()
      ensures k <= |rtArray|
      ensures forall j :: 0 <= j < k ==> Check(old(views)[j], ev).Err?
      ensures k < |rtArray| ==> Check(old(views)[k], ev).Ok?
      ensures views == if k < |rtArray| then old(views)[k := Set(old(views)[k], ev, now)] else old(views)
    {
      k := 0;
      while k < |rtArray|
        invariant Valid() && k <= |rtArray|
        invariant forall j :: 0 <= j < k ==> Check(old(views)[j], ev).Err?
        invariant views == old(views)
      {
        var r := CasAt(k, ev, now);
        if r.Ok? {
          return;
        }
        k := k + 1;
      }
    }

    // Apply the event in list order, passing over the runtime at `skip`, until
    // `count` runtimes have accepted it.
    method SetUpTo(ev: Event, count: nat, skip: int, now: int) returns (picked: seq<nat>)
      requires Valid()
      modifies this`views, rtArray
      ensures Valid()
      ensures picked == Pick(|rtArray|, count, Accepting(old(views), ev, skip))
      ensures views == SetAll(old(views), picked, ev, now)
    {
      hide SetAll, Pick, Set, Apply, Check, Accepting;
      ghost var before := views;
      ScanStart(before, count, ev, skip, now);
      picked := [];
      var k := 0;
      while k < |rtArray| && |picked| != count
        invariant Valid() && k <= |rtArray|
        invariant picked == Pick(k, count, Accepting(before, ev, skip))
        invariant views == SetAll(before, picked, ev, now)
      {
        ScanStep(before, k, count, ev, skip, now);
        if k != skip {
          var r := CasAt(k, ev, now);
          if r.Ok? {
            picked := picked + [k];
          }
        }
        k := k + 1;
      }
      if k < |rtArray| {
        PickStable(k, |rtArray|, count, Accepting(before, ev, skip));
      }
    }

    // Roll the given runtimes back, last one first.
    method RollbackEach(taken: seq<nat>, commit: string, now: int)
      requires Valid()
      requires Below(taken, |rtArray|)
      requires forall i, j :: 0 <= i < j < |taken| ==> taken[i] != taken[j]
      modifies this`views, rtArray
      ensures Valid()
      ensures views == RollbackAll(old(views), taken, commit, now)
    {
      ghost var before := views;
      var k := |taken|;
      while k > 0
        invariant Valid() && 0 <= k <= |taken|
        invariant forall j :: 0 <= j < |rtArray| ==>
                    views[j] == if j in taken[k..] then Apply(before[j], Rollback(commit), now) else before[j]
      {
        k := k - 1;
        assert taken[k..] == [taken[k]] + taken[k + 1..];
        assert taken[k] !in taken[k + 1..];
        var r := CasAt(taken[k], Rollback(commit), now);
      }
    }

    // What a call that took `t` hands back.
    ghost predicate HandedBack(t: Option<Taken>, scaled: bool, ri: RuntimeInfo?, recommend: Option<ScaleUpRecommendation>)
      reads this
    {
      if t.None? then ri == null && recommend.None?
      else
        && t.value.target < |rtArray| && ri == rtArray[t.value.target]
        && Below(t.value.merged, |rtArray|)
        && recommend == if scaled then Some(ScaleUpRecommendation(ri.id, IDs(t.value.merged))) else None
    }

    // A small function needs one cold runtime and no other container.
    method OccupyOne(ev: Event, now: int) returns (ri: RuntimeInfo?)
      requires Valid() && ev.Occupy?
      modifies this`views, rtArray
      ensures Valid()
      ensures views == OccupyRuntimes(old(views), 1, ev, now).0
      ensures HandedBack(OccupyRuntimes(old(views), 1, ev, now).1, false, ri, None)
    {
      ghost var before := views;
      var k := FirstToAccept(ev, now);
      FirstChoice(before, 1, ev, k, now);
      ri := if k < |rtArray| then rtArray[k] else null;
    }

    // A large function takes over the containers it needs; when there are too few,
    // everything taken is rolled back.
    method OccupyColdWithScaleUp(ev: Event, scaleCount: nat, now: int)
      returns (ri: RuntimeInfo?, recommend: Option<ScaleUpRecommendation>)
      requires Valid() && ev.Occupy?
      modifies this`views, rtArray
      ensures Valid()
      ensures views == OccupyRuntimes(old(views), scaleCount + 1, ev, now).0
      ensures HandedBack(OccupyRuntimes(old(views), scaleCount + 1, ev, now).1, true, ri, recommend)
    {
      hide SetAll, Pick, Set, Apply, Check, ColdChoice, TakeAll, RollbackAll;
      ghost var before := views;
      ri, recommend := null, None;
      var k := FirstToAccept(ev, now);
      FirstChoice(before, scaleCount + 1, ev, k, now);
      if k == |rtArray| {
        return;
      }
      ghost var occupied := views;
      var merged := SetUpTo(Merge(ev.commit), scaleCount, -1, now);
      AcceptingCold(occupied, ev.commit, scaleCount);
      RestOfChoice(before, scaleCount + 1, ev, k, now);
      TakeInTwo(before, scaleCount + 1, ev, k, merged, views, now);
      if |merged| == scaleCount {
        ri := rtArray[k];
        recommend := Some(ScaleUpRecommendation(ri.id, IDs(merged)));
        return;
      }
      RollbackEach([k] + merged, ev.commit, now);
    }

    // Reserve the memory, occupy, and return the reservation on failure.
    method OccupyColdRuntime(req: Request, now: int)
      returns (ri: RuntimeInfo?, recommend: Option<ScaleUpRecommendation>)
      requires Valid()
      modifies this`marked, this`views, rtArray
      ensures Valid()
      ensures View() == OccupyCold(old(View()), req, now).0
      ensures HandedBack(OccupyCold(old(View()), req, now).1, req.mem > base, ri, recommend)
    {
      hide OccupyRuntimes;
      ri, recommend := null, None;
      var fits := CheckAndMarkResource(req.mem);
      if !fits {
        return;
      }
      var ev := OccupyEvent(base, defaultCPUs, req);
      if req.mem <= base {
        ri := OccupyOne(ev, now);
      } else {
        ri, recommend := OccupyColdWithScaleUp(ev, ScaleCount(req.mem, base), now);
      }
      if ri == null {
        ReleaseMarkedResource(req.mem);
      }
    }

    // Mark the first warm runtime that serves the commit and has room.
    method FindWarmRuntime(commit: string, quota: Uint64, now: int) returns (ri: RuntimeInfo?)
      requires Valid()
      modifies this`views, rtArray
      ensures Valid()
      ensures View() == FindWarm(old(View()), commit, quota, now).0
      ensures var t := FindWarm(old(View()), commit, quota, now).1;
              if t.None? then ri == null else t.value < |rtArray| && ri == rtArray[t.value]
    {
      ghost var before := View();
      var k := FirstToAccept(Mark(commit, quota), now);
      ri := if k < |rtArray| then rtArray[k] else null;
      FirstWarm(before, commit, quota, k);
    }

    // Cool a runtime down (Stop) or reset a defunct one (Reset), and give back the
    // containers that had been merged into it.
    method RetireRuntime(target: nat, ev: Event, deadline: int, now: int) returns (r: Option<ScaleDown>)
      requires Valid() && target < |rtArray|
      requires ev.Stop? || ev.Reset?
      modifies this`views, rtArray
      ensures Valid()
      ensures View() == Retire(old(View()), target, ev, deadline, now).0
      ensures r == Retire(old(View()), target, ev, deadline, now).1
    {
      hide SetAll, Pick, Set, Check, Accepting, CanRetrieve;
      ghost var before := View();
      var outcome := CasAt(target, ev, now);
      if outcome.Err? {
        assert views == before.rts;
        return None;
      }
      assert views == before.rts[target := Set(before.rts[target], ev, now)];
      var mem := AsUint64(rtArray[target].info.memory);
      if mem <= base {
        return Some(NotNeeded);
      }
      var count := ScaleCount(mem, base);
      AcceptingRetrieval(views, target, deadline, count);
      var reset := SetUpTo(Retrieve(deadline), count, target, now);
      return Some(if |reset| == count then Recommended(reset) else Incomplete);
    }

    method SetFlags(k: nat, used: bool, marked: bool)
      requires Valid() && k < |rtArray|
      modifies this`views, rtArray[k]
      ensures Valid()
      ensures views == old(views)[k := old(views)[k].(used := used, marked := marked)]
    {
      rtArray[k].info := rtArray[k].info.(used := used);
      rtArray[k].info := rtArray[k].info.(marked := marked);
      views := views[k := rtArray[k].info];
    }

    method InvalidateEach(bad: seq<nat>)
      requires Valid() && Below(bad, |rtArray|)
      modifies this`views, rtArray
      ensures Valid()
      ensures views == InvalidateAll(old(views), bad)
    {
      for k := 0 to |bad|
        invariant Valid()
        invariant views == InvalidateAll(old(views), bad[..k])
      {
        rtArray[bad[k]].Invalidate();
        views := views[bad[k] := rtArray[bad[k]].info];
        assert bad[..k + 1] == bad[..k] + [bad[k]];
      }
      assert bad[..|bad|] == bad;
    }

    // Apply the answer to a cool-down or reborn call.
    method SettleJob(job: Job, reply: Reply)
      requires Valid() && job.target < |rtArray|
      requires Below(Failed(job, reply), |rtArray|)
      modifies this`marked, this`views, rtArray
      ensures Valid()
      ensures View() == Settle(old(View()), job, reply)
    {
      hide InvalidateAll, Failed, Invalidated;
      if reply.ok {
        var rt := rtArray[job.target];
        SetFlags(job.target, rt.info.used && !job.used, rt.info.marked && !job.marked);
        if job.marked {
          ReleaseMarkedResource(job.memory);
        }
      }
      InvalidateEach(Failed(job, reply));
    }
  }

  // The runtime at k is the first to accept the occupation, if any does.
  ghost predicate FirstAccepts(rts: seq<Runtime>, ev: Event, k: nat) {
    && ev.Occupy?
    && k <= |rts|
    && (forall j :: 0 <= j < k ==> Check(rts[j], ev).Err?)
    && (k < |rts| ==> Check(rts[k], ev).Ok?)
  }

  // The first runtime that accepts an occupation is the head of the choice.
  lemma FirstChoice(rts: seq<Runtime>, need: nat, ev: Event, k: nat, now: int)
    requires need > 0 && FirstAccepts(rts, ev, k)
    ensures k == |rts| ==> ColdChoice(rts, need) == [] && OccupyRuntimes(rts, need, ev, now) == (rts, None)
    ensures k < |rts| && need == 1 ==>
              OccupyRuntimes(rts, need, ev, now) == (rts[k := Set(rts[k], ev, now)], Some(Taken(k, [])))
  {
    var cold := IsCold(rts);
    if k == |rts| {
      PickNone(k, need, cold);
      assert RollbackAll(TakeAll(rts, [], ev, now), [], ev.commit, now) == rts;
    } else if need == 1 {
      PickHead(k, |rts|, 1, cold, (i: nat) => cold(i) && i != k);
      assert ColdChoice(rts, need) == [k];
      assert TakeAll(rts, [k], ev, now) == rts[k := Set(rts[k], ev, now)];
    }
  }

  lemma AcceptingCold(rts: seq<Runtime>, commit: string, count: nat)
    ensures Pick(|rts|, count, Accepting(rts, Merge(commit), -1)) == ColdChoice(rts, count)
  {
    PickSame(|rts|, count, Accepting(rts, Merge(commit), -1), IsCold(rts));
  }

  lemma AcceptingRetrieval(rts: seq<Runtime>, target: nat, deadline: int, count: nat)
    ensures Pick(|rts|, count, Accepting(rts, Retrieve(deadline), target))
         == Pick(|rts|, count, CanRetrieve(rts, target, deadline))
  {
    PickSame(|rts|, count, Accepting(rts, Retrieve(deadline), target), CanRetrieve(rts, target, deadline));
  }

  // Once the head is occupied, scanning again from the start finds the rest.
  lemma RestOfChoice(rts: seq<Runtime>, need: nat, ev: Event, k: nat, now: int)
    requires need > 0 && FirstAccepts(rts, ev, k) && k < |rts|
    ensures ColdChoice(rts, need) == [k] + ColdChoice(rts[k := Set(rts[k], ev, now)], need - 1)
  {
    PickHead(k, |rts|, need, IsCold(rts), IsCold(rts[k := Set(rts[k], ev, now)]));
  }

  // Occupying the head and merging the rest is taking the whole choice.
  lemma TakeInTwo(before: seq<Runtime>, need: nat, ev: Event, k: nat, merged: seq<nat>, rts: seq<Runtime>, now: int)
    requires ev.Occupy?
    requires k < |before| == |rts| && ColdChoice(before, need) == [k] + merged
    requires rts == SetAll(before[k := Set(before[k], ev, now)], merged, Merge(ev.commit), now)
    ensures rts == TakeAll(before, ColdChoice(before, need), ev, now)
    ensures ColdChoice(before, need)[1..] == merged && Below(merged, |rts|)
    ensures forall i, j :: 0 <= i < j < |merged| + 1 ==> ([k] + merged)[i] != ([k] + merged)[j]
  {
    ColdChoiceSplits(before, need);
  }

  lemma FirstWarm(p: Pool, commit: string, quota: Uint64, k: nat)
    requires k <= |p.rts|
    requires forall j :: 0 <= j < k ==> !Markable(p.rts[j], commit, quota)
    requires k < |p.rts| ==> Markable(p.rts[k], commit, quota)
    ensures forall now :: FindWarm(p, commit, quota, now).0
              == if k < |p.rts| then p.(rts := p.rts[k := Set(p.rts[k], Mark(commit, quota), now)]) else p
    ensures forall now :: FindWarm(p, commit, quota, now).1 == if k < |p.rts| then Some(k) else None
  {
    var warm := CanMark(p.rts, commit, quota);
    if k == |p.rts| {
      PickNone(k, 1, warm);
    } else {
      PickHead(k, |p.rts|, 1, warm, (i: nat) => warm(i) && i != k);
    }
  }
}
