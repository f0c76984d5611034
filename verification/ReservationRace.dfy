/** The reservation check at the granularity of the lock: the check is made under the
    read lock and the amount is added under the write lock, and other callers may run
    in between.
 */
module ReservationRace {

  // Each caller is either outside the operation or has passed the check for the
  // given number of bytes and has not yet added it.
  datatype Caller = Idle | Checked(mem: nat)

  datatype State = State(marked: int, allocatable: int, callers: seq<Caller>)

  datatype Step =
    | Check(k: nat, mem: nat)
    | Add(k: nat)
    | Return(amount: nat)

  predicate Enabled(s: State, step: Step) {
    match step
    case Check(k, _) => k < |s.callers| && s.callers[k].Idle?
    case Add(k) => k < |s.callers| && s.callers[k].Checked?
    case Return(_) => true
  }

  // A refused check leaves the caller outside.
  function Next(s: State, step: Step): State
    requires Enabled(s, step)
  {
    match step
    case Check(k, mem) =>
      if s.allocatable - s.marked - mem < 0 then s else s.(callers := s.callers[k := Checked(mem)])
    case Add(k) => s.(marked := s.marked + s.callers[k].mem, callers := s.callers[k := Idle])
    case Return(amount) => s.(marked := s.marked - amount)
  }

  function Amount(c: Caller): nat {
    if c.Idle? then 0 else c.mem
  }

  // The reservations that passed the check and are still to be added.
  function Pending(callers: seq<Caller>): nat {
    if callers == [] then 0 else Pending(callers[..|callers| - 1]) + Amount(callers[|callers| - 1])
  }

  predicate AtMost(callers: seq<Caller>, size: nat) {
    forall k :: 0 <= k < |callers| ==> Amount(callers[k]) <= size
  }

  lemma {:induction false} PendingUpdate(callers: seq<Caller>, k: nat, c: Caller)
    requires k < |callers|
    ensures Pending(callers[k := c]) == Pending(callers) - Amount(callers[k]) + Amount(c)
  {
    var n := |callers| - 1;
    if k == n {
      assert callers[k := c][..n] == callers[..n];
    } else {
      assert callers[k := c][..n] == callers[..n][k := c];
      PendingUpdate(callers[..n], k, c);
    }
  }

  lemma {:induction false} PendingBound(callers: seq<Caller>, size: nat)
    requires AtMost(callers, size)
    ensures Pending(callers) <= |callers| * size
  {
    if callers != [] {
      PendingBound(callers[..|callers| - 1], size);
    }
  }

  ghost predicate IsRun(s: State, steps: seq<Step>, size: nat)
    decreases |steps|
  {
    steps == []
    || (Enabled(s, steps[0])
        && (steps[0].Check? ==> steps[0].mem <= size)
        && IsRun(Next(s, steps[0]), steps[1..], size))
  }

  ghost function After(s: State, steps: seq<Step>, size: nat): State
    requires IsRun(s, steps, size)
    decreases |steps|
  {
    if steps == [] then s else After(Next(s, steps[0]), steps[1..], size)
  }

  ghost predicate Within(s: State, size: nat) {
    && |s.callers| > 0
    && AtMost(s.callers, size)
    && s.marked + Pending(s.callers) <= s.allocatable + (|s.callers| - 1) * size
  }

  lemma WithinStep(s: State, step: Step, size: nat)
    requires Within(s, size) && Enabled(s, step) && (step.Check? ==> step.mem <= size)
    ensures Within(Next(s, step), size)
  {
    match step
    case Check(k, mem) =>
      // The check compares with the marked total only, so all other callers may hold
      // a passed check of their own.
      PendingUpdate(s.callers, k, Checked(mem));
      PendingOthers(s.callers, k, size);
    case Add(k) => PendingUpdate(s.callers, k, Idle);
    case Return(_) =>
  }

  lemma {:induction false} PendingOthers(callers: seq<Caller>, k: nat, size: nat)
    requires k < |callers| && callers[k].Idle? && AtMost(callers, size)
    ensures Pending(callers) <= (|callers| - 1) * size
  {
    var n := |callers| - 1;
    if k == n {
      PendingBound(callers[..n], size);
    } else {
      PendingOthers(callers[..n], k, size);
      assert n * size == (n - 1) * size + size;
    }
  }

  // With K callers asking for at most `size` bytes each, in every interleaving the
  // marked total with the pending reservations exceeds the allocatable memory by at
  // most K - 1 requests.
  lemma {:induction false} OvercommitBounded(s: State, steps: seq<Step>, size: nat)
    requires Within(s, size) && IsRun(s, steps, size)
    ensures Within(After(s, steps, size), size)
    ensures var e := After(s, steps, size); e.marked <= e.allocatable + (|e.callers| - 1) * size
    ensures |s.callers| == 1 ==> After(s, steps, size).marked <= After(s, steps, size).allocatable
    ensures |After(s, steps, size).callers| == |s.callers|
    ensures After(s, steps, size).allocatable == s.allocatable
    decreases |steps|
  {
    if steps != [] {
      WithinStep(s, steps[0], size);
      OvercommitBounded(Next(s, steps[0]), steps[1..], size);
    }
  }

  // ---------------------------------------------------------------------------
  // The bound is reached

  function AllCheck(from: nat, k: nat, size: nat): seq<Step>
    requires from <= k
    decreases k - from
  {
    if from == k then [] else [Check(from, size)] + AllCheck(from + 1, k, size)
  }

  function AllAdd(from: nat, k: nat): seq<Step>
    requires from <= k
    decreases k - from
  {
    if from == k then [] else [Add(from)] + AllAdd(from + 1, k)
  }

  // Everyone checks before anyone adds.
  lemma {:induction false} ChecksThenAdds(s: State, from: nat, size: nat)
    requires from <= |s.callers| && s.allocatable - s.marked - size >= 0
    requires forall j :: 0 <= j < from ==> s.callers[j] == Checked(size)
    requires forall j :: from <= j < |s.callers| ==> s.callers[j].Idle?
    ensures var steps := AllCheck(from, |s.callers|, size) + AllAdd(0, |s.callers|);
            IsRun(s, steps, size) && After(s, steps, size).marked == s.marked + |s.callers| * size
    decreases |s.callers| - from
  {
    var k := |s.callers|;
    if from == k {
      AddsAll(s, 0, size);
      assert AllCheck(from, k, size) + AllAdd(0, k) == AllAdd(0, k);
    } else {
      var s' := Next(s, Check(from, size));
      ChecksThenAdds(s', from + 1, size);
      var rest := AllCheck(from + 1, k, size) + AllAdd(0, k);
      assert AllCheck(from, k, size) + AllAdd(0, k) == [Check(from, size)] + rest;
      assert ([Check(from, size)] + rest)[1..] == rest;
    }
  }

  lemma {:induction false} AddsAll(s: State, from: nat, size: nat)
    requires from <= |s.callers|
    requires forall j :: from <= j < |s.callers| ==> s.callers[j] == Checked(size)
    ensures IsRun(s, AllAdd(from, |s.callers|), size)
    ensures After(s, AllAdd(from, |s.callers|), size).marked == s.marked + (|s.callers| - from) * size
    decreases |s.callers| - from
  {
    var k := |s.callers|;
    if from < k {
      var s' := Next(s, Add(from));
      AddsAll(s', from + 1, size);
      assert AllAdd(from, k)[1..] == AllAdd(from + 1, k);
      assert (k - from) * size == size + (k - from - 1) * size;
    }
  }

  // For every number of callers and every size there is an interleaving that reaches
  // the bound exactly, so no smaller bound holds.
  lemma OvercommitReached(k: nat, size: nat, allocatable: int)
    requires k > 0
    ensures var s := State(allocatable - size, allocatable, seq(k, i => Idle));
            var steps := AllCheck(0, k, size) + AllAdd(0, k);
            IsRun(s, steps, size) && After(s, steps, size).marked == allocatable + (k - 1) * size
  {
    var s := State(allocatable - size, allocatable, seq(k, i => Idle));
    ChecksThenAdds(s, 0, size);
  }
}
