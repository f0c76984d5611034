/** The lifecycle of one container runtime: the record the controller keeps about
    it, the check-and-set events that move it between its eight states, and the
    object that applies them in place.

    The checks and the sets are pure functions on a `Runtime` value; the class
    `RuntimeInfo` holds the same fields and updates them step by step.  Clock
    readings are parameters.
 */
module RuntimeEvents {

  const MAX_UINT64: nat := 0xFFFF_FFFF_FFFF_FFFF

  type Uint64 = n: nat | n <= 0xFFFF_FFFF_FFFF_FFFF

  // Unsigned increment and decrement wrap around, as the machine counter does.
  function Inc(n: Uint64): Uint64 {
    if n == MAX_UINT64 then 0 else n + 1
  }

  function Dec(n: Uint64): Uint64 {
    if n == 0 then MAX_UINT64 else n - 1
  }

  datatype RuntimeState = Cold | WarmUp | Warm | Merged | Stopping | Stopped | Closed | Reclaiming

  datatype Runtime = Runtime(
    id: string,
    state: RuntimeState,
    used: bool,
    marked: bool,
    abnormal: bool,
    memory: int,
    milliCPUs: int,
    userID: string,
    commitID: string,
    concurrentMode: bool,
    defaultConcurrentMode: bool,
    concurrency: Uint64,
    streamMode: bool,
    lastAccess: int,
    lastReset: int,
    lastLiveness: int)

  datatype Event =
    | Occupy(commit: string, stream: bool, mem: nat, cpus: int)
    | Merge(commit: string)
    | Retrieve(deadline: int)
    | Rollback(commit: string)
    | Mark(commit: string, quota: Uint64)
    | Stop(deadline: int)
    | Reset(deadline: int)

  datatype CasError =
    | StateUnmatched(current: RuntimeState, expected: set<RuntimeState>)
    | MatchError(reason: string)
    | NoNeedToReset(id: string)

  datatype Outcome = Ok | Err(error: CasError)

  function NewRuntime(id: string, concurrent: bool, stream: bool, frozen: bool, memory: int, cpus: int, now: int): Runtime {
    Runtime(id, if frozen then Merged else Closed, false, false, false, memory, cpus, "", "",
            concurrent, concurrent, 0, stream, now, 0, now)
  }

  // A record no request has touched yet and no runner has connected to.
  predicate Unused(r: Runtime) {
    && r.state in {Closed, Merged} && !r.marked && !r.used && !r.abnormal
    && r.concurrency == 0 && r.commitID == "" && r.userID == ""
  }

  predicate Available(r: Runtime) {
    r.state == Cold && !r.abnormal
  }

  // A runner is defunct when it has been silent since before the deadline and is
  // either flagged abnormal or in a state nothing will move it out of.
  predicate RunnerDefunct(r: Runtime, deadline: int) {
    r.lastLiveness < deadline && (r.abnormal || r.state in {WarmUp, Stopping, Stopped, Closed})
  }

  predicate Retrievable(r: Runtime, deadline: int) {
    && (r.state == Merged || (r.state == Reclaiming && r.lastReset <= deadline))
    && r.concurrency == 0
  }

  predicate Markable(r: Runtime, commit: string, quota: Uint64) {
    && r.state in {WarmUp, Warm}
    && !r.abnormal
    && r.commitID == commit
    && (((!r.concurrentMode || quota == 0) && r.concurrency == 0) || (r.concurrentMode && r.concurrency < quota))
  }

  // The check half of each event, with the error the source reports.
  function Check(r: Runtime, ev: Event): Outcome {
    match ev
    case Occupy(_, _, _, _) =>
      if r.state != Cold then Err(StateUnmatched(r.state, {Cold}))
      else if r.abnormal then Err(MatchError("runner is not available"))
      else Ok
    case Merge(_) =>
      if r.state != Cold then Err(StateUnmatched(r.state, {Cold}))
      else if r.abnormal then Err(MatchError("runner is not available"))
      else Ok
    case Retrieve(deadline) =>
      if r.state != Merged && r.state != Reclaiming then Err(StateUnmatched(r.state, {Merged, Reclaiming}))
      else if r.state == Reclaiming && r.lastReset > deadline then Err(MatchError("last reset time hasn't timeout"))
      else if r.concurrency == 0 then Ok
      else Err(MatchError("runtime info did not match"))
    case Rollback(commit) =>
      if commit != r.commitID then Err(MatchError("commit id doesn't match"))
      else if r.state != WarmUp && r.state != Merged then Err(StateUnmatched(r.state, {WarmUp, Merged}))
      else Ok
    case Mark(commit, quota) =>
      if r.state != WarmUp && r.state != Warm then Err(StateUnmatched(r.state, {WarmUp, Warm}))
      else if r.abnormal then Err(MatchError("runner is not available"))
      else if r.commitID != commit then Err(MatchError("commit id not match"))
      else if (!r.concurrentMode || quota == 0) && r.concurrency == 0 then Ok
      else if r.concurrentMode && r.concurrency < quota then Ok
      else Err(MatchError("concurrency exceed limit"))
    case Stop(deadline) =>
      if r.state != Warm then Err(StateUnmatched(r.state, {Warm}))
      else if r.concurrency == 0 && r.lastAccess < deadline then Ok
      else Err(MatchError("no need to stop"))
    case Reset(deadline) =>
      if RunnerDefunct(r, deadline) then Ok else Err(NoNeedToReset(r.id))
  }

  // The set half of each event.
  function Set(r: Runtime, ev: Event, now: int): Runtime {
    match ev
    case Occupy(commit, stream, mem, cpus) =>
      r.(state := WarmUp, lastAccess := now, streamMode := stream, memory := mem, milliCPUs := cpus,
         concurrency := Inc(r.concurrency), commitID := commit, marked := true)
    case Merge(commit) =>
      r.(state := Merged, commitID := commit)
    case Retrieve(_) =>
      Vacated(r).(lastReset := now, state := Reclaiming)
    case Rollback(_) =>
      r.(concurrency := if r.state == WarmUp then Dec(r.concurrency) else r.concurrency,
         state := Cold, streamMode := false, memory := 0, milliCPUs := 0, commitID := "", marked := false)
    case Mark(_, _) =>
      r.(lastAccess := now, concurrency := Inc(r.concurrency))
    case Stop(_) =>
      Vacated(r).(state := Stopping)
    case Reset(_) =>
      Vacated(r).(lastReset := now)
  }

  // Nobody holds the runtime and no commit or user is recorded; the reservation stays.
  function Vacated(r: Runtime): Runtime {
    r.(commitID := "", userID := "", concurrency := 0, concurrentMode := r.defaultConcurrentMode)
  }

  function Apply(r: Runtime, ev: Event, now: int): Runtime {
    if Check(r, ev).Ok? then Set(r, ev, now) else r
  }

  function Released(r: Runtime): Runtime {
    if r.concurrency == 0 then r else r.(concurrency := r.concurrency - 1)
  }

  function Invalidated(r: Runtime): Runtime {
    r.(abnormal := true)
  }

  // A runner connects: only a closed runtime accepts one.
  function RunnerUp(r: Runtime): Runtime {
    if r.state == Closed then r.(state := Cold, abnormal := false) else r
  }

  // A runner is gone: merged and reclaiming containers keep their state.
  function RunnerDown(r: Runtime): Runtime {
    if r.state == Merged || r.state == Reclaiming then r else r.(state := Closed)
  }

  predicate AcceptsRuntime(r: Runtime, commit: string) {
    && (r.state == Cold || r.state == WarmUp)
    && (|r.commitID| == 0 || r.commitID == commit)
  }

  // A function process connects and reports the commit it runs.  The commit id is
  // adopted when the record has none; a mismatch refuses the process.
  function RuntimeUp(r: Runtime, commit: string, singleMode: bool): Runtime {
    if AcceptsRuntime(r, commit) then
      r.(commitID := commit, concurrentMode := r.concurrentMode && !singleMode, state := Warm, used := true)
    else r
  }

  function RuntimeDown(r: Runtime): Runtime {
    r.(concurrency := 0, streamMode := false, state := Stopped)
  }

  // What each check means, independently of the order in which it is written.
  lemma CheckMeaning(r: Runtime, ev: Event)
    ensures Check(r, ev).Ok? <==>
            match ev
            case Occupy(_, _, _, _) => Available(r)
            case Merge(_) => Available(r)
            case Retrieve(deadline) => Retrievable(r, deadline)
            case Rollback(commit) => r.commitID == commit && r.state in {WarmUp, Merged}
            case Mark(commit, quota) => Markable(r, commit, quota)
            case Stop(deadline) => r.state == Warm && r.concurrency == 0 && r.lastAccess < deadline
            case Reset(deadline) => r.lastLiveness < deadline && (r.abnormal || r.state in {WarmUp, Stopping, Stopped, Closed})
  {
  }

  // What a refusal says: a state that does not fit is reported with the states that
  // would, before anything else is looked at except, for a rollback, the commit.
  lemma RefusalReason(r: Runtime, ev: Event)
    requires Check(r, ev).Err?
    ensures Check(r, ev).error.StateUnmatched? ==>
              Check(r, ev).error == StateUnmatched(r.state, StatesOf(ev)) && r.state !in StatesOf(ev)
    ensures Check(r, ev).error.NoNeedToReset? <==> ev.Reset?
    ensures Check(r, ev).error.NoNeedToReset? ==> Check(r, ev).error.id == r.id
    ensures !ev.Reset? && r.state !in StatesOf(ev) && !(ev.Rollback? && ev.commit != r.commitID) ==>
              Check(r, ev).error.StateUnmatched?
  {
  }

  // The states an event may find.
  function StatesOf(ev: Event): set<RuntimeState> {
    match ev
    case Occupy(_, _, _, _) => {Cold}
    case Merge(_) => {Cold}
    case Retrieve(_) => {Merged, Reclaiming}
    case Rollback(_) => {WarmUp, Merged}
    case Mark(_, _) => {WarmUp, Warm}
    case Stop(_) => {Warm}
    case Reset(_) => {Cold, WarmUp, Warm, Merged, Stopping, Stopped, Closed, Reclaiming}
  }

  // What an event does, field by field: which events write the field and with what.
  // A field that is not listed here is written by none.
  lemma FieldsWritten(r: Runtime, ev: Event, now: int)
    ensures var r' := Set(r, ev, now);
            && r'.state == (match ev
                            case Occupy(_, _, _, _) => WarmUp
                            case Merge(_) => Merged
                            case Retrieve(_) => Reclaiming
                            case Rollback(_) => Cold
                            case Stop(_) => Stopping
                            case _ => r.state)
            && r'.lastAccess == (if ev.Occupy? || ev.Mark? then now else r.lastAccess)
            && r'.lastReset == (if ev.Retrieve? || ev.Reset? then now else r.lastReset)
            && r'.marked == (ev.Occupy? || (r.marked && !ev.Rollback?))
            && r'.memory == (if ev.Occupy? then ev.mem else if ev.Rollback? then 0 else r.memory)
            && r'.milliCPUs == (if ev.Occupy? then ev.cpus else if ev.Rollback? then 0 else r.milliCPUs)
            && r'.streamMode == (if ev.Occupy? then ev.stream else r.streamMode && !ev.Rollback?)
            && r'.commitID == (if ev.Occupy? || ev.Merge? then ev.commit else if ev.Mark? then r.commitID else "")
            && r'.userID == (if EndsTenancy(ev) then "" else r.userID)
            && r'.concurrentMode == (if EndsTenancy(ev) then r.defaultConcurrentMode else r.concurrentMode)
            && (EndsTenancy(ev) ==> r'.concurrency == 0)
            && (ev.Merge? || (ev.Rollback? && r.state != WarmUp) ==> r'.concurrency == r.concurrency)
            && (ev.Occupy? || ev.Mark? ==> r'.concurrency == if r.concurrency == MAX_UINT64 then 0 else r.concurrency + 1)
            && (ev.Rollback? && r.state == WarmUp ==>
                  r'.concurrency == if r.concurrency == 0 then MAX_UINT64 else r.concurrency - 1)
            && (r'.id, r'.used, r'.abnormal, r'.defaultConcurrentMode, r'.lastLiveness)
            == (r.id, r.used, r.abnormal, r.defaultConcurrentMode, r.lastLiveness)
  {
    match ev
    case Occupy(_, _, _, _) =>
    case Merge(_) =>
    case Mark(_, _) =>
    case Rollback(_) =>
    case _ => VacatedFields(r);
  }

  predicate EndsTenancy(ev: Event) {
    ev.Retrieve? || ev.Stop? || ev.Reset?
  }

  lemma VacatedFields(r: Runtime)
    ensures Vacated(r).commitID == "" && Vacated(r).userID == "" && Vacated(r).concurrency == 0
    ensures Vacated(r) == r.(commitID := "", userID := "", concurrency := 0, concurrentMode := r.defaultConcurrentMode)
  {
  }

  // Taking a cold runtime and rolling it back restores everything a later caller
  // depends on, but not the memory, the processor share, the commit id, the mode
  // or the reservation flag: those are cleared rather than restored.
  lemma RollbackRestores(r: Runtime, take: Event, now: int, now': int)
    requires take.Occupy? || take.Merge?
    requires Available(r)
    ensures var taken := Apply(r, take, now);
            Apply(taken, Rollback(take.commit), now')
            == r.(streamMode := false, memory := 0, milliCPUs := 0, commitID := "", marked := false,
                  lastAccess := taken.lastAccess)
    ensures Apply(Apply(r, take, now), Rollback(take.commit), now').concurrency == r.concurrency
  {
  }

  /** The mutable record of one runtime.  Every method assigns the fields of the
      record one after the other, as the source does under the invocation lock. */
  class RuntimeInfo {
    const id: string
    var info: Runtime

    constructor (id: string, concurrent: bool, stream: bool, frozen: bool, memory: int, cpus: int, now: int)
      ensures this.id == id == info.id
      ensures Unused(info) && info.state == (if frozen then Merged else Closed)
      ensures info.memory == memory && info.milliCPUs == cpus && info.lastAccess == info.lastLiveness == now
      ensures info.streamMode == stream && info.concurrentMode == info.defaultConcurrentMode == concurrent
    {
      this.id := id;
      info := NewRuntime(id, concurrent, stream, false, memory, cpus, now);
      new;
      if frozen {
        info := info.(state := Merged);
      }
    }

    // Check, then set under the lock; an error leaves the record untouched.
    method CAS(ev: Event, now: int) returns (r: Outcome)
      modifies this
      ensures r == Check(old(info), ev)
      ensures info == Apply(old(info), ev, now)
    {
      hide Check, Set;
      r := Check(info, ev);
      if r.Ok? {
        SetFields(ev, now);
      }
    }

    // The fields are assigned one after the other.
    method SetFields(ev: Event, now: int)
      modifies this
      ensures info == Set(old(info), ev, now)
    {
      match ev {
        case Occupy(commit, stream, mem, cpus) =>
          info := info.(state := WarmUp, lastAccess := now, streamMode := stream);
          info := info.(memory := mem, milliCPUs := cpus);
          info := info.(concurrency := Inc(info.concurrency));
          info := info.(commitID := commit, marked := true);
        case Merge(commit) =>
          info := info.(state := Merged, commitID := commit);
        case Retrieve(_) =>
          Clear();
          info := info.(lastReset := now, state := Reclaiming);
        case Rollback(_) =>
          if info.state == WarmUp {
            info := info.(concurrency := Dec(info.concurrency));
          }
          info := info.(state := Cold, streamMode := false);
          info := info.(memory := 0, milliCPUs := 0);
          info := info.(commitID := "", marked := false);
        case Mark(_, _) =>
          info := info.(lastAccess := now);
          info := info.(concurrency := Inc(info.concurrency));
        case Stop(_) =>
          Clear();
          info := info.(state := Stopping);
        case Reset(_) =>
          Clear();
          info := info.(lastReset := now);
      }
    }

    // What the three events that end a tenancy have in common.
    method Clear()
      modifies this
      ensures info == Vacated(old(info))
    {
      info := info.(commitID := "", userID := "", concurrency := 0);
      info := info.(concurrentMode := info.defaultConcurrentMode);
    }

    method Release() returns (ok: bool)
      modifies this
      ensures ok == (old(info).concurrency > 0)
      ensures info == Released(old(info))
    {
      if info.concurrency == 0 {
        return false;
      }
      info := info.(concurrency := info.concurrency - 1);
      return true;
    }

    method Invalidate()
      modifies this
      ensures info == Invalidated(old(info))
    {
      if info.abnormal {
        return;
      }
      info := info.(abnormal := true);
    }

    method InitRunner() returns (ok: bool)
      modifies this
      ensures ok == (old(info).state == Closed)
      ensures info == RunnerUp(old(info))
    {
      if info.state != Closed {
        return false;
      }
      info := info.(state := Cold);
      info := info.(abnormal := false);
      return true;
    }

    method StopRunner()
      modifies this
      ensures info == RunnerDown(old(info))
    {
      if info.state == Merged || info.state == Reclaiming {
        return;
      }
      info := info.(state := Closed);
    }

    // The refusals leave the record as it was: a missing commit id is adopted only
    // by a process that then passes the comparison.
    method InitRuntime(commit: string, singleMode: bool) returns (ok: bool)
      modifies this
      ensures ok == AcceptsRuntime(old(info), commit)
      ensures info == RuntimeUp(old(info), commit, singleMode)
    {
      if info.state != Cold && info.state != WarmUp {
        return false;
      }
      var adopted := if |info.commitID| == 0 then commit else info.commitID;
      if adopted != commit {
        return false;
      }
      var concurrent := info.concurrentMode;
      if concurrent && singleMode {
        concurrent := false;
      }
      info := info.(commitID := adopted, concurrentMode := concurrent, state := Warm, used := true);
      return true;
    }

    method StopRuntime()
      modifies this
      ensures info == RuntimeDown(old(info))
    {
      info := info.(concurrency := 0);
      info := info.(streamMode := false);
      info := info.(state := Stopped);
    }
  }
}
