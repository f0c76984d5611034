/** The store behind one request's log: a bounded buffer fed by two streams and by the
    system's own lines, with a wait group that opens when both streams have ended.
    The sections that run under the store's mutex are the atomic actions; a call made
    of several of them may be interleaved with other calls between any two.
 */
module LogStore {
  import opened Bytes
  import opened Options

  const CAPACITY: int := 4096

  datatype Stream = Stdout | Stderr

  // closed, outdone and errdone are the three bits of the flags; wait is the counter of
  // the wait group. The buffer is gone once it has been handed out.
  datatype State = State(logbuf: Option<seq<byte>>, remain: int, closed: bool, outdone: bool, errdone: bool, wait: int)

  datatype Action =
    | Append(buf: seq<byte>, force: bool)
    | Finish(stream: Stream)
    | FinishAll
    | Shut

  const Initial: State := State(Some([]), CAPACITY, false, false, false, 2)

  // ---------------------------------------------------------------------------
  // The sections under the mutex

  // Bytes taken from a buffer, and the newline put after a buffer that is cut.
  function Taken(buf: seq<byte>, force: bool, remain: int): (r: seq<byte>) {
    if remain <= 0 && !force then []
    else if force || |buf| <= remain then buf
    else buf[..remain] + if buf[remain - 1] != LF then [LF] else []
  }

  function Added(s: State, buf: seq<byte>, force: bool): State {
    if s.logbuf.None? then s else
      var t := Taken(buf, force, s.remain);
      s.(logbuf := Some(s.logbuf.value + t), remain := s.remain - |t|)
  }

  function Finished(s: State, stream: Stream): State {
    match stream
    case Stdout => if s.outdone then s else s.(wait := s.wait - 1, outdone := true)
    case Stderr => if s.errdone then s else s.(wait := s.wait - 1, errdone := true)
  }

  function Next(s: State, act: Action): State {
    match act
    case Append(buf, force) => Added(s, buf, force)
    case Finish(stream) => Finished(s, stream)
    case FinishAll => Finished(Finished(s, Stderr), Stdout)
    case Shut => Finished(Finished(s.(closed := true), Stderr), Stdout).(logbuf := None)
  }

  function Run(acts: seq<Action>): State {
    if acts == [] then Initial else Next(Run(acts[..|acts| - 1]), acts[|acts| - 1])
  }

  // ---------------------------------------------------------------------------
  // What holds after every sequence of actions

  function Bit(b: bool): int {
    if b then 1 else 0
  }

  predicate Inv(s: State) {
    && (s.logbuf.Some? ==> |s.logbuf.value| + s.remain == CAPACITY)
    && (s.closed <==> s.logbuf.None?)
    && (s.closed ==> s.outdone && s.errdone)
    && s.wait == 2 - Bit(s.outdone) - Bit(s.errdone)
  }

  lemma {:induction false} InvRun(acts: seq<Action>)
    ensures Inv(Run(acts))
  {
    if acts != [] {
      InvRun(acts[..|acts| - 1]);
    }
  }

  predicate Ends(act: Action, stream: Stream) {
    act == Finish(stream) || act == FinishAll || act == Shut
  }

  ghost predicate Ended(acts: seq<Action>, stream: Stream) {
    exists act :: act in acts && Ends(act, stream)
  }

  // The wait group never goes below zero, and it opens exactly when each stream has
  // been ended by a mark of its own, by LogDone or by Close.
  lemma {:induction false} WaitOpensIff(acts: seq<Action>)
    ensures Run(acts).outdone <==> Ended(acts, Stdout)
    ensures Run(acts).errdone <==> Ended(acts, Stderr)
    ensures Run(acts).wait >= 0
    ensures Run(acts).wait == 0 <==> Ended(acts, Stdout) && Ended(acts, Stderr)
  {
    InvRun(acts);
    if acts != [] {
      var init, last := acts[..|acts| - 1], acts[|acts| - 1];
      WaitOpensIff(init);
      FlagStep(Run(init), last);
      assert acts == init + [last];
      assert forall act :: act in acts <==> act in init || act == last;
      hide Next, Ends;
    }
  }

  lemma FlagStep(s: State, act: Action)
    ensures Next(s, act).outdone <==> s.outdone || Ends(act, Stdout)
    ensures Next(s, act).errdone <==> s.errdone || Ends(act, Stderr)
  {
  }

  // What calls decide from outside the mutex stays true until they get it: flags are
  // never cleared, the budget never grows, and nothing changes after Close.
  lemma NothingReopens(s: State, act: Action)
    requires Inv(s)
    ensures s.closed ==> Next(s, act) == s
    ensures (s.outdone ==> Next(s, act).outdone) && (s.errdone ==> Next(s, act).errdone)
    ensures Next(s, act).remain <= s.remain
    ensures act.Append? && !act.force && s.remain <= 0 ==> Next(s, act) == s
  {
    if act.Append? && !act.force && s.remain <= 0 && s.logbuf.Some? {
      assert s.logbuf.value + [] == s.logbuf.value;
    }
  }

  // What a call tests before it takes the mutex, to leave the section out.
  predicate Skips(s: State, act: Action) {
    match act
    case Append(_, force) => s.closed || (s.remain <= 0 && !force)
    case Finish(Stdout) => s.closed || s.outdone
    case Finish(Stderr) => s.closed || s.errdone
    case FinishAll => false
    case Shut => s.closed
  }

  // A section left out on the strength of a test made at any earlier moment would have
  // changed nothing, whatever other calls did in between.  So every interleaving of
  // calls has the effect of a sequence of whole sections.
  lemma {:induction false} SkippedChangesNothing(acts: seq<Action>, later: seq<Action>, act: Action)
    requires Skips(Run(acts), act)
    ensures Skips(Run(acts + later), act) && Next(Run(acts + later), act) == Run(acts + later)
    decreases |later|
  {
    if later == [] {
      assert acts + later == acts;
    } else {
      var front, last := later[..|later| - 1], later[|later| - 1];
      SkippedChangesNothing(acts, front, act);
      assert (acts + later)[..|acts + later| - 1] == acts + front;
      InvRun(acts + front);
      NothingReopens(Run(acts + front), last);
      SkipKept(Run(acts + front), last, act);
    }
    InvRun(acts + later);
    NothingReopens(Run(acts + later), act);
  }

  lemma SkipKept(s: State, other: Action, act: Action)
    requires Inv(s) && Skips(s, act)
    ensures Skips(Next(s, other), act)
  {
    NothingReopens(s, other);
  }

  // The buffer is handed out once: the first Shut takes it, and a later one, of a call
  // that had made its test before, finds none.
  lemma {:induction false} HandedOutOnce(acts: seq<Action>)
    ensures Run(acts).logbuf.None? <==> Shut in acts
  {
    if acts != [] {
      HandedOutOnce(acts[..|acts| - 1]);
      assert acts == acts[..|acts| - 1] + [acts[|acts| - 1]];
    }
  }

  // ---------------------------------------------------------------------------
  // Which bytes are kept

  function TextOf(act: Action): seq<byte> {
    if act.Append? then act.buf else []
  }

  // Everything offered to the buffer.
  function Offered(acts: seq<Action>): seq<byte> {
    if acts == [] then [] else Offered(acts[..|acts| - 1]) + TextOf(acts[|acts| - 1])
  }

  // What was written with force.
  function Forced(acts: seq<Action>): seq<byte> {
    if acts == [] then [] else Forced(acts[..|acts| - 1]) + ForcedText(acts[|acts| - 1])
  }

  function ForcedText(act: Action): seq<byte> {
    if act.Append? && act.force then act.buf else []
  }

  // The action that takes the text beyond the capacity.
  predicate CutsAt(acts: seq<Action>, k: nat) {
    k < |acts| && |Offered(acts[..k])| <= CAPACITY < |Offered(acts[..k + 1])|
  }

  // Of the action at the cut a forced text is kept whole; otherwise what fits is kept
  // and closed with a newline, and nothing at all if there was no room.
  function AtCut(act: Action, room: int): seq<byte>
    requires room >= 0
  {
    if !act.Append? then []
    else if act.force then act.buf
    else if room == 0 || |act.buf| <= room then []
    else act.buf[..room] + if act.buf[room - 1] != LF then [LF] else []
  }

  ghost predicate Open(acts: seq<Action>) {
    Shut !in acts
  }

  // While all that was offered fits, the buffer is all that was offered. Beyond that it
  // is everything before the cut, the part kept at the cut, and the forced texts after.
  lemma {:induction false} Stored(acts: seq<Action>)
    requires Open(acts)
    ensures Run(acts).logbuf.Some?
    ensures |Offered(acts)| <= CAPACITY ==> Run(acts).logbuf.value == Offered(acts)
    ensures |Offered(acts)| > CAPACITY ==> exists k: nat :: StoredFrom(acts, k)
  {
    if acts != [] {
      var init, last := acts[..|acts| - 1], acts[|acts| - 1];
      Stored(init);
      InvRun(init);
      assert last in acts;
      hide Next, StoredFrom;
      if |Offered(init)| <= CAPACITY {
        if |Offered(acts)| > CAPACITY {
          CutHere(acts);
          StoredOpen(acts, |acts| - 1);
        } else {
          Fits(Run(init), last);
        }
      } else {
        var k: nat :| StoredFrom(init, k);
        CutEarlier(acts, k);
        StoredOpen(acts, k);
      }
    }
  }

  lemma StoredOpen(acts: seq<Action>, k: nat)
    requires StoredFrom(acts, k)
    ensures Run(acts).logbuf.Some? && |Offered(acts)| > CAPACITY
  {
    OfferedGrows(acts, k + 1);
  }

  lemma {:induction false} OfferedGrows(acts: seq<Action>, k: nat)
    requires k <= |acts|
    ensures |Offered(acts[..k])| <= |Offered(acts)|
  {
    if k < |acts| {
      OfferedGrows(acts[..|acts| - 1], k);
      assert acts[..|acts| - 1][..k] == acts[..k];
    } else {
      assert acts[..k] == acts;
    }
  }

  function UpToCut(acts: seq<Action>, k: nat): seq<byte>
    requires CutsAt(acts, k)
  {
    Offered(acts[..k]) + AtCut(acts[k], CAPACITY - |Offered(acts[..k])|)
  }

  ghost predicate StoredFrom(acts: seq<Action>, k: nat) {
    && CutsAt(acts, k)
    && Run(acts).logbuf == Some(UpToCut(acts, k) + Forced(acts[k + 1..]))
    && Run(acts).remain <= 0
  }

  // One step before, at and after the cut.
  lemma Fits(s: State, act: Action)
    requires s.logbuf.Some? && !act.Shut? && |TextOf(act)| <= s.remain
    ensures Next(s, act).logbuf == Some(s.logbuf.value + TextOf(act))
  {
    assert s.logbuf.value + [] == s.logbuf.value;
  }

  lemma Crosses(s: State, act: Action)
    requires s.logbuf.Some? && act.Append? && 0 <= s.remain < |act.buf|
    ensures Next(s, act).logbuf == Some(s.logbuf.value + AtCut(act, s.remain)) && Next(s, act).remain <= 0
  {
    assert Taken(act.buf, act.force, s.remain) == AtCut(act, s.remain);
  }

  lemma Beyond(s: State, act: Action)
    requires s.logbuf.Some? && !act.Shut? && s.remain <= 0
    ensures Next(s, act).logbuf == Some(s.logbuf.value + ForcedText(act)) && Next(s, act).remain <= 0
  {
    assert s.logbuf.value + [] == s.logbuf.value;
  }

  lemma CutHere(acts: seq<Action>)
    requires acts != [] && !acts[|acts| - 1].Shut?
    requires var init := acts[..|acts| - 1];
             |Offered(init)| <= CAPACITY < |Offered(acts)| && Run(init).logbuf == Some(Offered(init)) && Inv(Run(init))
    ensures StoredFrom(acts, |acts| - 1)
  {
    hide Next, AtCut;
    var k := |acts| - 1;
    var s := Run(acts[..k]);
    assert acts[..k + 1] == acts;
    assert Forced(acts[k + 1..]) == [];
    Crosses(s, acts[k]);
    var kept := s.logbuf.value + AtCut(acts[k], s.remain);
    assert kept + [] == kept;
  }

  lemma ForcedStep(acts: seq<Action>, act: Action)
    ensures Forced(acts + [act]) == Forced(acts) + ForcedText(act)
  {
    assert (acts + [act])[..|acts|] == acts;
  }

  lemma CutEarlier(acts: seq<Action>, k: nat)
    requires acts != [] && !acts[|acts| - 1].Shut? && StoredFrom(acts[..|acts| - 1], k)
    ensures StoredFrom(acts, k)
  {
    hide Next, UpToCut, CutsAt, Offered, ForcedText;
    var n := |acts| - 1;
    var init, last := acts[..n], acts[n];
    SameCut(acts, n, k);
    Beyond(Run(init), last);
    var front, rest := UpToCut(acts, k), init[k + 1..];
    assert acts[k + 1..] == rest + [last];
    ForcedStep(rest, last);
    hide Forced;
    assert front + (Forced(rest) + ForcedText(last)) == front + Forced(rest) + ForcedText(last);
  }

  lemma SameCut(acts: seq<Action>, n: nat, k: nat)
    requires n <= |acts| && CutsAt(acts[..n], k)
    ensures k < n && CutsAt(acts, k) && UpToCut(acts[..n], k) == UpToCut(acts, k)
  {
    hide Offered, AtCut;
    assert acts[..n][..k] == acts[..k] && acts[..n][..k + 1] == acts[..k + 1] && acts[..n][k] == acts[k];
  }

  // ---------------------------------------------------------------------------
  // How much room ordinary text gets

  // Bytes put into the buffer by the ordinary, unforced writes of a run.
  function Unforced(acts: seq<Action>): nat {
    if acts == [] then 0 else Unforced(acts[..|acts| - 1]) + Ordinary(Run(acts[..|acts| - 1]), acts[|acts| - 1])
  }

  function Ordinary(s: State, act: Action): nat {
    if act.Append? && !act.force && s.logbuf.Some? then |Taken(act.buf, false, s.remain)| else 0
  }

  lemma StepLength(s: State, act: Action)
    requires Inv(s)
    ensures s.logbuf.None? ==> Next(s, act).logbuf.None? && Ordinary(s, act) == 0
    ensures Ordinary(s, act) > 0 ==> s.logbuf.Some? && |s.logbuf.value| + Ordinary(s, act) <= CAPACITY + 1
    ensures s.logbuf.Some? && !act.Shut? ==> Next(s, act).logbuf.Some?
    ensures s.logbuf.Some? && !act.Shut? ==>
              |Next(s, act).logbuf.value| == |s.logbuf.value| + Ordinary(s, act) + |ForcedText(act)|
    ensures act.Shut? ==> Next(s, act).logbuf.None? && Ordinary(s, act) == 0
  {
  }

  // Whatever else is written, the unforced writes add at most the capacity and one
  // newline; the buffer holds those bytes and the forced ones.
  lemma {:induction false} UnforcedBounded(acts: seq<Action>)
    ensures Unforced(acts) <= CAPACITY + 1
    ensures Open(acts) ==> Run(acts).logbuf.Some? && |Run(acts).logbuf.value| == Unforced(acts) + |Forced(acts)|
    ensures Run(acts).logbuf.Some? ==> Unforced(acts) <= |Run(acts).logbuf.value|
  {
    if acts != [] {
      UnforcedBounded(acts[..|acts| - 1]);
      InvRun(acts[..|acts| - 1]);
      assert acts[|acts| - 1] in acts;
      StepLength(Run(acts[..|acts| - 1]), acts[|acts| - 1]);
      hide Next, Ordinary, ForcedText;
    }
  }

  // The extra byte does occur: one byte too many without a newline.
  lemma BoundReached()
    ensures exists acts :: Unforced(acts) == CAPACITY + 1
  {
    var buf: seq<byte> := seq(CAPACITY + 1, i => NUL);
    var acts := [Append(buf, false)];
    assert acts[..0] == [];
    assert Unforced(acts) == |Taken(buf, false, CAPACITY)|;
  }

  // ---------------------------------------------------------------------------
  // The store

  datatype Reply = Written(n: nat) | Closed | FileError(n: nat)

  class LogStatStore {
    var logbuf: Option<seq<byte>>
    var remain: int
    var closed: bool
    var outdone: bool
    var errdone: bool
    var wait: int
    var hasFile: bool

    function View(): State
      reads this
    {
      State(logbuf, remain, closed, outdone, errdone, wait)
    }

    ghost predicate Valid()
      reads this
    {
      Inv(View())
    }

    constructor (hasFile: bool)
      ensures Valid() && View() == Initial && this.hasFile == hasFile
    {
      logbuf, remain, closed, outdone, errdone, wait := Some([]), CAPACITY, false, false, false, 2;
      this.hasFile := hasFile;
    }

    method AppendLogbuf(buf: seq<byte>, force: bool)
      requires Valid()
      modifies this`logbuf, this`remain
      ensures Valid() && View() == Next(old(View()), Append(buf, force))
    {
      NothingReopens(View(), Append(buf, force));
      if logbuf.None? || (remain <= 0 && !force) {
        return;
      }
      var to := |buf|;
      if !force && to > remain {
        to := remain;
      }
      if to <= 0 {
        assert buf == [] && logbuf.value + [] == logbuf.value;
        return;
      }
      logbuf := Some(logbuf.value + buf[..to]);
      remain := remain - to;
      if to < |buf| {
        if buf[to - 1] != LF {
          logbuf := Some(logbuf.value + [LF]);
          remain := remain - 1;
        }
      }
      assert logbuf.value == old(logbuf).value + Taken(buf, force, old(remain));
    }

    method SetDone(stream: Stream)
      requires Valid()
      modifies this`outdone, this`errdone, this`wait
      ensures Valid() && View() == Next(old(View()), Finish(stream)) && wait >= 0
    {
      match stream
      case Stdout =>
        if outdone {
          return;
        }
        wait := wait - 1;
        outdone := true;
      case Stderr =>
        if errdone {
          return;
        }
        wait := wait - 1;
        errdone := true;
    }

    // One call with no other in between; the file's answer is an input.
    method WriteStdLog(from: Stream, buf: seq<byte>, eof: bool, file: Reply) returns (r: Reply)
      requires Valid()
      modifies this`logbuf, this`remain, this`outdone, this`errdone, this`wait
      ensures Valid()
      ensures View() == if old(closed) then old(View()) else
                          var s := if eof then Next(old(View()), Finish(from)) else old(View());
                          Next(s, Append(buf, false))
      ensures r == if old(closed) then Closed else if buf == [] then Written(0) else if hasFile then file else Written(|buf|)
    {
      if closed {
        return Closed;
      }
      if eof {
        SetDone(from);
      }
      if |buf| == 0 {
        assert logbuf.value + [] == logbuf.value;
        return Written(0);
      }
      AppendLogbuf(buf, false);
      if !hasFile {
        return Written(|buf|);
      }
      return file;
    }

    method WriteFunctionLog(log: seq<byte>, file: Reply) returns (r: Reply)
      requires Valid()
      modifies this`logbuf, this`remain
      ensures Valid()
      ensures View() == if old(closed) then old(View()) else Next(old(View()), Append(log, true))
      ensures r == if old(closed) then Closed else if hasFile then file else Written(|log|)
    {
      if closed {
        return Closed;
      }
      AppendLogbuf(log, true);
      if !hasFile {
        return Written(|log|);
      }
      return file;
    }

    method LogDone(set_: bool) returns (done: bool)
      requires Valid()
      modifies this`outdone, this`errdone, this`wait
      ensures Valid() && View() == if set_ then Next(old(View()), FinishAll) else old(View())
      ensures done <==> wait == 0
    {
      if !set_ {
        return outdone && errdone;
      }
      SetDone(Stderr);
      SetDone(Stdout);
      return true;
    }

    // The section of Close: a call that made its test before another one closed the
    // store finds no buffer and gets an empty text.
    method CloseLocked() returns (data: seq<byte>)
      requires Valid()
      modifies this
      ensures Valid() && View() == Next(old(View()), Shut) && wait == 0 && hasFile == old(hasFile)
      ensures data == if old(logbuf).Some? then old(logbuf).value else []
    {
      NothingReopens(View(), Shut);
      if !closed {
        closed := true;
        if !errdone {
          wait := wait - 1;
          errdone := true;
        }
        if !outdone {
          wait := wait - 1;
          outdone := true;
        }
      }
      if logbuf.None? {
        return [];
      }
      data := logbuf.value;
      logbuf := None;
    }

    // Uninterrupted, the first call gets the buffer and every later one is refused.
    method Close() returns (data: Option<seq<byte>>)
      requires Valid()
      modifies this
      ensures Valid() && View() == Next(old(View()), Shut) && wait == 0
      ensures data == if old(closed) then None else old(logbuf)
      ensures hasFile == (old(hasFile) && old(closed))
    {
      NothingReopens(View(), Shut);
      if closed {
        return None;
      }
      var text := CloseLocked();
      hasFile := false;
      return Some(text);
    }
  }
}
