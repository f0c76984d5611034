/** Splitting a function's output stream into log chunks.

    The reader keeps one buffer.  After each read it scans the buffer in place: a
    zero byte ends the request's log and is shifted out, a newline ends a line, and a
    buffer that is full without either is cut with a newline of its own.  The result
    is compared with a splitter that looks at one byte at a time and has no buffer.

    The store behind the reader takes a whole chunk or reports an error; the reader
    treats both alike, so only the chunks offered are recorded.
 */
module LogSplitter {
  import opened Bytes

  datatype Call = Call(chunk: seq<byte>, eof: bool)

  // ---------------------------------------------------------------------------
  // The byte-at-a-time splitter

  datatype Split = Split(calls: seq<Call>, tail: seq<byte>)

  function Feed(limit: nat, st: Split, b: byte): Split {
    if b == NUL then Split(st.calls + [Call(st.tail, true)], [])
    else if b == LF then Split(st.calls + [Call(st.tail + [LF], false)], [])
    else if |st.tail| + 1 == limit then Split(st.calls + [Call(st.tail + [b, LF], false)], [])
    else Split(st.calls, st.tail + [b])
  }

  function FeedAll(limit: nat, st: Split, s: seq<byte>): Split {
    if s == [] then st else Feed(limit, FeedAll(limit, st, s[..|s| - 1]), s[|s| - 1])
  }

  predicate Plain(s: seq<byte>) {
    forall i :: 0 <= i < |s| ==> s[i] != NUL && s[i] != LF
  }

  predicate Room(limit: nat, st: Split) {
    |st.tail| < limit && Plain(st.tail)
  }

  lemma {:induction false} FeedAllConcat(limit: nat, st: Split, a: seq<byte>, b: seq<byte>)
    ensures FeedAll(limit, FeedAll(limit, st, a), b) == FeedAll(limit, st, a + b)
  {
    if b == [] {
      assert a + b == a;
    } else {
      var n := |b| - 1;
      FeedAllConcat(limit, st, a, b[..n]);
      assert (a + b)[..|a| + n] == a + b[..n];
    }
  }

  // The unsent tail never fills the buffer and holds no separator.
  lemma {:induction false} RoomKept(limit: nat, st: Split, s: seq<byte>)
    requires Room(limit, st)
    ensures Room(limit, FeedAll(limit, st, s))
  {
    if s != [] {
      RoomKept(limit, st, s[..|s| - 1]);
    }
  }

  lemma {:induction false} PlainTail(limit: nat, calls: seq<Call>, s: seq<byte>)
    requires Plain(s) && |s| < limit
    ensures FeedAll(limit, Split(calls, []), s) == Split(calls, s)
  {
    hide Feed;
    if s != [] {
      var n := |s| - 1;
      PlainTail(limit, calls, s[..n]);
      PlainByte(limit, calls, s[..n], s[n]);
      assert s[..n] + [s[n]] == s;
    }
  }

  lemma PlainByte(limit: nat, calls: seq<Call>, tail: seq<byte>, b: byte)
    requires b != NUL && b != LF && |tail| + 1 < limit
    ensures Feed(limit, Split(calls, tail), b) == Split(calls, tail + [b])
  {
  }

  // ---------------------------------------------------------------------------
  // What the chunks are

  predicate WellCut(limit: nat, c: Call) {
    if c.eof then Plain(c.chunk) && |c.chunk| < limit
    else 0 < |c.chunk| <= limit + 1 && c.chunk[|c.chunk| - 1] == LF && Plain(c.chunk[..|c.chunk| - 1])
  }

  lemma {:induction false} ChunksWellCut(limit: nat, st: Split, s: seq<byte>)
    requires Room(limit, st) && forall k :: 0 <= k < |st.calls| ==> WellCut(limit, st.calls[k])
    ensures forall k :: 0 <= k < |FeedAll(limit, st, s).calls| ==> WellCut(limit, FeedAll(limit, st, s).calls[k])
  {
    if s != [] {
      var n := |s| - 1;
      ChunksWellCut(limit, st, s[..n]);
      RoomKept(limit, st, s[..n]);
      var mid := FeedAll(limit, st, s[..n]);
      assert (mid.tail + [LF])[..|mid.tail|] == mid.tail;
      assert (mid.tail + [s[n], LF])[..|mid.tail| + 1] == mid.tail + [s[n]];
    }
  }

  // The bytes of the stream a chunk stands for: an end-of-request chunk had its zero
  // byte dropped, and a chunk longer than the buffer ends in an added newline.
  function Original(limit: nat, c: Call): seq<byte> {
    if c.eof then c.chunk + [NUL]
    else if |c.chunk| == limit + 1 then c.chunk[..limit]
    else c.chunk
  }

  function Originals(limit: nat, calls: seq<Call>): seq<byte> {
    if calls == [] then [] else Originals(limit, calls[..|calls| - 1]) + Original(limit, calls[|calls| - 1])
  }

  // Nothing is lost, duplicated or reordered: the chunks and the unsent tail spell the
  // stream.
  lemma {:induction false} ChunksSpellStream(limit: nat, st: Split, s: seq<byte>)
    requires Room(limit, st)
    ensures var e := FeedAll(limit, st, s);
            Originals(limit, e.calls) + e.tail == Originals(limit, st.calls) + st.tail + s
  {
    if s == [] {
      assert st.tail + s == st.tail;
    } else {
      var n := |s| - 1;
      var b := s[n];
      assert s == s[..n] + [b];
      ChunksSpellStream(limit, st, s[..n]);
      RoomKept(limit, st, s[..n]);
      SpellOne(limit, FeedAll(limit, st, s[..n]), b);
    }
  }

  lemma SpellOne(limit: nat, st: Split, b: byte)
    requires Room(limit, st)
    ensures var e := Feed(limit, st, b);
            Originals(limit, e.calls) + e.tail == (Originals(limit, st.calls) + st.tail) + [b]
  {
    var e := Feed(limit, st, b);
    if e.calls != st.calls {
      assert e.calls[..|e.calls| - 1] == st.calls;
      var last := e.calls[|e.calls| - 1];
      assert Original(limit, last) == st.tail + [b];
    }
  }

  // ---------------------------------------------------------------------------
  // The buffered reader

  // Without the byte at i.
  function Dropped(s: seq<byte>, i: nat): (r: seq<byte>)
    requires i < |s|
    ensures |r| == |s| - 1
  {
    s[..i] + s[i + 1..]
  }

  lemma DroppedFront(s: seq<byte>, i: nat, from: nat)
    requires from <= i < |s|
    ensures Dropped(s, i)[from..i] == s[from..i]
  {
  }

  lemma SliceOfFront(buf: array<byte>, n: nat, from: nat, to: nat)
    requires from <= to <= n <= buf.Length
    ensures buf[..n][from..to] == buf[from..to]
  {
  }

  class Dispatcher {
    const limit: nat
    const buf: array<byte>
    var next: nat
    var calls: seq<Call>

    // The buffer has one byte of slack for an added newline; what is kept between
    // reads is a tail without separators that leaves room for the next read.
    ghost predicate Valid()
      reads this, buf
    {
      limit > 0 && buf.Length == limit + 1 && next < limit && Plain(buf[..next])
    }

    ghost function View(): Split
      requires Valid()
      reads this, buf
    {
      Split(calls, buf[..next])
    }

    constructor (limit: nat)
      requires limit > 0
      ensures Valid() && View() == Split([], []) && this.limit == limit && fresh(buf)
    {
      this.limit := limit;
      buf := new byte[limit + 1](_ => 0);
      next, calls := 0, [];
    }

    method WriteStdLog(chunk: seq<byte>, eof: bool)
      modifies this`calls
      ensures calls == old(calls) + [Call(chunk, eof)]
    {
      calls := calls + [Call(chunk, eof)];
    }

    // Move buf[from..end] down to `to`.
    method Shift(to: nat, from: nat, end: nat)
      requires to <= from <= end <= buf.Length
      modifies buf
      ensures buf[..to] == old(buf[..to])
      ensures buf[to..to + (end - from)] == old(buf[from..end])
    {
      ghost var was := buf[..];
      for j := 0 to end - from
        invariant forall k :: 0 <= k < to ==> buf[k] == was[k]
        invariant forall k :: to <= k < to + j ==> buf[k] == was[k + from - to]
        invariant forall k :: from + j <= k < buf.Length ==> buf[k] == was[k]
      {
        buf[to + j] := buf[from + j];
      }
      assert was[..to] == old(buf[..to]) && was[from..end] == old(buf[from..end]);
    }

    // Drop the byte at i.
    method Remove(i: nat)
      requires i < next <= buf.Length
      modifies buf, this`next
      ensures next == old(next) - 1
      ensures buf[..next] == Dropped(old(buf[..next]), i)
    {
      ghost var was := buf[..next];
      assert was[..i] == buf[..i] && was[i + 1..] == buf[i + 1..next];
      Shift(i, i + 1, next);
      next := next - 1;
      assert buf[..next] == buf[..i] + buf[i..next];
    }

    // Put the bytes of one read behind the tail.
    method Receive(data: seq<byte>)
      requires next + |data| < buf.Length
      modifies buf, this`next
      ensures next == old(next) + |data|
      ensures buf[..next] == old(buf[..next]) + data
    {
      for j := 0 to |data|
        invariant next == old(next)
        invariant forall k :: 0 <= k < next ==> buf[k] == old(buf[k])
        invariant forall k :: 0 <= k < j ==> buf[next + k] == data[k]
      {
        buf[next + j] := data[j];
      }
      next := next + |data|;
      ghost var all := old(buf[..next]) + data;
      assert forall k :: old(next) <= k < next ==> buf[k] == data[k - old(next)];
      assert forall k :: 0 <= k < next ==> buf[k] == all[k];
    }

    // One read: scan the buffer, hand out every finished chunk, keep the rest.
    method OnRead(data: seq<byte>)
      requires Valid() && |data| <= limit - next
      modifies this`next, this`calls, buf
      ensures Valid()
      ensures View() == FeedAll(limit, old(View()), data)
    {
      hide FeedAll, Agrees;
      ghost var start := Split(calls, []);
      PlainTail(limit, calls, buf[..next]);
      FeedAllConcat(limit, start, buf[..next], data);
      Receive(data);
      ghost var all := buf[..next];
      RoomKept(limit, start, all);
      var lastln, nzero := Scan(all);
      ghost var cur := buf[..next];
      AtEnd(limit, start, all, calls, cur, lastln, nzero);
      if nzero == 0 && lastln < 0 {
        if next == limit {
          buf[next] := LF;
          assert buf[..next + 1] == cur + [LF];
          WriteStdLog(buf[..next + 1], false);
          next := 0;
        }
        return;
      }
      Shift(0, lastln + 1, next);
      next := next - lastln - 1;
      assert buf[..next] == cur[lastln + 1..];
    }

    // The reading loop, with the connection delivering at most sizes[k] bytes at the
    // k-th read and never more than the room offered.  However the stream is cut into
    // reads, the outcome is that of the byte-at-a-time splitter on what was read, and
    // every read offers room, so a read that can deliver makes progress.
    method Read(input: seq<byte>, sizes: seq<nat>) returns (used: nat)
      requires Valid()
      modifies this`next, this`calls, buf
      ensures Valid() && used <= |input|
      ensures View() == FeedAll(limit, old(View()), input[..used])
      ensures (forall k :: 0 <= k < |sizes| ==> sizes[k] > 0) ==> used == |input| || used >= |sizes|
    {
      used := 0;
      for k := 0 to |sizes|
        invariant Valid() && used <= |input|
        invariant View() == FeedAll(limit, old(View()), input[..used])
        invariant (forall j :: 0 <= j < |sizes| ==> sizes[j] > 0) ==> used == |input| || used >= k
      {
        var n := sizes[k];
        if n > limit - next {
          n := limit - next;
        }
        if n > |input| - used {
          n := |input| - used;
        }
        FeedAllConcat(limit, old(View()), input[..used], input[used..used + n]);
        assert input[..used + n] == input[..used] + input[used..used + n];
        OnRead(input[used..used + n]);
        used := used + n;
      }
    }

    method Scan(ghost all: seq<byte>) returns (lastln: int, nzero: nat)
      requires limit > 0 && buf.Length == limit + 1 && next <= limit && all == buf[..next]
      modifies this`next, this`calls, buf
      ensures next <= limit
      ensures Agrees(limit, Split(old(calls), []), all, calls, buf[..next], next, lastln, nzero)
    {
      hide FeedAll, Agrees, Dropped;
      ghost var start := Split(calls, []);
      nzero, lastln := 0, -1;
      var i := 0;
      AgreesAtStart(limit, start, all);
      while i < next
        invariant 0 <= i <= next <= limit
        invariant -1 <= lastln < i
        invariant Agrees(limit, start, all, calls, buf[..next], i, lastln, nzero)
        decreases next - i
      {
        ghost var cur := buf[..next];
        assert cur[i] == buf[i];
        if buf[i] == NUL {
          AgreesAfterNul(limit, start, all, calls, cur, i, lastln, nzero);
          DroppedFront(cur, i, lastln + 1);
          nzero := nzero + 1;
          Remove(i);
          i := i - 1;
          SliceOfFront(buf, next, lastln + 1, i + 1);
          WriteStdLog(buf[lastln + 1..i + 1], true);
          lastln := i;
        } else if buf[i] == LF {
          AgreesAfterLine(limit, start, all, calls, cur, i, lastln, nzero);
          SliceOfFront(buf, next, lastln + 1, i + 1);
          WriteStdLog(buf[lastln + 1..i + 1], false);
          lastln := i;
        } else {
          AgreesAfterPlain(limit, start, all, calls, cur, i, lastln, nzero);
        }
        i := i + 1;
      }
    }
  }

  // Where the scan and the splitter stand after the first i bytes kept and nzero
  // bytes dropped: the splitter's tail is what lies after the last cut, unless the
  // buffer is full and was never cut, which the splitter has just cut itself.
  ghost predicate Agrees(limit: nat, start: Split, all: seq<byte>,
                         calls: seq<Call>, cur: seq<byte>, i: int, lastln: int, nzero: nat)
  {
    && -1 <= lastln < i <= |cur|
    && |cur| + nzero == |all| <= limit
    && cur[i..] == all[i + nzero..]
    && var st := FeedAll(limit, start, all[..i + nzero]);
       || st == Split(calls, cur[lastln + 1..i])
       || (i == limit && nzero == 0 && lastln == -1 && st == Split(calls + [Call(cur + [LF], false)], []))
  }

  lemma AgreesAtStart(limit: nat, start: Split, all: seq<byte>)
    requires start.tail == [] && |all| <= limit
    ensures Agrees(limit, start, all, start.calls, all, 0, -1, 0)
  {
    assert all[..0] == [] && all[0..] == all;
  }

  // When the scan is through, the splitter's tail is what lies after the last cut,
  // unless the buffer is full without one.
  lemma AtEnd(limit: nat, start: Split, all: seq<byte>, calls: seq<Call>, cur: seq<byte>, lastln: int, nzero: nat)
    requires Agrees(limit, start, all, calls, cur, |cur|, lastln, nzero) && Room(limit, FeedAll(limit, start, all))
    ensures -1 <= lastln < |cur|
    ensures FeedAll(limit, start, all)
         == if nzero == 0 && lastln < 0 && |cur| == limit then Split(calls + [Call(cur + [LF], false)], [])
            else Split(calls, cur[lastln + 1..])
  {
    hide FeedAll;
    assert all[..|all|] == all && cur[lastln + 1..|cur|] == cur[lastln + 1..];
  }

  lemma NextByte(limit: nat, start: Split, all: seq<byte>, calls: seq<Call>, cur: seq<byte>, i: nat, lastln: int, nzero: nat)
    requires i < |cur| && Agrees(limit, start, all, calls, cur, i, lastln, nzero)
    ensures cur[i] == all[i + nzero] && cur[i + 1..] == all[i + 1 + nzero..]
    ensures FeedAll(limit, start, all[..i + 1 + nzero]) == Feed(limit, Split(calls, cur[lastln + 1..i]), cur[i])
  {
    var upTo := all[..i + 1 + nzero];
    assert upTo[..|upTo| - 1] == all[..i + nzero];
    assert cur[i..][0] == all[i + nzero..][0];
    assert cur[i..][1..] == all[i + nzero..][1..];
  }

  lemma AgreesAfterPlain(limit: nat, start: Split, all: seq<byte>, calls: seq<Call>, cur: seq<byte>, i: nat, lastln: int, nzero: nat)
    requires i < |cur| && Agrees(limit, start, all, calls, cur, i, lastln, nzero)
    requires cur[i] != NUL && cur[i] != LF
    ensures Agrees(limit, start, all, calls, cur, i + 1, lastln, nzero)
  {
    hide FeedAll, Feed;
    NextByte(limit, start, all, calls, cur, i, lastln, nzero);
    PlainFed(limit, calls, cur, i, lastln);
    AgreesFrom(limit, start, all, calls, cur, i, lastln, nzero);
  }

  lemma AgreesFrom(limit: nat, start: Split, all: seq<byte>, calls: seq<Call>, cur: seq<byte>, i: nat, lastln: int, nzero: nat)
    requires -1 <= lastln < i < |cur| && |cur| + nzero == |all| <= limit
    requires cur[i + 1..] == all[i + 1 + nzero..]
    requires FeedAll(limit, start, all[..i + 1 + nzero])
          == if i - lastln == limit then Split(calls + [Call(cur + [LF], false)], []) else Split(calls, cur[lastln + 1..i + 1])
    ensures Agrees(limit, start, all, calls, cur, i + 1, lastln, nzero)
  {
    hide FeedAll, Feed;
  }

  lemma PlainFed(limit: nat, calls: seq<Call>, cur: seq<byte>, i: nat, lastln: int)
    requires -1 <= lastln < i < |cur| <= limit && cur[i] != NUL && cur[i] != LF
    ensures Feed(limit, Split(calls, cur[lastln + 1..i]), cur[i])
         == if i - lastln == limit then Split(calls + [Call(cur + [LF], false)], []) else Split(calls, cur[lastln + 1..i + 1])
  {
    var tail, b := cur[lastln + 1..i], cur[i];
    if |tail| + 1 == limit {
      assert cur == tail + [b];
      assert cur + [LF] == tail + [b, LF];
    } else {
      assert cur[lastln + 1..i + 1] == tail + [b];
    }
  }

  lemma AgreesAfterLine(limit: nat, start: Split, all: seq<byte>, calls: seq<Call>, cur: seq<byte>, i: nat, lastln: int, nzero: nat)
    requires i < |cur| && Agrees(limit, start, all, calls, cur, i, lastln, nzero)
    requires cur[i] == LF
    ensures Agrees(limit, start, all, calls + [Call(cur[lastln + 1..i + 1], false)], cur, i + 1, i, nzero)
  {
    hide FeedAll;
    NextByte(limit, start, all, calls, cur, i, lastln, nzero);
    assert cur[lastln + 1..i + 1] == cur[lastln + 1..i] + [LF];
    assert cur[i + 1..i + 1] == [];
  }

  lemma AgreesAfterNul(limit: nat, start: Split, all: seq<byte>, calls: seq<Call>, cur: seq<byte>, i: nat, lastln: int, nzero: nat)
    requires i < |cur| && Agrees(limit, start, all, calls, cur, i, lastln, nzero)
    requires cur[i] == NUL
    ensures Agrees(limit, start, all, calls + [Call(cur[lastln + 1..i], true)], Dropped(cur, i), i, i - 1, nzero + 1)
  {
    hide FeedAll;
    NextByte(limit, start, all, calls, cur, i, lastln, nzero);
    var cur' := Dropped(cur, i);
    assert cur'[i..] == cur[i + 1..];
    assert cur'[i..i] == [];
  }
}
