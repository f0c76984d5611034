/** One user log entry as a line of JSON: the writer that adds the present fields one
    after the other, and a reader that gets them back.
 */
module UserLogRecord {
  import opened Bytes
  import opened Utf8
  import opened JsonEscaper
  import opened Options

  const OPEN: byte := 0x7B
  const CLOSE: byte := 0x7D
  const COMMA: byte := 0x2C
  const COLON: byte := 0x3A
  const MINUS: byte := 0x2D

  datatype UserLog = UserLog(
    requestID: seq<byte>, message: seq<byte>, source: seq<byte>, functionBrn: seq<byte>, funcName: seq<byte>,
    version: seq<byte>, userID: seq<byte>, runtimeID: seq<byte>, triggerType: seq<byte>,
    invocationTime: int, memoryUsage: int, mode: seq<byte>, responseStatus: int)

  datatype Value = Str(text: seq<byte>) | Num(number: int)

  datatype Member = Member(key: string, value: Value)

  function Ascii(s: string): (r: seq<byte>)
    ensures |r| == |s|
  {
    seq(|s|, i requires 0 <= i < |s| => (s[i] as int) % 256)
  }

  // ---------------------------------------------------------------------------
  // Writing

  function Digits(n: nat): seq<byte> {
    if n < 10 then [0x30 + n] else Digits(n / 10) + [0x30 + n % 10]
  }

  function Decimal(n: int): seq<byte> {
    if n < 0 then [MINUS] + Digits(-n) else Digits(n)
  }

  function ValueText(v: Value): seq<byte> {
    match v
    case Str(text) => [QUOTE] + Escape(text) + [QUOTE]
    case Num(number) => Decimal(number)
  }

  function MemberText(m: Member): seq<byte> {
    [QUOTE] + Ascii(m.key) + [QUOTE, COLON] + ValueText(m.value)
  }

  function Joined(ms: seq<Member>): seq<byte> {
    if ms == [] then []
    else if |ms| == 1 then MemberText(ms[0])
    else Joined(ms[..|ms| - 1]) + [COMMA] + MemberText(ms[|ms| - 1])
  }

  function Text(key: string, s: seq<byte>): seq<Member> {
    if |s| != 0 then [Member(key, Str(s))] else []
  }

  function Count(key: string, n: int): seq<Member> {
    if n != -1 then [Member(key, Num(n))] else []
  }

  // The fields that are written, in order.
  function Fields(l: UserLog): seq<Member> {
    Text("rid", l.requestID) + Text("msg", l.message) + Text("src", l.source) + Text("brn", l.functionBrn)
    + Text("func", l.funcName) + Text("version", l.version) + Text("userid", l.userID)
    + Text("runtimeID", l.runtimeID) + Text("triggerType", l.triggerType)
    + Count("invocationTime", l.invocationTime) + Count("memoryUsage", l.memoryUsage)
    + Text("invokeMode", l.mode) + Count("responseStatus", l.responseStatus)
  }

  // A time stamp is written by the time library as a quoted string of plain
  // characters.
  predicate Stamp(stamp: seq<byte>) {
    forall i :: 0 <= i < |stamp| ==> SafeAscii(stamp[i])
  }

  function Record(l: UserLog, stamp: seq<byte>): seq<byte> {
    [OPEN] + Joined(Fields(l) + [Member("ts", Str(stamp))]) + [CLOSE, LF]
  }

  ghost predicate Partial(buf: seq<byte>, out: seq<byte>, first: bool, ms: seq<Member>) {
    first == (ms == []) && out == buf + [OPEN] + Joined(ms)
  }

  // A comma unless the member is the first, then the key.
  method WriteKey(ghost buf: seq<byte>, out: seq<byte>, first: bool, ghost ms: seq<Member>, key: string)
    returns (out': seq<byte>)
    requires Partial(buf, out, first, ms)
    ensures forall v: Value :: out' + ValueText(v) == buf + [OPEN] + Joined(ms + [Member(key, v)])
  {
    out' := out;
    if !first {
      out' := out' + [COMMA];
    }
    out' := out' + ([QUOTE] + Ascii(key) + [QUOTE, COLON]);
    forall v: Value
      ensures out' + ValueText(v) == buf + [OPEN] + Joined(ms + [Member(key, v)])
    {
      JoinOne(buf, out, ms, Member(key, v));
    }
  }

  method WriteText(ghost buf: seq<byte>, out: seq<byte>, first: bool, ghost ms: seq<Member>, key: string, s: seq<byte>)
    returns (out': seq<byte>, first': bool)
    requires Partial(buf, out, first, ms)
    ensures Partial(buf, out', first', ms + Text(key, s))
  {
    hide Joined, Escape, Ascii;
    out', first' := out, first;
    if |s| != 0 {
      out' := WriteKey(buf, out', first, ms, key);
      first' := false;
      assert out' + ValueText(Str(s)) == out' + [QUOTE] + Escape(s) + [QUOTE];
      out' := WriteBytesAsString(out', s);
    } else {
      assert ms + [] == ms;
    }
  }

  method WriteCount(ghost buf: seq<byte>, out: seq<byte>, first: bool, ghost ms: seq<Member>, key: string, n: int)
    returns (out': seq<byte>, first': bool)
    requires Partial(buf, out, first, ms)
    ensures Partial(buf, out', first', ms + Count(key, n))
  {
    hide Joined, Escape, Ascii, Decimal;
    out', first' := out, first;
    if n != -1 {
      out' := WriteKey(buf, out', first, ms, key);
      first' := false;
      assert out' + ValueText(Num(n)) == out' + Decimal(n);
      out' := out' + Decimal(n);
    } else {
      assert ms + [] == ms;
    }
  }

  lemma JoinOne(buf: seq<byte>, out: seq<byte>, ms: seq<Member>, m: Member)
    requires out == buf + [OPEN] + Joined(ms)
    ensures buf + [OPEN] + Joined(ms + [m])
         == (if ms == [] then out else out + [COMMA]) + ([QUOTE] + Ascii(m.key) + [QUOTE, COLON]) + ValueText(m.value)
  {
    hide Escape, Ascii, Decimal, ValueText;
    assert (ms + [m])[..|ms|] == ms;
  }

  // Marshal an entry.  A year outside the printable range is an error, reported
  // after the fields have been written.
  method MarshalJSONBuf(l: UserLog, buf: seq<byte>, year: int, stamp: seq<byte>) returns (out: seq<byte>, ok: bool)
    requires Stamp(stamp)
    ensures ok <==> 0 <= year < 10000
    ensures ok ==> out == buf + Record(l, stamp)
    ensures !ok ==> out == buf + [OPEN] + Joined(Fields(l)) + if Fields(l) == [] then [] else [COMMA]
  {
    hide Partial, Joined, Escape, Text, Count, Fields, ValueText;
    out := buf + [OPEN];
    var first := true;
    ghost var ms: seq<Member> := [];
    StartPartial(buf);
    out, first := WriteText(buf, out, first, ms, "rid", l.requestID);
    ms := ms + Text("rid", l.requestID);
    out, first := WriteText(buf, out, first, ms, "msg", l.message);
    ms := ms + Text("msg", l.message);
    out, first := WriteText(buf, out, first, ms, "src", l.source);
    ms := ms + Text("src", l.source);
    out, first := WriteText(buf, out, first, ms, "brn", l.functionBrn);
    ms := ms + Text("brn", l.functionBrn);
    out, first := WriteText(buf, out, first, ms, "func", l.funcName);
    ms := ms + Text("func", l.funcName);
    out, first := WriteText(buf, out, first, ms, "version", l.version);
    ms := ms + Text("version", l.version);
    out, first := WriteText(buf, out, first, ms, "userid", l.userID);
    ms := ms + Text("userid", l.userID);
    out, first := WriteText(buf, out, first, ms, "runtimeID", l.runtimeID);
    ms := ms + Text("runtimeID", l.runtimeID);
    out, first := WriteText(buf, out, first, ms, "triggerType", l.triggerType);
    ms := ms + Text("triggerType", l.triggerType);
    out, first := WriteCount(buf, out, first, ms, "invocationTime", l.invocationTime);
    ms := ms + Count("invocationTime", l.invocationTime);
    out, first := WriteCount(buf, out, first, ms, "memoryUsage", l.memoryUsage);
    ms := ms + Count("memoryUsage", l.memoryUsage);
    out, first := WriteText(buf, out, first, ms, "invokeMode", l.mode);
    ms := ms + Text("invokeMode", l.mode);
    out, first := WriteCount(buf, out, first, ms, "responseStatus", l.responseStatus);
    ms := ms + Count("responseStatus", l.responseStatus);
    FieldsInOrder(l);
    EndRecord(buf, out, first, l, stamp);
    if !first {
      out := out + [COMMA];
    }
    if year < 0 || year >= 10000 {
      return out, false;
    }
    out := out + ([QUOTE] + Ascii("ts") + [QUOTE, COLON]);
    out := out + ([QUOTE] + stamp + [QUOTE]);
    out := out + [CLOSE, LF];
    ok := true;
  }

  lemma StartPartial(buf: seq<byte>)
    ensures Partial(buf, buf + [OPEN], true, [])
  {
  }

  lemma FieldsInOrder(l: UserLog)
    ensures Fields(l) == [] + Text("rid", l.requestID) + Text("msg", l.message) + Text("src", l.source) + Text("brn", l.functionBrn)
              + Text("func", l.funcName) + Text("version", l.version) + Text("userid", l.userID)
              + Text("runtimeID", l.runtimeID) + Text("triggerType", l.triggerType)
              + Count("invocationTime", l.invocationTime) + Count("memoryUsage", l.memoryUsage)
              + Text("invokeMode", l.mode) + Count("responseStatus", l.responseStatus)
  {
    hide Text, Count;
    assert [] + Text("rid", l.requestID) == Text("rid", l.requestID);
  }

  lemma {:induction false} PlainEscape(s: seq<byte>)
    requires Stamp(s)
    ensures Escape(s) == s
  {
    if s != [] {
      PlainEscape(s[1..]);
      assert s == [s[0]] + s[1..];
    }
  }

  lemma EndRecord(buf: seq<byte>, out: seq<byte>, first: bool, l: UserLog, stamp: seq<byte>)
    requires Stamp(stamp) && Partial(buf, out, first, Fields(l))
    ensures first == (Fields(l) == []) && out == buf + [OPEN] + Joined(Fields(l))
    ensures var out' := if first then out else out + [COMMA];
            out' + ([QUOTE] + Ascii("ts") + [QUOTE, COLON]) + ([QUOTE] + stamp + [QUOTE]) + [CLOSE, LF] == buf + Record(l, stamp)
  {
    hide Joined, Fields, Ascii;
    PlainEscape(stamp);
    JoinOne(buf, out, Fields(l), Member("ts", Str(stamp)));
    hide Escape;
  }

  // ---------------------------------------------------------------------------
  // One line per entry

  lemma {:induction false} DigitsPlain(n: nat)
    ensures |Digits(n)| > 0
    ensures forall i :: 0 <= i < |Digits(n)| ==> 0x30 <= Digits(n)[i] <= 0x39
  {
    if n >= 10 {
      DigitsPlain(n / 10);
    }
  }

  // Keys hold letters only.
  predicate PlainKey(key: string) {
    forall i :: 0 <= i < |key| ==> 'A' <= key[i] <= 'z' && key[i] != '\\'
  }

  predicate PlainKeys(ms: seq<Member>) {
    forall i :: 0 <= i < |ms| ==> PlainKey(ms[i].key)
  }

  predicate NoControl(s: seq<byte>) {
    forall i :: 0 <= i < |s| ==> s[i] >= 0x20
  }

  lemma MemberNoControl(m: Member)
    requires PlainKey(m.key)
    ensures NoControl(MemberText(m))
  {
    match m.value
    case Str(text) => NothingUnsafe(text);
    case Num(number) => DigitsPlain(if number < 0 then -number else number);
  }

  lemma {:induction false} JoinedNoControl(ms: seq<Member>)
    requires PlainKeys(ms)
    ensures NoControl(Joined(ms))
  {
    if |ms| == 1 {
      MemberNoControl(ms[0]);
    } else if |ms| > 1 {
      JoinedNoControl(ms[..|ms| - 1]);
      MemberNoControl(ms[|ms| - 1]);
    }
  }

  lemma FieldsPlain(l: UserLog, stamp: seq<byte>)
    ensures PlainKeys(Fields(l) + [Member("ts", Str(stamp))])
  {
    hide PlainKey;
    TextKeys();
    CountKeys();
    var a := Text("rid", l.requestID) + Text("msg", l.message) + Text("src", l.source) + Text("brn", l.functionBrn)
      + Text("func", l.funcName) + Text("version", l.version) + Text("userid", l.userID);
    assert PlainKeys(a);
    var b := a + Text("runtimeID", l.runtimeID) + Text("triggerType", l.triggerType)
      + Count("invocationTime", l.invocationTime) + Count("memoryUsage", l.memoryUsage);
    assert PlainKeys(b);
    assert Fields(l) == b + Text("invokeMode", l.mode) + Count("responseStatus", l.responseStatus);
  }

  lemma TextKeys()
    ensures PlainKey("rid") && PlainKey("msg") && PlainKey("src") && PlainKey("brn") && PlainKey("func")
    ensures PlainKey("version") && PlainKey("userid") && PlainKey("runtimeID") && PlainKey("ts")
  {
  }

  lemma CountKeys()
    ensures PlainKey("triggerType") && PlainKey("invocationTime") && PlainKey("memoryUsage")
    ensures PlainKey("invokeMode") && PlainKey("responseStatus")
  {
  }

  // Whatever the fields contain, a record has exactly one newline, and it ends it.
  lemma RecordIsOneLine(l: UserLog, stamp: seq<byte>)
    ensures var r := Record(l, stamp); forall i :: 0 <= i < |r| ==> (r[i] == LF <==> i == |r| - 1)
  {
    hide Fields, Joined;
    FieldsPlain(l, stamp);
    JoinedNoControl(Fields(l) + [Member("ts", Str(stamp))]);
  }

  // ---------------------------------------------------------------------------
  // Reading a record

  // Decimal digits up to the first byte that is none.
  function ReadDigits(t: seq<byte>, acc: nat): (nat, seq<byte>)
    decreases |t|
  {
    if t != [] && 0x30 <= t[0] <= 0x39 then ReadDigits(t[1..], acc * 10 + (t[0] as int - 0x30)) else (acc, t)
  }

  function ReadValue(t: seq<byte>): Option<(Value, seq<byte>)> {
    if t == [] then None
    else if t[0] == QUOTE then
      var r := ReadString(t[1..]);
      if r.None? then None else Some((Str(r.value.0), r.value.1))
    else if t[0] == MINUS then
      var (n, rest) := ReadDigits(t[1..], 0);
      Some((Num(-(n as int)), rest))
    else if 0x30 <= t[0] <= 0x39 then
      var (n, rest) := ReadDigits(t, 0);
      Some((Num(n), rest))
    else None
  }

  // A key read from the text, with its value.
  datatype Pair = Pair(key: seq<byte>, value: Value)

  function ReadPair(t: seq<byte>): Option<(Pair, seq<byte>)> {
    if t == [] || t[0] != QUOTE then None
    else
      var k := ReadString(t[1..]);
      if k.None? || k.value.1 == [] || k.value.1[0] != COLON then None
      else
        var v := ReadValue(k.value.1[1..]);
        if v.None? then None else Some((Pair(k.value.0, v.value.0), v.value.1))
  }

  // Pairs separated by commas up to the closing brace.
  function ReadPairs(t: seq<byte>): Option<(seq<Pair>, seq<byte>)>
    decreases |t|
  {
    var p := ReadPair(t);
    if p.None? || p.value.1 == [] || |p.value.1| > |t| then None
    else if p.value.1[0] == CLOSE then Some(([p.value.0], p.value.1[1..]))
    else if p.value.1[0] != COMMA then None
    else
      var rest := ReadPairs(p.value.1[1..]);
      if rest.None? then None else Some(([p.value.0] + rest.value.0, rest.value.1))
  }

  function ReadRecord(t: seq<byte>): Option<(seq<Pair>, seq<byte>)> {
    if t == [] || t[0] != OPEN then None else ReadPairs(t[1..])
  }

  // What a reader gets for a written member.
  function Cleaned(m: Member): Pair {
    Pair(Ascii(m.key), match m.value case Str(text) => Str(Clean(text)) case Num(n) => Num(n))
  }

  function AllCleaned(ms: seq<Member>): seq<Pair> {
    seq(|ms|, i requires 0 <= i < |ms| => Cleaned(ms[i]))
  }

  lemma {:induction false} DigitsReadBack(n: nat, rest: seq<byte>)
    ensures ReadDigits(Digits(n) + rest, 0) == ReadDigits(rest, n)
  {
    if n < 10 {
      assert ([(0x30 + n) as byte] + rest)[1..] == rest;
    } else {
      var d: byte := 0x30 + n % 10;
      DigitsReadBack(n / 10, [d] + rest);
      assert Digits(n) + rest == Digits(n / 10) + ([d] + rest);
      assert ([d] + rest)[1..] == rest;
    }
  }

  lemma ValueReadBack(v: Value, rest: seq<byte>)
    requires rest != [] && !(0x30 <= rest[0] <= 0x39)
    ensures ReadValue(ValueText(v) + rest)
         == Some((match v case Str(text) => Str(Clean(text)) case Num(n) => Num(n), rest))
  {
    hide Escape, Clean, Digits, ReadString;
    var t := ValueText(v) + rest;
    match v
    case Str(text) =>
      ReadBack(text, rest);
      assert t[1..] == Escape(text) + [QUOTE] + rest;
    case Num(n) => NumberReadBack(n, rest);
  }

  lemma NumberReadBack(n: int, rest: seq<byte>)
    requires rest != [] && !(0x30 <= rest[0] <= 0x39)
    ensures ReadValue(Decimal(n) + rest) == Some((Num(n), rest))
  {
    hide Digits, ReadString;
    var m := if n < 0 then -n else n;
    DigitsPlain(m);
    DigitsReadBack(m, rest);
    assert ReadDigits(rest, m) == (m, rest);
    if n < 0 {
      assert (Decimal(n) + rest)[1..] == Digits(m) + rest;
    } else {
      assert (Digits(m) + rest)[0] == Digits(m)[0];
    }
  }

  lemma PairReadBack(m: Member, rest: seq<byte>)
    requires PlainKey(m.key) && rest != [] && !(0x30 <= rest[0] <= 0x39)
    ensures ReadPair(MemberText(m) + rest) == Some((Cleaned(m), rest))
  {
    hide ReadValue, ValueText;
    var t := MemberText(m) + rest;
    var key := Ascii(m.key);
    var after := [COLON] + (ValueText(m.value) + rest);
    assert t[1..] == key + ([QUOTE] + after);
    ReadRaw(key, [QUOTE] + after);
    assert ([QUOTE] + after)[1..] == after;
    assert key + [] == key;
    assert ReadString(t[1..]) == Some((key, after));
    assert after[1..] == ValueText(m.value) + rest;
    ValueReadBack(m.value, rest);
  }

  // A non-empty list of members reads back in order.
  lemma {:induction false} PairsReadBack(ms: seq<Member>, rest: seq<byte>)
    requires ms != [] && PlainKeys(ms)
    ensures ReadPairs(Joined(ms) + [CLOSE] + rest) == Some((AllCleaned(ms), rest))
    decreases |ms|
  {
    hide ReadPair, MemberText, Cleaned;
    var t := Joined(ms) + [CLOSE] + rest;
    if |ms| == 1 {
      assert t == MemberText(ms[0]) + ([CLOSE] + rest);
      PairReadBack(ms[0], [CLOSE] + rest);
      assert ([CLOSE] + rest)[1..] == rest;
      assert AllCleaned(ms) == [Cleaned(ms[0])];
    } else {
      JoinedFront(ms);
      var more := Joined(ms[1..]) + [CLOSE] + rest;
      assert t == MemberText(ms[0]) + ([COMMA] + more);
      PairReadBack(ms[0], [COMMA] + more);
      assert ([COMMA] + more)[1..] == more;
      PairsReadBack(ms[1..], rest);
      assert AllCleaned(ms) == [Cleaned(ms[0])] + AllCleaned(ms[1..]);
    }
  }

  lemma {:induction false} JoinedFront(ms: seq<Member>)
    requires |ms| > 1
    ensures Joined(ms) == MemberText(ms[0]) + [COMMA] + Joined(ms[1..])
    decreases |ms|
  {
    hide MemberText;
    var n := |ms| - 1;
    if |ms| == 2 {
      assert ms[..1] == [ms[0]] && ms[1..] == [ms[1]];
    } else {
      JoinedFront(ms[..n]);
      assert ms[..n][1..] == ms[1..][..n - 1];
      assert ms[..n][0] == ms[0] && ms[1..][n - 1] == ms[n];
    }
  }

  // Reading a record gives every field that was written, in order, with the time
  // stamp last, and leaves only the newline.
  lemma RecordReadsBack(l: UserLog, stamp: seq<byte>)
    requires Stamp(stamp)
    ensures ReadRecord(Record(l, stamp))
         == Some((AllCleaned(Fields(l)) + [Pair(Ascii("ts"), Str(Clean(stamp)))], [LF]))
  {
    hide Fields, Joined, ReadPairs, Clean;
    var ms := Fields(l) + [Member("ts", Str(stamp))];
    FieldsPlain(l, stamp);
    PairsReadBack(ms, [LF]);
    assert Record(l, stamp)[1..] == Joined(ms) + [CLOSE] + [LF];
    assert AllCleaned(ms) == AllCleaned(Fields(l)) + [Cleaned(Member("ts", Str(stamp)))];
  }

  // ---------------------------------------------------------------------------
  // Reading an entry

  // The value under a key, the first if there were several.
  function Lookup(pairs: seq<Pair>, key: seq<byte>): Option<Value> {
    if pairs == [] then None else if pairs[0].key == key then Some(pairs[0].value) else Lookup(pairs[1..], key)
  }

  function TextAt(pairs: seq<Pair>, key: string): seq<byte> {
    var v := Lookup(pairs, Ascii(key));
    if v.Some? && v.value.Str? then v.value.text else []
  }

  function CountAt(pairs: seq<Pair>, key: string): int {
    var v := Lookup(pairs, Ascii(key));
    if v.Some? && v.value.Num? then v.value.number else -1
  }

  // The entry a reader makes of a record: a missing text is empty, a missing count -1.
  function EntryOf(pairs: seq<Pair>): UserLog {
    UserLog(TextAt(pairs, "rid"), TextAt(pairs, "msg"), TextAt(pairs, "src"), TextAt(pairs, "brn"), TextAt(pairs, "func"),
            TextAt(pairs, "version"), TextAt(pairs, "userid"), TextAt(pairs, "runtimeID"), TextAt(pairs, "triggerType"),
            CountAt(pairs, "invocationTime"), CountAt(pairs, "memoryUsage"), TextAt(pairs, "invokeMode"),
            CountAt(pairs, "responseStatus"))
  }

  // The entry with every invalid byte of its texts replaced.
  function CleanEntry(l: UserLog): UserLog {
    UserLog(Clean(l.requestID), Clean(l.message), Clean(l.source), Clean(l.functionBrn), Clean(l.funcName),
            Clean(l.version), Clean(l.userID), Clean(l.runtimeID), Clean(l.triggerType),
            l.invocationTime, l.memoryUsage, Clean(l.mode), l.responseStatus)
  }

  // A field of the entry: its key, and its value if it is written.
  datatype Slot = Slot(key: string, value: Option<Value>)

  function TextSlot(key: string, s: seq<byte>): Slot {
    Slot(key, if s == [] then None else Some(Str(Clean(s))))
  }

  function CountSlot(key: string, n: int): Slot {
    Slot(key, if n == -1 then None else Some(Num(n)))
  }

  function Slots(l: UserLog): seq<Slot> {
    [TextSlot("rid", l.requestID), TextSlot("msg", l.message), TextSlot("src", l.source), TextSlot("brn", l.functionBrn),
     TextSlot("func", l.funcName), TextSlot("version", l.version), TextSlot("userid", l.userID),
     TextSlot("runtimeID", l.runtimeID), TextSlot("triggerType", l.triggerType),
     CountSlot("invocationTime", l.invocationTime), CountSlot("memoryUsage", l.memoryUsage),
     TextSlot("invokeMode", l.mode), CountSlot("responseStatus", l.responseStatus)]
  }

  function Present(slots: seq<Slot>): seq<Pair> {
    if slots == [] then [] else
      (if slots[0].value.Some? then [Pair(Ascii(slots[0].key), slots[0].value.value)] else []) + Present(slots[1..])
  }

  predicate DistinctKeys(slots: seq<Slot>) {
    forall i, j :: 0 <= i < j < |slots| ==> Ascii(slots[i].key) != Ascii(slots[j].key)
  }

  lemma {:induction false} AbsentKey(slots: seq<Slot>, rest: seq<Pair>, key: seq<byte>)
    requires forall i :: 0 <= i < |slots| ==> Ascii(slots[i].key) != key
    ensures Lookup(Present(slots) + rest, key) == Lookup(rest, key)
  {
    hide Ascii;
    if slots == [] {
      assert Present(slots) + rest == rest;
    } else {
      var more := Present(slots[1..]) + rest;
      AbsentKey(slots[1..], rest, key);
      if slots[0].value.Some? {
        var p := Pair(Ascii(slots[0].key), slots[0].value.value);
        assert Present(slots) + rest == [p] + more;
        assert ([p] + more)[1..] == more;
      } else {
        assert Present(slots) + rest == more;
      }
    }
  }

  lemma {:induction false} PresentKey(slots: seq<Slot>, rest: seq<Pair>, i: nat)
    requires DistinctKeys(slots) && i < |slots|
    requires forall j :: 0 <= j < |rest| ==> rest[j].key != Ascii(slots[i].key)
    ensures Lookup(Present(slots) + rest, Ascii(slots[i].key)) == slots[i].value
  {
    hide Ascii;
    var more := Present(slots[1..]) + rest;
    var key := Ascii(slots[i].key);
    if slots[0].value.Some? {
      var p := Pair(Ascii(slots[0].key), slots[0].value.value);
      assert Present(slots) + rest == [p] + more;
      assert ([p] + more)[1..] == more;
    } else {
      assert Present(slots) + rest == more;
    }
    if i > 0 {
      PresentKey(slots[1..], rest, i - 1);
    } else if slots[0].value.None? {
      AbsentKey(slots[1..], rest, key);
      NoSuchKey(rest, key);
    }
  }

  lemma {:induction false} NoSuchKey(pairs: seq<Pair>, key: seq<byte>)
    requires forall j :: 0 <= j < |pairs| ==> pairs[j].key != key
    ensures Lookup(pairs, key) == None
  {
    if pairs != [] {
      NoSuchKey(pairs[1..], key);
    }
  }

  // A fingerprint that tells the keys of a record apart: length and first byte.
  function Tag(key: seq<byte>): int {
    if key == [] then 0 else |key| * 256 + key[0]
  }

  const TAGS: seq<int> := [3 * 256 + 'r' as int, 3 * 256 + 'm' as int, 3 * 256 + 's' as int, 3 * 256 + 'b' as int,
                           4 * 256 + 'f' as int, 7 * 256 + 'v' as int, 6 * 256 + 'u' as int, 9 * 256 + 'r' as int,
                           11 * 256 + 't' as int, 14 * 256 + 'i' as int, 11 * 256 + 'm' as int, 10 * 256 + 'i' as int,
                           14 * 256 + 'r' as int]

  lemma TagsDistinct(i: nat, j: nat)
    requires i < j < 13
    ensures TAGS[i] != TAGS[j]
  {
  }

  lemma SlotTags(l: UserLog, i: nat)
    requires i < 13
    ensures |Slots(l)| == 13 && Tag(Ascii(Slots(l)[i].key)) == TAGS[i] && TAGS[i] != Tag(Ascii("ts"))
  {
  }

  lemma SlotsDistinct(l: UserLog)
    ensures DistinctKeys(Slots(l)) && forall i :: 0 <= i < 13 ==> Ascii(Slots(l)[i].key) != Ascii("ts")
  {
    SlotTags(l, 0);
    hide Slots, Ascii, Tag;
    forall i, j | 0 <= i < j < 13
      ensures Ascii(Slots(l)[i].key) != Ascii(Slots(l)[j].key)
    {
      SlotTags(l, i);
      SlotTags(l, j);
      TagsDistinct(i, j);
    }
    forall i | 0 <= i < 13
      ensures Ascii(Slots(l)[i].key) != Ascii("ts")
    {
      SlotTags(l, i);
    }
  }

  lemma CleanedConcat(a: seq<Member>, b: seq<Member>)
    ensures AllCleaned(a + b) == AllCleaned(a) + AllCleaned(b)
  {
  }

  lemma {:induction false} PresentConcat(a: seq<Slot>, b: seq<Slot>)
    ensures Present(a + b) == Present(a) + Present(b)
  {
    hide Ascii;
    if a == [] {
      assert a + b == b;
    } else {
      assert (a + b)[1..] == a[1..] + b;
      PresentConcat(a[1..], b);
    }
  }

  // One more field, on both sides.
  lemma TextField(ms: seq<Member>, slots: seq<Slot>, key: string, s: seq<byte>)
    requires AllCleaned(ms) == Present(slots)
    ensures AllCleaned(ms + Text(key, s)) == Present(slots + [TextSlot(key, s)])
  {
    hide Ascii;
    CleanedConcat(ms, Text(key, s));
    PresentConcat(slots, [TextSlot(key, s)]);
    assert AllCleaned(Text(key, s)) == Present([TextSlot(key, s)]);
  }

  lemma CountField(ms: seq<Member>, slots: seq<Slot>, key: string, n: int)
    requires AllCleaned(ms) == Present(slots)
    ensures AllCleaned(ms + Count(key, n)) == Present(slots + [CountSlot(key, n)])
  {
    hide Ascii;
    CleanedConcat(ms, Count(key, n));
    PresentConcat(slots, [CountSlot(key, n)]);
    assert AllCleaned(Count(key, n)) == Present([CountSlot(key, n)]);
  }

  predicate Same(ms: seq<Member>, slots: seq<Slot>) {
    AllCleaned(ms) == Present(slots)
  }

  lemma ThreeTexts(ms: seq<Member>, slots: seq<Slot>, k1: string, s1: seq<byte>, k2: string, s2: seq<byte>, k3: string, s3: seq<byte>)
    requires Same(ms, slots)
    ensures Same(ms + Text(k1, s1) + Text(k2, s2) + Text(k3, s3),
                 slots + [TextSlot(k1, s1), TextSlot(k2, s2), TextSlot(k3, s3)])
  {
    hide AllCleaned, Present, Text, TextSlot;
    TextField(ms, slots, k1, s1);
    TextField(ms + Text(k1, s1), slots + [TextSlot(k1, s1)], k2, s2);
    TextField(ms + Text(k1, s1) + Text(k2, s2), slots + [TextSlot(k1, s1)] + [TextSlot(k2, s2)], k3, s3);
    assert slots + [TextSlot(k1, s1)] + [TextSlot(k2, s2)] + [TextSlot(k3, s3)]
        == slots + [TextSlot(k1, s1), TextSlot(k2, s2), TextSlot(k3, s3)];
  }

  lemma LastFields(ms: seq<Member>, slots: seq<Slot>, l: UserLog)
    requires Same(ms, slots)
    ensures Same(ms + Count("invocationTime", l.invocationTime) + Count("memoryUsage", l.memoryUsage)
                 + Text("invokeMode", l.mode) + Count("responseStatus", l.responseStatus),
                 slots + [CountSlot("invocationTime", l.invocationTime), CountSlot("memoryUsage", l.memoryUsage),
                          TextSlot("invokeMode", l.mode), CountSlot("responseStatus", l.responseStatus)])
  {
    var c1, c2 := CountSlot("invocationTime", l.invocationTime), CountSlot("memoryUsage", l.memoryUsage);
    var t3, c4 := TextSlot("invokeMode", l.mode), CountSlot("responseStatus", l.responseStatus);
    var m1, m2 := Count("invocationTime", l.invocationTime), Count("memoryUsage", l.memoryUsage);
    var m3, m4 := Text("invokeMode", l.mode), Count("responseStatus", l.responseStatus);
    hide AllCleaned, Present, Text, TextSlot, Count, CountSlot;
    CountField(ms, slots, "invocationTime", l.invocationTime);
    CountField(ms + m1, slots + [c1], "memoryUsage", l.memoryUsage);
    TextField(ms + m1 + m2, slots + [c1] + [c2], "invokeMode", l.mode);
    CountField(ms + m1 + m2 + m3, slots + [c1] + [c2] + [t3], "responseStatus", l.responseStatus);
    assert slots + [c1] + [c2] + [t3] + [c4] == slots + [c1, c2, t3, c4];
  }

  lemma FieldsAreSlots(l: UserLog)
    ensures Same(Fields(l), Slots(l))
  {
    assert Same([], []);
    hide Same, Text, Count, TextSlot, CountSlot;
    FieldsInOrder(l);
    ThreeTexts([], [], "rid", l.requestID, "msg", l.message, "src", l.source);
    var m1 := [] + Text("rid", l.requestID) + Text("msg", l.message) + Text("src", l.source);
    var s1 := [] + [TextSlot("rid", l.requestID), TextSlot("msg", l.message), TextSlot("src", l.source)];
    ThreeTexts(m1, s1, "brn", l.functionBrn, "func", l.funcName, "version", l.version);
    var m2 := m1 + Text("brn", l.functionBrn) + Text("func", l.funcName) + Text("version", l.version);
    var s2 := s1 + [TextSlot("brn", l.functionBrn), TextSlot("func", l.funcName), TextSlot("version", l.version)];
    ThreeTexts(m2, s2, "userid", l.userID, "runtimeID", l.runtimeID, "triggerType", l.triggerType);
    var m3 := m2 + Text("userid", l.userID) + Text("runtimeID", l.runtimeID) + Text("triggerType", l.triggerType);
    var s3 := s2 + [TextSlot("userid", l.userID), TextSlot("runtimeID", l.runtimeID), TextSlot("triggerType", l.triggerType)];
    LastFields(m3, s3, l);
    hide Fields;
    var s := Slots(l);
    Thirteen(s[0], s[1], s[2], s[3], s[4], s[5], s[6], s[7], s[8], s[9], s[10], s[11], s[12]);
  }

  lemma Thirteen(a: Slot, b: Slot, c: Slot, d: Slot, e: Slot, f: Slot, g: Slot, h: Slot, i: Slot, j: Slot, k: Slot, l: Slot, m: Slot)
    ensures [] + [a, b, c] + [d, e, f] + [g, h, i] + [j, k, l, m] == [a, b, c, d, e, f, g, h, i, j, k, l, m]
  {
  }

  // Reading a record back and looking its fields up restores the entry: every field has
  // its own key, an absent one is empty, and only invalid bytes are replaced.
  lemma RecordRestoresEntry(l: UserLog, stamp: seq<byte>)
    requires Stamp(stamp)
    ensures ReadRecord(Record(l, stamp)).Some?
    ensures EntryOf(ReadRecord(Record(l, stamp)).value.0) == CleanEntry(l)
  {
    hide Ascii, Present, Clean, Record, ReadRecord, Lookup, AllCleaned, Fields;
    RecordReadsBack(l, stamp);
    FieldsAreSlots(l);
    SlotsDistinct(l);
    var rest := [Pair(Ascii("ts"), Str(Clean(stamp)))];
    forall i | 0 <= i < 13
      ensures Lookup(Present(Slots(l)) + rest, Ascii(Slots(l)[i].key)) == Slots(l)[i].value
    {
      PresentKey(Slots(l), rest, i);
    }
    SlotsRead(l, Present(Slots(l)) + rest);
  }

  lemma SlotsRead(l: UserLog, pairs: seq<Pair>)
    requires forall i :: 0 <= i < 13 ==> Lookup(pairs, Ascii(Slots(l)[i].key)) == Slots(l)[i].value
    ensures EntryOf(pairs) == CleanEntry(l)
  {
    CleanNothing();
    hide Ascii, Lookup, Clean;
    var s := Slots(l);
    assert s[0].key == "rid" && s[1].key == "msg" && s[2].key == "src" && s[3].key == "brn" && s[4].key == "func";
    assert s[5].key == "version" && s[6].key == "userid" && s[7].key == "runtimeID" && s[8].key == "triggerType";
    assert s[9].key == "invocationTime" && s[10].key == "memoryUsage" && s[11].key == "invokeMode";
    assert s[12].key == "responseStatus";
  }

  lemma CleanNothing()
    ensures Clean([]) == []
  {
  }

  // On entries of valid UTF-8 the round trip is exact.
  lemma RecordRoundTrip(l: UserLog, stamp: seq<byte>)
    requires Stamp(stamp)
    requires Valid(l.requestID) && Valid(l.message) && Valid(l.source) && Valid(l.functionBrn) && Valid(l.funcName)
    requires Valid(l.version) && Valid(l.userID) && Valid(l.runtimeID) && Valid(l.triggerType) && Valid(l.mode)
    ensures ReadRecord(Record(l, stamp)).Some?
    ensures EntryOf(ReadRecord(Record(l, stamp)).value.0) == l
  {
    hide Clean, Record, ReadRecord, EntryOf, Valid;
    RecordRestoresEntry(l, stamp);
    CleanIff(l.requestID); CleanIff(l.message); CleanIff(l.source); CleanIff(l.functionBrn); CleanIff(l.funcName);
    CleanIff(l.version); CleanIff(l.userID); CleanIff(l.runtimeID); CleanIff(l.triggerType); CleanIff(l.mode);
  }
}
