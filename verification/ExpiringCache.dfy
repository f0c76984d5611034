/** The in-memory cache with deadlines and a janitor, and the plain map it stands for.

    An item with a deadline counts as absent once the clock has passed it, whether or
    not the janitor has removed it yet.  Clock readings are parameters; the map and
    its lock are one object.
 */
module ExpiringCache {
  import opened Options

  // The integer types; the plain ones and the pointer-sized one have 64 bits.
  datatype IntType = Int | Int8 | Int16 | Int32 | Int64 | Uint | Uintptr | Uint8 | Uint16 | Uint32 | Uint64

  // What the controller keeps in its caches: numbers, and answers of the registry.
  // A floating-point number is taken without its rounding.
  datatype Object =
    | Integer(t: IntType, n: int)
    | Float(single: bool, x: real)
    | FunctionOutput(answer: nat)
    | AliasOutput(answer: nat)
    | RuntimeOutput(answer: nat)

  // A zero expiration means none.
  datatype Item = Item(obj: Object, expiration: int)

  type Items = map<string, Item>

  datatype Op =
    | Set(k: string, x: Object, d: int)
    | Add(k: string, x: Object, d: int)
    | Replace(k: string, x: Object, d: int)
    | Get(k: string)
    | Increment(k: string, n: int)
    | List
    | Delete(k: string)
    | Flush
    | DeleteExpired

  datatype Result =
    | Done
    | Stored(ok: bool)
    | Got(value: Option<Object>)
    | NotFound
    | NotInteger
    | Listed(items: Items)

  function Modulus(t: IntType): (m: int)
    ensures m > 0 && m % 2 == 0
  {
    match t
    case Int8 => 0x100
    case Uint8 => 0x100
    case Int16 => 0x1_0000
    case Uint16 => 0x1_0000
    case Int32 => 0x1_0000_0000
    case Uint32 => 0x1_0000_0000
    case _ => 0x1_0000_0000_0000_0000
  }

  predicate Unsigned(t: IntType) {
    t in {Uint, Uintptr, Uint8, Uint16, Uint32, Uint64}
  }

  predicate InRange(t: IntType, n: int) {
    if Unsigned(t) then 0 <= n < Modulus(t) else -(Modulus(t) / 2) <= n < Modulus(t) / 2
  }

  // Machine addition keeps the low bits.
  function Wrap(t: IntType, n: int): int {
    if Unsigned(t) then n % Modulus(t) else (n + Modulus(t) / 2) % Modulus(t) - Modulus(t) / 2
  }

  function Multiple(t: IntType, k: int): int {
    k * Modulus(t)
  }

  // The result is in range and differs from the sum by a multiple of the modulus; a
  // sum in range is exact.
  lemma WrapMeaning(t: IntType, n: int)
    ensures InRange(t, Wrap(t, n)) && exists k :: n == Wrap(t, n) + Multiple(t, k)
    ensures InRange(t, n) ==> Wrap(t, n) == n
  {
    var half := if Unsigned(t) then 0 else Modulus(t) / 2;
    LowBits(n + half, Modulus(t));
    var k := (n + half) / Modulus(t);
    assert n == Wrap(t, n) + Multiple(t, k);
  }

  lemma LowBits(n: int, m: int)
    requires m > 0
    ensures 0 <= n % m < m && n == (n / m) * m + n % m
    ensures 0 <= n < m ==> n % m == n
  {
  }

  predicate IsNumber(obj: Object) {
    obj.Integer? || obj.Float?
  }

  // The operand is converted to the entry's own type and added.
  function Sum(obj: Object, n: int): Object
    requires IsNumber(obj)
  {
    match obj
    case Integer(t, v) => Integer(t, Wrap(t, v + Wrap(t, n)))
    case Float(single, x) => Float(single, x + n as real)
  }

  // Incrementing keeps the type; an integer comes out in the range of its type and
  // congruent to the true sum, a floating-point number is the sum.
  lemma SumMeaning(obj: Object, n: int)
    requires IsNumber(obj)
    ensures obj.Integer? ==>
              && Sum(obj, n).Integer? && Sum(obj, n).t == obj.t && InRange(obj.t, Sum(obj, n).n)
              && (exists k :: obj.n + n == Sum(obj, n).n + Multiple(obj.t, k))
              && (InRange(obj.t, n) && InRange(obj.t, obj.n + n) ==> Sum(obj, n).n == obj.n + n)
    ensures obj.Float? ==> Sum(obj, n) == Float(obj.single, obj.x + n as real)
  {
    if obj.Integer? {
      var t := obj.t;
      WrapMeaning(t, n);
      WrapMeaning(t, obj.n + Wrap(t, n));
      hide Wrap, Modulus;
      var a :| n == Wrap(t, n) + Multiple(t, a);
      var b :| obj.n + Wrap(t, n) == Wrap(t, obj.n + Wrap(t, n)) + Multiple(t, b);
      MultiplesAdd(t, a, b);
    }
  }

  lemma MultiplesAdd(t: IntType, a: int, b: int)
    ensures Multiple(t, a) + Multiple(t, b) == Multiple(t, a + b)
  {
  }

  // The ranges of the integer types.
  lemma RangeBounds(n: int)
    ensures InRange(Int8, n) <==> -128 <= n <= 127
    ensures InRange(Uint8, n) <==> 0 <= n <= 255
    ensures InRange(Int16, n) <==> -32768 <= n <= 32767
    ensures InRange(Uint16, n) <==> 0 <= n <= 65535
    ensures InRange(Int32, n) <==> -2147483648 <= n <= 2147483647
    ensures InRange(Uint32, n) <==> 0 <= n <= 4294967295
    ensures forall t :: t in {Int, Int64} ==> (InRange(t, n) <==> -9223372036854775808 <= n <= 9223372036854775807)
    ensures forall t :: t in {Uint, Uintptr, Uint64} ==> (InRange(t, n) <==> 0 <= n <= 18446744073709551615)
  {
  }

  // A zero duration asks for the default; a duration that is not positive sets no
  // deadline.
  function Deadline(default: int, d: int, now: int): int {
    var d' := if d == 0 then default else d;
    if d' > 0 then now + d' else 0
  }

  // The test written out in most operations, and the one in Item.Expired.
  predicate Live(item: Item, now: int) {
    !(item.expiration > 0 && now > item.expiration)
  }

  predicate Expired(item: Item, now: int) {
    item.expiration != 0 && now > item.expiration
  }

  // The two tests agree at all times exactly when the expiration is not negative.
  lemma TestsAgreeIff(item: Item)
    ensures (forall now :: now >= 0 ==> Live(item, now) == !Expired(item, now)) <==> item.expiration >= 0
  {
    if item.expiration < 0 {
      assert Live(item, 0) && Expired(item, 0);
    }
  }

  // ---------------------------------------------------------------------------
  // What the code does to its map

  function Find(items: Items, k: string, now: int): Option<Object> {
    if k in items && Live(items[k], now) then Some(items[k].obj) else None
  }

  function Swept(items: Items, now: int): Items {
    map k | k in items && Live(items[k], now) :: items[k]
  }

  function Exec(default: int, items: Items, op: Op, now: int): (Items, Result) {
    match op
    case Set(k, x, d) => (items[k := Item(x, Deadline(default, d, now))], Done)
    case Add(k, x, d) =>
      if Find(items, k, now).Some? then (items, Stored(false))
      else (items[k := Item(x, Deadline(default, d, now))], Stored(true))
    case Replace(k, x, d) =>
      if Find(items, k, now).None? then (items, Stored(false))
      else (items[k := Item(x, Deadline(default, d, now))], Stored(true))
    case Get(k) => (items, Got(Find(items, k, now)))
    case Increment(k, n) =>
      if k !in items || Expired(items[k], now) then (items, NotFound)
      else if !IsNumber(items[k].obj) then (items, NotInteger)
      else (items[k := items[k].(obj := Sum(items[k].obj, n))], Done)
    case List => (items, Listed(Swept(items, now)))
    case Delete(k) => (items - {k}, Done)
    case Flush => (map[], Done)
    case DeleteExpired => (Swept(items, now), Done)
  }

  // An increment finds its entry exactly when a lookup does, changes only a number, and
  // leaves its deadline and every other entry alone.
  lemma IncrementOutcome(default: int, items: Items, k: string, n: int, now: int)
    requires NonNegative(items) && now >= 0
    ensures var (items', r) := Exec(default, items, Increment(k, n), now);
            var found := Find(items, k, now);
            && (r == NotFound <==> found.None?)
            && (r == NotInteger <==> found.Some? && !found.value.Integer? && !found.value.Float?)
            && (r == Done <==> found.Some? && (found.value.Integer? || found.value.Float?))
            && (r != Done ==> items' == items)
            && (r == Done ==>
                  && Find(items', k, now) == Some(Sum(found.value, n))
                  && items'.Keys == items.Keys && items'[k].expiration == items[k].expiration
                  && forall j :: j in items && j != k ==> items'[j] == items[j])
  {
  }

  // How long a stored entry is found: a positive duration counts from the moment of
  // storing, inclusively; zero stands for the default; and without a positive one the
  // entry stays.  Storing shows in no other key.
  lemma StoredUntil(default: int, items: Items, k: string, x: Object, d: int, now: int, later: int)
    requires 0 <= now <= later
    ensures var items' := Exec(default, items, Set(k, x, d), now).0;
            && (Find(items', k, later) == if d > 0 then (if later - now <= d then Some(x) else None)
                                          else if d == 0 && default > 0 then (if later - now <= default then Some(x) else None)
                                          else Some(x))
            && forall j :: j != k ==> Find(items', j, later) == Find(items, j, later)
  {
  }

  // ---------------------------------------------------------------------------
  // The plain map

  // Entries vanish at their deadline.
  function Aged(m: Items, now: int): Items {
    map k | k in m && (m[k].expiration == 0 || now <= m[k].expiration) :: m[k]
  }

  // On a map without stale entries, every operation is what its name says.
  function Plain(default: int, m: Items, op: Op, now: int): (Items, Result) {
    match op
    case Set(k, x, d) => (m[k := Item(x, Deadline(default, d, now))], Done)
    case Add(k, x, d) =>
      if k in m then (m, Stored(false)) else (m[k := Item(x, Deadline(default, d, now))], Stored(true))
    case Replace(k, x, d) =>
      if k in m then (m[k := Item(x, Deadline(default, d, now))], Stored(true)) else (m, Stored(false))
    case Get(k) => (m, Got(if k in m then Some(m[k].obj) else None))
    case Increment(k, n) =>
      if k !in m then (m, NotFound)
      else if IsNumber(m[k].obj) then (m[k := m[k].(obj := Sum(m[k].obj, n))], Done)
      else (m, NotInteger)
    case List => (m, Listed(m))
    case Delete(k) => (m - {k}, Done)
    case Flush => (map[], Done)
    case DeleteExpired => (m, Done)
  }

  // ---------------------------------------------------------------------------
  // Traces

  datatype Timed = Timed(op: Op, now: int)

  // The clock never goes back.
  predicate Ordered(from: int, trace: seq<Timed>)
    decreases |trace|
  {
    && from >= 0
    && (trace == [] || (from <= trace[0].now && Ordered(trace[0].now, trace[1..])))
  }

  // The results of everything but the janitor, run against the code's map.
  function Results(default: int, items: Items, trace: seq<Timed>): seq<Result>
    decreases |trace|
  {
    if trace == [] then []
    else
      var (items', r) := Exec(default, items, trace[0].op, trace[0].now);
      (if trace[0].op.DeleteExpired? then [] else [r]) + Results(default, items', trace[1..])
  }

  // The results of the plain map.
  function PlainResults(default: int, m: Items, trace: seq<Timed>): seq<Result>
    decreases |trace|
  {
    if trace == [] then []
    else
      var (m', r) := Plain(default, Aged(m, trace[0].now), trace[0].op, trace[0].now);
      [r] + PlainResults(default, m', trace[1..])
  }

  function WithoutJanitor(trace: seq<Timed>): seq<Timed> {
    if trace == [] then []
    else (if trace[0].op.DeleteExpired? then [] else [trace[0]]) + WithoutJanitor(trace[1..])
  }

  predicate NonNegative(items: Items) {
    forall k :: k in items ==> items[k].expiration >= 0
  }

  // The code's map shows the plain map.
  ghost predicate Shows(items: Items, m: Items, now: int) {
    NonNegative(items) && NonNegative(m) && Aged(items, now) == Aged(m, now)
  }

  lemma ShowsLater(items: Items, m: Items, now: int, now': int)
    requires Shows(items, m, now) && now <= now'
    ensures Shows(items, m, now')
  {
    assert forall k :: k in Aged(items, now') ==> k in Aged(items, now);
    assert forall k :: k in Aged(m, now') ==> k in Aged(m, now);
  }

  lemma SweptIsAged(items: Items, now: int)
    requires NonNegative(items)
    ensures Swept(items, now) == Aged(items, now)
  {
  }

  lemma AgedTwice(m: Items, now: int)
    ensures Aged(Aged(m, now), now) == Aged(m, now)
  {
  }

  // Each operation gives the plain map's result and shows its new contents.
  lemma StepShows(default: int, items: Items, m: Items, op: Op, now: int)
    requires Shows(items, m, now) && now >= 0
    ensures Agree(Exec(default, items, op, now), Plain(default, Aged(m, now), op, now), now)
  {
    match op
    case Set(_, _, _) => StoreShows(default, items, m, op, now);
    case Add(_, _, _) => StoreShows(default, items, m, op, now);
    case Replace(_, _, _) => StoreShows(default, items, m, op, now);
    case Increment(_, _) => IncrementShows(default, items, m, op, now);
    case Get(_) => ReadShows(default, items, m, op, now);
    case List => ReadShows(default, items, m, op, now);
    case Delete(_) => RemovalShows(default, items, m, op, now);
    case Flush => RemovalShows(default, items, m, op, now);
    case DeleteExpired => RemovalShows(default, items, m, op, now);
  }

  // The same result, and the one map shows the other.
  ghost predicate Agree(a: (Items, Result), b: (Items, Result), now: int) {
    a.1 == b.1 && Shows(a.0, b.0, now)
  }

  lemma EntryShows(items: Items, m: Items, k: string, now: int)
    requires Shows(items, m, now)
    ensures k in Aged(m, now) <==> k in items && Live(items[k], now)
    ensures k in Aged(m, now) ==> Aged(m, now)[k] == items[k]
    ensures k in items ==> Live(items[k], now) == !Expired(items[k], now)
  {
    assert k in Aged(items, now) <==> k in Aged(m, now);
  }

  lemma ViewShows(items: Items, m: Items, now: int)
    requires Shows(items, m, now)
    ensures Shows(items, Aged(m, now), now)
  {
    AgedTwice(m, now);
  }

  lemma StoreShows(default: int, items: Items, m: Items, op: Op, now: int)
    requires Shows(items, m, now) && now >= 0 && (op.Set? || op.Add? || op.Replace?)
    ensures Agree(Exec(default, items, op, now), Plain(default, Aged(m, now), op, now), now)
  {
    hide Aged, Shows;
    EntryShows(items, m, op.k, now);
    ViewShows(items, m, now);
    SameEntry(items, m, op.k, Item(op.x, Deadline(default, op.d, now)), now);
  }

  lemma IncrementShows(default: int, items: Items, m: Items, op: Op, now: int)
    requires Shows(items, m, now) && op.Increment?
    ensures Agree(Exec(default, items, op, now), Plain(default, Aged(m, now), op, now), now)
  {
    EntryShows(items, m, op.k, now);
    ViewShows(items, m, now);
    if op.k in Aged(m, now) && IsNumber(items[op.k].obj) {
      var item := items[op.k];
      SameEntry(items, m, op.k, item.(obj := Sum(item.obj, op.n)), now);
    }
    hide Aged, Shows;
  }

  lemma ReadShows(default: int, items: Items, m: Items, op: Op, now: int)
    requires Shows(items, m, now) && (op.Get? || op.List?)
    ensures Agree(Exec(default, items, op, now), Plain(default, Aged(m, now), op, now), now)
  {
    SweptIsAged(items, now);
    ViewShows(items, m, now);
    if op.Get? {
      EntryShows(items, m, op.k, now);
    }
  }

  lemma RemovalShows(default: int, items: Items, m: Items, op: Op, now: int)
    requires Shows(items, m, now) && (op.Delete? || op.Flush? || op.DeleteExpired?)
    ensures Agree(Exec(default, items, op, now), Plain(default, Aged(m, now), op, now), now)
  {
    ViewShows(items, m, now);
    SweepShows(items, Aged(m, now), now);
    if op.Delete? {
      assert Aged(items - {op.k}, now) == Aged(items, now) - {op.k};
      assert Aged(Aged(m, now) - {op.k}, now) == Aged(Aged(m, now), now) - {op.k};
    }
  }

  lemma SameEntry(items: Items, m: Items, k: string, item: Item, now: int)
    requires Shows(items, m, now) && item.expiration >= 0
    ensures Shows(items[k := item], Aged(m, now)[k := item], now)
  {
    var a, b := items[k := item], Aged(m, now)[k := item];
    AgedTwice(m, now);
    forall j
      ensures j in Aged(a, now) <==> j in Aged(b, now)
    {
      if j != k {
        assert j in Aged(items, now) <==> j in Aged(m, now);
      }
    }
    forall j | j in Aged(a, now)
      ensures Aged(a, now)[j] == Aged(b, now)[j]
    {
      if j != k {
        assert j in Aged(items, now);
      }
    }
  }

  // However often and whenever the janitor runs, the cache answers like the plain map
  // that has no janitor.
  lemma {:induction false} CacheIsPlainMap(default: int, items: Items, m: Items, from: int, trace: seq<Timed>)
    requires Shows(items, m, from) && Ordered(from, trace)
    ensures Results(default, items, trace) == PlainResults(default, m, WithoutJanitor(trace))
    decreases |trace|
  {
    if trace != [] {
      var op, now, rest := trace[0].op, trace[0].now, trace[1..];
      ShowsLater(items, m, from, now);
      StepShows(default, items, m, op, now);
      var items' := Exec(default, items, op, now).0;
      if op.DeleteExpired? {
        SweepShows(items, m, now);
        CacheIsPlainMap(default, items', m, now, rest);
        assert [] + WithoutJanitor(rest) == WithoutJanitor(rest);
        assert [] + Results(default, items', rest) == Results(default, items', rest);
      } else {
        CacheIsPlainMap(default, items', Plain(default, Aged(m, now), op, now).0, now, rest);
        assert ([trace[0]] + WithoutJanitor(rest))[1..] == WithoutJanitor(rest);
      }
    }
  }

  lemma SweepShows(items: Items, m: Items, now: int)
    requires Shows(items, m, now)
    ensures Shows(Swept(items, now), m, now)
  {
    SweptIsAged(items, now);
    AgedTwice(items, now);
  }

  // Removing every sweep from a trace changes no result.
  lemma JanitorUnobservable(default: int, items: Items, from: int, trace: seq<Timed>)
    requires NonNegative(items) && Ordered(from, trace)
    ensures Results(default, items, trace) == Results(default, items, WithoutJanitor(trace))
  {
    CacheIsPlainMap(default, items, items, from, trace);
    SkippedOrdered(from, trace);
    CacheIsPlainMap(default, items, items, from, WithoutJanitor(trace));
  }

  lemma {:induction false} SkippedOrdered(from: int, trace: seq<Timed>)
    requires Ordered(from, trace)
    ensures Ordered(from, WithoutJanitor(trace))
    ensures WithoutJanitor(WithoutJanitor(trace)) == WithoutJanitor(trace)
    decreases |trace|
  {
    if trace != [] {
      SkippedOrdered(trace[0].now, trace[1..]);
      var rest := WithoutJanitor(trace[1..]);
      if trace[0].op.DeleteExpired? {
        assert WithoutJanitor(trace) == rest;
        EarlierStart(from, trace[0].now, rest);
      } else {
        assert WithoutJanitor(trace)[1..] == rest;
      }
    }
  }

  lemma EarlierStart(from: int, later: int, trace: seq<Timed>)
    requires 0 <= from <= later && Ordered(later, trace)
    ensures Ordered(from, trace)
  {
  }

  // ---------------------------------------------------------------------------
  // The object

  class Cache {
    const defaultExpiration: int
    var items: Items

    constructor (default: int)
      ensures items == map[]
      ensures defaultExpiration == if default == 0 then -1 else default
    {
      defaultExpiration := if default == 0 then -1 else default;
      items := map[];
    }

    method Set(k: string, x: Object, d: int, now: int)
      modifies this
      ensures items == Exec(defaultExpiration, old(items), Op.Set(k, x, d), now).0
    {
      var e := 0;
      var d' := if d == 0 then defaultExpiration else d;
      if d' > 0 {
        e := now + d';
      }
      items := items[k := Item(x, e)];
    }

    method Add(k: string, x: Object, d: int, now: int) returns (ok: bool)
      modifies this
      ensures (items, Stored(ok)) == Exec(defaultExpiration, old(items), Op.Add(k, x, d), now)
    {
      var found := Get(k, now);
      if found.Some? {
        return false;
      }
      Set(k, x, d, now);
      return true;
    }

    method Replace(k: string, x: Object, d: int, now: int) returns (ok: bool)
      modifies this
      ensures (items, Stored(ok)) == Exec(defaultExpiration, old(items), Op.Replace(k, x, d), now)
    {
      var found := Get(k, now);
      if found.None? {
        return false;
      }
      Set(k, x, d, now);
      return true;
    }

    method Get(k: string, now: int) returns (r: Option<Object>)
      ensures r == Find(items, k, now)
    {
      if k !in items {
        return None;
      }
      var item := items[k];
      if item.expiration > 0 {
        if now > item.expiration {
          return None;
        }
      }
      return Some(item.obj);
    }

    method Increment(k: string, n: int, now: int) returns (r: Result)
      modifies this
      ensures (items, r) == Exec(defaultExpiration, old(items), Op.Increment(k, n), now)
    {
      if k !in items || Expired(items[k], now) {
        return NotFound;
      }
      var v := items[k];
      match v.obj {
        case Integer(t, m) => v := v.(obj := Integer(t, Wrap(t, m + Wrap(t, n))));
        case Float(single, x) => v := v.(obj := Float(single, x + n as real));
        case _ => return NotInteger;
      }
      items := items[k := v];
      return Done;
    }

    method Listing(now: int) returns (m: Items)
      ensures m == Swept(items, now)
    {
      m := map[];
      var rest := items.Keys;
      while rest != {}
        invariant rest <= items.Keys
        invariant m == map k | k in items && k !in rest && Live(items[k], now) :: items[k]
        decreases rest
      {
        var k :| k in rest;
        rest := rest - {k};
        if !(items[k].expiration > 0 && now > items[k].expiration) {
          m := m[k := items[k]];
        }
      }
    }

    // The janitor's sweep, in whatever order the map is walked.
    method DeleteExpired(now: int)
      modifies this
      ensures items == Swept(old(items), now)
    {
      var rest := items.Keys;
      while rest != {}
        invariant rest <= old(items).Keys
        invariant items == map k | k in old(items) && (k in rest || Live(old(items)[k], now)) :: old(items)[k]
        decreases rest
      {
        var k :| k in rest;
        if items[k].expiration > 0 && now > items[k].expiration {
          items := items - {k};
        }
        rest := rest - {k};
      }
    }
  }
}
