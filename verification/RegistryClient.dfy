/** The client in front of the function registry: it answers from a cache shared by
    three kinds of objects and fills it with what the registry answers.
 */
module RegistryClient {
  import opened Options
  import opened ExpiringCache

  datatype Kind = FunctionKind | AliasKind | RuntimeKind

  function KindName(kind: Kind): string {
    match kind
    case FunctionKind => "function"
    case AliasKind => "alias"
    case RuntimeKind => "runtime"
  }

  function CacheKey(kind: Kind, key: string): string {
    KindName(kind) + ":" + key
  }

  // The keys as they are written.
  lemma CacheKeyText(key: string)
    ensures CacheKey(FunctionKind, key) == "function:" + key
    ensures CacheKey(AliasKind, key) == "alias:" + key
    ensures CacheKey(RuntimeKind, key) == "runtime:" + key
  {
  }

  // Ten minutes in nanoseconds.
  const DEFAULT_CACHE_EXPIRATION: int := 600_000_000_000

  predicate IsOfKind(obj: Object, kind: Kind) {
    match kind
    case FunctionKind => obj.FunctionOutput?
    case AliasKind => obj.AliasOutput?
    case RuntimeKind => obj.RuntimeOutput?
  }

  // Entries of different kinds never share a key, and neither do different keys of
  // one kind.
  lemma CacheKeyInjective(a: Kind, x: string, b: Kind, y: string)
    ensures CacheKey(a, x) == CacheKey(b, y) <==> a == b && x == y
  {
    var s, t := CacheKey(a, x), CacheKey(b, y);
    if s == t {
      assert s[0] == KindName(a)[0] && t[0] == KindName(b)[0];
      assert a == b;
      assert s[|KindName(a)| + 1..] == x && t[|KindName(b)| + 1..] == y;
    }
  }

  // An answer of the registry and the time it was stored.
  datatype Answer = Answer(kind: Kind, key: string, obj: Object, at: int)

  datatype Config = Config(default: int, expirations: map<Kind, int>)

  function ExpirationOf(config: Config, kind: Kind): int {
    if kind in config.expirations then config.expirations[kind] else DEFAULT_CACHE_EXPIRATION
  }

  // How long an answer of a kind may be served; not positive means for ever.
  function Lifetime(config: Config, kind: Kind): int {
    if ExpirationOf(config, kind) == 0 then config.default else ExpirationOf(config, kind)
  }

  // ---------------------------------------------------------------------------
  // The cache against the log of stored answers

  predicate For(answer: Answer, kind: Kind, key: string) {
    answer.kind == kind && answer.key == key
  }

  // Answer j is the latest one for this kind and key, it is this object, and it was
  // stored no longer ago than the kind's lifetime.
  ghost predicate FreshAt(config: Config, log: seq<Answer>, kind: Kind, key: string, obj: Object, now: int, j: nat) {
    && j < |log| && For(log[j], kind, key) && log[j].obj == obj
    && (forall i :: j < i < |log| ==> !For(log[i], kind, key))
    && log[j].at <= now
    && (Lifetime(config, kind) > 0 ==> now <= log[j].at + Lifetime(config, kind))
  }

  ghost predicate Fresh(config: Config, log: seq<Answer>, kind: Kind, key: string, obj: Object, now: int) {
    exists j: nat :: FreshAt(config, log, kind, key, obj, now, j)
  }

  // The entry is what Set made of answer j, the latest one for its key.
  ghost predicate Justified(config: Config, log: seq<Answer>, k: string, item: Item, j: nat) {
    && j < |log| && k == CacheKey(log[j].kind, log[j].key)
    && item.obj == log[j].obj && IsOfKind(item.obj, log[j].kind)
    && (forall i :: j < i < |log| ==> !For(log[i], log[j].kind, log[j].key))
    && item.expiration == Deadline(config.default, ExpirationOf(config, log[j].kind), log[j].at)
  }

  ghost predicate Complete(config: Config, log: seq<Answer>, items: Items, clock: int) {
    forall kind, key, obj :: Fresh(config, log, kind, key, obj, clock) ==> CacheKey(kind, key) in items
  }

  // Every entry is an answer, and no answer that may still be served is missing.
  ghost predicate Consistent(config: Config, log: seq<Answer>, items: Items, clock: int) {
    && clock >= 0
    && (forall j :: 0 <= j < |log| ==> 0 <= log[j].at <= clock)
    && (forall k :: k in items ==> exists j: nat :: Justified(config, log, k, items[k], j))
    && Complete(config, log, items, clock)
  }

  // A lookup hits exactly when the registry's latest stored answer for that kind and
  // key is still within its lifetime, and then returns it.
  lemma HitIff(config: Config, log: seq<Answer>, items: Items, clock: int, kind: Kind, key: string, obj: Object, now: int)
    requires Consistent(config, log, items, clock) && now >= clock
    ensures Find(items, CacheKey(kind, key), now) == Some(obj) <==> Fresh(config, log, kind, key, obj, now)
    ensures Fresh(config, log, kind, key, obj, now) ==> IsOfKind(obj, kind)
  {
    var k := CacheKey(kind, key);
    if Fresh(config, log, kind, key, obj, now) {
      var j: nat :| FreshAt(config, log, kind, key, obj, now, j);
      assert FreshAt(config, log, kind, key, obj, clock, j);
      assert Fresh(config, log, kind, key, obj, clock);
    }
    if k in items {
      var j: nat :| Justified(config, log, k, items[k], j);
      CacheKeyInjective(kind, key, log[j].kind, log[j].key);
      hide CacheKey, IsOfKind;
      EntryIsFresh(config, log, items[k], kind, key, obj, now, j);
    }
  }

  // This object is the latest answer stored for the kind and key, and it was stored at
  // or after the given time.
  ghost predicate LatestSince(log: seq<Answer>, kind: Kind, key: string, obj: Object, since: int, j: nat) {
    && j < |log| && log[j] == Answer(kind, key, obj, log[j].at) && log[j].at >= since
    && forall i :: j < i < |log| ==> log[i].kind != kind || log[i].key != key
  }

  ghost predicate ServedSince(log: seq<Answer>, kind: Kind, key: string, obj: Object, since: int) {
    exists j: nat :: LatestSince(log, kind, key, obj, since, j)
  }

  // How old a served answer may be, read off the configuration.  A positive expiration
  // configured for the kind is the bound; a kind without one has ten minutes; zero asks
  // for the cache's own default; and without a positive bound an answer is served for
  // ever.
  lemma HitWithinConfigured(config: Config, log: seq<Answer>, items: Items, clock: int, kind: Kind, key: string, obj: Object, now: int)
    requires Consistent(config, log, items, clock) && now >= clock
    ensures kind in config.expirations && config.expirations[kind] > 0 ==>
              (Find(items, CacheKey(kind, key), now) == Some(obj) <==>
               ServedSince(log, kind, key, obj, now - config.expirations[kind]))
    ensures kind !in config.expirations ==>
              (Find(items, CacheKey(kind, key), now) == Some(obj) <==>
               ServedSince(log, kind, key, obj, now - 10 * 60 * 1_000_000_000))
    ensures kind in config.expirations && config.expirations[kind] == 0 && config.default > 0 ==>
              (Find(items, CacheKey(kind, key), now) == Some(obj) <==>
               ServedSince(log, kind, key, obj, now - config.default))
    ensures kind in config.expirations && (config.expirations[kind] < 0 || (config.expirations[kind] == 0 && config.default <= 0)) ==>
              (Find(items, CacheKey(kind, key), now) == Some(obj) <==>
               ServedSince(log, kind, key, obj, 0))
  {
    HitIff(config, log, items, clock, kind, key, obj, now);
    hide Find, CacheKey;
    var bound := if kind in config.expirations then
                   if config.expirations[kind] == 0 then config.default else config.expirations[kind]
                 else 600_000_000_000;
    var since := if bound > 0 then now - bound else 0;
    forall j: nat
      ensures FreshAt(config, log, kind, key, obj, now, j) <==> LatestSince(log, kind, key, obj, since, j)
    {
    }
  }

  lemma EntryIsFresh(config: Config, log: seq<Answer>, item: Item, kind: Kind, key: string, obj: Object, now: int, j: nat)
    requires Justified(config, log, CacheKey(kind, key), item, j) && For(log[j], kind, key) && 0 <= log[j].at <= now
    ensures Live(item, now) && item.obj == obj <==> Fresh(config, log, kind, key, obj, now)
  {
    hide CacheKey, IsOfKind;
    if Live(item, now) && item.obj == obj {
      assert FreshAt(config, log, kind, key, obj, now, j);
    }
    if Fresh(config, log, kind, key, obj, now) {
      var j': nat :| FreshAt(config, log, kind, key, obj, now, j');
      assert j' == j;
    }
  }

  // Time passing and expired entries going away keep the invariant.
  lemma SweepKeeps(config: Config, log: seq<Answer>, items: Items, clock: int, items': Items, now: int)
    requires Consistent(config, log, items, clock) && now >= clock
    requires items' == items || items' == Swept(items, now)
    ensures Consistent(config, log, items', now)
  {
    forall kind, key, obj | Fresh(config, log, kind, key, obj, now)
      ensures CacheKey(kind, key) in items'
    {
      HitIff(config, log, items, clock, kind, key, obj, now);
    }
  }

  // Storing an answer keeps the invariant.
  lemma StoreKeeps(config: Config, log: seq<Answer>, items: Items, clock: int, answer: Answer)
    requires Consistent(config, log, items, clock) && answer.at >= clock && IsOfKind(answer.obj, answer.kind)
    ensures var item := Item(answer.obj, Deadline(config.default, ExpirationOf(config, answer.kind), answer.at));
            Consistent(config, log + [answer], items[CacheKey(answer.kind, answer.key) := item], answer.at)
  {
    var k0, log' := CacheKey(answer.kind, answer.key), log + [answer];
    var item := Item(answer.obj, Deadline(config.default, ExpirationOf(config, answer.kind), answer.at));
    var items' := items[k0 := item];
    forall k | k in items'
      ensures exists j: nat :: Justified(config, log', k, items'[k], j)
    {
      if k == k0 {
        assert Justified(config, log', k, item, |log|);
      } else {
        var j: nat :| Justified(config, log, k, items[k], j);
        CacheKeyInjective(answer.kind, answer.key, log[j].kind, log[j].key);
        hide CacheKey, Deadline, IsOfKind;
        assert Justified(config, log', k, items[k], j);
      }
    }
    hide CacheKey, Deadline, IsOfKind;
    forall kind, key, obj | Fresh(config, log', kind, key, obj, answer.at)
      ensures CacheKey(kind, key) in items'
    {
      var j: nat :| FreshAt(config, log', kind, key, obj, answer.at, j);
      if j < |log| {
        assert FreshAt(config, log, kind, key, obj, clock, j) by {
          assert forall i :: j < i < |log| ==> log'[i] == log[i];
        }
        assert Fresh(config, log, kind, key, obj, clock);
      }
    }
  }

  class FunctionServerClient {
    const cache: Cache
    const expirations: map<Kind, int>
    ghost var log: seq<Answer>
    ghost var clock: int

    function Configuration(): Config {
      Config(cache.defaultExpiration, expirations)
    }

    ghost predicate Valid()
      reads this, cache
    {
      Consistent(Configuration(), log, cache.items, clock)
    }

    // The registry's latest answer is this object and may be served now.
    ghost predicate Servable(kind: Kind, key: string, obj: Object, now: int)
      reads this
    {
      Fresh(Configuration(), log, kind, key, obj, now)
    }

    constructor (expirations: map<Kind, int>)
      ensures Valid() && fresh(cache) && log == [] && clock == 0
      ensures this.expirations == expirations && cache.defaultExpiration == DEFAULT_CACHE_EXPIRATION
    {
      cache := new Cache(DEFAULT_CACHE_EXPIRATION);
      this.expirations := expirations;
      log, clock := [], 0;
    }

    method Lookup(kind: Kind, key: string, now: int) returns (r: Option<Object>)
      requires Valid() && now >= clock
      modifies this`clock
      ensures Valid() && clock == now
      ensures forall obj :: r == Some(obj) <==> old(Servable(kind, key, obj, now))
      ensures r.Some? ==> IsOfKind(r.value, kind)
    {
      r := cache.Get(CacheKey(kind, key), now);
      forall obj
        ensures r == Some(obj) <==> Servable(kind, key, obj, now)
        ensures r == Some(obj) ==> IsOfKind(obj, kind)
      {
        HitIff(Configuration(), log, cache.items, clock, kind, key, obj, now);
      }
      SweepKeeps(Configuration(), log, cache.items, clock, cache.items, now);
      clock := now;
    }

    method Store(kind: Kind, key: string, obj: Object, now: int)
      requires Valid() && now >= clock && IsOfKind(obj, kind)
      modifies this`clock, this`log, cache
      ensures Valid() && clock == now
      ensures log == old(log) + [Answer(kind, key, obj, now)]
    {
      StoreKeeps(Configuration(), log, cache.items, clock, Answer(kind, key, obj, now));
      cache.Set(CacheKey(kind, key), obj, ExpirationOf(Configuration(), kind), now);
      log := log + [Answer(kind, key, obj, now)];
      clock := now;
    }

    // The cache's janitor may run between any two calls.
    method Sweep(now: int)
      requires Valid() && now >= clock
      modifies this`clock, cache
      ensures Valid() && clock == now
    {
      SweepKeeps(Configuration(), log, cache.items, clock, Swept(cache.items, now), now);
      cache.DeleteExpired(now);
      clock := now;
    }

    // A function, by name; the registry's reply is consulted only on a miss, and an
    // error is passed on and not cached.
    method GetFunction(name: string, withCache: bool, reply: Option<nat>, now: int, later: int)
      returns (r: Option<Object>, hit: bool)
      requires Valid() && clock <= now <= later
      modifies this`clock, this`log, cache
      ensures Valid() && old(log) <= log
      ensures hit ==> withCache && r.Some? && old(Servable(FunctionKind, name, r.value, now))
      ensures !hit && withCache ==> forall obj :: !old(Servable(FunctionKind, name, obj, now))
      ensures r.Some? ==> r.value.FunctionOutput?
      ensures !hit ==> r == if reply.Some? then Some(FunctionOutput(reply.value)) else None
      ensures log == if !hit && withCache && reply.Some?
                     then old(log) + [Answer(FunctionKind, name, FunctionOutput(reply.value), later)] else old(log)
    {
      hit := false;
      if withCache {
        r := Lookup(FunctionKind, name, now);
        if r.Some? {
          return r, true;
        }
      }
      if reply.None? {
        return None, false;
      }
      r := Some(FunctionOutput(reply.value));
      if withCache {
        Store(FunctionKind, name, r.value, later);
      }
    }

    // An alias; an empty resource name is never cached.
    method GetAlias(brn: string, withCache: bool, reply: Option<nat>, now: int, later: int)
      returns (r: Option<Object>, hit: bool)
      requires Valid() && clock <= now <= later
      modifies this`clock, this`log, cache
      ensures Valid() && old(log) <= log
      ensures hit ==> withCache && brn != "" && r.Some? && old(Servable(AliasKind, brn, r.value, now))
      ensures !hit && withCache && brn != "" ==> forall obj :: !old(Servable(AliasKind, brn, obj, now))
      ensures r.Some? ==> r.value.AliasOutput?
      ensures !hit ==> r == if reply.Some? then Some(AliasOutput(reply.value)) else None
      ensures log == if !hit && withCache && brn != "" && reply.Some?
                     then old(log) + [Answer(AliasKind, brn, AliasOutput(reply.value), later)] else old(log)
    {
      hit := false;
      if withCache && brn != "" {
        r := Lookup(AliasKind, brn, now);
        if r.Some? {
          return r, true;
        }
      }
      if reply.None? {
        return None, false;
      }
      r := Some(AliasOutput(reply.value));
      if withCache && brn != "" {
        Store(AliasKind, brn, r.value, later);
      }
    }

    // A runtime configuration is always looked up and stored.
    method GetRuntimeConfiguration(name: string, reply: Option<nat>, now: int, later: int)
      returns (r: Option<Object>, hit: bool)
      requires Valid() && clock <= now <= later
      modifies this`clock, this`log, cache
      ensures Valid() && old(log) <= log
      ensures hit ==> r.Some? && old(Servable(RuntimeKind, name, r.value, now))
      ensures !hit ==> forall obj :: !old(Servable(RuntimeKind, name, obj, now))
      ensures r.Some? ==> r.value.RuntimeOutput?
      ensures !hit ==> r == if reply.Some? then Some(RuntimeOutput(reply.value)) else None
      ensures log == if !hit && reply.Some?
                     then old(log) + [Answer(RuntimeKind, name, RuntimeOutput(reply.value), later)] else old(log)
    {
      r := Lookup(RuntimeKind, name, now);
      if r.Some? {
        return r, true;
      }
      hit := false;
      if reply.None? {
        return;
      }
      r := Some(RuntimeOutput(reply.value));
      Store(RuntimeKind, name, r.value, later);
    }
  }
}
