/** The path multiplexer: registration rebuilds a snapshot whose prefixes are sorted by
    priority, and requests are served by scanning that snapshot.
 */
module PathMux {
  import opened Options

  datatype Handler = DefaultNotFound | Custom(id: nat)

  type Handlers = map<string, Handler>

  // ---------------------------------------------------------------------------
  // The priority of prefixes

  function Slashes(s: string): nat {
    if s == "" then 0 else Slashes(s[..|s| - 1]) + if s[|s| - 1] == '/' then 1 else 0
  }

  lemma {:induction false} SlashesCounted(s: string)
    ensures Slashes(s) == multiset(s)['/']
  {
    if s != "" {
      SlashesCounted(s[..|s| - 1]);
      assert s == s[..|s| - 1] + [s[|s| - 1]];
    }
  }

  predicate Before(a: string, b: string) {
    if b == "" then false
    else if a == "" then true
    else a[0] < b[0] || (a[0] == b[0] && Before(a[1..], b[1..]))
  }

  // More slashes rank higher, then more characters, then the later text.
  predicate Less(a: string, b: string) {
    if Slashes(a) != Slashes(b) then Slashes(a) < Slashes(b)
    else if |a| != |b| then |a| < |b|
    else Before(a, b)
  }

  lemma {:induction false} BeforeTotal(a: string, b: string)
    ensures Before(a, b) || Before(b, a) || a == b
    ensures !(Before(a, b) && Before(b, a)) && !Before(a, a)
    decreases |a|
  {
    if a != "" {
      BeforeTotal(a[1..], a[1..]);
      if b != "" {
        BeforeTotal(a[1..], b[1..]);
        assert a == [a[0]] + a[1..] && b == [b[0]] + b[1..];
      }
    }
  }

  lemma {:induction false} BeforeTransitive(a: string, b: string, c: string)
    requires Before(a, b) && Before(b, c)
    ensures Before(a, c)
  {
    if a != "" && a[0] == b[0] && b[0] == c[0] {
      BeforeTransitive(a[1..], b[1..], c[1..]);
    }
  }

  lemma PriorityTotal(a: string, b: string)
    ensures a == b <==> !Less(a, b) && !Less(b, a)
    ensures !(Less(a, b) && Less(b, a))
  {
    BeforeTotal(a, b);
  }

  lemma PriorityTransitive(a: string, b: string, c: string)
    requires !Less(a, b) && !Less(b, c)
    ensures !Less(a, c)
  {
    BeforeTotal(a, b);
    BeforeTotal(b, c);
    BeforeTotal(a, c);
    if Before(c, b) && Before(b, a) {
      BeforeTransitive(c, b, a);
    }
  }

  // The priority is a strict total order, so the sorted order of a set is unique.
  lemma PriorityIsTotalOrder(a: string, b: string, c: string)
    ensures !Less(a, a)
    ensures Less(a, b) && Less(b, c) ==> Less(a, c)
    ensures a != b ==> Less(a, b) != Less(b, a)
  {
    hide Less;
    PriorityTotal(a, a);
    PriorityTotal(a, b);
    PriorityTotal(b, c);
    PriorityTotal(a, c);
    if Less(a, b) && Less(b, c) {
      PriorityTransitive(c, b, a);
    }
  }

  lemma {:induction false} SlashesGrow(path: string, m: nat, n: nat)
    requires m <= n <= |path|
    ensures Slashes(path[..m]) <= Slashes(path[..n])
  {
    if m < n {
      SlashesGrow(path, m, n - 1);
      assert path[..n][..n - 1] == path[..n - 1];
    }
  }

  // Among prefixes of one path, the priority is the length.
  lemma PriorityIsLength(path: string, a: string, b: string)
    requires a <= path && b <= path
    ensures Less(a, b) <==> |a| < |b|
  {
    assert a == path[..|a|] && b == path[..|b|];
    if |a| <= |b| {
      SlashesGrow(path, |a|, |b|);
    } else {
      SlashesGrow(path, |b|, |a|);
    }
    PriorityTotal(a, b);
  }

  // ---------------------------------------------------------------------------
  // What is registered, and which handler a path should get

  datatype Registry = Registry(paths: Handlers, prefixes: Handlers, notFound: Option<Handler>, exposed: seq<string>)

  // Cut the path shorter and shorter until what is left is a registered prefix.
  function Longest(prefixes: Handlers, path: string, n: nat): Option<Handler>
    requires n <= |path|
  {
    if path[..n] in prefixes then Some(prefixes[path[..n]])
    else if n == 0 then None
    else Longest(prefixes, path, n - 1)
  }

  function Route(reg: Registry, path: string): Handler {
    if path in reg.paths then reg.paths[path]
    else match Longest(reg.prefixes, path, |path|)
      case Some(h) => h
      case None => if reg.notFound.Some? then reg.notFound.value else DefaultNotFound
  }

  lemma {:induction false} LongestIs(prefixes: Handlers, path: string, n: nat, p: string)
    requires n <= |path| && p in prefixes && p <= path && |p| <= n
    requires forall q :: q in prefixes && q <= path ==> |q| <= |p|
    ensures Longest(prefixes, path, n) == Some(prefixes[p])
  {
    if |p| < n {
      assert path[..n] !in prefixes;
      LongestIs(prefixes, path, n - 1, p);
    } else {
      assert path[..n] == p;
    }
  }

  lemma {:induction false} NoneMatches(prefixes: Handlers, path: string, n: nat)
    requires n <= |path|
    requires forall m :: 0 <= m <= n ==> path[..m] !in prefixes
    ensures Longest(prefixes, path, n) == None
  {
    if n > 0 {
      NoneMatches(prefixes, path, n - 1);
    }
  }

  predicate EndsInSlash(path: string) {
    path != "" && path[|path| - 1] == '/'
  }

  function WithoutFirst(s: seq<string>, x: string): seq<string> {
    if s == [] then [] else if s[0] == x then s[1..] else [s[0]] + WithoutFirst(s[1..], x)
  }

  lemma {:induction false} WithoutFirstCount(s: seq<string>, x: string)
    ensures multiset(WithoutFirst(s, x)) == multiset(s) - multiset{x}
  {
    if s != [] {
      assert s == [s[0]] + s[1..];
      if s[0] != x {
        WithoutFirstCount(s[1..], x);
      }
    }
  }

  // ---------------------------------------------------------------------------
  // Histories of registrations

  datatype Op =
    | Handle(path: string, handler: Handler)
    | UnlistedHandle(path: string, handler: Handler)
    | HandlePrefix(path: string, handler: Handler)
    | UnlistedHandlePrefix(path: string, handler: Handler)
    | Unregister(path: string)
    | NotFoundHandler(notFound: Option<Handler>)

  // A prefix without a trailing slash panics and changes nothing.
  function Apply(reg: Registry, op: Op): Registry {
    match op
    case Handle(p, h) => reg.(paths := reg.paths[p := h], exposed := reg.exposed + [p])
    case UnlistedHandle(p, h) => reg.(paths := reg.paths[p := h])
    case HandlePrefix(p, h) =>
      if EndsInSlash(p) then reg.(prefixes := reg.prefixes[p := h], exposed := reg.exposed + [p]) else reg
    case UnlistedHandlePrefix(p, h) => if EndsInSlash(p) then reg.(prefixes := reg.prefixes[p := h]) else reg
    case Unregister(p) => reg.(paths := reg.paths - {p}, prefixes := reg.prefixes - {p}, exposed := WithoutFirst(reg.exposed, p))
    case NotFoundHandler(h) => reg.(notFound := h)
  }

  function After(ops: seq<Op>): Registry {
    if ops == [] then Registry(map[], map[], None, []) else Apply(After(ops[..|ops| - 1]), ops[|ops| - 1])
  }

  // The handler most recently registered for exactly this path (or this prefix) and
  // not unregistered since, looking backwards through the history.
  function Current(ops: seq<Op>, path: string, asPrefix: bool): Option<Handler> {
    if ops == [] then None else
      var op := ops[|ops| - 1];
      if op.NotFoundHandler? || op.path != path then Current(ops[..|ops| - 1], path, asPrefix)
      else if op.Unregister? then None
      else if asPrefix then
        if (op.HandlePrefix? || op.UnlistedHandlePrefix?) && path != "" && path[|path| - 1] == '/' then Some(op.handler)
        else Current(ops[..|ops| - 1], path, asPrefix)
      else if op.Handle? || op.UnlistedHandle? then Some(op.handler)
      else Current(ops[..|ops| - 1], path, asPrefix)
  }

  function Entry(m: Handlers, k: string): Option<Handler> {
    if k in m then Some(m[k]) else None
  }

  // The not-found handler most recently set, looking backwards; setting none goes back
  // to the default.
  function CurrentNotFound(ops: seq<Op>): Handler {
    if ops == [] then DefaultNotFound
    else if ops[|ops| - 1].NotFoundHandler? then
      if ops[|ops| - 1].notFound.Some? then ops[|ops| - 1].notFound.value else DefaultNotFound
    else CurrentNotFound(ops[..|ops| - 1])
  }

  // How often a path is listed: once for each listed registration of it as a path or as
  // a prefix that is accepted, less one for each unregistration that finds a listing.
  function Listings(ops: seq<Op>, path: string): nat {
    if ops == [] then 0 else
      var n, op := Listings(ops[..|ops| - 1], path), ops[|ops| - 1];
      if op.NotFoundHandler? || op.path != path then n
      else if op.Handle? || (op.HandlePrefix? && path != "" && path[|path| - 1] == '/') then n + 1
      else if op.Unregister? && n > 0 then n - 1
      else n
  }

  lemma {:induction false} ListedCount(ops: seq<Op>, path: string)
    ensures multiset(After(ops).exposed)[path] == Listings(ops, path)
  {
    if ops != [] {
      ListedCount(ops[..|ops| - 1], path);
      ListedStep(After(ops[..|ops| - 1]), ops[|ops| - 1], path);
      hide Apply;
    }
  }

  lemma ListedStep(reg: Registry, op: Op, path: string)
    ensures var n := multiset(reg.exposed)[path];
            var n' := if op.NotFoundHandler? || op.path != path then n
                      else if op.Handle? || (op.HandlePrefix? && path != "" && path[|path| - 1] == '/') then n + 1
                      else if op.Unregister? && n > 0 then n - 1
                      else n;
            multiset(Apply(reg, op).exposed)[path] == n'
  {
    match op
    case Unregister(p) => WithoutFirstCount(reg.exposed, p);
    case NotFoundHandler(_) =>
    case _ =>
      hide WithoutFirst;
      CountAfter(reg.exposed, op.path, path);
  }

  lemma CountAfter(s: seq<string>, p: string, path: string)
    ensures multiset(s + [p])[path] == multiset(s)[path] + if p == path then 1 else 0
  {
    assert multiset(s + [p]) == multiset(s) + multiset{p};
  }

  lemma {:induction false} NotFoundIsCurrent(ops: seq<Op>)
    ensures (if After(ops).notFound.Some? then After(ops).notFound.value else DefaultNotFound) == CurrentNotFound(ops)
  {
    if ops != [] {
      NotFoundIsCurrent(ops[..|ops| - 1]);
    }
  }

  lemma {:induction false} CurrentIsRegistered(ops: seq<Op>, path: string)
    ensures Entry(After(ops).paths, path) == Current(ops, path, false)
    ensures Entry(After(ops).prefixes, path) == Current(ops, path, true)
    ensures forall p :: p in After(ops).prefixes ==> EndsInSlash(p)
  {
    if ops != [] {
      CurrentIsRegistered(ops[..|ops| - 1], path);
    }
  }

  predicate LongestCurrent(ops: seq<Op>, path: string, n: nat)
    requires n <= |path|
  {
    Current(ops, path[..n], true).Some? && forall m :: n < m <= |path| ==> Current(ops, path[..m], true).None?
  }

  // After any history a path goes to its own current handler; failing that, to the
  // current handler of the longest prefix of it that has one; failing that, to the
  // not-found handler.
  lemma RouteOverHistory(ops: seq<Op>, path: string)
    ensures Current(ops, path, false).Some? ==> Route(After(ops), path) == Current(ops, path, false).value
    ensures Current(ops, path, false).None? ==> forall n :: 0 <= n <= |path| && LongestCurrent(ops, path, n) ==>
              Route(After(ops), path) == Current(ops, path[..n], true).value
    ensures Current(ops, path, false).None? && (forall m :: 0 <= m <= |path| ==> Current(ops, path[..m], true).None?) ==>
              Route(After(ops), path) == CurrentNotFound(ops)
  {
    CurrentIsRegistered(ops, path);
    NotFoundIsCurrent(ops);
    var prefixes := After(ops).prefixes;
    forall m | 0 <= m <= |path|
      ensures Entry(prefixes, path[..m]) == Current(ops, path[..m], true)
    {
      CurrentIsRegistered(ops, path[..m]);
    }
    forall n | 0 <= n <= |path| && LongestCurrent(ops, path, n)
      ensures Longest(prefixes, path, |path|) == Current(ops, path[..n], true)
    {
      forall q | q in prefixes && q <= path
        ensures |q| <= n
      {
        assert q == path[..|q|];
      }
      LongestIs(prefixes, path, |path|, path[..n]);
    }
    if forall m :: 0 <= m <= |path| ==> Current(ops, path[..m], true).None? {
      NoneMatches(prefixes, path, |path|);
    }
  }

  // Unregistering takes one listing away, so a path listed twice stays listed although
  // nothing serves it.
  lemma StillListedIff(reg: Registry, path: string)
    ensures path in Apply(reg, Unregister(path)).exposed <==> multiset(reg.exposed)[path] >= 2
    ensures path !in Apply(reg, Unregister(path)).paths && path !in Apply(reg, Unregister(path)).prefixes
  {
    WithoutFirstCount(reg.exposed, path);
    assert path in WithoutFirst(reg.exposed, path) <==> path in multiset(WithoutFirst(reg.exposed, path));
  }

  lemma ListedTwiceExample()
    ensures var reg := After([Handle("/a", Custom(0)), Handle("/a", Custom(1)), Unregister("/a")]);
            reg.exposed == ["/a"] && Route(reg, "/a") == DefaultNotFound
  {
    var ops := [Handle("/a", Custom(0)), Handle("/a", Custom(1)), Unregister("/a")];
    assert ops[..2] == [Handle("/a", Custom(0)), Handle("/a", Custom(1))] && ops[..2][..1] == [Handle("/a", Custom(0))];
    assert After(ops[..2][..1]) == Apply(After([]), ops[0]);
    assert After(ops[..2]) == Apply(After(ops[..2][..1]), ops[1]);
    NoneMatches(map[], "/a", 2);
  }

  // ---------------------------------------------------------------------------
  // The multiplexer

  datatype PrefixHandler = PrefixHandler(prefix: string, handler: Handler)

  datatype PathHandler = PathHandler(pathToHandler: Handlers, prefixHandlers: seq<PrefixHandler>, notFoundHandler: Handler)

  predicate Descending(keys: seq<string>) {
    forall i, j :: 0 <= i < j < |keys| ==> !Less(keys[i], keys[j])
  }

  method ListKeys(m: Handlers) returns (keys: seq<string>)
    ensures forall k :: k in keys <==> k in m
  {
    keys := [];
    var rest := m.Keys;
    while rest != {}
      invariant rest <= m.Keys
      invariant forall k :: k in keys <==> k in m && k !in rest
      decreases rest
    {
      var k :| k in rest;
      keys := keys + [k];
      rest := rest - {k};
    }
  }

  // Insertion into the place the priority gives.
  method SortByPriority(keys: seq<string>) returns (sorted: seq<string>)
    ensures Descending(sorted)
    ensures multiset(sorted) == multiset(keys) && forall k :: k in sorted <==> k in keys
  {
    sorted := [];
    for i := 0 to |keys|
      invariant Descending(sorted)
      invariant multiset(sorted) == multiset(keys[..i])
    {
      sorted := Insert(sorted, keys[i]);
      assert keys[..i + 1] == keys[..i] + [keys[i]];
    }
    assert keys[..|keys|] == keys;
    assert forall k :: k in sorted <==> k in multiset(sorted);
    assert forall k :: k in keys <==> k in multiset(keys);
  }

  method Insert(sorted: seq<string>, key: string) returns (r: seq<string>)
    requires Descending(sorted)
    ensures Descending(r)
    ensures multiset(r) == multiset(sorted) + multiset{key}
  {
    var k := 0;
    while k < |sorted| && Less(key, sorted[k])
      invariant 0 <= k <= |sorted|
      invariant forall i :: 0 <= i < k ==> Less(key, sorted[i])
    {
      k := k + 1;
    }
    r := sorted[..k] + [key] + sorted[k..];
    assert sorted == sorted[..k] + sorted[k..];
    InsertedDescending(sorted, key, k);
  }

  lemma InsertedDescending(sorted: seq<string>, key: string, k: nat)
    requires Descending(sorted) && k <= |sorted|
    requires forall i :: 0 <= i < k ==> Less(key, sorted[i])
    requires k < |sorted| ==> !Less(key, sorted[k])
    ensures Descending(sorted[..k] + [key] + sorted[k..])
  {
    hide Less;
    var r := sorted[..k] + [key] + sorted[k..];
    forall i, j | 0 <= i < j < |r|
      ensures !Less(r[i], r[j])
    {
      if j == k {
        PriorityTotal(key, sorted[i]);
      } else if i == k {
        if j > k + 1 {
          PriorityTransitive(key, sorted[k], sorted[j - 1]);
        }
      }
    }
  }

  // The list holds exactly the registered prefixes, highest priority first.
  ghost predicate Arranged(prefixes: Handlers, list: seq<PrefixHandler>) {
    && (forall i :: 0 <= i < |list| ==> Entry(prefixes, list[i].prefix) == Some(list[i].handler))
    && (forall p :: p in prefixes ==> exists i :: 0 <= i < |list| && list[i].prefix == p)
    && (forall i, j :: 0 <= i < j < |list| ==> !Less(list[i].prefix, list[j].prefix))
  }

  method ArrangePrefixes(prefixes: Handlers) returns (list: seq<PrefixHandler>)
    ensures Arranged(prefixes, list)
  {
    hide Less;
    var keys := ListKeys(prefixes);
    var sorted := SortByPriority(keys);
    hide Descending;
    list := [];
    for i := 0 to |sorted|
      invariant |list| == i
      invariant forall j :: 0 <= j < i ==> sorted[j] in prefixes && list[j] == PrefixHandler(sorted[j], prefixes[sorted[j]])
    {
      assert sorted[i] in sorted;
      list := list + [PrefixHandler(sorted[i], prefixes[sorted[i]])];
    }
    ListArranged(prefixes, sorted, list);
  }

  lemma ListArranged(prefixes: Handlers, sorted: seq<string>, list: seq<PrefixHandler>)
    requires Descending(sorted) && |list| == |sorted|
    requires forall k :: k in sorted <==> k in prefixes
    requires forall j :: 0 <= j < |sorted| ==> sorted[j] in prefixes && list[j] == PrefixHandler(sorted[j], prefixes[sorted[j]])
    ensures Arranged(prefixes, list)
  {
    hide Less;
    forall p | p in prefixes
      ensures exists i :: 0 <= i < |list| && list[i].prefix == p
    {
      assert p in sorted;
      var i :| 0 <= i < |sorted| && sorted[i] == p;
      assert list[i].prefix == p;
    }
  }

  method RemoveFirst(paths: seq<string>, path: string) returns (r: seq<string>)
    ensures r == WithoutFirst(paths, path)
  {
    for i := 0 to |paths|
      invariant WithoutFirst(paths, path) == paths[..i] + WithoutFirst(paths[i..], path)
    {
      assert paths[i..][1..] == paths[i + 1..];
      if paths[i] == path {
        return paths[..i] + paths[i + 1..];
      }
    }
    return paths;
  }

  class PathRecorderMux {
    var notFoundHandler: Option<Handler>
    var pathToHandler: Handlers
    var prefixToHandler: Handlers
    var exposedPaths: seq<string>
    var mux: PathHandler

    function Registered(): Registry
      reads this
    {
      Registry(pathToHandler, prefixToHandler, notFoundHandler, exposedPaths)
    }

    // The snapshot says what the maps say, and its prefixes are in order.
    ghost predicate Fits()
      reads this
    {
      && mux.pathToHandler == pathToHandler
      && mux.notFoundHandler == (if notFoundHandler.Some? then notFoundHandler.value else DefaultNotFound)
      && Arranged(prefixToHandler, mux.prefixHandlers)
    }

    ghost predicate Valid()
      reads this
    {
      Fits() && forall p :: p in prefixToHandler ==> EndsInSlash(p)
    }

    constructor ()
      ensures Valid() && Registered() == After([])
    {
      notFoundHandler, pathToHandler, prefixToHandler, exposedPaths := None, map[], map[], [];
      mux := PathHandler(map[], [], DefaultNotFound);
    }

    method Refresh()
      modifies this`mux
      ensures Fits()
    {
      var handlers := ArrangePrefixes(prefixToHandler);
      mux := PathHandler(pathToHandler, handlers, if notFoundHandler.Some? then notFoundHandler.value else DefaultNotFound);
    }

    method NotFoundHandler(handler: Option<Handler>)
      requires Valid()
      modifies this
      ensures Valid() && Registered() == Apply(old(Registered()), Op.NotFoundHandler(handler))
    {
      notFoundHandler := handler;
      Refresh();
    }

    method Unregister(path: string)
      requires Valid()
      modifies this
      ensures Valid() && Registered() == Apply(old(Registered()), Op.Unregister(path))
    {
      pathToHandler := pathToHandler - {path};
      prefixToHandler := prefixToHandler - {path};
      exposedPaths := RemoveFirst(exposedPaths, path);
      Refresh();
    }

    method Handle(path: string, handler: Handler)
      requires Valid()
      modifies this
      ensures Valid() && Registered() == Apply(old(Registered()), Op.Handle(path, handler))
    {
      exposedPaths := exposedPaths + [path];
      pathToHandler := pathToHandler[path := handler];
      Refresh();
    }

    method UnlistedHandle(path: string, handler: Handler)
      requires Valid()
      modifies this
      ensures Valid() && Registered() == Apply(old(Registered()), Op.UnlistedHandle(path, handler))
    {
      pathToHandler := pathToHandler[path := handler];
      Refresh();
    }

    method HandlePrefix(path: string, handler: Handler) returns (panicked: bool)
      requires Valid()
      modifies this
      ensures Valid() && Registered() == Apply(old(Registered()), Op.HandlePrefix(path, handler))
      ensures panicked <==> !EndsInSlash(path)
      ensures panicked ==> mux == old(mux)
    {
      if !EndsInSlash(path) {
        return true;
      }
      exposedPaths := exposedPaths + [path];
      prefixToHandler := prefixToHandler[path := handler];
      Refresh();
      return false;
    }

    method UnlistedHandlePrefix(path: string, handler: Handler) returns (panicked: bool)
      requires Valid()
      modifies this
      ensures Valid() && Registered() == Apply(old(Registered()), Op.UnlistedHandlePrefix(path, handler))
      ensures panicked <==> !EndsInSlash(path)
      ensures panicked ==> mux == old(mux)
    {
      if !EndsInSlash(path) {
        return true;
      }
      prefixToHandler := prefixToHandler[path := handler];
      Refresh();
      return false;
    }

    method ServeHTTP(path: string) returns (h: Handler)
      requires Valid()
      ensures h == Route(Registered(), path)
    {
      if path in mux.pathToHandler {
        return mux.pathToHandler[path];
      }
      for i := 0 to |mux.prefixHandlers|
        invariant forall j :: 0 <= j < i ==> !(mux.prefixHandlers[j].prefix <= path)
      {
        if mux.prefixHandlers[i].prefix <= path {
          FirstIsLongest(path, i);
          return mux.prefixHandlers[i].handler;
        }
      }
      assert forall m :: 0 <= m <= |path| ==> path[..m] <= path;
      NoneMatches(prefixToHandler, path, |path|);
      return mux.notFoundHandler;
    }

    // The first matching prefix of the snapshot is the longest registered one.
    lemma FirstIsLongest(path: string, i: nat)
      requires Fits() && i < |mux.prefixHandlers| && mux.prefixHandlers[i].prefix <= path
      requires forall j :: 0 <= j < i ==> !(mux.prefixHandlers[j].prefix <= path)
      ensures Longest(prefixToHandler, path, |path|) == Some(mux.prefixHandlers[i].handler)
    {
      hide Less;
      var p := mux.prefixHandlers[i].prefix;
      forall q | q in prefixToHandler && q <= path
        ensures |q| <= |p|
      {
        var j :| 0 <= j < |mux.prefixHandlers| && mux.prefixHandlers[j].prefix == q;
        PriorityIsLength(path, p, q);
      }
      LongestIs(prefixToHandler, path, |path|, p);
    }
  }
}
