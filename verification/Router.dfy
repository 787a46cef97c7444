/**
 * Route resolution with its cache, and selection of a backend end to end.
 *
 * The radix tree is a parameter: a deterministic lookup over the set of registered
 * patterns, and a test of whether that set can be registered at all.
 */
module Router {
  import opened Words
  import opened Maglev
  import opened Selection
  import opened Stickiness
  import opened RouteCache
  import Fnv

  type Path = seq<byte>

  datatype Pattern = Pattern(key: RouteKey, path: Path)

  datatype Matcher = Matcher(
    at: (set<Pattern>, Path) -> Option<RouteKey>,
    accepts: set<Pattern> -> bool)

  datatype RouteEntry = RouteEntry(pattern: Path, route: Route)

  datatype Tables = Tables(routes: map<RouteKey, RouteEntry>, prefix: set<Pattern>, cache: Cache)

  function KeyFor(httpMethod: HttpMethod, path: Path): RouteKey {
    RouteKey(httpMethod, Fnv.Hash(path))
  }

  function PatternsOf(routes: map<RouteKey, RouteEntry>): set<Pattern> {
    set k | k in routes :: Pattern(k, routes[k].pattern)
  }

  /** The ASCII prefix that keeps methods apart in the radix tree. */
  function MethodPrefix(httpMethod: HttpMethod): Path {
    match httpMethod
    case GET => [71, 69, 84, 58]
    case POST => [80, 79, 83, 84, 58]
    case PUT => [80, 85, 84, 58]
    case DELETE => [68, 69, 76, 69, 84, 69, 58]
    case PATCH => [80, 65, 84, 67, 72, 58]
    case HEAD => [72, 69, 65, 68, 58]
    case OPTIONS => [79, 80, 84, 73, 79, 78, 83, 58]
    case ALL => []
  }

  /** Paths that begin with a slash are kept apart by method. */
  lemma {:induction false} MethodsAreApart(h1: HttpMethod, p1: Path, h2: HttpMethod, p2: Path)
    requires p1 != [] && p1[0] == 47 && p2 != [] && p2[0] == 47
    ensures MethodPrefix(h1) + p1 == MethodPrefix(h2) + p2 <==> h1 == h2 && p1 == p2
  {
    var (m1, m2) := (MethodPrefix(h1), MethodPrefix(h2));
    if m1 + p1 == m2 + p2 {
      assert (m1 + p1)[0] == (m2 + p2)[0] && (h1 != ALL && h2 != ALL ==> (m1 + p1)[1] == (m2 + p2)[1]);
      assert h1 == h2;
      assert (m1 + p1)[|m1|..] == p1 && (m2 + p2)[|m2|..] == p2;
    }
  }

  /** The radix tree's answer, with the method and, if that fails, without it. */
  function TreeAnswer(m: Matcher, prefix: set<Pattern>, httpMethod: HttpMethod, path: Path): Option<RouteKey> {
    var found := m.at(prefix, MethodPrefix(httpMethod) + path);
    if found == None && httpMethod != ALL then m.at(prefix, path) else found
  }

  /** Exact key, then the key for all methods, then the radix tree. */
  function Resolve(m: Matcher, keys: set<RouteKey>, prefix: set<Pattern>, httpMethod: HttpMethod, path: Path)
    : Option<RouteKey>
  {
    var key, allKey := KeyFor(httpMethod, path), KeyFor(ALL, path);
    if key in keys then Some(key)
    else if httpMethod != ALL && allKey in keys then Some(allKey)
    else TreeAnswer(m, prefix, httpMethod, path)
  }

  function Uncached(m: Matcher, t: Tables, httpMethod: HttpMethod, path: Path): Option<RouteKey> {
    Resolve(m, t.routes.Keys, t.prefix, httpMethod, path)
  }

  /** What a lookup through the cache answers. */
  function Cached(m: Matcher, t: Tables, httpMethod: HttpMethod, path: Path): Option<RouteKey> {
    var found := Found(t.cache, KeyFor(httpMethod, path));
    if found.Some? then found else Uncached(m, t, httpMethod, path)
  }

  function AfterLookup(m: Matcher, t: Tables, maxSize: nat, httpMethod: HttpMethod, path: Path): Tables {
    var key := KeyFor(httpMethod, path);
    var c := AfterGet(t.cache, key);
    var resolved := Uncached(m, t, httpMethod, path);
    if Found(t.cache, key).None? && resolved.Some?
    then t.(cache := AfterInsert(c, maxSize, key, resolved.value))
    else t.(cache := c)
  }

  /** add_route; only its own key leaves the cache, and nothing does if the tree refuses. */
  function AfterAdd(m: Matcher, t: Tables, httpMethod: HttpMethod, entry: RouteEntry): Tables {
    var key := KeyFor(httpMethod, entry.pattern);
    if key in t.routes && t.routes[key].route.backends == entry.route.backends then t
    else
      var routes := t.routes[key := entry];
      var patterns := PatternsOf(routes);
      if m.accepts(patterns) then Tables(routes, patterns, AfterInvalidate(t.cache, key))
      else t.(routes := routes)
  }

  /** After an add the key leads to the given backends, and every other route is as before. */
  lemma {:induction false} AddTakesEffect(m: Matcher, t: Tables, httpMethod: HttpMethod, entry: RouteEntry, k: RouteKey)
    ensures var (t', key) := (AfterAdd(m, t, httpMethod, entry), RouteKey(httpMethod, Fnv.Hash(entry.pattern)));
      && key in t'.routes && t'.routes[key].route.backends == entry.route.backends
      && (k != key ==> (k in t'.routes <==> k in t.routes) && (k in t.routes ==> t'.routes[k] == t.routes[k]))
  {
    hide Fnv.Hash, PatternsOf, AfterInvalidate;
  }

  /** Adding the same route again changes nothing, not even the cache. */
  lemma {:induction false} AddingTwiceIsOnce(m: Matcher, t: Tables, h: HttpMethod, entry: RouteEntry, later: Cache)
    ensures var t' := AfterAdd(m, t, h, entry).(cache := later); AfterAdd(m, t', h, entry) == t'
  {
    hide Fnv.Hash, PatternsOf, AfterInvalidate;
  }

  // ----- The cache is transparent -----

  /** No two of the paths in play collide under the 64-bit path hash. */
  ghost predicate HashesApart(paths: set<Path>) {
    forall p, q :: p in paths && q in paths && Fnv.Hash(p) == Fnv.Hash(q) ==> p == q
  }

  ghost predicate TablesInv(m: Matcher, t: Tables, paths: set<Path>) {
    && (forall k :: k in t.routes ==> t.routes[k].pattern in paths && k.pathHash == Fnv.Hash(t.routes[k].pattern))
    && (t.prefix == PatternsOf(t.routes) || !m.accepts(PatternsOf(t.routes)))
    && CacheIsCurrent(m, t, paths)
  }

  ghost predicate CacheIsCurrent(m: Matcher, t: Tables, paths: set<Path>) {
    forall k, p :: k in t.cache.entries && p in paths && k.pathHash == Fnv.Hash(p) ==>
      Uncached(m, t, k.httpMethod, p) == Some(t.cache.entries[k])
  }

  datatype RouterOp =
    | Lookup(httpMethod: HttpMethod, path: Path)
    | Update(httpMethod: HttpMethod, entry: RouteEntry)

  function Apply(m: Matcher, t: Tables, maxSize: nat, op: RouterOp): Tables {
    match op
    case Lookup(h, path) => AfterLookup(m, t, maxSize, h, path)
    case Update(h, entry) => AfterAdd(m, t, h, entry)
  }

  /** A router's tables after a run from its creation. */
  function Run(m: Matcher, maxSize: nat, ops: seq<RouterOp>): Tables {
    if ops == [] then Tables(map[], {}, Empty)
    else Apply(m, Run(m, maxSize, ops[..|ops| - 1]), maxSize, ops[|ops| - 1])
  }

  lemma {:induction false} LookupKeepsInv(m: Matcher, t: Tables, maxSize: nat, h: HttpMethod, path: Path,
      paths: set<Path>)
    requires HashesApart(paths) && TablesInv(m, t, paths) && path in paths
    ensures TablesInv(m, AfterLookup(m, t, maxSize, h, path), paths)
  {
    hide Resolve, PatternsOf, Fnv.Hash, AfterInsert;
    var t', key := AfterLookup(m, t, maxSize, h, path), KeyFor(h, path);
    var resolved := Uncached(m, t, h, path);
    if key !in t.cache.entries && resolved.Some? {
      forall k, p | k in t'.cache.entries && p in paths && k.pathHash == Fnv.Hash(p)
        ensures Uncached(m, t', k.httpMethod, p) == Some(t'.cache.entries[k])
      {
        InsertEntries(AfterGet(t.cache, key), maxSize, key, resolved.value, k);
        if k == key { assert p == path; }
      }
    }
  }

  /** Replacing the backends of an existing route changes no pattern. */
  lemma {:induction false} UpdateKeepsPatterns(t: Tables, h: HttpMethod, entry: RouteEntry, paths: set<Path>)
    requires HashesApart(paths) && entry.pattern in paths
    requires var key := KeyFor(h, entry.pattern);
      && key in t.routes && t.routes[key].pattern in paths && key.pathHash == Fnv.Hash(t.routes[key].pattern)
    ensures var routes := t.routes[KeyFor(h, entry.pattern) := entry];
      PatternsOf(routes) == PatternsOf(t.routes) && routes.Keys == t.routes.Keys
  {
    hide Fnv.Hash;
    var key := KeyFor(h, entry.pattern);
    var routes := t.routes[key := entry];
    assert t.routes[key].pattern == entry.pattern;
    assert forall k :: k in routes ==> Pattern(k, routes[k].pattern) == Pattern(k, t.routes[k].pattern);
  }

  lemma {:induction false} UpdateKeepsInv(m: Matcher, t: Tables, h: HttpMethod, entry: RouteEntry, paths: set<Path>)
    requires HashesApart(paths) && TablesInv(m, t, paths)
    requires entry.pattern in paths && KeyFor(h, entry.pattern) in t.routes
    ensures TablesInv(m, AfterAdd(m, t, h, entry), paths)
    ensures AfterAdd(m, t, h, entry).routes.Keys == t.routes.Keys
  {
    hide Resolve, PatternsOf, Fnv.Hash;
    UpdateKeepsPatterns(t, h, entry, paths);
  }

  // ----- When a new route leaves the cache stale -----

  /**
   * Adding a route under a new key makes the cached answer for `h`, `path` wrong, in terms of
   * the tables before the addition.  The lookup is cached, and no exact route answers it.  Then
   * either the new route is its own exact route and the tree refused the rebuild, so that the key
   * was not invalidated; or it is the all-methods route for this very path; or it changes what
   * the tree answers.
   */
  ghost predicate Shadows(m: Matcher, t: Tables, hNew: HttpMethod, entry: RouteEntry, h: HttpMethod, path: Path) {
    var (added, key, allKey) := (KeyFor(hNew, entry.pattern), KeyFor(h, path), KeyFor(ALL, path));
    var grown := PatternsOf(t.routes) + {Pattern(added, entry.pattern)};
    && key in t.cache.entries
    && key !in t.routes
    && if key == added then
         && !m.accepts(grown)
         && ((h != ALL && allKey in t.routes) || TreeAnswer(m, t.prefix, h, path) != Some(added))
       else
         && (h == ALL || allKey !in t.routes)
         && if h != ALL && added == allKey then TreeAnswer(m, t.prefix, h, path) != Some(added)
            else m.accepts(grown) && TreeAnswer(m, grown, h, path) != TreeAnswer(m, t.prefix, h, path)
  }

  lemma {:induction false} PatternsGrow(routes: map<RouteKey, RouteEntry>, key: RouteKey, entry: RouteEntry)
    requires key !in routes
    ensures PatternsOf(routes[key := entry]) == PatternsOf(routes) + {Pattern(key, entry.pattern)}
  {
    var grown := routes[key := entry];
    assert key in grown && grown[key] == entry;
    forall k | k in routes ensures Pattern(k, routes[k].pattern) in PatternsOf(grown) {
      assert k in grown && grown[k] == routes[k];
    }
  }

  /** After a new key is added a lookup is answered wrongly exactly if the new route shadows it. */
  lemma {:induction false} StaleIff(m: Matcher, t: Tables, hNew: HttpMethod, entry: RouteEntry,
      paths: set<Path>, h: HttpMethod, path: Path)
    requires TablesInv(m, t, paths) && path in paths && KeyFor(hNew, entry.pattern) !in t.routes
    ensures var t' := AfterAdd(m, t, hNew, entry);
      Cached(m, t', h, path) != Uncached(m, t', h, path) <==> Shadows(m, t, hNew, entry, h, path)
  {
    hide TreeAnswer, PatternsOf, Fnv.Hash, TablesInv;
    PatternsGrow(t.routes, KeyFor(hNew, entry.pattern), entry);
    CachedIsUncached(m, t, paths, h, path);
    InvalidatedEntries(t.cache, KeyFor(hNew, entry.pattern));
  }

  lemma {:induction false} CachedIsUncached(m: Matcher, t: Tables, paths: set<Path>, h: HttpMethod, path: Path)
    requires TablesInv(m, t, paths) && path in paths
    ensures KeyFor(h, path) in t.cache.entries ==> Some(t.cache.entries[KeyFor(h, path)]) == Uncached(m, t, h, path)
  {
    hide Resolve, PatternsOf, Fnv.Hash;
  }

  lemma {:induction false} InvalidatedEntries(c: Cache, key: RouteKey)
    ensures AfterInvalidate(c, key).entries == c.entries - {key}
  {
  }

  // ----- Every run that shadows nothing -----

  /** A lookup, an update of a route that exists, or a new route that shadows no cached lookup. */
  ghost predicate IsSafe(m: Matcher, t: Tables, op: RouterOp, paths: set<Path>) {
    match op
    case Lookup(_, path) => path in paths
    case Update(hNew, entry) =>
      && entry.pattern in paths
      && (KeyFor(hNew, entry.pattern) in t.routes
          || forall h, path | path in paths :: !Shadows(m, t, hNew, entry, h, path))
  }

  ghost predicate IsSafeRun(m: Matcher, maxSize: nat, ops: seq<RouterOp>, paths: set<Path>) {
    forall k :: 0 <= k < |ops| ==> IsSafe(m, Run(m, maxSize, ops[..k]), ops[k], paths)
  }

  /** Adding a route under a new key keeps the cache current exactly if it shadows no cached lookup. */
  lemma {:induction false} AddKeepsInvIff(m: Matcher, t: Tables, hNew: HttpMethod, entry: RouteEntry, paths: set<Path>)
    requires TablesInv(m, t, paths) && entry.pattern in paths && KeyFor(hNew, entry.pattern) !in t.routes
    ensures TablesInv(m, AfterAdd(m, t, hNew, entry), paths)
      <==> forall h, path | path in paths :: !Shadows(m, t, hNew, entry, h, path)
  {
    hide Shadows, Resolve, PatternsOf, Fnv.Hash;
    var t' := AfterAdd(m, t, hNew, entry);
    forall h, path | path in paths
      ensures Cached(m, t', h, path) != Uncached(m, t', h, path) <==> Shadows(m, t, hNew, entry, h, path)
    {
      StaleIff(m, t, hNew, entry, paths, h, path);
    }
    CurrentIffTransparent(m, t', paths);
  }

  lemma {:induction false} CurrentIffTransparent(m: Matcher, t: Tables, paths: set<Path>)
    ensures CacheIsCurrent(m, t, paths)
      <==> forall h, path | path in paths :: Cached(m, t, h, path) == Uncached(m, t, h, path)
  {
    hide Resolve, Fnv.Hash;
    if forall h, path | path in paths :: Cached(m, t, h, path) == Uncached(m, t, h, path) {
      forall k, p | k in t.cache.entries && p in paths && k.pathHash == Fnv.Hash(p)
        ensures Uncached(m, t, k.httpMethod, p) == Some(t.cache.entries[k])
      {
        assert k == KeyFor(k.httpMethod, p);
        assert Cached(m, t, k.httpMethod, p) == Uncached(m, t, k.httpMethod, p);
      }
    }
  }

  lemma {:induction false} StepKeepsInv(m: Matcher, t: Tables, maxSize: nat, op: RouterOp, paths: set<Path>)
    requires HashesApart(paths) && TablesInv(m, t, paths) && IsSafe(m, t, op, paths)
    ensures TablesInv(m, Apply(m, t, maxSize, op), paths)
  {
    hide TablesInv, HashesApart, Shadows, Fnv.Hash;
    match op
    case Lookup(h, path) => LookupKeepsInv(m, t, maxSize, h, path, paths);
    case Update(h, entry) =>
      if KeyFor(h, entry.pattern) in t.routes {
        UpdateKeepsInv(m, t, h, entry, paths);
      } else {
        AddKeepsInvIff(m, t, h, entry, paths);
      }
  }

  lemma {:induction false} RunKeepsInv(m: Matcher, maxSize: nat, ops: seq<RouterOp>, paths: set<Path>)
    requires HashesApart(paths) && IsSafeRun(m, maxSize, ops, paths)
    ensures TablesInv(m, Run(m, maxSize, ops), paths)
  {
    if ops == [] {
      assert PatternsOf(map[]) == {};
    } else {
      hide TablesInv, HashesApart, IsSafe, Apply;
      var front, op := ops[..|ops| - 1], ops[|ops| - 1];
      forall k | 0 <= k < |front| ensures IsSafe(m, Run(m, maxSize, front[..k]), front[k], paths) {
        assert front[..k] == ops[..k];
      }
      RunKeepsInv(m, maxSize, front, paths);
      StepKeepsInv(m, Run(m, maxSize, front), maxSize, op, paths);
    }
  }

  /**
   * From the empty router, through every run of lookups, updates and additions that shadow no
   * cached lookup, under any evictions, a lookup through the cache answers what one without it would.
   */
  lemma {:induction false} CacheIsTransparent(m: Matcher, maxSize: nat, ops: seq<RouterOp>,
      paths: set<Path>, h: HttpMethod, path: Path)
    requires HashesApart(paths) && IsSafeRun(m, maxSize, ops, paths) && path in paths
    ensures var t := Run(m, maxSize, ops); Cached(m, t, h, path) == Uncached(m, t, h, path)
  {
    hide Resolve, PatternsOf, Fnv.Hash, Run;
    RunKeepsInv(m, maxSize, ops, paths);
  }

  // ----- Set up first, then serve -----

  ghost predicate IsSetup(ops: seq<RouterOp>, paths: set<Path>) {
    forall k :: 0 <= k < |ops| ==> ops[k].Update? && ops[k].entry.pattern in paths
  }

  /** Lookups, and updates of routes in `keys`. */
  ghost predicate IsRoutine(keys: set<RouteKey>, ops: seq<RouterOp>, paths: set<Path>) {
    forall i :: 0 <= i < |ops| ==>
      match ops[i]
      case Lookup(_, path) => path in paths
      case Update(h, entry) => entry.pattern in paths && KeyFor(h, entry.pattern) in keys
  }

  /** Before the first lookup the cache is empty, so nothing can be shadowed. */
  lemma {:induction false} SetupIsSafe(m: Matcher, maxSize: nat, ops: seq<RouterOp>, paths: set<Path>)
    requires IsSetup(ops, paths)
    ensures IsSafeRun(m, maxSize, ops, paths) && Run(m, maxSize, ops).cache.entries == map[]
  {
    if ops != [] {
      hide Run, IsSafe, IsSafeRun, Apply;
      var front, op := ops[..|ops| - 1], ops[|ops| - 1];
      assert front + [op] == ops;
      SetupIsSafe(m, maxSize, front, paths);
      EmptyCacheIsSafe(m, Run(m, maxSize, front), maxSize, op, paths);
      AppendSafe(m, maxSize, front, op, paths);
      RunStep(m, maxSize, front, op);
    } else {
      RunStart(m, maxSize);
    }
  }

  lemma {:induction false} EmptyCacheIsSafe(m: Matcher, t: Tables, maxSize: nat, op: RouterOp, paths: set<Path>)
    requires t.cache.entries == map[] && op.Update? && op.entry.pattern in paths
    ensures IsSafe(m, t, op, paths) && Apply(m, t, maxSize, op).cache.entries == map[]
  {
    hide PatternsOf, Fnv.Hash;
  }

  lemma {:induction false} KeysOnlyGrow(m: Matcher, t: Tables, maxSize: nat, op: RouterOp)
    ensures t.routes.Keys <= Apply(m, t, maxSize, op).routes.Keys
  {
    hide PatternsOf, Fnv.Hash, AfterInsert;
  }

  lemma {:induction false} RoutineOpIsSafe(m: Matcher, t: Tables, keys: set<RouteKey>, ops: seq<RouterOp>,
      paths: set<Path>)
    requires ops != [] && IsRoutine(keys, ops, paths) && keys <= t.routes.Keys
    ensures IsSafe(m, t, ops[|ops| - 1], paths)
  {
    hide Shadows, Fnv.Hash;
  }

  lemma {:induction false} RoutinePrefix(keys: set<RouteKey>, ops: seq<RouterOp>, paths: set<Path>)
    requires ops != [] && IsRoutine(keys, ops, paths)
    ensures IsRoutine(keys, ops[..|ops| - 1], paths)
  {
    hide Fnv.Hash;
  }

  lemma {:induction false} RoutineIsSafe(m: Matcher, maxSize: nat, setup: seq<RouterOp>, ops: seq<RouterOp>,
      paths: set<Path>)
    requires IsSafeRun(m, maxSize, setup, paths) && IsRoutine(Run(m, maxSize, setup).routes.Keys, ops, paths)
    ensures IsSafeRun(m, maxSize, setup + ops, paths)
    ensures Run(m, maxSize, setup).routes.Keys <= Run(m, maxSize, setup + ops).routes.Keys
  {
    hide Apply, IsSafe, IsSafeRun, IsRoutine, Run;
    if ops == [] {
      assert setup + ops == setup;
    } else {
      var front, op, keys := ops[..|ops| - 1], ops[|ops| - 1], Run(m, maxSize, setup).routes.Keys;
      RoutinePrefix(keys, ops, paths);
      RoutineIsSafe(m, maxSize, setup, front, paths);
      var all, t := setup + front, Run(m, maxSize, setup + front);
      RoutineOpIsSafe(m, t, keys, ops, paths);
      KeysOnlyGrow(m, t, maxSize, op);
      RunStep(m, maxSize, all, op);
      AppendSafe(m, maxSize, all, op, paths);
      assert setup + ops == all + [op];
    }
  }

  lemma {:induction false} AppendSafe(m: Matcher, maxSize: nat, ops: seq<RouterOp>, op: RouterOp, paths: set<Path>)
    requires IsSafeRun(m, maxSize, ops, paths) && IsSafe(m, Run(m, maxSize, ops), op, paths)
    ensures IsSafeRun(m, maxSize, ops + [op], paths)
  {
    hide IsSafe, Run;
    var all := ops + [op];
    forall k | 0 <= k < |all| ensures IsSafe(m, Run(m, maxSize, all[..k]), all[k], paths) {
      assert all[..k] == ops[..k];
      if k == |ops| { assert all[..k] == ops; }
    }
  }

  /** Routes first, then any lookups and backend updates: the cache is never wrong. */
  lemma {:induction false} TransparentAfterSetup(m: Matcher, maxSize: nat, setup: seq<RouterOp>, ops: seq<RouterOp>,
      paths: set<Path>, h: HttpMethod, path: Path)
    requires HashesApart(paths) && IsSetup(setup, paths) && path in paths
    requires IsRoutine(Run(m, maxSize, setup).routes.Keys, ops, paths)
    ensures var t := Run(m, maxSize, setup + ops); Cached(m, t, h, path) == Uncached(m, t, h, path)
  {
    hide IsSafeRun, HashesApart, IsRoutine, IsSetup;
    SetupIsSafe(m, maxSize, setup, paths);
    RoutineIsSafe(m, maxSize, setup, ops, paths);
    CacheIsTransparent(m, maxSize, setup + ops, paths, h, path);
  }

  /**
   * A less specific route answered for a path and was cached; adding an all-methods route for
   * exactly that path goes unnoticed.
   */
  lemma {:induction false} NewRouteGoesUnnoticed(m: Matcher, root: RouteEntry, entry: RouteEntry, maxSize: nat)
    requires Fnv.Hash(entry.pattern) != Fnv.Hash(root.pattern)
    requires var rootKey := KeyFor(ALL, root.pattern);
      && m.accepts({Pattern(rootKey, root.pattern)})
      && TreeAnswer(m, {Pattern(rootKey, root.pattern)}, GET, entry.pattern) == Some(rootKey)
    ensures var rootKey := KeyFor(ALL, root.pattern);
      var t := Run(m, maxSize, [Update(ALL, root), Lookup(GET, entry.pattern), Update(ALL, entry)]);
      && Cached(m, t, GET, entry.pattern) == Some(rootKey)
      && Uncached(m, t, GET, entry.pattern) == Some(KeyFor(ALL, entry.pattern))
  {
    hide Fnv.Hash, TreeAnswer, PatternsOf, Run;
    var ops := [Update(ALL, root), Lookup(GET, entry.pattern), Update(ALL, entry)];
    var rootKey, key := KeyFor(ALL, root.pattern), KeyFor(GET, entry.pattern);
    RunStep(m, maxSize, [], ops[0]);
    RunStep(m, maxSize, ops[..1], ops[1]);
    RunStep(m, maxSize, ops[..2], ops[2]);
    assert [] + [ops[0]] == ops[..1] && ops[..1] + [ops[1]] == ops[..2] && ops[..2] + [ops[2]] == ops;
    RunStart(m, maxSize);
    SinglePattern(rootKey, root);
    var t1 := Run(m, maxSize, ops[..1]);
    assert t1.routes == map[rootKey := root] && t1.prefix == {Pattern(rootKey, root.pattern)};
    InvalidatedEntries(Empty, rootKey);
    assert t1.cache.entries == map[];
    var t2 := Run(m, maxSize, ops[..2]);
    assert key in t2.cache.entries && t2.cache.entries[key] == rootKey;
  }

  lemma {:induction false} RunStep(m: Matcher, maxSize: nat, ops: seq<RouterOp>, op: RouterOp)
    ensures Run(m, maxSize, ops + [op]) == Apply(m, Run(m, maxSize, ops), maxSize, op)
  {
    assert (ops + [op])[..|ops|] == ops;
  }

  lemma {:induction false} SinglePattern(key: RouteKey, entry: RouteEntry)
    ensures PatternsOf(map[key := entry]) == {Pattern(key, entry.pattern)}
  {
    assert key in map[key := entry];
  }

  lemma {:induction false} RunStart(m: Matcher, maxSize: nat)
    ensures Run(m, maxSize, []) == Tables(map[], {}, Empty)
  {
  }

  // ----- The whole router -----

  datatype IpAddr = V4(bits: u32) | V6(upper: u64, lower: u64)

  datatype Client = Client(ip: IpAddr, port: u16)

  function FlowHash(pathHash: u64, client: Option<Client>): u64 {
    match client
    case None => pathHash
    case Some(Client(ip, port)) =>
      var ipHash := match ip case V4(bits) => bits case V6(upper, lower) => Xor64(upper, lower);
      ShiftFits(ipHash, port);
      Xor64(pathHash, (ipHash * 0x1_0000) % 0x1_0000_0000_0000_0000 + port)
  }

  /** The shifted address leaves the low 16 bits to the port. */
  lemma {:induction false} ShiftFits(x: nat, port: u16)
    ensures (x * 0x1_0000) % 0x1_0000_0000_0000_0000 == x % 0x1_0000_0000_0000 * 0x1_0000
    ensures (x * 0x1_0000) % 0x1_0000_0000_0000_0000 + port < 0x1_0000_0000_0000_0000
  {
    var q, r := x / 0x1_0000_0000_0000, x % 0x1_0000_0000_0000;
    assert x * 0x1_0000 == q * 0x1_0000_0000_0000_0000 + r * 0x1_0000;
  }

  /** A client shifts every path's hash by one fixed word, so its paths have different flows; without one it is zero. */
  lemma {:induction false} ClientShiftsPaths(path1: u64, path2: u64, client: Option<Client>)
    ensures FlowHash(path1, client) == FlowHash(path2, client) <==> path1 == path2
    ensures FlowHash(path1, client) == Xor64(path1, FlowHash(0, client)) && FlowHash(0, None) == 0
  {
    hide Xor;
    var shift := FlowHash(0, client);
    ZeroIsNeutral(shift);
    ZeroIsNeutral(path1);
    if client.Some? {
      var c := client.value;
      var ipHash := match c.ip case V4(bits) => bits case V6(upper, lower) => Xor64(upper, lower);
      ShiftFits(ipHash, c.port);
      ZeroIsNeutral((ipHash * 0x1_0000) % 0x1_0000_0000_0000_0000 + c.port);
    }
    XorCancels(path1, shift);
    XorCancels(path2, shift);
    ZeroIsNeutral(path2);
  }

  lemma {:induction false} ZeroIsNeutral(a: nat)
    ensures Xor(0, a) == a && Xor(a, 0) == a
  {
    if a != 0 { ZeroIsNeutral(a / 2); }
  }

  /** The shift of a client: its address above its port; of an IPv6 address the folded low 48 bits count. */
  lemma {:induction false} ShiftOf(ip: u32, upper: u64, lower: u64, port: u16)
    ensures FlowHash(0, Some(Client(V4(ip), port))) == ip * 65536 + port
    ensures FlowHash(0, Some(Client(V6(upper, lower), port))) == Xor64(upper, lower) % 0x1_0000_0000_0000 * 65536 + port
  {
    hide Xor;
    ZeroIsNeutral(ip * 65536 + port);
    var x := Xor64(upper, lower);
    ShiftFits(x, port);
    ShiftFits(ip, port);
    ZeroIsNeutral(x % 0x1_0000_0000_0000 * 65536 + port);
  }

  /** On one path, different IPv4 clients always have different flows. */
  lemma {:induction false} ClientsHaveDistinctFlows(pathHash: u64, ip1: u32, port1: u16, ip2: u32, port2: u16)
    ensures FlowHash(pathHash, Some(Client(V4(ip1), port1))) == FlowHash(pathHash, Some(Client(V4(ip2), port2)))
      <==> ip1 == ip2 && port1 == port2
  {
    hide Xor;
    var x, y := ip1 * 0x1_0000 + port1, ip2 * 0x1_0000 + port2;
    assert x == y <==> ip1 == ip2 && port1 == port2;
    XorIsSymmetric(pathHash, x);
    XorIsSymmetric(pathHash, y);
    XorCancels(x, pathHash);
    XorCancels(y, pathHash);
  }

  /** The backend a route gives a flow. */
  ghost function Choice(route: Route, ok: Backend -> bool, flow: u64): Option<Backend>
    requires |route.table| == COMPACT_MAGLEV_SIZE
  {
    match Select(route, ok, flow)
    case None => None
    case Some(i) => if i < |route.backends| then Some(route.backends[i]) else None
  }

  /** It is the owner of the first slot the flow probes whose owner is eligible. */
  lemma {:induction false} ChoiceIsTheOwner(route: Route, ok: Backend -> bool, flow: u64)
    requires IsRoute(route)
    ensures match Choice(route, ok, flow)
      case None => Answers(route.backends, ok, flow, None)
      case Some(b) =>
        exists i: nat :: i < |route.backends| && route.backends[i] == b && Answers(route.backends, ok, flow, Some(i))
  {
    hide Answers, IsCompactTable, Select;
    SelectAnswers(route, ok, flow);
    SelectInRange(route, ok, flow);
  }

  /**
   * Replacing a route's backends by the same list with an eligible one appended: whatever path
   * a flow came in on, cached or not, it stays on its backend or goes to the newcomer.
   */
  lemma {:induction false} UpdateIsSticky(m: Matcher, t: Tables, paths: set<Path>, h: HttpMethod,
      entry: RouteEntry, newcomer: Backend, ok: Backend -> bool, hFlow: HttpMethod, path: Path, flow: u64)
    requires HashesApart(paths) && TablesInv(m, t, paths) && entry.pattern in paths && path in paths
    requires var key := KeyFor(h, entry.pattern);
      key in t.routes && IsAppend(t.routes[key].route, entry.route, newcomer) && ok(newcomer)
    requires Cached(m, t, hFlow, path).Some? && Cached(m, t, hFlow, path).value in t.routes
    requires var r := t.routes[Cached(m, t, hFlow, path).value].route; IsRoute(r) && Select(r, ok, flow).Some?
    ensures var t', c := AfterAdd(m, t, h, entry), Cached(m, t, hFlow, path);
      && Cached(m, t', hFlow, path) == c && c.value in t'.routes && IsRoute(t'.routes[c.value].route)
      && (Choice(t'.routes[c.value].route, ok, flow) == Choice(t.routes[c.value].route, ok, flow)
          || Choice(t'.routes[c.value].route, ok, flow) == Some(newcomer))
  {
    hide Resolve, PatternsOf, Fnv.Hash, IsCompactTable, Select;
    var t', key, c := AfterAdd(m, t, h, entry), KeyFor(h, entry.pattern), Cached(m, t, hFlow, path);
    UpdateKeepsPatterns(t, h, entry, paths);
    UpdateKeepsInv(m, t, h, entry, paths);
    if c.value == key {
      AppendIsSticky(t.routes[key].route, entry.route, newcomer, ok, flow);
      SelectInRange(t.routes[key].route, ok, flow);
    }
  }

  lemma {:induction false} SelectInRange(route: Route, ok: Backend -> bool, flow: u64)
    requires |route.table| == COMPACT_MAGLEV_SIZE
    ensures Select(route, ok, flow).Some? ==> Select(route, ok, flow).value < |route.backends|
  {
    ScanFindsOk(route, ok, flow, 0, 10 * |route.backends|);
  }

  class Router {
    var routes: map<RouteKey, RouteEntry>
    var prefix: set<Pattern>
    const cache: RouteLruCache
    const health: HealthStore
    const matcher: Matcher

    function View(): Tables
      reads this, cache
    {
      Tables(routes, prefix, cache.View())
    }

    ghost predicate Valid()
      reads this, cache, health
    {
      && cache.Valid() && health.Valid()
      && forall k :: k in routes ==> IsRoute(routes[k].route)
    }

    constructor (matcher: Matcher)
      ensures Valid() && View() == Tables(map[], {}, Empty) && this.matcher == matcher && cache.maxSize == 128
      ensures fresh(cache) && fresh(health)
    {
      routes, prefix := map[], {};
      cache := new RouteLruCache(128);
      health := new HealthStore();
      this.matcher := matcher;
    }

    /** More than 32 backends is an assertion failure in the table builder. */
    method AddRoute(httpMethod: HttpMethod, path: Path, backends: seq<Backend>)
      returns (accepted: bool, ghost route: Route)
      requires Valid() && |backends| <= MAX_BACKENDS
      modifies this, cache
      ensures Valid() && IsRoute(route) && route.backends == backends
      ensures View() == AfterAdd(matcher, old(View()), httpMethod, RouteEntry(path, route))
      ensures accepted <==>
        old(KeyFor(httpMethod, path) in routes && routes[KeyFor(httpMethod, path)].route.backends == backends)
        || matcher.accepts(PatternsOf(routes))
    {
      hide IsCompactTable, Fnv.Hash, AfterInvalidate, PatternsOf, IsCache;
      var pathHash := Fnv.Fnv1aHash(path);
      var key := RouteKey(httpMethod, pathHash);
      if key in routes && routes[key].route.backends == backends {
        return true, routes[key].route;
      }
      var table := BuildCompactTable(backends);
      TableLength(backends, table);
      route := Route(backends, table);
      routes := routes[key := RouteEntry(path, Route(backends, table))];
      var patterns := PatternsOf(routes);
      if !matcher.accepts(patterns) {
        return false, route;
      }
      prefix := patterns;
      cache.Invalidate(key);
      accepted := true;
    }

    /** The part of select_backend that finds the route: cache, exact keys, radix tree. */
    method ResolveKey(httpMethod: HttpMethod, path: Path) returns (resolved: Option<RouteKey>)
      requires Valid()
      modifies cache
      ensures Valid() && View() == AfterLookup(matcher, old(View()), cache.maxSize, httpMethod, path)
      ensures resolved == old(Cached(matcher, View(), httpMethod, path))
    {
      hide IsRoute, Fnv.Hash, AfterInsert, AfterGet, IsCache;
      var pathHash := Fnv.Fnv1aHash(path);
      var key := RouteKey(httpMethod, pathHash);
      resolved := cache.Get(key);
      if resolved == None {
        resolved := Resolve(matcher, routes.Keys, prefix, httpMethod, path);
        if resolved.Some? {
          cache.Insert(key, resolved.value);
        }
      }
    }

    method SelectBackend(httpMethod: HttpMethod, path: Path, client: Option<Client>, active: map<Backend, bool>)
      returns (found: Option<Backend>)
      requires Valid()
      modifies cache
      ensures Valid() && View() == AfterLookup(matcher, old(View()), cache.maxSize, httpMethod, path)
      ensures var key := old(Cached(matcher, View(), httpMethod, path));
        found ==
          if key.None? || key.value !in routes then None
          else
            var h := Snapshot(health.windows, health.draining, active);
            Choice(routes[key.value].route, EligibleIn(h), FlowHash(Fnv.Hash(path), client))
    {
      hide IsCompactTable, Fnv.Hash, AfterLookup, Cached, IsEligible, Scan, FlowHash, IsCache;
      var resolved := ResolveKey(httpMethod, path);
      if resolved == None || resolved.value !in routes {
        return None;
      }
      var route := routes[resolved.value].route;
      var pathHash := Fnv.Fnv1aHash(path);
      var h := Snapshot(health.windows, health.draining, active);
      var index := ProbeWithMask(route, h, FlowHash(pathHash, client));
      SelectInRange(route, EligibleIn(h), FlowHash(pathHash, client));
      return if index.None? then None else Some(route.backends[index.value]);
    }
  }

  lemma {:induction false} TableLength(bs: seq<Backend>, table: seq<byte>)
    requires |bs| <= MAX_BACKENDS && IsCompactTable(bs, table)
    ensures |table| == COMPACT_MAGLEV_SIZE
  {
  }
}
