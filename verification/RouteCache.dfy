/** The LRU cache of route lookups, and the recency order it keeps in every run. */
module RouteCache {
  import opened Words

  datatype HttpMethod = GET | POST | PUT | DELETE | PATCH | HEAD | OPTIONS | ALL

  datatype RouteKey = RouteKey(httpMethod: HttpMethod, pathHash: u64)

  // ----- The cache as a value -----

  /** `order` lists the keys, least recently used first. */
  datatype Cache = Cache(entries: map<RouteKey, RouteKey>, order: seq<RouteKey>, hits: nat, misses: nat)

  const Empty := Cache(map[], [], 0, 0)

  function Without(order: seq<RouteKey>, key: RouteKey): seq<RouteKey> {
    if order == [] then []
    else if order[0] == key then order[1..]
    else [order[0]] + Without(order[1..], key)
  }

  function AfterGet(c: Cache, key: RouteKey): Cache {
    if key in c.entries then c.(hits := c.hits + 1, order := Without(c.order, key) + [key])
    else c.(misses := c.misses + 1)
  }

  function Found(c: Cache, key: RouteKey): Option<RouteKey> {
    if key in c.entries then Some(c.entries[key]) else None
  }

  function Evicted(c: Cache, maxSize: nat): Cache {
    if |c.entries| >= maxSize && c.order != []
    then c.(entries := c.entries - {c.order[0]}, order := c.order[1..])
    else c
  }

  function AfterInsert(c: Cache, maxSize: nat, key: RouteKey, resolved: RouteKey): Cache {
    if key in c.entries then c.(entries := c.entries[key := resolved])
    else
      var e := Evicted(c, maxSize);
      e.(entries := e.entries[key := resolved], order := e.order + [key])
  }

  function AfterInvalidate(c: Cache, key: RouteKey): Cache {
    c.(entries := c.entries - {key}, order := Without(c.order, key))
  }

  ghost predicate NoDuplicates(order: seq<RouteKey>) {
    forall i, j :: 0 <= i < j < |order| ==> order[i] != order[j]
  }

  ghost function KeysOf(order: seq<RouteKey>): set<RouteKey> {
    set k | k in order
  }

  /** A cache of maximum size zero still holds the key inserted last. */
  function Limit(maxSize: nat): nat {
    if maxSize == 0 then 1 else maxSize
  }

  /** Keys and recency list agree, without duplicates, and fit. */
  ghost predicate IsCache(c: Cache, maxSize: nat) {
    && NoDuplicates(c.order)
    && KeysOf(c.order) == c.entries.Keys
    && |c.order| == |c.entries| <= Limit(maxSize)
  }

  lemma {:induction false} AppendKey(order: seq<RouteKey>, key: RouteKey)
    requires NoDuplicates(order) && key !in KeysOf(order)
    ensures NoDuplicates(order + [key]) && KeysOf(order + [key]) == KeysOf(order) + {key}
  {
  }

  lemma {:induction false} DropFirstKey(order: seq<RouteKey>)
    requires NoDuplicates(order) && order != []
    ensures NoDuplicates(order[1..]) && KeysOf(order[1..]) == KeysOf(order) - {order[0]}
    ensures order[0] in KeysOf(order)
  {
    assert order == [order[0]] + order[1..];
  }

  lemma {:induction false} WithoutKeepsTheRest(order: seq<RouteKey>, key: RouteKey)
    requires NoDuplicates(order)
    ensures var w := Without(order, key);
      && NoDuplicates(w)
      && KeysOf(w) == KeysOf(order) - {key}
      && |w| == |order| - (if key in KeysOf(order) then 1 else 0)
  {
    if order != [] {
      DropFirstKey(order);
      if order[0] != key {
        var w := Without(order[1..], key);
        WithoutKeepsTheRest(order[1..], key);
        assert order[0] !in KeysOf(w);
        assert NoDuplicates([order[0]] + w);
        assert KeysOf([order[0]] + w) == {order[0]} + KeysOf(w);
      }
    }
  }

  /** Removing a key is dropping its first position, if it has one. */
  lemma {:induction false} WithoutFirst(order: seq<RouteKey>, key: RouteKey, pos: nat)
    requires pos <= |order| && forall i :: 0 <= i < pos ==> order[i] != key
    requires pos < |order| ==> order[pos] == key
    ensures Without(order, key) == if pos < |order| then order[..pos] + order[pos + 1..] else order
  {
    if pos > 0 { WithoutFirst(order[1..], key, pos - 1); }
  }

  /** Removing one key keeps the relative order of the others. */
  lemma {:induction false} WithoutKeepsOrder(order: seq<RouteKey>, key: RouteKey, i: nat, j: nat)
      returns (i': nat, j': nat)
    requires i < j < |Without(order, key)|
    ensures i' < j' < |order|
    ensures order[i'] == Without(order, key)[i] && order[j'] == Without(order, key)[j]
  {
    if order[0] == key {
      i', j' := i + 1, j + 1;
    } else if i == 0 {
      i' := 0;
      j' := WithoutIndex(order, key, j);
    } else {
      i', j' := WithoutKeepsOrder(order[1..], key, i - 1, j - 1);
      i', j' := i' + 1, j' + 1;
    }
  }

  lemma {:induction false} WithoutIndex(order: seq<RouteKey>, key: RouteKey, j: nat) returns (j': nat)
    requires j < |Without(order, key)|
    ensures j <= j' < |order| && order[j'] == Without(order, key)[j]
  {
    if order[0] == key {
      j' := j + 1;
    } else if j == 0 {
      j' := 0;
    } else {
      j' := WithoutIndex(order[1..], key, j - 1);
      j' := j' + 1;
    }
  }

  lemma {:induction false} GetKeepsCache(c: Cache, maxSize: nat, key: RouteKey)
    requires IsCache(c, maxSize)
    ensures IsCache(AfterGet(c, key), maxSize)
  {
    hide KeysOf, NoDuplicates, Without;
    WithoutKeepsTheRest(c.order, key);
    AppendKey(Without(c.order, key), key);
  }

  lemma {:induction false} EvictMakesRoom(c: Cache, maxSize: nat)
    requires IsCache(c, maxSize)
    ensures var e := Evicted(c, maxSize);
      IsCache(e, maxSize) && |e.order| < Limit(maxSize) && e.entries.Keys <= c.entries.Keys
  {
    hide KeysOf, NoDuplicates;
    if |c.entries| >= maxSize && c.order != [] {
      DropFirstKey(c.order);
      assert (c.entries - {c.order[0]}).Keys == c.entries.Keys - {c.order[0]};
    }
  }

  lemma {:induction false} InsertKeepsCache(c: Cache, maxSize: nat, key: RouteKey, resolved: RouteKey)
    requires IsCache(c, maxSize)
    ensures IsCache(AfterInsert(c, maxSize, key, resolved), maxSize)
  {
    hide KeysOf, NoDuplicates, Evicted;
    if key in c.entries {
      assert c.entries[key := resolved].Keys == c.entries.Keys;
    } else {
      EvictMakesRoom(c, maxSize);
      var e := Evicted(c, maxSize);
      AppendKey(e.order, key);
      assert e.entries[key := resolved].Keys == e.entries.Keys + {key};
    }
  }

  /** An insertion adds its own entry and changes no other. */
  lemma {:induction false} InsertEntries(c: Cache, maxSize: nat, key: RouteKey, resolved: RouteKey, k: RouteKey)
    requires k in AfterInsert(c, maxSize, key, resolved).entries
    ensures var v := AfterInsert(c, maxSize, key, resolved).entries[k];
      if k == key then v == resolved else k in c.entries && v == c.entries[k]
  {
  }

  lemma {:induction false} InvalidateKeepsCache(c: Cache, maxSize: nat, key: RouteKey)
    requires IsCache(c, maxSize)
    ensures IsCache(AfterInvalidate(c, key), maxSize)
  {
    hide KeysOf, NoDuplicates, Without;
    WithoutKeepsTheRest(c.order, key);
    assert (c.entries - {key}).Keys == c.entries.Keys - {key};
  }

  // ----- The object -----

  class RouteLruCache {
    var entries: map<RouteKey, RouteKey>
    var accessOrder: seq<RouteKey>
    var hits: nat
    var misses: nat
    const maxSize: nat

    function View(): Cache
      reads this
    {
      Cache(entries, accessOrder, hits, misses)
    }

    ghost predicate Valid()
      reads this
    {
      IsCache(View(), maxSize)
    }

    constructor (maxSize: nat)
      ensures Valid() && View() == Empty && this.maxSize == maxSize
    {
      entries, accessOrder, hits, misses := map[], [], 0, 0;
      this.maxSize := maxSize;
    }

    /** Take the first occurrence of `key` out of the recency list. */
    method Forget(key: RouteKey)
      modifies `accessOrder
      ensures accessOrder == Without(old(accessOrder), key)
    {
      hide Without;
      var pos := 0;
      while pos < |accessOrder| && accessOrder[pos] != key
        invariant 0 <= pos <= |accessOrder|
        invariant forall i :: 0 <= i < pos ==> accessOrder[i] != key
      {
        pos := pos + 1;
      }
      WithoutFirst(accessOrder, key, pos);
      if pos < |accessOrder| {
        accessOrder := accessOrder[..pos] + accessOrder[pos + 1..];
      }
    }

    method Get(key: RouteKey) returns (found: Option<RouteKey>)
      requires Valid()
      modifies this
      ensures Valid() && View() == AfterGet(old(View()), key) && found == Found(old(View()), key)
    {
      hide IsCache, Without;
      GetKeepsCache(View(), maxSize, key);
      if key in entries {
        hits := hits + 1;
        Forget(key);
        accessOrder := accessOrder + [key];
        found := Some(entries[key]);
      } else {
        misses := misses + 1;
        found := None;
      }
    }

    method Insert(key: RouteKey, resolved: RouteKey)
      requires Valid()
      modifies this
      ensures Valid() && View() == AfterInsert(old(View()), maxSize, key, resolved)
    {
      hide IsCache, Without;
      InsertKeepsCache(View(), maxSize, key, resolved);
      if key in entries {
        entries := entries[key := resolved];
        return;
      }
      if |entries| >= maxSize {
        if accessOrder != [] {
          var oldest := accessOrder[0];
          accessOrder := accessOrder[1..];
          entries := entries - {oldest};
        }
      }
      entries := entries[key := resolved];
      accessOrder := accessOrder + [key];
    }

    method Invalidate(key: RouteKey)
      requires Valid()
      modifies this
      ensures Valid() && View() == AfterInvalidate(old(View()), key)
    {
      hide IsCache, Without;
      InvalidateKeepsCache(View(), maxSize, key);
      entries := entries - {key};
      Forget(key);
    }

    method Clear()
      requires Valid()
      modifies this
      ensures Valid() && View() == old(View()).(entries := map[], order := [])
    {
      entries, accessOrder := map[], [];
    }
  }

  // ----- Runs -----

  datatype CacheOp =
    | DoGet(key: RouteKey)
    | DoInsert(key: RouteKey, resolved: RouteKey)
    | DoInvalidate(key: RouteKey)
    | DoClear

  function Apply(c: Cache, maxSize: nat, op: CacheOp): Cache {
    match op
    case DoGet(k) => AfterGet(c, k)
    case DoInsert(k, v) => AfterInsert(c, maxSize, k, v)
    case DoInvalidate(k) => AfterInvalidate(c, k)
    case DoClear => c.(entries := map[], order := [])
  }

  function Run(maxSize: nat, ops: seq<CacheOp>): Cache {
    if ops == [] then Empty else Apply(Run(maxSize, ops[..|ops| - 1]), maxSize, ops[|ops| - 1])
  }

  /** A hit, or the insertion of a key that was not there. */
  predicate Touches(c: Cache, op: CacheOp, key: RouteKey) {
    || (op.DoGet? && op.key == key && key in c.entries)
    || (op.DoInsert? && op.key == key && key !in c.entries)
  }

  /** When `key` was last touched: the length of the run then, zero for never. */
  function LastTouch(maxSize: nat, ops: seq<CacheOp>, key: RouteKey): (t: nat)
    ensures t <= |ops|
  {
    if ops == [] then 0
    else if Touches(Run(maxSize, ops[..|ops| - 1]), ops[|ops| - 1], key) then |ops|
    else LastTouch(maxSize, ops[..|ops| - 1], key)
  }

  ghost predicate IsRecencyOrder(maxSize: nat, ops: seq<CacheOp>, order: seq<RouteKey>) {
    forall i, j :: 0 <= i < j < |order| ==> LastTouch(maxSize, ops, order[i]) < LastTouch(maxSize, ops, order[j])
  }

  lemma {:induction false} CacheAlwaysValid(maxSize: nat, ops: seq<CacheOp>)
    ensures IsCache(Run(maxSize, ops), maxSize)
  {
    if ops != [] {
      hide IsCache;
      var c, op := Run(maxSize, ops[..|ops| - 1]), ops[|ops| - 1];
      CacheAlwaysValid(maxSize, ops[..|ops| - 1]);
      match op
      case DoGet(k) => GetKeepsCache(c, maxSize, k);
      case DoInsert(k, v) => InsertKeepsCache(c, maxSize, k, v);
      case DoInvalidate(k) => InvalidateKeepsCache(c, maxSize, k);
      case DoClear => EmptiedIsCache(c, maxSize);
    }
  }

  lemma {:induction false} EmptiedIsCache(c: Cache, maxSize: nat)
    ensures IsCache(c.(entries := map[], order := []), maxSize)
  {
  }

  /** What an operation does to the order: it keeps a subsequence and may put a touched key last. */
  ghost predicate ComesFrom(c: Cache, op: CacheOp, order: seq<RouteKey>, i: nat, j: nat, i': nat, j': nat)
    requires i < j < |order|
  {
    && i' < |c.order| && c.order[i'] == order[i] && !Touches(c, op, order[i])
    && (Touches(c, op, order[j]) || (i' < j' < |c.order| && c.order[j'] == order[j]))
  }

  lemma {:induction false} OrderAfterHit(c: Cache, maxSize: nat, k: RouteKey, i: nat, j: nat) returns (i': nat, j': nat)
    requires IsCache(c, maxSize) && k in c.entries && i < j < |AfterGet(c, k).order|
    ensures ComesFrom(c, DoGet(k), AfterGet(c, k).order, i, j, i', j')
  {
    var rest := Without(c.order, k);
    WithoutKeepsTheRest(c.order, k);
    assert rest[i] in KeysOf(rest);
    if j < |rest| {
      i', j' := WithoutKeepsOrder(c.order, k, i, j);
    } else {
      i' := WithoutIndex(c.order, k, i);
      j' := 0;
    }
  }

  lemma {:induction false} OrderAfterInsert(c: Cache, maxSize: nat, k: RouteKey, v: RouteKey, i: nat, j: nat)
    returns (i': nat, j': nat)
    requires IsCache(c, maxSize) && i < j < |AfterInsert(c, maxSize, k, v).order|
    ensures ComesFrom(c, DoInsert(k, v), AfterInsert(c, maxSize, k, v).order, i, j, i', j')
  {
    var shift := if k !in c.entries && |c.entries| >= maxSize && c.order != [] then 1 else 0;
    i', j' := i + shift, j + shift;
    assert c.order[i'] in KeysOf(c.order);
  }

  lemma {:induction false} OrderAfter(c: Cache, maxSize: nat, op: CacheOp, i: nat, j: nat) returns (i': nat, j': nat)
    requires IsCache(c, maxSize) && i < j < |Apply(c, maxSize, op).order|
    ensures ComesFrom(c, op, Apply(c, maxSize, op).order, i, j, i', j')
  {
    i', j' := i, j;
    match op
    case DoGet(k) =>
      if k in c.entries { i', j' := OrderAfterHit(c, maxSize, k, i, j); }
    case DoInsert(k, v) =>
      i', j' := OrderAfterInsert(c, maxSize, k, v, i, j);
    case DoInvalidate(k) =>
      i', j' := WithoutKeepsOrder(c.order, k, i, j);
  }

  /** In every run the recency list is sorted by last touch. */
  lemma {:induction false} OrderIsRecency(maxSize: nat, ops: seq<CacheOp>)
    ensures IsRecencyOrder(maxSize, ops, Run(maxSize, ops).order)
  {
    if ops != [] {
      hide Apply, Touches;
      var front, op := ops[..|ops| - 1], ops[|ops| - 1];
      var c, order := Run(maxSize, front), Run(maxSize, ops).order;
      OrderIsRecency(maxSize, front);
      CacheAlwaysValid(maxSize, front);
      forall i, j | 0 <= i < j < |order|
        ensures LastTouch(maxSize, ops, order[i]) < LastTouch(maxSize, ops, order[j])
      {
        var i', j' := OrderAfter(c, maxSize, op, i, j);
      }
    }
  }

  /** The victim of an insertion into a full cache is the key that was touched longest ago. */
  lemma {:induction false} VictimIsLeastRecent(maxSize: nat, ops: seq<CacheOp>, key: RouteKey,
      resolved: RouteKey, other: RouteKey)
    requires var c := Run(maxSize, ops); key !in c.entries && |c.entries| >= maxSize && other in c.entries
    ensures var (c, c') := (Run(maxSize, ops), Run(maxSize, ops + [DoInsert(key, resolved)]));
      && c.order != [] && c.order[0] in c.entries
      && c'.entries == (c.entries - {c.order[0]})[key := resolved]
      && (other != c.order[0] ==> LastTouch(maxSize, ops, c.order[0]) < LastTouch(maxSize, ops, other))
  {
    var c := Run(maxSize, ops);
    assert (ops + [DoInsert(key, resolved)])[..|ops|] == ops;
    CacheAlwaysValid(maxSize, ops);
    OrderIsRecency(maxSize, ops);
    assert other in KeysOf(c.order) && c.order[0] in KeysOf(c.order);
  }

  function Gets(ops: seq<CacheOp>): nat {
    if ops == [] then 0 else Gets(ops[..|ops| - 1]) + if ops[|ops| - 1].DoGet? then 1 else 0
  }

  /** Lookups of a key that was cached at the time. */
  function GetsThatFound(maxSize: nat, ops: seq<CacheOp>): nat {
    if ops == [] then 0 else
    var (front, op) := (ops[..|ops| - 1], ops[|ops| - 1]);
    GetsThatFound(maxSize, front) + if op.DoGet? && op.key in Run(maxSize, front).entries then 1 else 0
  }

  /** The statistics count every lookup once, and as a hit exactly if the key was cached. */
  lemma {:induction false} StatsCountGets(maxSize: nat, ops: seq<CacheOp>)
    ensures Run(maxSize, ops).hits + Run(maxSize, ops).misses == Gets(ops)
    ensures Run(maxSize, ops).hits == GetsThatFound(maxSize, ops)
  {
    if ops != [] { StatsCountGets(maxSize, ops[..|ops| - 1]); }
  }
}
