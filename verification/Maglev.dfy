/**
 * Maglev table construction.
 *
 * A plan lists the permutations in the order the fill loop visits them, each with
 * the backend it fills slots for.  The loop gives every permutation one try per
 * round, so it is specified here without any loop: a slot goes to the first claim
 * on it, ordered by round and then by position in the plan.
 */
module Maglev {
  import opened Words
  import opened NumberTheory
  import Fnv

  const MAX_BACKENDS: nat := 32
  const MAGLEV_TABLE_SIZE: nat := 65537
  const COMPACT_MAGLEV_SIZE: nat := 4099

  datatype Backend = Backend(ip: seq<byte>, port: u16, weight: u16, isIpv6: bool)

  // ----- Permutations -----

  function Key(b: Backend): u64 {
    Fnv.Hash(b.ip + [b.port / 256, b.port % 256])
  }

  function Offset(m: nat, b: Backend, seed: u64): (r: nat)
    requires 2 <= m
    ensures r < m
  {
    Fnv.SeededHash(Key(b), seed) % m
  }

  function Skip(m: nat, b: Backend, seed: u64): (r: nat)
    requires 2 <= m
    requires seed + 1 < 0x1_0000_0000_0000_0000
    ensures 1 <= r < m
  {
    Fnv.SeededHash(Key(b), seed + 1) % (m - 1) + 1
  }

  /** A seed is a 32-bit index. */
  type Seed = s: nat | s < 0x1_0000_0000

  function Permutation(m: nat, b: Backend, seed: Seed): (p: seq<nat>)
    requires 2 <= m
    ensures |p| == m
  {
    var (offset, skip) := (Offset(m, b, seed), Skip(m, b, seed));
    seq(m, j requires 0 <= j < m => (offset + j * skip) % m)
  }

  /** Every double-hash sequence over a prime-sized table visits each slot exactly once. */
  lemma {:induction false} PermutationIsBijective(m: nat, b: Backend, seed: Seed)
    requires IsPrime(m)
    ensures IsPermutation(Permutation(m, b, seed), m)
  {
    hide Offset, Skip;
    StrideIsPermutation(m, Offset(m, b, seed), Skip(m, b, seed), Permutation(m, b, seed));
  }

  method GeneratePermutation(m: nat, b: Backend, seed: Seed) returns (perm: seq<nat>)
    requires IsPrime(m)
    ensures perm == Permutation(m, b, seed)
    ensures IsPermutation(perm, m)
  {
    hide Fnv.Hash, Fnv.SeededHash, IsPermutation, Permutation;
    var key := Fnv.Fnv1aHash(b.ip + [b.port / 256, b.port % 256]);
    var h1 := Fnv.HashBackend(key, seed);
    var h2 := Fnv.HashBackend(key, seed + 1);
    var offset, skip := h1 % m, h2 % (m - 1) + 1;
    perm := [];
    for j := 0 to m
      invariant perm == Permutation(m, b, seed)[..j]
    {
      PermutationAt(m, b, seed, j);
      perm := perm + [(offset + j * skip) % m];
    }
    PermutationIsBijective(m, b, seed);
  }

  lemma {:induction false} PermutationAt(m: nat, b: Backend, seed: Seed, j: nat)
    requires 2 <= m && j < m
    ensures Permutation(m, b, seed)[j] == (Offset(m, b, seed) + j * Skip(m, b, seed)) % m
  {
  }

  // ----- Plans -----

  datatype Entry = Entry(backend: nat, slots: seq<nat>)

  ghost predicate IsPlan(plan: seq<Entry>, m: nat, n: nat) {
    forall p :: 0 <= p < |plan| ==> plan[p].backend < n && IsPermutation(plan[p].slots, m)
  }

  /** One entry per backend, seeded by list position. */
  ghost function FullPlan(bs: seq<Backend>): (plan: seq<Entry>)
    requires |bs| <= 0x1_0000_0000
    ensures |plan| == |bs|
  {
    if bs == [] then [] else
    var i := |bs| - 1;
    FullPlan(bs[..i]) + [Entry(i, Permutation(MAGLEV_TABLE_SIZE, bs[i], i))]
  }

  function Repetitions(b: Backend): (r: nat)
    ensures 1 <= r <= 6553
  {
    if b.weight / 10 < 1 then 1 else b.weight / 10
  }

  /** The first `reps` permutations of the backend at list position `i`. */
  ghost function Share(b: Backend, i: nat, reps: nat): (plan: seq<Entry>)
    requires i < MAX_BACKENDS && reps <= 6553
    ensures |plan| == reps
  {
    if reps == 0 then [] else
    Share(b, i, reps - 1) + [Entry(i, Permutation(COMPACT_MAGLEV_SIZE, b, i * 100 + reps - 1))]
  }

  /** Weighted: a backend appears weight / 10 times, and at least once. */
  ghost function CompactPlan(bs: seq<Backend>): (plan: seq<Entry>)
    requires |bs| <= MAX_BACKENDS
  {
    if bs == [] then [] else
    var i := |bs| - 1;
    CompactPlan(bs[..i]) + Share(bs[i], i, Repetitions(bs[i]))
  }

  lemma {:induction false} ShareIsPlan(b: Backend, i: nat, reps: nat, n: nat)
    requires i < MAX_BACKENDS && i < n && reps <= 6553
    ensures IsPlan(Share(b, i, reps), COMPACT_MAGLEV_SIZE, n)
    ensures forall p :: 0 <= p < reps ==> Share(b, i, reps)[p].backend == i
  {
    hide Permutation, IsPermutation, IsPrime;
    if reps != 0 {
      ShareIsPlan(b, i, reps - 1, n);
      CompactSizeIsPrime();
      PermutationIsBijective(COMPACT_MAGLEV_SIZE, b, i * 100 + reps - 1);
    }
  }

  lemma {:induction false} CompactPlanIsPlan(bs: seq<Backend>, n: nat)
    requires |bs| <= MAX_BACKENDS && |bs| <= n
    ensures IsPlan(CompactPlan(bs), COMPACT_MAGLEV_SIZE, n)
    ensures bs != [] ==> CompactPlan(bs) != []
  {
    if bs != [] {
      var i := |bs| - 1;
      CompactPlanIsPlan(bs[..i], n);
      ShareIsPlan(bs[i], i, Repetitions(bs[i]), n);
    }
  }

  lemma {:induction false} FullPlanIsPlan(bs: seq<Backend>, n: nat)
    requires |bs| <= 0x1_0000_0000 && |bs| <= n
    ensures IsPlan(FullPlan(bs), MAGLEV_TABLE_SIZE, n)
  {
    if bs != [] {
      var i := |bs| - 1;
      FullPlanIsPlan(bs[..i], n);
      FullSizeIsPrime();
      PermutationIsBijective(MAGLEV_TABLE_SIZE, bs[i], i);
    }
  }

  // ----- Who owns a slot -----

  /** Permutation `p` tries slot `c` in round `r`. */
  ghost predicate Claims(plan: seq<Entry>, r: nat, p: nat, c: nat) {
    p < |plan| && r < |plan[p].slots| && plan[p].slots[r] == c
  }

  predicate Before(r1: nat, p1: nat, r2: nat, p2: nat) {
    r1 < r2 || (r1 == r2 && p1 < p2)
  }

  /** No claim on `c` comes before round `r`, permutation `p`. */
  ghost predicate Unclaimed(plan: seq<Entry>, r: nat, p: nat, c: nat) {
    forall r1: nat, p1: nat | Claims(plan, r1, p1, c) :: !Before(r1, p1, r, p)
  }

  /** The claim of least (position of `c` in its permutation, index in the plan). */
  ghost predicate Wins(plan: seq<Entry>, r: nat, p: nat, c: nat) {
    Claims(plan, r, p, c) && Unclaimed(plan, r, p, c)
  }

  /** The closed form of the fill loops: the slot goes to the backend of the winning claim. */
  ghost predicate Owns(plan: seq<Entry>, c: nat, backend: nat) {
    exists r: nat, p: nat :: Wins(plan, r, p, c) && plan[p].backend == backend
  }

  lemma {:induction false} OwnerIsUnique(plan: seq<Entry>, c: nat, b1: nat, b2: nat)
    requires Owns(plan, c, b1) && Owns(plan, c, b2)
    ensures b1 == b2
  {
    var r1: nat, p1: nat :| Wins(plan, r1, p1, c) && plan[p1].backend == b1;
    var r2: nat, p2: nat :| Wins(plan, r2, p2, c) && plan[p2].backend == b2;
    assert !Before(r1, p1, r2, p2) && !Before(r2, p2, r1, p1);
  }

  /** Appending entries to a plan: each slot keeps its owner or goes to an appended entry. */
  lemma {:induction false} ExtendingMovesSlotsOnlyToTheNew(plan: seq<Entry>, more: seq<Entry>, c: nat, b1: nat, b2: nat)
    requires Owns(plan, c, b1) && Owns(plan + more, c, b2)
    ensures b1 == b2 || exists e :: e in more && e.backend == b2
  {
    var r1: nat, p1: nat :| Wins(plan, r1, p1, c) && plan[p1].backend == b1;
    var both := plan + more;
    var r2: nat, p2: nat :| Wins(both, r2, p2, c) && both[p2].backend == b2;
    assert Claims(both, r1, p1, c);
    if p2 < |plan| {
      assert Claims(plan, r2, p2, c);
    } else {
      assert both[p2] in more;
    }
  }

  /** Some entry tries slot `c` before round `r`. */
  ghost predicate ClaimsEarlier(plan: seq<Entry>, r: nat, c: nat) {
    exists r1: nat, p1: nat :: r1 < r && Claims(plan, r1, p1, c)
  }

  /** Appended entries of backend `n` take exactly the slots they try in an earlier round than the old winner did. */
  lemma {:induction false} ExtendingTakesIff(plan: seq<Entry>, more: seq<Entry>, c: nat, r: nat, p: nat, n: nat, b: nat)
    requires Wins(plan, r, p, c) && Owns(plan + more, c, b)
    requires forall k :: 0 <= k < |more| ==> more[k].backend == n
    ensures b == if ClaimsEarlier(more, r, c) then n else plan[p].backend
  {
    var both := plan + more;
    var r2: nat, p2: nat :| Wins(both, r2, p2, c) && both[p2].backend == b;
    assert Claims(both, r, p, c);
    if p2 < |plan| {
      assert Claims(plan, r2, p2, c);
      forall r1: nat, p1: nat | Claims(more, r1, p1, c) ensures r <= r1 {
        assert Claims(both, r1, |plan| + p1, c);
      }
    } else {
      assert Claims(more, r2, p2 - |plan|, c);
    }
  }

  // ----- The fill loops -----

  /** What the fill loop knows when it is about to try permutation `p` in round `r`. */
  ghost predicate Filling(plan: seq<Entry>, r: nat, p: nat, filled: seq<bool>, won: seq<(nat, nat)>)
    requires |filled| == |won|
  {
    forall c :: 0 <= c < |filled| ==>
      if filled[c] then Wins(plan, won[c].0, won[c].1, c) else Unclaimed(plan, r, p, c)
  }

  ghost function FilledSlots(filled: seq<bool>): (s: set<nat>) {
    set c: nat | c < |filled| && filled[c]
  }

  lemma {:induction false} FilledSlotsGrow(filled: seq<bool>, c: nat)
    requires c < |filled| && !filled[c]
    ensures |FilledSlots(filled[c := true])| == |FilledSlots(filled)| + 1
  {
    assert FilledSlots(filled[c := true]) == FilledSlots(filled) + {c};
  }

  lemma {:induction false} FilledSlotsBound(filled: seq<bool>)
    ensures |FilledSlots(filled)| <= |filled|
    ensures |FilledSlots(filled)| == |filled| <==> forall c :: 0 <= c < |filled| ==> filled[c]
  {
    var all := Range(|filled|);
    FullSubsetSize(FilledSlots(filled), all);
    if |FilledSlots(filled)| == |filled| {
      FullSubset(FilledSlots(filled), all);
      forall c | 0 <= c < |filled| ensures filled[c] { assert c in all; }
    }
    if forall c :: 0 <= c < |filled| ==> filled[c] {
      assert FilledSlots(filled) == all;
    }
  }

  /** One try: claim the slot if it is free. */
  lemma {:induction false} TryOne(plan: seq<Entry>, m: nat, r: nat, p: nat, filled: seq<bool>, won: seq<(nat, nat)>)
    requires |filled| == |won| == m && p < |plan| && r < m
    requires IsPermutation(plan[p].slots, m)
    requires Filling(plan, r, p, filled, won)
    ensures var c := plan[p].slots[r];
      if filled[c] then Filling(plan, r, p + 1, filled, won)
      else Filling(plan, r, p + 1, filled[c := true], won[c := (r, p)])
  {
    var c := plan[p].slots[r];
    forall d | 0 <= d < m && !filled[d] && d != c ensures Unclaimed(plan, r, p + 1, d) {
      forall r1: nat, p1: nat | Claims(plan, r1, p1, d) ensures !Before(r1, p1, r, p + 1) {
        assert !Before(r1, p1, r, p);
      }
    }
    assert !filled[c] ==> Wins(plan, r, p, c);
  }

  lemma {:induction false} NextRound(plan: seq<Entry>, r: nat, filled: seq<bool>, won: seq<(nat, nat)>)
    requires |filled| == |won| && Filling(plan, r, |plan|, filled, won)
    ensures Filling(plan, r + 1, 0, filled, won)
  {
    forall c | 0 <= c < |filled| && !filled[c] ensures Unclaimed(plan, r + 1, 0, c) {
      forall r1: nat, p1: nat | Claims(plan, r1, p1, c) ensures !Before(r1, p1, r + 1, 0) {
        assert !Before(r1, p1, r, |plan|);
      }
    }
  }

  /** After m rounds the first permutation alone has tried every slot. */
  lemma {:induction false} FullAfterAllRounds(plan: seq<Entry>, m: nat, r: nat, filled: seq<bool>, won: seq<(nat, nat)>)
    requires |filled| == |won| == m && plan != [] && m <= r
    requires IsPermutation(plan[0].slots, m)
    requires Filling(plan, r, 0, filled, won)
    ensures |FilledSlots(filled)| == m
  {
    forall c | 0 <= c < m ensures filled[c] {
      PermutationHits(plan[0].slots, m, c);
      var pos :| 0 <= pos < m && plan[0].slots[pos] == c;
      assert Claims(plan, pos, 0, c) && Before(pos, 0, r, 0);
    }
    FilledSlotsBound(filled);
  }

  /** A full table holds, in every slot, the backend that won it. */
  lemma {:induction false} Finished(plan: seq<Entry>, m: nat, n: nat, r: nat, filled: seq<bool>, won: seq<(nat, nat)>)
    requires |filled| == |won| == m && |FilledSlots(filled)| == m
    requires IsPlan(plan, m, n) && Filling(plan, r, 0, filled, won)
    ensures forall c :: 0 <= c < m ==>
      filled[c] && won[c].1 < |plan| && plan[won[c].1].backend < n && Owns(plan, c, plan[won[c].1].backend)
  {
    FilledSlotsBound(filled);
    forall c | 0 <= c < m
      ensures filled[c] && won[c].1 < |plan| && plan[won[c].1].backend < n
      ensures Owns(plan, c, plan[won[c].1].backend)
    {
      assert Wins(plan, won[c].0, won[c].1, c);
    }
  }

  lemma {:induction false} PlannedTry(plan: seq<Entry>, m: nat, n: nat, r: nat, p: nat)
    requires IsPlan(plan, m, n) && r < m && p < |plan|
    ensures plan[p].backend < n && IsPermutation(plan[p].slots, m)
    ensures r % m == r && |plan[p].slots| == m && plan[p].slots[r] < m
  {
  }

  lemma {:induction false} NothingFilled(plan: seq<Entry>, filled: seq<bool>, won: seq<(nat, nat)>)
    requires |filled| == |won| && forall c :: 0 <= c < |filled| ==> !filled[c]
    ensures FilledSlots(filled) == {} && Filling(plan, 0, 0, filled, won)
  {
  }

  lemma {:induction false} FullSkipsAhead(plan: seq<Entry>, r: nat, p: nat, filled: seq<bool>, won: seq<(nat, nat)>)
    requires |filled| == |won| == |FilledSlots(filled)| && Filling(plan, r, p, filled, won)
    ensures Filling(plan, r + 1, 0, filled, won)
  {
    FilledSlotsBound(filled);
  }

  method FullPermutations(bs: seq<Backend>) returns (plan: seq<Entry>)
    requires |bs| <= 0x1_0000_0000
    ensures plan == FullPlan(bs)
  {
    hide IsPrime, IsPermutation, Permutation;
    FullSizeIsPrime();
    plan := [];
    for i := 0 to |bs|
      invariant plan == FullPlan(bs[..i])
    {
      var perm := GeneratePermutation(MAGLEV_TABLE_SIZE, bs[i], i);
      plan := plan + [Entry(i, perm)];
      assert bs[..i + 1][..i] == bs[..i];
    }
    assert bs[..|bs|] == bs;
  }

  /** The fill loop of the 65537-slot table; a slot is free while it holds None. */
  method FillFull(plan: seq<Entry>, m: nat, ghost backends: nat) returns (result: seq<Option<nat>>, ghost rounds: nat)
    requires plan != [] && m != 0 && IsPlan(plan, m, backends)
    ensures |result| == m && rounds <= m
    ensures forall c :: 0 <= c < m ==>
      result[c].Some? && result[c].value < backends && Owns(plan, c, result[c].value)
  {
    hide Filling, FilledSlots, Owns, IsPlan, IsPermutation;
    var table := new Option<nat>[m](_ => None);
    var filled, n := 0, 0;
    ghost var taken: seq<bool> := seq(m, _ => false);
    ghost var won: seq<(nat, nat)> := seq(m, _ => (0, 0));
    NothingFilled(plan, taken, won);
    while filled < m
      invariant |taken| == |won| == m && filled == |FilledSlots(taken)|
      invariant n <= m && Filling(plan, n, 0, taken, won)
      invariant forall c :: 0 <= c < m ==> table[c] == Stored(plan, taken[c], won[c])
      decreases m - n
    {
      if n == m {
        PlannedTry(plan, m, backends, 0, 0);
        FullAfterAllRounds(plan, m, n, taken, won);
        assert false;
      }
      for k := 0 to |plan|
        invariant |taken| == |won| == m && filled == |FilledSlots(taken)| < m
        invariant Filling(plan, n, k, taken, won)
        invariant forall c :: 0 <= c < m ==> table[c] == Stored(plan, taken[c], won[c])
      {
        PlannedTry(plan, m, backends, n, k);
        var c := plan[k].slots[n % m];
        TryOne(plan, m, n, k, taken, won);
        if table[c].None? {
          FilledSlotsGrow(taken, c);
          table[c] := Some(plan[k].backend);
          taken, won := taken[c := true], won[c := (n, k)];
          filled := filled + 1;
          if filled == m {
            FullSkipsAhead(plan, n, k + 1, taken, won);
            break;
          }
        }
      }
      if filled < m { NextRound(plan, n, taken, won); }
      n := n + 1;
    }
    FilledSlotsBound(taken);
    Finished(plan, m, backends, n, taken, won);
    result, rounds := table[..], n;
  }

  ghost function Stored(plan: seq<Entry>, taken: bool, won: (nat, nat)): Option<nat> {
    if !taken then None else Some(if won.1 < |plan| then plan[won.1].backend else 0)
  }

  method BuildTable(bs: seq<Backend>) returns (table: seq<Option<nat>>)
    requires |bs| <= 0x1_0000_0000
    ensures |table| == MAGLEV_TABLE_SIZE
    ensures bs == [] ==> forall c :: 0 <= c < |table| ==> table[c] == None
    ensures bs != [] ==> forall c :: 0 <= c < |table| ==>
      table[c].Some? && table[c].value < |bs| && Owns(FullPlan(bs), c, table[c].value)
  {
    if bs == [] {
      return seq(MAGLEV_TABLE_SIZE, _ => None);
    }
    var plan := FullPermutations(bs);
    FullPlanIsPlan(bs, |bs|);
    ghost var rounds;
    table, rounds := FillFull(plan, MAGLEV_TABLE_SIZE, |bs|);
  }

  method CompactPermutations(bs: seq<Backend>) returns (plan: seq<Entry>)
    requires |bs| <= MAX_BACKENDS
    ensures plan == CompactPlan(bs)
    ensures forall i :: 0 <= i < |bs| ==> IsWeighted(plan, bs[i], i)
  {
    hide IsPrime, IsPermutation, Permutation, IsWeighted;
    CompactSizeIsPrime();
    plan := [];
    for i := 0 to |bs|
      invariant plan == CompactPlan(bs[..i])
    {
      var repetitions := Repetitions(bs[i]);
      ghost var before := plan;
      for rep := 0 to repetitions
        invariant plan == before + Share(bs[i], i, rep)
      {
        var perm := GeneratePermutation(COMPACT_MAGLEV_SIZE, bs[i], i * 100 + rep);
        plan := plan + [Entry(i, perm)];
      }
      assert bs[..i + 1][..i] == bs[..i];
    }
    assert bs[..|bs|] == bs;
    forall i | 0 <= i < |bs| ensures IsWeighted(plan, bs[i], i) { WeightLaw(bs, i); }
  }

  /** The fill loop of the 4099-slot table; free slots are tracked in a separate array. */
  method FillCompact(plan: seq<Entry>, m: nat, ghost backends: nat) returns (result: seq<byte>, ghost rounds: nat)
    requires plan != [] && m != 0 && IsPlan(plan, m, backends) && backends <= 256
    ensures |result| == m && rounds <= m
    ensures forall c :: 0 <= c < m ==> result[c] < backends && Owns(plan, c, result[c])
  {
    hide Filling, FilledSlots, Owns, IsPlan, IsPermutation;
    var table := new byte[m](_ => 0);
    var filled := new bool[m](_ => false);
    var filledCount, n := 0, 0;
    ghost var won: seq<(nat, nat)> := seq(m, _ => (0, 0));
    NothingFilled(plan, filled[..], won);
    while filledCount < m
      invariant |won| == m && filledCount == |FilledSlots(filled[..])|
      invariant n <= m && Filling(plan, n, 0, filled[..], won)
      invariant forall c :: 0 <= c < m && filled[c] ==> won[c].1 < |plan| && table[c] == plan[won[c].1].backend
      decreases m - n
    {
      if n == m {
        PlannedTry(plan, m, backends, 0, 0);
        FullAfterAllRounds(plan, m, n, filled[..], won);
        assert false;
      }
      for k := 0 to |plan|
        invariant |won| == m && filledCount == |FilledSlots(filled[..])| < m
        invariant Filling(plan, n, k, filled[..], won)
        invariant forall c :: 0 <= c < m && filled[c] ==> won[c].1 < |plan| && table[c] == plan[won[c].1].backend
      {
        PlannedTry(plan, m, backends, n, k);
        var c := plan[k].slots[n % m];
        TryOne(plan, m, n, k, filled[..], won);
        if !filled[c] {
          FilledSlotsGrow(filled[..], c);
          ghost var before := filled[..];
          table[c] := plan[k].backend;
          filled[c] := true;
          assert filled[..] == before[c := true];
          won := won[c := (n, k)];
          filledCount := filledCount + 1;
          if filledCount == m {
            FullSkipsAhead(plan, n, k + 1, filled[..], won);
            break;
          }
        }
      }
      if filledCount < m { NextRound(plan, n, filled[..], won); }
      n := n + 1;
    }
    FilledSlotsBound(filled[..]);
    Finished(plan, m, backends, n, filled[..], won);
    result, rounds := table[..], n;
  }

  /** What a route's compact table is, in terms of its backend list alone. */
  ghost predicate IsCompactTable(bs: seq<Backend>, table: seq<byte>)
    requires |bs| <= MAX_BACKENDS
  {
    && |table| == COMPACT_MAGLEV_SIZE
    && forall c :: 0 <= c < |table| ==>
      if bs == [] then table[c] == 0 else table[c] < |bs| && Owns(CompactPlan(bs), c, table[c])
  }

  /** More than MAX_BACKENDS backends is the source's assertion failure. */
  method BuildCompactTable(bs: seq<Backend>) returns (table: seq<byte>)
    requires |bs| <= MAX_BACKENDS
    ensures IsCompactTable(bs, table)
  {
    if bs == [] {
      return seq(COMPACT_MAGLEV_SIZE, _ => 0);
    }
    var plan := CompactPermutations(bs);
    CompactPlanIsPlan(bs, |bs|);
    ghost var rounds;
    table, rounds := FillCompact(plan, COMPACT_MAGLEV_SIZE, |bs|);
  }

  /** Equal backend lists always get equal tables. */
  lemma {:induction false} CompactTableIsDeterministic(bs: seq<Backend>, t1: seq<byte>, t2: seq<byte>)
    requires |bs| <= MAX_BACKENDS && IsCompactTable(bs, t1) && IsCompactTable(bs, t2)
    ensures t1 == t2
  {
    forall c | 0 <= c < |t1| ensures t1[c] == t2[c] {
      if bs != [] { OwnerIsUnique(CompactPlan(bs), c, t1[c], t2[c]); }
    }
  }

  /** Appending a backend leaves every slot with its owner or gives it to the newcomer. */
  lemma {:induction false} AppendMovesSlotsOnlyToNewcomer(bs: seq<Backend>, newcomer: Backend, t1: seq<byte>,
      t2: seq<byte>, c: nat)
    requires |bs| < MAX_BACKENDS && bs != [] && c < COMPACT_MAGLEV_SIZE
    requires IsCompactTable(bs, t1) && IsCompactTable(bs + [newcomer], t2)
    ensures t2[c] == t1[c] || t2[c] == |bs|
  {
    var more := Share(newcomer, |bs|, Repetitions(newcomer));
    assert (bs + [newcomer])[..|bs|] == bs;
    ShareIsPlan(newcomer, |bs|, Repetitions(newcomer), |bs| + 1);
    ExtendingMovesSlotsOnlyToTheNew(CompactPlan(bs), more, c, t1[c], t2[c]);
  }

  /** It takes exactly the slots that one of its permutations reaches in an earlier round than the old winner. */
  lemma {:induction false} AppendTakesExactly(bs: seq<Backend>, newcomer: Backend, t2: seq<byte>, c: nat,
      r: nat, p: nat)
    requires |bs| < MAX_BACKENDS && c < COMPACT_MAGLEV_SIZE && Wins(CompactPlan(bs), r, p, c)
    requires IsCompactTable(bs + [newcomer], t2)
    ensures t2[c] == |bs| <==> ClaimsEarlier(Share(newcomer, |bs|, Repetitions(newcomer)), r, c)
  {
    hide Wins, Claims, Owns, ClaimsEarlier;
    var more := Share(newcomer, |bs|, Repetitions(newcomer));
    assert (bs + [newcomer])[..|bs|] == bs;
    CompactPlanIsPlan(bs, |bs|);
    ShareIsPlan(newcomer, |bs|, Repetitions(newcomer), |bs| + 1);
    WinnerIsPlanned(CompactPlan(bs), r, p, c);
    ExtendingTakesIff(CompactPlan(bs), more, c, r, p, |bs|, t2[c]);
  }

  lemma {:induction false} WinnerIsPlanned(plan: seq<Entry>, r: nat, p: nat, c: nat)
    requires Wins(plan, r, p, c)
    ensures p < |plan|
  {
  }

  // ----- Weights -----

  /** The entries of backend `i`, in order. */
  ghost function EntriesOf(plan: seq<Entry>, i: nat): (es: seq<Entry>) {
    if plan == [] then [] else
    var last := plan[|plan| - 1];
    EntriesOf(plan[..|plan| - 1], i) + if last.backend == i then [last] else []
  }

  lemma {:induction false} EntriesAppend(plan: seq<Entry>, more: seq<Entry>, i: nat)
    ensures EntriesOf(plan + more, i) == EntriesOf(plan, i) + EntriesOf(more, i)
  {
    if more == [] {
      assert plan + more == plan;
    } else {
      assert (plan + more)[..|plan + more| - 1] == plan + more[..|more| - 1];
      EntriesAppend(plan, more[..|more| - 1], i);
    }
  }

  lemma {:induction false} EntriesOfShare(plan: seq<Entry>, j: nat, i: nat)
    requires forall p :: 0 <= p < |plan| ==> plan[p].backend == j
    ensures EntriesOf(plan, i) == if i == j then plan else []
  {
    if plan != [] { EntriesOfShare(plan[..|plan| - 1], j, i); }
  }

  lemma {:induction false} ShareSlots(b: Backend, i: nat, reps: nat, r: nat)
    requires i < MAX_BACKENDS && r < reps <= 6553
    ensures Share(b, i, reps)[r].slots == Permutation(COMPACT_MAGLEV_SIZE, b, 100 * i + r)
  {
    if r < reps - 1 { ShareSlots(b, i, reps - 1, r); }
  }

  /** One permutation per full ten of weight and at least one; the r-th is seeded with 100 * i + r. */
  ghost predicate IsWeighted(plan: seq<Entry>, b: Backend, i: nat)
    requires i < MAX_BACKENDS
  {
    var entries := EntriesOf(plan, i);
    && (if b.weight < 10 then |entries| == 1 else 10 * |entries| <= b.weight < 10 * |entries| + 10)
    && forall r :: 0 <= r < |entries| ==> entries[r].slots == Permutation(COMPACT_MAGLEV_SIZE, b, 100 * i + r)
  }

  /** The plan gives every backend its weight. */
  lemma {:induction false} WeightLaw(bs: seq<Backend>, i: nat)
    requires |bs| <= MAX_BACKENDS && i < |bs|
    ensures IsWeighted(CompactPlan(bs), bs[i], i)
  {
    hide Permutation, EntriesOf, Share, CompactPlan;
    EntriesAreTheShare(bs, i);
    var reps := Repetitions(bs[i]);
    forall r | 0 <= r < reps
      ensures Share(bs[i], i, reps)[r].slots == Permutation(COMPACT_MAGLEV_SIZE, bs[i], 100 * i + r)
    {
      ShareSlots(bs[i], i, reps, r);
    }
  }

  lemma {:induction false} EntriesAreTheShare(bs: seq<Backend>, i: nat)
    requires |bs| <= MAX_BACKENDS && i < |bs|
    ensures EntriesOf(CompactPlan(bs), i) == Share(bs[i], i, Repetitions(bs[i]))
  {
    hide Permutation, IsPlan, EntriesOf, Share, Repetitions;
    var k := |bs| - 1;
    var reps := Repetitions(bs[k]);
    EntriesAppend(CompactPlan(bs[..k]), Share(bs[k], k, reps), i);
    ShareIsPlan(bs[k], k, reps, |bs|);
    EntriesOfShare(Share(bs[k], k, reps), k, i);
    if i == k {
      NoEntriesBeyond(bs[..k], i);
    } else {
      EntriesAreTheShare(bs[..k], i);
    }
  }

  lemma {:induction false} NoEntriesBeyond(bs: seq<Backend>, i: nat)
    requires |bs| <= MAX_BACKENDS && |bs| <= i
    ensures EntriesOf(CompactPlan(bs), i) == []
  {
    if bs != [] {
      hide Permutation, IsPlan;
      var k := |bs| - 1;
      var share := Share(bs[k], k, Repetitions(bs[k]));
      EntriesAppend(CompactPlan(bs[..k]), share, i);
      ShareIsPlan(bs[k], k, Repetitions(bs[k]), |bs|);
      EntriesOfShare(share, k, i);
      NoEntriesBeyond(bs[..k], i);
    }
  }

  /** Repetitions do not depend on the weight, so a heavier backend has the same first ones. */
  lemma {:induction false} HeavierShare(b: Backend, weight: u16, i: nat, reps: nat, more: nat)
    requires i < MAX_BACKENDS && reps <= more <= 6553
    ensures Share(b.(weight := weight), i, more)[..reps] == Share(b, i, reps)
    decreases more
  {
    if reps < more {
      hide Permutation;
      HeavierShare(b, weight, i, reps, more - 1);
    } else if 0 < reps {
      HeavierShare(b, weight, i, reps - 1, more - 1);
      assert Permutation(COMPACT_MAGLEV_SIZE, b.(weight := weight), i * 100 + reps - 1)
        == Permutation(COMPACT_MAGLEV_SIZE, b, i * 100 + reps - 1);
    }
  }

  /**
   * Raising the last backend's weight: each slot stays or goes to that backend, and it takes
   * exactly those that an added permutation reaches in an earlier round than the old winner did.
   */
  lemma {:induction false} RaisingWeightTakesExactly(bs: seq<Backend>, weight: u16, t1: seq<byte>, t2: seq<byte>,
      c: nat, r: nat, p: nat)
    requires 0 < |bs| <= MAX_BACKENDS && c < COMPACT_MAGLEV_SIZE && bs[|bs| - 1].weight <= weight
    requires IsCompactTable(bs, t1) && Wins(CompactPlan(bs), r, p, c)
    requires IsCompactTable(bs[|bs| - 1 := bs[|bs| - 1].(weight := weight)], t2)
    ensures var (i, old_) := (|bs| - 1, Repetitions(bs[|bs| - 1]));
      var heavy := bs[i].(weight := weight);
      && old_ <= Repetitions(heavy)
      && t2[c] == if ClaimsEarlier(Share(heavy, i, Repetitions(heavy))[old_..], r, c) then i else t1[c]
  {
    hide Wins, Claims, Owns, ClaimsEarlier, Permutation, IsPlan;
    var i := |bs| - 1;
    var b, heavy := bs[i], bs[i].(weight := weight);
    var reps, more := Repetitions(b), Repetitions(heavy);
    var bs2 := bs[i := heavy];
    assert bs2[..i] == bs[..i];
    HeavierShare(b, weight, i, reps, more);
    var all, added := Share(heavy, i, more), Share(heavy, i, more)[reps..];
    assert all == Share(b, i, reps) + added;
    assert CompactPlan(bs2) == CompactPlan(bs) + added;
    ShareIsPlan(heavy, i, more, |bs|);
    WinnerIsPlanned(CompactPlan(bs), r, p, c);
    ExtendingTakesIff(CompactPlan(bs), added, c, r, p, i, t2[c]);
    WinnerOwns(CompactPlan(bs), r, p, c);
    OwnerIsUnique(CompactPlan(bs), c, t1[c], CompactPlan(bs)[p].backend);
  }

  lemma {:induction false} WinnerOwns(plan: seq<Entry>, r: nat, p: nat, c: nat)
    requires Wins(plan, r, p, c)
    ensures p < |plan| && Owns(plan, c, plan[p].backend)
  {
  }

  /** The full plan has one entry per backend, seeded with its list position. */
  lemma {:induction false} FullPlanEntries(bs: seq<Backend>, i: nat)
    requires i < |bs| <= 0x1_0000_0000
    ensures FullPlan(bs)[i].backend == i && FullPlan(bs)[i].slots == Permutation(MAGLEV_TABLE_SIZE, bs[i], i)
  {
    hide Permutation;
    if i < |bs| - 1 { FullPlanEntries(bs[..|bs| - 1], i); }
  }

  // ----- The full table -----

  /** Appending a backend to the full table. */
  lemma {:induction false} FullAppendMovesSlotsOnlyToNewcomer(bs: seq<Backend>, newcomer: Backend, c: nat,
      b1: nat, b2: nat)
    requires |bs| < 0x1_0000_0000
    requires Owns(FullPlan(bs), c, b1) && Owns(FullPlan(bs + [newcomer]), c, b2)
    ensures b2 == b1 || b2 == |bs|
  {
    assert (bs + [newcomer])[..|bs|] == bs;
    ExtendingMovesSlotsOnlyToTheNew(
      FullPlan(bs), [Entry(|bs|, Permutation(MAGLEV_TABLE_SIZE, newcomer, |bs|))], c, b1, b2);
  }
}
