/** Passive health: a sliding window of the last responses of each backend. */
module Health {
  import opened Words
  import opened Maglev
  import NumberTheory

  const WINDOW_SIZE: nat := 100

  predicate IsError(status: u16) {
    500 <= status < 600
  }

  function Errors(window: seq<bool>): (n: nat)
    ensures n <= |window|
  {
    if window == [] then 0 else Errors(window[..|window| - 1]) + if window[|window| - 1] then 1 else 0
  }

  /** An error rate of at most one half. */
  predicate IsHealthy(window: seq<bool>) {
    |window| == 0 || Errors(window) as real / |window| as real <= 0.5
  }

  class BackendHealth {
    var window: seq<bool>

    constructor (window: seq<bool>)
      ensures this.window == window
    {
      this.window := window;
    }

    method RecordResponse(status: u16)
      requires |window| <= WINDOW_SIZE
      modifies this
      ensures window == Slide(old(window), IsError(status))
    {
      if |window| == WINDOW_SIZE {
        window := window[1..];
      }
      window := window + [IsError(status)];
    }
  }

  function Slide(window: seq<bool>, isError: bool): (w: seq<bool>)
    requires |window| <= WINDOW_SIZE
    ensures |w| <= WINDOW_SIZE
  {
    (if |window| == WINDOW_SIZE then window[1..] else window) + [isError]
  }

  datatype Response = Response(backend: Backend, status: u16)

  /** The windows after a run of responses, over all backends. */
  function Windows(run: seq<Response>): (w: map<Backend, seq<bool>>)
    ensures forall b :: b in w ==> |w[b]| <= WINDOW_SIZE
  {
    if run == [] then map[] else
    Recorded(Windows(run[..|run| - 1]), run[|run| - 1])
  }

  function Recorded(w: map<Backend, seq<bool>>, r: Response): map<Backend, seq<bool>>
    requires forall b :: b in w ==> |w[b]| <= WINDOW_SIZE
  {
    w[r.backend := Slide(if r.backend in w then w[r.backend] else [], IsError(r.status))]
  }

  /** The error flags of one backend's responses, oldest first. */
  function FlagsOf(run: seq<Response>, b: Backend): (flags: seq<bool>) {
    if run == [] then [] else
    var r := run[|run| - 1];
    FlagsOf(run[..|run| - 1], b) + if r.backend == b then [IsError(r.status)] else []
  }

  function Last(flags: seq<bool>, n: nat): seq<bool> {
    if |flags| <= n then flags else flags[|flags| - n..]
  }

  /** In every run a window holds exactly the last 100 responses of its own backend. */
  lemma {:induction false} WindowIsRecentHistory(run: seq<Response>, b: Backend)
    ensures b in Windows(run) <==> FlagsOf(run, b) != []
    ensures b in Windows(run) ==> Windows(run)[b] == Last(FlagsOf(run, b), WINDOW_SIZE)
  {
    if run != [] {
      WindowIsRecentHistory(run[..|run| - 1], b);
    }
  }

  function PassivelyHealthy(w: map<Backend, seq<bool>>, b: Backend): bool {
    b in w ==> IsHealthy(w[b])
  }

  lemma {:induction false} HalfRule(window: seq<bool>)
    ensures IsHealthy(window) <==> 2 * Errors(window) <= |window|
  {
    if |window| != 0 { RatioBound(Errors(window) as real, |window| as real); }
  }

  lemma {:induction false} RatioBound(e: real, n: real)
    requires n > 0.0
    ensures e / n <= 0.5 <==> 2.0 * e <= n
  {
    var q := e / n;
    assert e == q * n;
    assert (0.5 - q) * n == 0.5 * n - e;
    assert q <= 0.5 ==> (0.5 - q) * n >= 0.0;
    assert q > 0.5 ==> (0.5 - q) * n < 0.0;
  }

  /** A backend is unhealthy exactly when more than half of its last 100 responses were 5xx. */
  lemma {:induction false} UnhealthyIffMostRecentFailed(run: seq<Response>, b: Backend)
    ensures var recent := Last(FlagsOf(run, b), WINDOW_SIZE);
      PassivelyHealthy(Windows(run), b) <==> 2 * Errors(recent) <= |recent|
  {
    WindowIsRecentHistory(run, b);
    HalfRule(Last(FlagsOf(run, b), WINDOW_SIZE));
  }

  /** What other backends answered, and anything older than the window, is irrelevant. */
  lemma {:induction false} HealthForgetsTheRest(run1: seq<Response>, run2: seq<Response>, b: Backend)
    requires Last(FlagsOf(run1, b), WINDOW_SIZE) == Last(FlagsOf(run2, b), WINDOW_SIZE)
    ensures PassivelyHealthy(Windows(run1), b) == PassivelyHealthy(Windows(run2), b)
  {
    UnhealthyIffMostRecentFailed(run1, b);
    UnhealthyIffMostRecentFailed(run2, b);
  }

  // ----- The rule on status codes -----

  /** The responses of one backend, by their position in the run. */
  ghost function ResponsesOf(run: seq<Response>, b: Backend): set<nat> {
    set j: nat | j < |run| && run[j].backend == b
  }

  /** Those of them that at most 99 later ones follow: the last 100. */
  ghost function RecentOf(run: seq<Response>, b: Backend): set<nat> {
    set j: nat | j in ResponsesOf(run, b) && |LaterThan(run, b, j)| < 100
  }

  ghost function LaterThan(run: seq<Response>, b: Backend, j: nat): set<nat> {
    set l: nat | l in ResponsesOf(run, b) && j < l
  }

  /** The recent ones with a status from 500 to 599. */
  ghost function FailedOf(run: seq<Response>, b: Backend): set<nat> {
    set j: nat | j in RecentOf(run, b) && j < |run| && 500 <= run[j].status <= 599
  }

  /** The positions of a backend's responses, in order. */
  ghost function PositionsOf(run: seq<Response>, b: Backend): (ps: seq<nat>)
    ensures |ps| == |FlagsOf(run, b)|
  {
    if run == [] then [] else
    PositionsOf(run[..|run| - 1], b) + if run[|run| - 1].backend == b then [|run| - 1] else []
  }

  lemma {:induction false} PositionAt(run: seq<Response>, b: Backend, k: nat)
    requires k < |PositionsOf(run, b)|
    ensures var p := PositionsOf(run, b)[k];
      p < |run| && run[p].backend == b && (FlagsOf(run, b)[k] <==> 500 <= run[p].status <= 599)
  {
    var front := run[..|run| - 1];
    if k < |PositionsOf(front, b)| { PositionAt(front, b, k); }
  }

  lemma {:induction false} PositionsRise(run: seq<Response>, b: Backend, k: nat, l: nat)
    requires k < l < |PositionsOf(run, b)|
    ensures PositionsOf(run, b)[k] < PositionsOf(run, b)[l]
  {
    var front := run[..|run| - 1];
    PositionAt(front, b, k);
    if l < |PositionsOf(front, b)| { PositionsRise(front, b, k, l); }
  }

  lemma {:induction false} PositionsCover(run: seq<Response>, b: Backend, j: nat)
    requires j < |run| && run[j].backend == b
    ensures j in PositionsOf(run, b)
  {
    var front := run[..|run| - 1];
    if j < |front| {
      PositionsCover(front, b, j);
      assert PositionsOf(front, b) <= PositionsOf(run, b);
    } else {
      assert PositionsOf(run, b)[|PositionsOf(front, b)|] == j;
    }
  }

  lemma {:induction false} PositionsAre(run: seq<Response>, b: Backend)
    ensures var (ps, flags) := (PositionsOf(run, b), FlagsOf(run, b));
      && (forall k :: 0 <= k < |ps| ==>
          ps[k] < |run| && run[ps[k]].backend == b && (flags[k] <==> 500 <= run[ps[k]].status <= 599))
      && (forall k, l :: 0 <= k < l < |ps| ==> ps[k] < ps[l])
      && (forall j :: 0 <= j < |run| && run[j].backend == b ==> j in ps)
  {
    hide PositionsOf, FlagsOf, IsError;
    var ps, flags := PositionsOf(run, b), FlagsOf(run, b);
    forall k | 0 <= k < |ps|
      ensures ps[k] < |run| && run[ps[k]].backend == b && (flags[k] <==> 500 <= run[ps[k]].status <= 599)
    {
      PositionAt(run, b, k);
    }
    forall k, l | 0 <= k < l < |ps| ensures ps[k] < ps[l] { PositionsRise(run, b, k, l); }
    forall j | 0 <= j < |run| && run[j].backend == b ensures j in ps { PositionsCover(run, b, j); }
  }

  /** The k-th response is followed by all the later ones. */
  lemma {:induction false} FollowersOf(run: seq<Response>, b: Backend, k: nat)
    requires k < |PositionsOf(run, b)|
    ensures var ps := PositionsOf(run, b); |LaterThan(run, b, ps[k])| == |ps| - 1 - k
  {
    hide PositionsOf, FlagsOf, IsError;
    var ps := PositionsOf(run, b);
    var rest := ps[k + 1..];
    forall l: nat | l in LaterThan(run, b, ps[k]) ensures l in NumberTheory.Values(rest) {
      PositionsCover(run, b, l);
      var m :| 0 <= m < |ps| && ps[m] == l;
      if m < k { PositionsRise(run, b, m, k); }
      assert rest[m - k - 1] == l;
    }
    forall l: nat | l in NumberTheory.Values(rest) ensures l in LaterThan(run, b, ps[k]) {
      var m :| 0 <= m < |rest| && rest[m] == l;
      assert rest[m] == ps[k + 1 + m];
      PositionAt(run, b, k + 1 + m);
      PositionsRise(run, b, k, k + 1 + m);
    }
    assert LaterThan(run, b, ps[k]) == NumberTheory.Values(rest);
    forall x, y | 0 <= x < y < |rest| ensures rest[x] != rest[y] {
      assert rest[x] == ps[k + 1 + x] && rest[y] == ps[k + 1 + y];
      PositionsRise(run, b, k + 1 + x, k + 1 + y);
    }
    NumberTheory.InjectiveSize(rest);
  }

  lemma {:induction false} RecentAreTheLast(run: seq<Response>, b: Backend)
    ensures RecentOf(run, b) == NumberTheory.Values(LastPositions(run, b))
  {
    hide PositionsOf, FlagsOf, RecentOf;
    var ps, last := PositionsOf(run, b), LastPositions(run, b);
    forall j: nat | j in RecentOf(run, b) ensures j in NumberTheory.Values(last) {
      var k := RecentHasIndex(run, b, j);
      assert last[k - (|ps| - |last|)] == j;
    }
    forall j: nat | j in NumberTheory.Values(last) ensures j in RecentOf(run, b) {
      var k :| 0 <= k < |last| && last[k] == j;
      assert last[k] == ps[k + (|ps| - |last|)];
      LateIsRecent(run, b, k + (|ps| - |last|));
    }
  }

  lemma {:induction false} RecentHasIndex(run: seq<Response>, b: Backend, j: nat) returns (k: nat)
    requires j in RecentOf(run, b)
    ensures var ps := PositionsOf(run, b); k < |ps| <= k + 100 && ps[k] == j
  {
    hide PositionsOf, FlagsOf, LaterThan;
    PositionsCover(run, b, j);
    k :| 0 <= k < |PositionsOf(run, b)| && PositionsOf(run, b)[k] == j;
    FollowersOf(run, b, k);
  }

  lemma {:induction false} LateIsRecent(run: seq<Response>, b: Backend, k: nat)
    requires k < |PositionsOf(run, b)| <= k + 100
    ensures PositionsOf(run, b)[k] in RecentOf(run, b)
  {
    hide PositionsOf, FlagsOf, IsError;
    PositionAt(run, b, k);
    FollowersOf(run, b, k);
    assert PositionsOf(run, b)[k] in ResponsesOf(run, b);
  }

  ghost function LastPositions(run: seq<Response>, b: Backend): (last: seq<nat>) {
    var ps := PositionsOf(run, b);
    if |ps| <= 100 then ps else ps[|ps| - 100..]
  }

  lemma {:induction false} LastAreDistinct(run: seq<Response>, b: Backend)
    ensures NumberTheory.Injective(LastPositions(run, b))
  {
    hide PositionsOf, FlagsOf;
    var ps, last := PositionsOf(run, b), LastPositions(run, b);
    var skipped := |ps| - |last|;
    forall x, y | 0 <= x < y < |last| ensures last[x] != last[y] {
      assert last[x] == ps[skipped + x] && last[y] == ps[skipped + y];
      PositionsRise(run, b, skipped + x, skipped + y);
    }
  }

  ghost function TrueAt(window: seq<bool>): set<nat> {
    set k: nat | k < |window| && window[k]
  }

  lemma {:induction false} ErrorsCount(window: seq<bool>)
    ensures Errors(window) == |TrueAt(window)|
  {
    if window != [] {
      var front := window[..|window| - 1];
      ErrorsCount(front);
      assert TrueAt(window) == TrueAt(front) + if window[|front|] then {|front|} else {};
    }
  }

  /** The flags set in the recent window are the recent failures. */
  lemma {:induction false} FailuresCount(run: seq<Response>, b: Backend)
    ensures |FailedOf(run, b)| == Errors(Last(FlagsOf(run, b), WINDOW_SIZE))
    ensures |RecentOf(run, b)| == |Last(FlagsOf(run, b), WINDOW_SIZE)|
  {
    var last, window, failed := LastPositions(run, b), Last(FlagsOf(run, b), WINDOW_SIZE), FailedOf(run, b);
    RecentAreTheLast(run, b);
    LastAreDistinct(run, b);
    NumberTheory.InjectiveSize(last);
    ErrorsCount(window);
    FlagsAreFailures(run, b);
    hide FailedOf, RecentOf, LastPositions;
    var at := (k: nat) => if k < |last| then last[k] else 0;
    NumberTheory.InjectionSize(TrueAt(window), failed, at);
    var back := (j: nat) => IndexIn(last, j);
    forall j | j in failed ensures back(j) in TrueAt(window) && at(back(j)) == j {
      assert j in NumberTheory.Values(last);
    }
    NumberTheory.InjectionSize(failed, TrueAt(window), back);
  }

  lemma {:induction false} FlagsAreFailures(run: seq<Response>, b: Backend)
    ensures var (last, window) := (LastPositions(run, b), Last(FlagsOf(run, b), WINDOW_SIZE));
      && |last| == |window|
      && (forall k :: 0 <= k < |last| ==> (window[k] <==> last[k] in FailedOf(run, b)))
      && (forall j | j in FailedOf(run, b) :: j in NumberTheory.Values(last))
  {
    PositionsAre(run, b);
    RecentAreTheLast(run, b);
    hide RecentOf, FlagsOf, PositionsOf;
    var last, window := LastPositions(run, b), Last(FlagsOf(run, b), WINDOW_SIZE);
    var ps, flags := PositionsOf(run, b), FlagsOf(run, b);
    forall k | 0 <= k < |last| ensures window[k] <==> last[k] in FailedOf(run, b) {
      assert last[k] in NumberTheory.Values(last);
      assert last[k] == ps[k + (|ps| - |last|)] && window[k] == flags[k + (|ps| - |last|)];
    }
  }

  function IndexIn(s: seq<nat>, x: nat): (k: nat)
    ensures x in s ==> k < |s| && s[k] == x
  {
    if s == [] then 0 else if s[0] == x then 0 else 1 + IndexIn(s[1..], x)
  }

  /** A backend is healthy exactly if at most half of its last 100 responses had a status from 500 to 599. */
  lemma {:induction false} HealthOnStatuses(run: seq<Response>, b: Backend)
    ensures PassivelyHealthy(Windows(run), b) <==> 2 * |FailedOf(run, b)| <= |RecentOf(run, b)|
  {
    FailuresCount(run, b);
    UnhealthyIffMostRecentFailed(run, b);
  }
}
