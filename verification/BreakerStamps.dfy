/**
 * The interleavings again, with the second atomic word: the time of the latest failure.
 *
 * A failing report stores the time before its CAS loop, a success that closes the breaker stores
 * zero after its swap, and a request that loaded an Open word reads the time before its swap.
 */
module BreakerStamps {
  import opened Words
  import opened CircuitBreaker
  import Runs = BreakerRuns

  /**
   * `checked` holds what asking requests read, `stored` the failing reports that have stored
   * their time, and `owing` the requests that closed the breaker and have not yet stored zero.
   */
  datatype Stamped = Stamped(sys: Runs.System, stamp: nat, nowNs: nat,
    checked: map<nat, bool>, stored: set<nat>, owing: set<nat>)

  datatype Config = Config(threshold: u32, timeoutNs: nat)

  datatype Step =
    | Tick(ns: nat)
    | Arrive
    | Answer(i: nat, ok: bool)
    | Abandon(i: nat)
    | Store(i: nat)
    | Load(i: nat)
    | Check(i: nat)
    | Resolve(i: nat, spurious: bool)
    | Clear(i: nat)

  const Initial := Stamped(Runs.Initial, 0, 0, map[], {}, {})

  predicate IsStoring(s: Stamped, i: nat) {
    i < |s.sys.requests| && var r := s.sys.requests[i]; r.Reporting? && !r.ok && r.pc.Ready? && i !in s.stored
  }

  predicate IsChecking(s: Stamped, i: nat) {
    i < |s.sys.requests| && var r := s.sys.requests[i];
    r.Asking? && r.pc.Loaded? && StateField(r.pc.current) == STATE_OPEN && i !in s.checked
  }

  function Do(s: Stamped, step: Runs.Step, c: Config): Stamped {
    s.(sys := Runs.Apply(s.sys, step, c.threshold))
  }

  function Apply(s: Stamped, step: Step, c: Config): Stamped {
    match step
    case Tick(ns) => s.(nowNs := s.nowNs + ns)
    case Arrive => Do(s, Runs.Arrive, c)
    case Answer(i, ok) => Do(s, Runs.Answer(i, ok), c)
    case Abandon(i) => Do(s, Runs.Abandon(i), c)
    case Store(i) => if IsStoring(s, i) then s.(stamp := s.nowNs / 1000 + 1, stored := s.stored + {i}) else s
    case Load(i) => if IsStoring(s, i) then s else Do(s, Runs.Load(i), c)
    case Check(i) =>
      if IsChecking(s, i) then s.(checked := s.checked[i := ShouldReset(s.stamp, s.nowNs, c.timeoutNs)]) else s
    case Resolve(i, spurious) => if IsChecking(s, i) then s else Swap(s, i, spurious, c)
    case Clear(i) => if i in s.owing then s.(stamp := 0, owing := s.owing - {i}) else s
  }

  /** The rest of a pass; a success that closes the breaker then owes the clearing store. */
  function Swap(s: Stamped, i: nat, spurious: bool, c: Config): Stamped {
    var s' := Do(s, Runs.Resolve(i, Reset(s, i), spurious), c);
    s'.(checked := s.checked - {i},
        owing := if s.sys.breaker.HalfOpen? && s'.sys.breaker.Closed? then s.owing + {i} else s.owing)
  }

  function Reset(s: Stamped, i: nat): bool {
    i in s.checked && s.checked[i]
  }

  function Exec(s: Stamped, steps: seq<Step>, c: Config): Stamped
    decreases |steps|
  {
    if steps == [] then s else Exec(Apply(s, steps[0], c), steps[1..], c)
  }

  lemma {:induction false} ExecAppend(s: Stamped, first: seq<Step>, second: seq<Step>, c: Config)
    ensures Exec(s, first + second, c) == Exec(Exec(s, first, c), second, c)
    decreases |first|
  {
    if first == [] {
      assert first + second == second;
    } else {
      hide Apply;
      assert (first + second)[1..] == first[1..] + second;
      ExecAppend(Apply(s, first[0], c), first[1..], second, c);
    }
  }

  lemma {:induction false} ExecOne(s: Stamped, step: Step, c: Config)
    ensures Exec(s, [step], c) == Apply(s, step, c)
  {
    assert [step][1..] == [];
  }

  function Run(steps: seq<Step>, c: Config): Stamped {
    Exec(Initial, steps, c)
  }

  // ----- The word behaves as in the interleavings without the timestamp -----

  /** The first word and the requests of a stamped run are those of a run of BreakerRuns. */
  lemma {:induction false} Refines(steps: seq<Step>, c: Config) returns (plain: seq<Runs.Step>)
    ensures Run(steps, c).sys == Runs.Run(plain, c.threshold)
  {
    if steps == [] {
      plain := [];
    } else {
      var front, step := steps[..|steps| - 1], steps[|steps| - 1];
      assert steps == front + [step];
      ExecAppend(Initial, front, [step], c);
      ExecOne(Run(front, c), step, c);
      plain := Refines(front, c);
      hide Exec, Runs.Apply, Runs.Run;
      var s, s' := Run(front, c), Run(steps, c);
      if s'.sys != s.sys {
        var last := match step
          case Arrive => Runs.Arrive
          case Answer(i, ok) => Runs.Answer(i, ok)
          case Abandon(i) => Runs.Abandon(i)
          case Load(i) => Runs.Load(i)
          case Resolve(i, spurious) => Runs.Resolve(i, Reset(s, i), spurious)
          case _ => Runs.Arrive;
        Runs.RunStep(plain, last, c.threshold);
        plain := plain + [last];
      }
    }
  }

  ghost predicate IsCoded(s: Stamped) {
    IsBreaker(s.sys.breaker) && s.sys.word == Encode(s.sys.breaker)
  }

  lemma {:induction false} AlwaysCoded(steps: seq<Step>, c: Config)
    ensures IsCoded(Run(steps, c))
  {
    hide Run, Encode;
    var plain := Refines(steps, c);
    Runs.WordInvAlways(plain, c.threshold);
  }

  // ----- An open breaker without a timestamp -----

  /** Request `i` can neither change an Open word nor store a time. */
  predicate IsQuiet(s: Stamped, i: nat)
    requires i < |s.sys.requests|
  {
    match s.sys.requests[i]
    case Asking(pc) =>
      pc.Ready? || (StateField(pc.current) != STATE_CLOSED && !(pc.current == s.sys.word && Reset(s, i)))
    case Admitted(_) => false
    case Reporting(_, ok, pc) => ok || pc.Loaded? || i in s.stored
    case _ => true
  }

  ghost predicate AllQuiet(s: Stamped) {
    forall i: nat | i < |s.sys.requests| :: IsQuiet(s, i)
  }

  /** Open, no failure time on record, and nobody who could change that. */
  ghost predicate IsStuck(s: Stamped) {
    s.sys.breaker.Open? && IsCoded(s) && s.stamp == 0 && AllQuiet(s)
  }

  /** Failing reports, and only reports, store their time, and do so before they load the word. */
  ghost predicate StoresFirst(s: Stamped) {
    && (forall i: nat | i < |s.sys.requests| ::
        var r := s.sys.requests[i]; r.Reporting? && !r.ok && r.pc.Loaded? ==> i in s.stored)
    && (forall i: nat | i in s.stored ::
        i < |s.sys.requests| && (s.sys.requests[i].Reporting? || s.sys.requests[i].Reported?))
  }

  /** What is remembered is remembered about requests that exist; a fresh load has read nothing yet. */
  ghost predicate ChecksAreFresh(s: Stamped) {
    forall i: nat | i in s.checked ::
      i < |s.sys.requests| && s.sys.requests[i].Asking? && s.sys.requests[i].pc.Loaded?
  }

  lemma {:induction false} OrderStep(s: Stamped, step: Step, c: Config)
    requires StoresFirst(s) && ChecksAreFresh(s)
    ensures StoresFirst(Apply(s, step, c)) && ChecksAreFresh(Apply(s, step, c))
  {
    hide Decide, StateField, Encode, ShouldReset;
  }

  lemma {:induction false} OrderAlways(steps: seq<Step>, c: Config)
    ensures StoresFirst(Run(steps, c)) && ChecksAreFresh(Run(steps, c))
  {
    if steps != [] {
      hide Exec, Apply, StoresFirst, ChecksAreFresh;
      var front, step := steps[..|steps| - 1], steps[|steps| - 1];
      assert steps == front + [step];
      ExecAppend(Initial, front, [step], c);
      ExecOne(Run(front, c), step, c);
      OrderAlways(front, c);
      OrderStep(Run(front, c), step, c);
    }
  }

  lemma {:induction false} StuckStep(s: Stamped, step: Step, c: Config)
    requires IsStuck(s) && StoresFirst(s) && ChecksAreFresh(s)
    ensures IsStuck(Apply(s, step, c)) && Apply(s, step, c).sys.word == s.sys.word
  {
    hide Encode, Decide, StateField, ShouldReset;
    EncodeFields(s.sys.breaker);
    NoStamp(s.nowNs, c.timeoutNs);
    var s' := Apply(s, step, c);
    if step.Resolve? && !IsChecking(s, step.i) && step.i < |s.sys.requests| {
      QuietSwap(s, step.i, step.spurious, c);
    }
    if step.Store? && step.i < |s.sys.requests| { assert IsQuiet(s, step.i); }
    forall i: nat | i < |s'.sys.requests| ensures IsQuiet(s', i) {
      assert i < |s.sys.requests| ==> IsQuiet(s, i);
    }
  }

  lemma {:induction false} NoStamp(nowNs: nat, timeoutNs: nat)
    ensures !ShouldReset(0, nowNs, timeoutNs)
  {
  }

  /** A quiet request that finishes its pass stays quiet and leaves the word alone. */
  lemma {:induction false} QuietSwap(s: Stamped, i: nat, spurious: bool, c: Config)
    requires i < |s.sys.requests| && IsQuiet(s, i) && !IsChecking(s, i) && StoresFirst(s)
    requires StateField(s.sys.word) == STATE_OPEN
    ensures var s' := Swap(s, i, spurious, c);
      && s'.sys == s.sys.(requests := s'.sys.requests) && |s'.sys.requests| == |s.sys.requests|
      && s'.sys.requests == s.sys.requests[i := s'.sys.requests[i]] && IsQuiet(s', i)
  {
    hide Pack, StateField, Failures, Successes, HalfOpenRequests;
  }

  /** Then every later request is refused, at any time and in any interleaving. */
  lemma {:induction false} StuckIsForever(steps: seq<Step>, more: seq<Step>, c: Config)
    requires IsStuck(Run(steps, c))
    ensures IsStuck(Run(steps + more, c)) && Run(steps + more, c).sys.word == Run(steps, c).sys.word
  {
    hide IsStuck, Apply, Exec;
    if more == [] {
      assert steps + more == steps;
    } else {
      var front, last := more[..|more| - 1], more[|more| - 1];
      StuckIsForever(steps, front, c);
      assert steps + more == (steps + front) + [last];
      ExecAppend(Initial, steps + front, [last], c);
      ExecOne(Run(steps + front, c), last, c);
      OrderAlways(steps + front, c);
      StuckStep(Run(steps + front, c), last, c);
    }
  }

  // ----- Whole calls -----

  function Ask(n: nat): seq<Step> {
    [Arrive, Load(n), Check(n), Resolve(n, false)]
  }

  function Tell(i: nat, ok: bool): seq<Step> {
    [Answer(i, ok), Store(i), Load(i), Resolve(i, false)]
  }

  lemma {:induction false} ExecFour(s: Stamped, a: Step, b: Step, d: Step, e: Step, c: Config)
    ensures Exec(s, [a, b, d, e], c) == Apply(Apply(Apply(Apply(s, a, c), b, c), d, c), e, c)
  {
    hide Apply;
    ExecAppend(s, [a], [b, d, e], c);
    ExecAppend(Apply(s, a, c), [b], [d, e], c);
    ExecAppend(Apply(Apply(s, a, c), b, c), [d], [e], c);
    assert [a] + [b, d, e] == [a, b, d, e] && [b] + [d, e] == [b, d, e] && [d] + [e] == [d, e];
    ExecOne(s, a, c);
    ExecOne(Apply(s, a, c), b, c);
    ExecOne(Apply(Apply(s, a, c), b, c), d, c);
    ExecOne(Apply(Apply(Apply(s, a, c), b, c), d, c), e, c);
  }

  /** A request that asks without interference. */
  lemma {:induction false} AskEffect(s: Stamped, c: Config)
    requires IsCoded(s) && ChecksAreFresh(s)
    ensures var (n, s') := (|s.sys.requests|, Exec(s, Ask(|s.sys.requests|), c));
      var call := Call(s.sys.breaker, Allow, ShouldReset(s.stamp, s.nowNs, c.timeoutNs), c.threshold);
      && IsCoded(s') && s'.sys.breaker == call.0
      && |s'.sys.requests| == n + 1 && (forall j :: 0 <= j < n ==> s'.sys.requests[j] == s.sys.requests[j])
      && (if call.1 then s'.sys.requests[n].Admitted? else s'.sys.requests[n].Rejected?)
      && s'.stamp == s.stamp && s'.nowNs == s.nowNs && s'.owing == s.owing && s'.stored == s.stored
      && s'.checked == s.checked
  {
    hide Encode, Pack, StateField, Failures, Successes, HalfOpenRequests, ShouldReset;
    var n := |s.sys.requests|;
    ExecFour(s, Arrive, Load(n), Check(n), Resolve(n, false), c);
    EncodeFields(s.sys.breaker);
    var reset := ShouldReset(s.stamp, s.nowNs, c.timeoutNs);
    PassRefinesCall(s.sys.breaker, Allow, reset, c.threshold);
    var s1 := Apply(s, Arrive, c);
    var s2 := Apply(s1, Load(n), c);
    assert s2.sys.requests[n] == Runs.Asking(Runs.Loaded(s.sys.word)) && n !in s2.checked;
    var s3 := Apply(s2, Check(n), c);
    assert s3.sys == s2.sys && (s.sys.breaker.Open? ==> Reset(s3, n) == reset) && !IsChecking(s3, n);
    var s4 := Apply(s3, Resolve(n, false), c);
    assert s4.checked == s.checked;
  }

  /** An admitted request that reports without interference. */
  lemma {:induction false} TellEffect(s: Stamped, i: nat, ok: bool, c: Config)
    requires IsCoded(s) && i < |s.sys.requests| && s.sys.requests[i].Admitted? && i !in s.stored && i !in s.checked
    ensures var s' := Exec(s, Tell(i, ok), c);
      var after := Call(s.sys.breaker, if ok then Success else Failure, false, c.threshold).0;
      && IsCoded(s') && s'.sys.breaker == after
      && s'.sys.requests == s.sys.requests[i := Runs.Reported(s.sys.requests[i].probe)]
      && s'.stamp == (if ok then s.stamp else s.nowNs / 1000 + 1) && s'.nowNs == s.nowNs
      && s'.owing == (if s.sys.breaker.HalfOpen? && after.Closed? then s.owing + {i} else s.owing)
      && s'.stored == (if ok then s.stored else s.stored + {i})
      && s'.checked == s.checked
  {
    hide Encode, Pack, StateField, Failures, Successes, HalfOpenRequests;
    ExecFour(s, Answer(i, ok), Store(i), Load(i), Resolve(i, false), c);
    EncodeFields(s.sys.breaker);
    PassRefinesCall(s.sys.breaker, if ok then Success else Failure, false, c.threshold);
    var s1 := Apply(s, Answer(i, ok), c);
    var s2 := Apply(s1, Store(i), c);
    assert !IsStoring(s2, i);
    var s3 := Apply(s2, Load(i), c);
    assert s3.sys.requests[i] == Runs.Reporting(s.sys.requests[i].probe, ok, Runs.Loaded(s.sys.word));
    assert !IsChecking(s3, i);
    var s4 := Apply(s3, Resolve(i, false), c);
    assert s4.checked == s.checked;
  }

  // ----- Otherwise there is a way out -----

  lemma {:induction false} Continues(steps: seq<Step>, more: seq<Step>, c: Config)
    ensures Run(steps + more, c) == Exec(Run(steps, c), more, c)
  {
    ExecAppend(Initial, steps, more, c);
  }

  /** With a failure time on record, a request that comes late enough reopens the breaker. */
  lemma {:induction false} StampWayOut(steps: seq<Step>, c: Config) returns (more: seq<Step>)
    requires Run(steps, c).sys.breaker.Open? && Run(steps, c).stamp != 0
    ensures Run(steps + more, c).sys.breaker.HalfOpen?
  {
    hide Exec, Apply;
    var s := Run(steps, c);
    var tick := Tick(s.stamp * 1000 + c.timeoutNs + 1);
    more := [tick] + Ask(|s.sys.requests|);
    assert steps + more == (steps + [tick]) + Ask(|s.sys.requests|);
    Continues(steps, [tick], c);
    ExecOne(s, tick, c);
    TickEffect(s, tick.ns, c);
    var late := Run(steps + [tick], c);
    Continues(steps + [tick], Ask(|s.sys.requests|), c);
    AlwaysCoded(steps + [tick], c);
    OrderAlways(steps + [tick], c);
    AskEffect(late, c);
  }

  lemma {:induction false} TickEffect(s: Stamped, ns: nat, c: Config)
    ensures Apply(s, Tick(ns), c) == s.(nowNs := s.nowNs + ns)
  {
  }

  /** A report that has yet to store its time puts one on record. */
  lemma {:induction false} StoreWayOut(steps: seq<Step>, i: nat, c: Config) returns (more: seq<Step>)
    requires Run(steps, c).sys.breaker.Open? && IsStoring(Run(steps, c), i)
    ensures Run(steps + more, c).sys.breaker.HalfOpen?
  {
    var first := Store(i);
    Continues(steps, [first], c);
    ExecOne(Run(steps, c), first, c);
    hide Run;
    var rest := StampWayOut(steps + [first], c);
    more := [first] + rest;
    assert steps + more == (steps + [first]) + rest;
  }

  lemma {:induction false} AdmittedWayOut(steps: seq<Step>, i: nat, c: Config) returns (more: seq<Step>)
    requires var s := Run(steps, c); s.sys.breaker.Open? && i < |s.sys.requests| && s.sys.requests[i].Admitted?
    ensures Run(steps + more, c).sys.breaker.HalfOpen?
  {
    var first := Answer(i, false);
    Continues(steps, [first], c);
    ExecOne(Run(steps, c), first, c);
    OrderAlways(steps, c);
    hide Run;
    var rest := StoreWayOut(steps + [first], i, c);
    more := [first] + rest;
    assert steps + more == (steps + [first]) + rest;
  }

  /** An asking request that finishes its pass: one that loaded Closed is admitted, one that may reset does. */
  lemma {:induction false} AskingFinishes(s: Stamped, i: nat, c: Config)
    requires IsCoded(s) && s.sys.breaker.Open? && i < |s.sys.requests| && s.sys.requests[i].Asking?
    requires s.sys.requests[i].pc.Loaded? && !IsQuiet(s, i)
    ensures var (s', w) := (Apply(s, Resolve(i, false), c), s.sys.requests[i].pc.current);
      if StateField(w) == STATE_CLOSED
      then s'.sys.breaker == s.sys.breaker && |s'.sys.requests| == |s.sys.requests| && s'.sys.requests[i].Admitted?
      else s'.sys.breaker.HalfOpen?
  {
    hide Encode, Pack, StateField, Failures, Successes, HalfOpenRequests;
    EncodeFields(s.sys.breaker);
  }

  lemma {:induction false} OpenWayOut(steps: seq<Step>, c: Config) returns (more: seq<Step>)
    requires Run(steps, c).sys.breaker.Open? && !IsStuck(Run(steps, c))
    ensures Run(steps + more, c).sys.breaker.HalfOpen?
  {
    hide Run, Encode, StateField, Apply;
    var s := Run(steps, c);
    AlwaysCoded(steps, c);
    if s.stamp != 0 {
      more := StampWayOut(steps, c);
    } else {
      var i: nat :| i < |s.sys.requests| && !IsQuiet(s, i);
      if s.sys.requests[i].Admitted? {
        more := AdmittedWayOut(steps, i, c);
      } else if s.sys.requests[i].Reporting? {
        more := StoreWayOut(steps, i, c);
      } else {
        var first := Resolve(i, false);
        Continues(steps, [first], c);
        ExecOne(s, first, c);
        AskingFinishes(s, i, c);
        if Run(steps + [first], c).sys.breaker.HalfOpen? {
          more := [first];
        } else {
          var rest := AdmittedWayOut(steps + [first], i, c);
          more := [first] + rest;
          assert steps + more == (steps + [first]) + rest;
        }
      }
    }
  }

  /**
   * The exact condition: an open breaker refuses every request for ever, whatever happens, if and
   * only if no failure time is on record and no request can still reset it or store one.
   */
  lemma {:induction false} OpenForEverIff(steps: seq<Step>, c: Config)
    requires Run(steps, c).sys.breaker.Open?
    ensures (forall more: seq<Step> :: Run(steps + more, c).sys.word == Run(steps, c).sys.word)
      <==> IsStuck(Run(steps, c))
  {
    hide Run, IsStuck, Encode;
    if IsStuck(Run(steps, c)) {
      forall more: seq<Step> ensures Run(steps + more, c).sys.word == Run(steps, c).sys.word {
        StuckIsForever(steps, more, c);
      }
    } else {
      var more := OpenWayOut(steps, c);
      AlwaysCoded(steps, c);
      AlwaysCoded(steps + more, c);
      Runs.WordTells(Run(steps, c).sys.breaker, Run(steps + more, c).sys.breaker);
      assert Run(steps + more, c).sys.word != Run(steps, c).sys.word;
    }
  }

  // ----- How the time gets lost -----

  ghost predicate HasPendingFailure(s: Stamped) {
    exists i: nat | i < |s.sys.requests| :: i in s.stored && s.sys.requests[i].Reporting?
  }

  /** A clearing store that comes while the breaker is closed and no failure is between its store and its swap. */
  ghost predicate IsTimely(s: Stamped, step: Step) {
    step.Clear? && step.i in s.owing ==> s.sys.breaker.Closed? && !HasPendingFailure(s)
  }

  ghost predicate IsTimelyRun(steps: seq<Step>, c: Config) {
    forall k :: 0 <= k < |steps| ==> IsTimely(Run(steps[..k], c), steps[k])
  }

  ghost predicate IsOnRecord(s: Stamped) {
    (!s.sys.breaker.Closed? || HasPendingFailure(s)) ==> s.stamp != 0
  }

  lemma {:induction false} RecordStep(s: Stamped, step: Step, c: Config)
    requires IsOnRecord(s) && IsCoded(s) && StoresFirst(s) && IsTimely(s, step)
    ensures IsOnRecord(Apply(s, step, c))
  {
    hide Encode, Pack, StateField, Failures, Successes, HalfOpenRequests, ShouldReset, Decide;
    var s' := Apply(s, step, c);
    if HasPendingFailure(s') && !step.Store? {
      var i: nat :| i < |s'.sys.requests| && i in s'.stored && s'.sys.requests[i].Reporting?;
      assert i < |s.sys.requests| && i in s.stored && s.sys.requests[i].Reporting?;
    }
    if step.Resolve? && s.sys.breaker.Closed? && !s'.sys.breaker.Closed? {
      TripperStored(s, step.i, step.spurious, c);
    }
  }

  /** The report that opens a closed breaker has stored its time. */
  lemma {:induction false} TripperStored(s: Stamped, i: nat, spurious: bool, c: Config)
    requires IsCoded(s) && StoresFirst(s) && s.sys.breaker.Closed?
    requires !Apply(s, Resolve(i, spurious), c).sys.breaker.Closed?
    ensures HasPendingFailure(s)
  {
    hide Encode, Pack, StateField, Failures, Successes, HalfOpenRequests, Decide;
    assert i < |s.sys.requests| && s.sys.requests[i].Reporting? && !s.sys.requests[i].ok && i in s.stored;
  }

  /** Outside Closed the time is on record, in every interleaving whose clearing stores are timely. */
  lemma {:induction false} TimelyClearsKeepTheRecord(steps: seq<Step>, c: Config)
    requires IsTimelyRun(steps, c)
    ensures IsOnRecord(Run(steps, c))
  {
    if steps != [] {
      hide Exec, Apply, IsOnRecord, IsTimely, StoresFirst, IsCoded;
      var front, step := steps[..|steps| - 1], steps[|steps| - 1];
      assert steps == front + [step];
      forall k | 0 <= k < |front| ensures IsTimely(Run(front[..k], c), front[k]) {
        assert front[..k] == steps[..k];
      }
      TimelyClearsKeepTheRecord(front, c);
      ExecAppend(Initial, front, [step], c);
      ExecOne(Run(front, c), step, c);
      OrderAlways(front, c);
      AlwaysCoded(front, c);
      RecordStep(Run(front, c), step, c);
    }
  }

  // ----- A run that loses it -----

  /** One failure opens a breaker of threshold 1; after the timeout three requests are let in. */
  function Opening(c: Config): seq<Step> {
    Ask(0) + Tell(0, false) + [Tick(c.timeoutNs + 1)] + Ask(1) + Ask(2) + Ask(3)
  }

  /** They succeed, and the last one closes it; a fifth request fails; only then is the time cleared. */
  function Losing(): seq<Step> {
    Tell(1, true) + Tell(2, true) + Tell(3, true) + Ask(4) + Tell(4, false) + [Clear(3)]
  }

  lemma {:induction false} OpeningEffect(c: Config)
    requires c.threshold == 1
    ensures var s := Run(Opening(c), c);
      && IsCoded(s) && s.sys.breaker == HalfOpen(0, 3) && s.checked == map[] && s.owing == {} && s.stored == {0}
      && |s.sys.requests| == 4 && s.sys.requests[0].Reported?
      && s.sys.requests[1].Admitted? && s.sys.requests[2].Admitted? && s.sys.requests[3].Admitted?
  {
    hide Exec, Apply, Encode;
    var s1 := Exec(Initial, Ask(0), c);
    AskEffect(Initial, c);
    var s2 := Exec(s1, Tell(0, false), c);
    TellEffect(s1, 0, false, c);
    var tick := Tick(c.timeoutNs + 1);
    var s3 := Exec(s2, [tick], c);
    ExecOne(s2, tick, c);
    TickEffect(s2, tick.ns, c);
    var s4 := Exec(s3, Ask(1), c);
    AskEffect(s3, c);
    var s5 := Exec(s4, Ask(2), c);
    AskEffect(s4, c);
    AskEffect(s5, c);
    ExecAppend(Initial, Ask(0), Tell(0, false), c);
    ExecAppend(Initial, Ask(0) + Tell(0, false), [tick], c);
    ExecAppend(Initial, Ask(0) + Tell(0, false) + [tick], Ask(1), c);
    ExecAppend(Initial, Ask(0) + Tell(0, false) + [tick] + Ask(1), Ask(2), c);
    ExecAppend(Initial, Ask(0) + Tell(0, false) + [tick] + Ask(1) + Ask(2), Ask(3), c);
  }

  lemma {:induction false} LosingEffect(s: Stamped, c: Config)
    requires c.threshold == 1
    requires IsCoded(s) && s.sys.breaker == HalfOpen(0, 3) && s.checked == map[] && s.owing == {} && s.stored == {0}
    requires |s.sys.requests| == 4 && s.sys.requests[0].Reported?
    requires s.sys.requests[1].Admitted? && s.sys.requests[2].Admitted? && s.sys.requests[3].Admitted?
    ensures IsStuck(Exec(s, Losing(), c))
  {
    hide Exec, Apply, Encode;
    var s1 := Exec(s, Tell(1, true), c);
    TellEffect(s, 1, true, c);
    var s2 := Exec(s1, Tell(2, true), c);
    TellEffect(s1, 2, true, c);
    var s3 := Exec(s2, Tell(3, true), c);
    TellEffect(s2, 3, true, c);
    var s4 := Exec(s3, Ask(4), c);
    AskEffect(s3, c);
    var s5 := Exec(s4, Tell(4, false), c);
    TellEffect(s4, 4, false, c);
    ExecOne(s5, Clear(3), c);
    ClearEffect(s5, 3, c);
    ExecAppend(s, Tell(1, true), Tell(2, true), c);
    ExecAppend(s, Tell(1, true) + Tell(2, true), Tell(3, true), c);
    ExecAppend(s, Tell(1, true) + Tell(2, true) + Tell(3, true), Ask(4), c);
    ExecAppend(s, Tell(1, true) + Tell(2, true) + Tell(3, true) + Ask(4), Tell(4, false), c);
    ExecAppend(s, Tell(1, true) + Tell(2, true) + Tell(3, true) + Ask(4) + Tell(4, false), [Clear(3)], c);
  }

  lemma {:induction false} ClearEffect(s: Stamped, i: nat, c: Config)
    requires i in s.owing
    ensures Apply(s, Clear(i), c) == s.(stamp := 0, owing := s.owing - {i})
  {
  }

  /** For every timeout: the breaker is open with no time on record, and refuses every request for ever. */
  lemma {:induction false} LateClearOpensForEver(more: seq<Step>, c: Config)
    requires c.threshold == 1
    ensures IsStuck(Run(Opening(c) + Losing() + more, c))
  {
    hide IsStuck, Exec, IsCoded, Opening, Losing;
    OpeningEffect(c);
    LosingEffect(Run(Opening(c), c), c);
    Continues(Opening(c), Losing(), c);
    StuckIsForever(Opening(c) + Losing(), more, c);
  }
}
