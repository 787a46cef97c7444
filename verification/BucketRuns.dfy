/**
 * Every interleaving of CAS loops over one token bucket.  Each call samples the clock
 * once, before its first pass.
 */
module BucketRuns {
  import opened Words
  import opened TokenBucket
  import NumberTheory

  datatype Call =
    | Sampled(need: nat, nowMs: nat)
    | Loaded(need: nat, nowMs: nat, current: u64)
    | Done(need: nat, granted: bool)

  /** `log` records the writes that landed, in order. */
  datatype System = System(word: u64, clockMs: nat, calls: seq<Call>, log: seq<Acquire>)

  datatype Step =
    | Tick(ms: nat)
    | Start(need: nat)
    | Load(i: nat)
    | Resolve(i: nat, spurious: bool)

  function Initial(c: Config): System {
    System(Pack(c.capacity, 0), 0, [], [])
  }

  function Apply(c: Config, s: System, step: Step): System {
    match step
    case Tick(ms) => s.(clockMs := s.clockMs + ms)
    case Start(need) => s.(calls := s.calls + [Sampled(need, s.clockMs)])
    case Load(i) =>
      if i < |s.calls| && s.calls[i].Sampled?
      then s.(calls := s.calls[i := Loaded(s.calls[i].need, s.calls[i].nowMs, s.word)])
      else s
    case Resolve(i, spurious) =>
      if i < |s.calls| && s.calls[i].Loaded? then Pass(c, s, i, spurious) else s
  }

  /** A lost swap sends a granting pass back to its load, with the old time; a refusal returns anyway. */
  function Pass(c: Config, s: System, i: nat, spurious: bool): System
    requires i < |s.calls| && s.calls[i].Loaded?
  {
    var Loaded(need, nowMs, current) := s.calls[i];
    var (word, granted) := Attempt(c, current, need, nowMs);
    if s.word == current && !spurious then
      s.(word := word, calls := s.calls[i := Done(need, granted)], log := s.log + [Acquire(need, nowMs, true)])
    else if granted then s.(calls := s.calls[i := Sampled(need, nowMs)])
    else s.(calls := s.calls[i := Done(need, false)])
  }

  function RunOf(c: Config, steps: seq<Step>): System {
    if steps == [] then Initial(c) else Apply(c, RunOf(c, steps[..|steps| - 1]), steps[|steps| - 1])
  }

  /** Every interleaving is a run of whole calls: those whose write landed, in that order. */
  lemma {:induction false} InterleavingIsSerial(c: Config, steps: seq<Step>)
    requires IsConfig(c)
    ensures var s := RunOf(c, steps);
      s.word == Pack(Run(c, s.log).tokens, Run(c, s.log).lastMs)
  {
    hide Pack, Attempt, After;
    if steps != [] {
      var front, step := steps[..|steps| - 1], steps[|steps| - 1];
      var s, s' := RunOf(c, front), RunOf(c, steps);
      InterleavingIsSerial(c, front);
      if s'.log != s.log {
        TokensNeverExceedCapacity(c, s.log);
        assert s'.log[..|s.log|] == s.log;
        AttemptRefinesAfter(c, Run(c, s.log), s'.log[|s.log|]);
      }
    }
  }

  function TimesOf(log: seq<Acquire>): (ts: seq<nat>)
    ensures |ts| == |log|
  {
    seq(|log|, i requires 0 <= i < |log| => log[i].nowMs)
  }

  lemma {:induction false} LogLands(c: Config, steps: seq<Step>)
    ensures AllLand(RunOf(c, steps).log)
  {
    hide Attempt;
    if steps != [] { LogLands(c, steps[..|steps| - 1]); }
  }

  /** In every interleaving, whatever the order of the sampled times, grants are within capacity plus credit. */
  lemma {:induction false} InterleavedCreditBound(c: Config, steps: seq<Step>, from: nat, to: nat)
    requires from < to <= |RunOf(c, steps).log|
    ensures var window := RunOf(c, steps).log[..to];
      Granted(c, window, from) <= c.capacity + Credit(c, TimesOf(window), from)
  {
    hide RunOf, Credit, Granted;
    LogLands(c, steps);
    var window := RunOf(c, steps).log[..to];
    CreditBound(c, window, TimesOf(window), from);
  }

  // ----- Every order of times happens -----

  /** A call's load and a swap that works. */
  lemma {:induction false} LandsEffect(c: Config, steps: seq<Step>, i: nat)
    requires i < |RunOf(c, steps).calls| && RunOf(c, steps).calls[i].Sampled?
    ensures var s := RunOf(c, steps);
      var (call, word) := (s.calls[i], Attempt(c, s.word, s.calls[i].need, s.calls[i].nowMs));
      RunOf(c, steps + [Load(i), Resolve(i, false)]) ==
      System(word.0, s.clockMs, s.calls[i := Done(call.need, word.1)], s.log + [Acquire(call.need, call.nowMs, true)])
  {
    hide Attempt;
    StepOf(c, steps, Load(i));
    StepOf(c, steps + [Load(i)], Resolve(i, false));
    assert steps + [Load(i), Resolve(i, false)] == (steps + [Load(i)]) + [Resolve(i, false)];
  }

  /** At each millisecond up to `ms` sample one call for each entry of the log to come. */
  function Samples(log: seq<Acquire>, k: nat): seq<Step>
    requires k <= |log|
  {
    if k == 0 then [] else Samples(log, k - 1) + [Start(log[k - 1].need)]
  }

  function Sampling(log: seq<Acquire>, ms: nat): seq<Step> {
    if ms == 0 then [] else Sampling(log, ms - 1) + Samples(log, |log|) + [Tick(1)]
  }

  lemma {:induction false} SamplesEffect(c: Config, steps: seq<Step>, log: seq<Acquire>, k: nat)
    requires k <= |log|
    ensures var (s, s') := (RunOf(c, steps), RunOf(c, steps + Samples(log, k)));
      && s'.word == s.word && s'.clockMs == s.clockMs && s'.log == s.log
      && |s'.calls| == |s.calls| + k && s'.calls[..|s.calls|] == s.calls
      && forall i :: 0 <= i < k ==> s'.calls[|s.calls| + i] == Sampled(log[i].need, s.clockMs)
  {
    hide RunOf, Attempt;
    if k == 0 {
      assert steps + Samples(log, 0) == steps;
    } else {
      SamplesEffect(c, steps, log, k - 1);
      assert steps + Samples(log, k) == (steps + Samples(log, k - 1)) + [Start(log[k - 1].need)];
      StepOf(c, steps + Samples(log, k - 1), Start(log[k - 1].need));
    }
  }

  /** Call t * n + i is entry i sampled at time t, for every time before `ms`. */
  ghost predicate AllSampled(calls: seq<Call>, log: seq<Acquire>, ms: nat) {
    && |calls| == ms * |log|
    && forall t: nat, i: nat | t < ms && i < |log| ::
        IndexOf(log, t, i) < |calls| && calls[IndexOf(log, t, i)] == Sampled(log[i].need, t)
  }

  function IndexOf(log: seq<Acquire>, t: nat, i: nat): nat {
    t * |log| + i
  }

  lemma {:induction false} IndexFits(log: seq<Acquire>, t: nat, i: nat, ms: nat)
    requires t < ms && i < |log|
    ensures IndexOf(log, t, i) < ms * |log|
  {
    var n, d := |log|, ms - t - 1;
    assert ms * n == t * n + n + d * n;
    assert d * n >= 0;
  }

  lemma {:induction false} SamplingEffect(c: Config, log: seq<Acquire>, ms: nat)
    ensures var s := RunOf(c, Sampling(log, ms));
      s.word == Pack(c.capacity, 0) && s.clockMs == ms && s.log == [] && AllSampled(s.calls, log, ms)
  {
    hide Pack;
    if ms != 0 {
      var before, n := Sampling(log, ms - 1), |log|;
      var all := before + Samples(log, n);
      assert Sampling(log, ms) == all + [Tick(1)];
      hide RunOf, Samples, AllSampled;
      SamplingEffect(c, log, ms - 1);
      SamplesEffect(c, before, log, n);
      StepOf(c, all, Tick(1));
      SampledGrow(RunOf(c, before).calls, RunOf(c, all).calls, log, ms);
    }
  }

  lemma {:induction false} SampledGrow(calls: seq<Call>, grown: seq<Call>, log: seq<Acquire>, ms: nat)
    requires 0 < ms && AllSampled(calls, log, ms - 1)
    requires |grown| == |calls| + |log| && grown[..|calls|] == calls
    requires forall i :: 0 <= i < |log| ==> grown[|calls| + i] == Sampled(log[i].need, ms - 1)
    ensures AllSampled(grown, log, ms)
  {
    var n := |log|;
    assert ms * n == (ms - 1) * n + n;
    forall t: nat, i: nat | t < ms && i < n
      ensures IndexOf(log, t, i) < |grown| && grown[IndexOf(log, t, i)] == Sampled(log[i].need, t)
    {
      IndexFits(log, t, i, ms);
      if t < ms - 1 {
        IndexFits(log, t, i, ms - 1);
        assert grown[IndexOf(log, t, i)] == grown[..|calls|][IndexOf(log, t, i)];
      }
    }
  }

  /** Then land one call for each entry, in the order of the log. */
  function Landing(log: seq<Acquire>, k: nat): seq<Step>
    requires k <= |log|
  {
    if k == 0 then [] else
    var i := IndexOf(log, log[k - 1].nowMs, k - 1);
    Landing(log, k - 1) + [Load(i), Resolve(i, false)]
  }

  lemma {:induction false} LandingEffect(c: Config, log: seq<Acquire>, ms: nat, k: nat)
    requires k <= |log| && AllLand(log) && forall i :: 0 <= i < |log| ==> log[i].nowMs < ms
    ensures var s := RunOf(c, Sampling(log, ms) + Landing(log, k));
      && s.log == log[..k] && |s.calls| == ms * |log|
      && forall t: nat, i: nat | t < ms && k <= i < |log| ::
          IndexOf(log, t, i) < |s.calls| && s.calls[IndexOf(log, t, i)] == Sampled(log[i].need, t)
  {
    hide Attempt, Pack, RunOf;
    var start := Sampling(log, ms);
    if k == 0 {
      SamplingEffect(c, log, ms);
      assert start + Landing(log, 0) == start;
    } else {
      LandingEffect(c, log, ms, k - 1);
      var steps, e := start + Landing(log, k - 1), log[k - 1];
      var s, j := RunOf(c, steps), IndexOf(log, e.nowMs, k - 1);
      LandsEffect(c, steps, j);
      assert start + Landing(log, k) == steps + [Load(j), Resolve(j, false)];
      var s' := RunOf(c, start + Landing(log, k));
      assert log[..k] == log[..k - 1] + [e] && e == Acquire(e.need, e.nowMs, true);
      forall t: nat, i: nat | t < ms && k <= i < |log|
        ensures IndexOf(log, t, i) < |s'.calls| && s'.calls[IndexOf(log, t, i)] == Sampled(log[i].need, t)
      {
        IndexApart(log, t, i, e.nowMs, k - 1);
      }
    }
  }

  lemma {:induction false} IndexApart(log: seq<Acquire>, t1: nat, i1: nat, t2: nat, i2: nat)
    requires i1 < |log| && i2 < |log| && i1 != i2
    ensures IndexOf(log, t1, i1) != IndexOf(log, t2, i2)
  {
    var n := |log|;
    assert n * (t1 - t2) == t1 * n - t2 * n;
    NumberTheory.FactorSign(n, t1 - t2);
  }

  function Latest(log: seq<Acquire>): (t: nat)
    ensures forall i :: 0 <= i < |log| ==> log[i].nowMs <= t
  {
    if log == [] then 0 else
    var (t, now) := (Latest(log[..|log| - 1]), log[|log| - 1].nowMs);
    if t < now then now else t
  }

  /** Every sequence of writes, in any order of times, is the log of some interleaving. */
  lemma {:induction false} EveryLogHappens(c: Config, log: seq<Acquire>) returns (steps: seq<Step>)
    requires AllLand(log)
    ensures RunOf(c, steps).log == log
  {
    hide RunOf;
    var ms := Latest(log) + 1;
    LandingEffect(c, log, ms, |log|);
    steps := Sampling(log, ms) + Landing(log, |log|);
    assert log[..|log|] == log;
  }

  ghost predicate RunHasTimes(c: Config, steps: seq<Step>, ts: seq<nat>) {
    HasTimes(RunOf(c, steps).log, ts)
  }

  /**
   * The exact condition: over all interleavings whose writes land at these times, grants from the
   * write `from` on stay within capacity plus rate times the length of the window exactly if the
   * credit of the times does.
   */
  lemma {:induction false} RateBoundIff(c: Config, ts: seq<nat>, from: nat)
    requires from < |ts|
    ensures var window := c.rate * Ahead(ts[from], ts[|ts| - 1]);
      (forall steps: seq<Step> | RunHasTimes(c, steps, ts) ::
        Granted(c, RunOf(c, steps).log, from) <= c.capacity + window)
      <==> Credit(c, ts, from) <= window
  {
    hide RunOf, Credit, Granted, HasTimes;
    var window := c.rate * Ahead(ts[from], ts[|ts| - 1]);
    BoundHoldsIff(c, ts, from, window);
    if Credit(c, ts, from) > window {
      var calls: seq<Acquire> :| HasTimes(calls, ts) && Granted(c, calls, from) > c.capacity + window;
      TimesLand(calls, ts);
      var steps := EveryLogHappens(c, calls);
      assert RunHasTimes(c, steps, ts);
    }
  }

  lemma {:induction false} TimesLand(calls: seq<Acquire>, ts: seq<nat>)
    requires HasTimes(calls, ts)
    ensures AllLand(calls)
  {
  }

  /** Writes that land in order of their sampled times meet the condition. */
  lemma {:induction false} InterleavedRateBound(c: Config, steps: seq<Step>, from: nat, to: nat)
    requires from < to <= |RunOf(c, steps).log| && IsMonotone(RunOf(c, steps).log)
    ensures var log := RunOf(c, steps).log;
      Granted(c, log[..to], from) <= c.capacity + c.rate * (log[to - 1].nowMs - log[from].nowMs)
  {
    hide RunOf, Credit, Granted;
    var window := RunOf(c, steps).log[..to];
    InterleavedCreditBound(c, steps, from, to);
    OrderedCredit(c, TimesOf(window), from);
  }

  /** So do writes none of which overcredits, with the time they moved forward in place of the window. */
  lemma {:induction false} InterleavedHonestBound(c: Config, steps: seq<Step>, from: nat)
    requires from < |RunOf(c, steps).log| && NeverOvercredits(c, RunOf(c, steps).log, from)
    ensures var log := RunOf(c, steps).log;
      Granted(c, log, from) <= c.capacity + c.rate * Forward(TimesOf(log), from)
  {
    hide RunOf, Forward, Granted;
    LogLands(c, steps);
    HonestBound(c, RunOf(c, steps).log, TimesOf(RunOf(c, steps).log), from);
  }

  // ----- What the callers were told -----

  function Share(call: Call): nat {
    if call.Done? && call.granted then call.need else 0
  }

  /** The tokens that finished calls were granted. */
  function Handed(calls: seq<Call>): nat {
    if calls == [] then 0 else Handed(calls[..|calls| - 1]) + Share(calls[|calls| - 1])
  }

  lemma {:induction false} HandedUpdate(calls: seq<Call>, i: nat, call: Call)
    requires i < |calls|
    ensures Handed(calls[i := call]) + Share(calls[i]) == Handed(calls) + Share(call)
  {
    var front := calls[..|calls| - 1];
    if i == |front| {
      assert calls[i := call][..i] == front;
    } else {
      assert calls[i := call][..|front|] == front[i := call];
      HandedUpdate(front, i, call);
    }
  }

  lemma {:induction false} HandedAppend(calls: seq<Call>, call: Call)
    ensures Handed(calls + [call]) == Handed(calls) + Share(call)
  {
    assert (calls + [call])[..|calls|] == calls;
  }

  /**
   * In every interleaving the tokens callers were told they have are exactly those the serial
   * run of the landed writes grants: no grant is lost and none is made up.
   */
  lemma {:induction false} CallersHoldWhatTheSerialRunGrants(c: Config, steps: seq<Step>)
    requires IsConfig(c)
    ensures Handed(RunOf(c, steps).calls) == Granted(c, RunOf(c, steps).log, 0)
  {
    hide Handed, Pack, Attempt, Run, Granted, Grants;
    if steps == [] {
      NothingHanded(c);
    } else {
      var front, step := steps[..|steps| - 1], steps[|steps| - 1];
      var s, s' := RunOf(c, front), RunOf(c, steps);
      CallersHoldWhatTheSerialRunGrants(c, front);
      match step
      case Tick(_) =>
      case Start(need) => HandedAppend(s.calls, Sampled(need, s.clockMs));
      case Load(i) =>
        if i < |s.calls| { HandedUpdate(s.calls, i, s'.calls[i]); }
      case Resolve(i, _) =>
        if i < |s.calls| { HandedUpdate(s.calls, i, s'.calls[i]); }
        if s'.log != s.log { LandedGrant(c, front, s.calls[i].need, s.calls[i].nowMs); }
    }
  }

  lemma {:induction false} NothingHanded(c: Config)
    ensures Handed([]) == 0 == Granted(c, [], 0)
  {
  }

  /** A write that lands adds to the serial run what its pass decided. */
  lemma {:induction false} LandedGrant(c: Config, steps: seq<Step>, need: nat, nowMs: nat)
    requires IsConfig(c)
    ensures var s := RunOf(c, steps);
      Granted(c, s.log + [Acquire(need, nowMs, true)], 0)
      == Granted(c, s.log, 0) + if Attempt(c, s.word, need, nowMs).1 then need else 0
  {
    hide Pack, Attempt, Grants;
    var s, a := RunOf(c, steps), Acquire(need, nowMs, true);
    InterleavingIsSerial(c, steps);
    TokensNeverExceedCapacity(c, s.log);
    AttemptRefinesAfter(c, Run(c, s.log), a);
    assert (s.log + [a])[..|s.log|] == s.log;
  }

  /** No call and no write is ahead of the clock. */
  ghost predicate NotAhead(s: System) {
    && (forall i :: 0 <= i < |s.calls| && !s.calls[i].Done? ==> s.calls[i].nowMs <= s.clockMs)
    && (forall i :: 0 <= i < |s.log| ==> s.log[i].nowMs <= s.clockMs)
  }

  lemma {:induction false} NeverAhead(c: Config, steps: seq<Step>)
    ensures NotAhead(RunOf(c, steps))
  {
    hide Attempt;
    if steps != [] { NeverAhead(c, steps[..|steps| - 1]); }
  }

  /**
   * So the callers together never hold more than the capacity plus the credit; and no more than
   * the capacity plus the rate times the time since creation, if the writes landed in order of
   * their sampled times.
   */
  lemma {:induction false} CallersStayWithinTheRate(c: Config, steps: seq<Step>)
    requires IsConfig(c)
    ensures var s := RunOf(c, steps);
      && Handed(s.calls) <= c.capacity + Credit(c, TimesOf(s.log), 0)
      && (IsMonotone(s.log) ==> Handed(s.calls) <= c.capacity + c.rate * s.clockMs)
  {
    hide Handed, RunOf, Credit;
    var s := RunOf(c, steps);
    CallersHoldWhatTheSerialRunGrants(c, steps);
    NeverAhead(c, steps);
    if s.log != [] {
      InterleavedCreditBound(c, steps, 0, |s.log|);
      assert s.log[..|s.log|] == s.log;
      if IsMonotone(s.log) {
        OrderedCredit(c, TimesOf(s.log), 0);
        SpansAdd(c.rate, 0, s.log[|s.log| - 1].nowMs - s.log[0].nowMs, s.clockMs);
      }
    } else {
      SpansAdd(c.rate, 0, 0, s.clockMs);
    }
  }

  /**
   * Two calls, one token, one millisecond: the call that sampled first writes second and finds
   * the bucket full again.
   */
  function StaleRun(): seq<Step> {
    [Start(65536), Tick(1), Start(65536), Load(1), Resolve(1, false), Load(0), Resolve(0, false)]
  }

  lemma {:induction false} StaleNumbers()
    ensures var (c, early, late) := (Config(65536, 1), Acquire(65536, 0, true), Acquire(65536, 1, true));
      && Attempt(c, Pack(65536, 0), 65536, 1) == (Pack(0, 1), true)
      && Attempt(c, Pack(0, 1), 65536, 0) == (Pack(0, 0), true)
      && Run(c, [late]) == Level(0, 1)
      && Granted(c, [late, early], 0) == 2 * 65536
  {
    var c, early, late := Config(65536, 1), Acquire(65536, 0, true), Acquire(65536, 1, true);
    assert Grants(c, Level(65536, 0), late) && After(c, Level(65536, 0), late) == Level(0, 1);
    assert Grants(c, Level(0, 1), early) && After(c, Level(0, 1), early) == Level(0, 0);
    hide Pack, Attempt, Refill;
    AttemptRefinesAfter(c, Level(65536, 0), late);
    AttemptRefinesAfter(c, Level(0, 1), early);
    assert [late][..0] == [] && [late, early][..1] == [late];
    assert Run(c, []) == Level(65536, 0) && Run(c, [late]) == Level(0, 1);
    assert Granted(c, [late], 0) == 65536;
  }

  lemma {:induction false} StaleFirstHalf()
    ensures RunOf(Config(65536, 1), StaleRun()[..5]) ==
      System(Pack(0, 1), 1, [Sampled(65536, 0), Done(65536, true)], [Acquire(65536, 1, true)])
  {
    hide Pack, Attempt;
    StaleNumbers();
    var c, t := Config(65536, 1), StaleRun();
    assert t[..1] == [] + [t[0]] && t[..2] == t[..1] + [t[1]] && t[..3] == t[..2] + [t[2]];
    assert t[..4] == t[..3] + [t[3]] && t[..5] == t[..4] + [t[4]];
    StepOf(c, [], t[0]);
    StepOf(c, t[..1], t[1]);
    StepOf(c, t[..2], t[2]);
    StepOf(c, t[..3], t[3]);
    StepOf(c, t[..4], t[4]);
  }

  lemma {:induction false} StaleSampleBreaksTheBound()
    ensures var c := Config(65536, 1);
      var s := RunOf(c, StaleRun());
      && IsConfig(c) && s.clockMs == 1
      && s.calls == [Done(65536, true), Done(65536, true)]
      && Granted(c, s.log, 0) == 2 * 65536 > c.capacity + c.rate * s.clockMs
  {
    hide Pack, Attempt, Granted;
    var c, t := Config(65536, 1), StaleRun();
    StaleNumbers();
    StaleFirstHalf();
    assert t[..6] == t[..5] + [t[5]] && t == t[..6] + [t[6]];
    StepOf(c, t[..5], t[5]);
    StepOf(c, t[..6], t[6]);
    assert RunOf(c, t).log == [Acquire(65536, 1, true), Acquire(65536, 0, true)];
  }

  /** A grant, a refusal that refills, a grant behind it, a grant. */
  function HonestLog(): seq<Acquire> {
    [Acquire(65536, 0, true), Acquire(65537, 1, true), Acquire(65536, 0, true), Acquire(65536, 1, true)]
  }

  lemma {:induction false} HonestPrefixes()
    ensures var (c, log) := (Config(65536, 65536), HonestLog());
      && Run(c, log[..1]) == Level(0, 0) && Run(c, log[..2]) == Level(65536, 1) && Run(c, log[..3]) == Level(0, 0)
      && Granted(c, log, 0) == 3 * 65536
  {
    hide Run, Granted, Grants, After;
    var c, log := Config(65536, 65536), HonestLog();
    HonestNumbers();
    NothingYet(c);
    OneMore(c, [], log[0]);
    OneMore(c, log[..1], log[1]);
    OneMore(c, log[..2], log[2]);
    OneMore(c, log[..3], log[3]);
    assert [] + [log[0]] == log[..1] && log[..1] + [log[1]] == log[..2];
    assert log[..2] + [log[2]] == log[..3] && log[..3] + [log[3]] == log;
  }

  /**
   * No write overcredits, and still the plain bound fails: a write that lands behind a full bucket
   * adds nothing, but the next one is credited for the same time again.
   */
  lemma {:induction false} HonestWritesCanExceedTheWindow() returns (steps: seq<Step>)
    ensures var (c, log) := (Config(65536, 65536), RunOf(Config(65536, 65536), steps).log);
      && NeverOvercredits(c, log, 0) && TimesOf(log) == [0, 1, 0, 1]
      && Granted(c, log, 0) == 3 * 65536 > c.capacity + c.rate * 1
  {
    hide RunOf, HonestLog, NeverOvercredits, Granted, TimesOf, AllLand;
    HonestPrefixes();
    HonestLogIsHonest();
    HonestTimes();
    steps := EveryLogHappens(Config(65536, 65536), HonestLog());
  }

  lemma {:induction false} HonestTimes()
    ensures TimesOf(HonestLog()) == [0, 1, 0, 1] && AllLand(HonestLog())
  {
  }

  lemma {:induction false} HonestLogIsHonest()
    ensures NeverOvercredits(Config(65536, 65536), HonestLog(), 0)
  {
    hide Run, Overcredits, Granted, Grants, After;
    var c, log := Config(65536, 65536), HonestLog();
    HonestPrefixes();
    HonestNumbers();
    forall k | 0 < k < |log| ensures !Overcredits(c, Run(c, log[..k]), log[k].nowMs) {
      if k == 1 {
        assert log[..k] == log[..1];
      } else if k == 2 {
        assert log[..k] == log[..2];
      } else {
        assert log[..k] == log[..3];
      }
    }
  }

  lemma {:induction false} HonestNumbers()
    ensures var (c, e1, e2, e3) :=
          (Config(65536, 65536), Acquire(65536, 0, true), Acquire(65537, 1, true), Acquire(65536, 1, true));
      && Grants(c, Level(65536, 0), e1) && After(c, Level(65536, 0), e1) == Level(0, 0)
      && !Grants(c, Level(0, 0), e2) && After(c, Level(0, 0), e2) == Level(65536, 1)
      && Grants(c, Level(65536, 1), e1) && After(c, Level(65536, 1), e1) == Level(0, 0)
      && Grants(c, Level(0, 0), e3)
      && !Overcredits(c, Level(0, 0), 1) && !Overcredits(c, Level(65536, 1), 0)
  {
  }

  lemma {:induction false} NothingYet(c: Config)
    ensures Run(c, []) == Level(c.capacity, 0) && Granted(c, [], 0) == 0
  {
  }

  lemma {:induction false} OneMore(c: Config, calls: seq<Acquire>, a: Acquire)
    ensures Run(c, calls + [a]) == After(c, Run(c, calls), a)
    ensures Granted(c, calls + [a], 0) == Granted(c, calls, 0) + if Grants(c, Run(c, calls), a) then a.need else 0
  {
    assert (calls + [a])[..|calls|] == calls;
  }

  lemma {:induction false} StepOf(c: Config, steps: seq<Step>, step: Step)
    ensures RunOf(c, steps + [step]) == Apply(c, RunOf(c, steps), step)
  {
    assert (steps + [step])[..|steps|] == steps;
  }
}
