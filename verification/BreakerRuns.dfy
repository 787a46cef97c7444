/**
 * Every interleaving of requests over one breaker.
 *
 * A request asks for admission, and once admitted reports one outcome or is abandoned
 * without a report.  Asking and reporting are CAS loops: load the word, decide, and
 * compare-and-swap, which fails if the word changed and may fail for no reason.
 */
module BreakerRuns {
  import opened Words
  import opened CircuitBreaker

  datatype Pc = Ready | Loaded(current: u64)

  /** `probe` is the half-open episode whose CAS admitted the request, if one did. */
  datatype Request =
    | Asking(pc: Pc)
    | Rejected
    | Admitted(probe: Option<nat>)
    | Reporting(probe: Option<nat>, ok: bool, pc: Pc)
    | Reported(probe: Option<nat>)
    | Abandoned(probe: Option<nat>)

  /** A winning CAS, as a step of the abstract machine. */
  datatype Win = Win(op: Op, before: Breaker, after: Breaker)

  /** The shared word and the requests; `breaker`, `episode` and `log` record the history. */
  datatype System = System(word: u64, requests: seq<Request>, breaker: Breaker, episode: nat, log: seq<Win>)

  datatype Step =
    | Arrive
    | Load(i: nat)
    | Resolve(i: nat, reset: bool, spurious: bool)
    | Answer(i: nat, ok: bool)
    | Abandon(i: nat)

  const Initial := System(Encode(Closed(0)), [], Closed(0), 0, [])

  function OpOf(r: Request): Op
    requires r.Asking? || r.Reporting?
  {
    if r.Asking? then Allow else if r.ok then Success else Failure
  }

  function WithPc(r: Request, pc: Pc): Request
    requires r.Asking? || r.Reporting?
  {
    r.(pc := pc)
  }

  /** The rest of a pass after its load.  A step that is not enabled changes nothing. */
  function Pass(s: System, i: nat, reset: bool, spurious: bool, threshold: u32): System
    requires i < |s.requests| && (s.requests[i].Asking? || s.requests[i].Reporting?)
    requires s.requests[i].pc.Loaded?
  {
    var r := s.requests[i];
    match Decide(OpOf(r), r.pc.current, reset, threshold)
    case Return(result) =>
      var done := if r.Reporting? then Reported(r.probe) else if result then Admitted(None) else Rejected;
      s.(requests := s.requests[i := done])
    case Cas(next, _) =>
      if s.word != r.pc.current || spurious then s.(requests := s.requests[i := WithPc(r, Ready)])
      else Won(s, i, next, reset, threshold)
  }

  function Won(s: System, i: nat, next: u64, reset: bool, threshold: u32): System
    requires i < |s.requests| && (s.requests[i].Asking? || s.requests[i].Reporting?)
  {
    var r := s.requests[i];
    var after := Call(s.breaker, OpOf(r), reset, threshold).0;
    var episode := if s.breaker.Open? && after.HalfOpen? then s.episode + 1 else s.episode;
    var done := if r.Asking? then Admitted(Some(episode)) else Reported(r.probe);
    System(next, s.requests[i := done], after, episode, s.log + [Win(OpOf(r), s.breaker, after)])
  }

  function Apply(s: System, step: Step, threshold: u32): System {
    match step
    case Arrive => s.(requests := s.requests + [Asking(Ready)])
    case Load(i) =>
      if i < |s.requests| && (s.requests[i].Asking? || s.requests[i].Reporting?) && s.requests[i].pc.Ready?
      then s.(requests := s.requests[i := WithPc(s.requests[i], Loaded(s.word))])
      else s
    case Resolve(i, reset, spurious) =>
      if i < |s.requests| && (s.requests[i].Asking? || s.requests[i].Reporting?) && s.requests[i].pc.Loaded?
      then Pass(s, i, reset, spurious, threshold)
      else s
    case Answer(i, ok) =>
      if i < |s.requests| && s.requests[i].Admitted?
      then s.(requests := s.requests[i := Reporting(s.requests[i].probe, ok, Ready)])
      else s
    case Abandon(i) =>
      if i < |s.requests| && s.requests[i].Admitted?
      then s.(requests := s.requests[i := Abandoned(s.requests[i].probe)])
      else s
  }

  function Run(steps: seq<Step>, threshold: u32): System {
    if steps == [] then Initial
    else Apply(Run(steps[..|steps| - 1], threshold), steps[|steps| - 1], threshold)
  }

  // ----- The word is always a state, and every winning CAS a legal step -----

  ghost predicate IsHistory(log: seq<Win>, end: Breaker, threshold: u32)
  {
    if log == [] then end == Closed(0) else
    var w := log[|log| - 1];
    && w.after == end
    && (exists reset: bool :: Call(w.before, w.op, reset, threshold).0 == end)
    && IsHistory(log[..|log| - 1], w.before, threshold)
  }

  /** Failures that won in Closed, since the last success that won or since the start. */
  function Streak(log: seq<Win>): nat {
    if log == [] then 0 else
    var w := log[|log| - 1];
    match w.op
    case Success => 0
    case Failure => if w.before.Closed? then Streak(log[..|log| - 1]) + 1 else Streak(log[..|log| - 1])
    case Allow => Streak(log[..|log| - 1])
  }

  function TripPoint(threshold: u32): nat {
    if threshold == 0 then 1 else threshold
  }

  ghost predicate WordInv(s: System, threshold: u32) {
    && IsBreaker(s.breaker)
    && s.word == Encode(s.breaker)
    && IsHistory(s.log, s.breaker, threshold)
    && (s.breaker.Closed? ==> s.breaker.failures == Streak(s.log) % 0x1_0000)
    && (s.breaker.Closed? && threshold <= 0x1_0000 ==> Streak(s.log) < TripPoint(threshold))
  }

  lemma {:induction false} WonKeepsWord(s: System, i: nat, next: u64, reset: bool, threshold: u32)
    requires WordInv(s, threshold)
    requires i < |s.requests| && (s.requests[i].Asking? || s.requests[i].Reporting?)
    requires var a := Decide(OpOf(s.requests[i]), s.word, reset, threshold); a.Cas? && a.word == next
    ensures WordInv(Won(s, i, next, reset, threshold), threshold)
  {
    hide Encode, Decide, Call, Streak, IsHistory;
    var op := OpOf(s.requests[i]);
    PassRefinesCall(s.breaker, op, reset, threshold);
    LogGrows(s.log, Win(op, s.breaker, Call(s.breaker, op, reset, threshold).0), reset, threshold);
    StreakCounts(s.breaker, op, reset, threshold, Streak(s.log));
  }

  lemma {:induction false} LogGrows(log: seq<Win>, w: Win, reset: bool, threshold: u32)
    requires IsHistory(log, w.before, threshold) && Call(w.before, w.op, reset, threshold).0 == w.after
    ensures IsHistory(log + [w], w.after, threshold)
    ensures Streak(log + [w]) == StreakAfter(Streak(log), w)
  {
    hide Call;
    assert (log + [w])[..|log|] == log;
  }

  function StreakAfter(streak: nat, w: Win): nat {
    if w.op == Success then 0 else if w.op == Failure && w.before.Closed? then streak + 1 else streak
  }

  /** The counter is the streak modulo 2^16, and below the threshold while Closed. */
  lemma {:induction false} StreakCounts(b: Breaker, op: Op, reset: bool, threshold: u32, streak: nat)
    requires IsBreaker(b)
    requires b.Closed? ==> b.failures == streak % 0x1_0000
    requires b.Closed? && threshold <= 0x1_0000 ==> streak < TripPoint(threshold)
    ensures var next := Call(b, op, reset, threshold).0;
      var after := StreakAfter(streak, Win(op, b, next));
      next.Closed? ==> next.failures == after % 0x1_0000 && (threshold <= 0x1_0000 ==> after < TripPoint(threshold))
  {
  }

  lemma {:induction false} WordInvAlways(steps: seq<Step>, threshold: u32)
    ensures WordInv(Run(steps, threshold), threshold)
  {
    hide Encode, Decide;
    if steps != [] {
      var s, step := Run(steps[..|steps| - 1], threshold), steps[|steps| - 1];
      WordInvAlways(steps[..|steps| - 1], threshold);
      if step.Resolve? && Apply(s, step, threshold).log != s.log {
        var a := Decide(OpOf(s.requests[step.i]), s.word, step.reset, threshold);
        WonKeepsWord(s, step.i, a.word, step.reset, threshold);
      }
    }
  }

  lemma {:induction false} RunStep(steps: seq<Step>, step: Step, threshold: u32)
    ensures Run(steps + [step], threshold) == Apply(Run(steps, threshold), step, threshold)
  {
    assert (steps + [step])[..|steps|] == steps;
  }

  /**
   * In every interleaving, Closed opens exactly on the winning failure that makes the streak
   * reach the threshold; with a threshold above 65536 the 16-bit counter wraps and it never does.
   */
  lemma {:induction false} TripsExactlyAtThreshold(steps: seq<Step>, step: Step, threshold: u32)
    requires Run(steps, threshold).breaker.Closed?
    ensures var s, s' := Run(steps, threshold), Run(steps + [step], threshold);
      && !s'.breaker.HalfOpen?
      && (s'.breaker.Open? <==>
          && threshold <= 0x1_0000 && |s'.log| == |s.log| + 1
          && s'.log[|s.log|].op == Failure && Streak(s'.log) == TripPoint(threshold))
  {
    hide Encode, Decide;
    var s, s' := Run(steps, threshold), Run(steps + [step], threshold);
    RunStep(steps, step, threshold);
    WordInvAlways(steps, threshold);
    WordInvAlways(steps + [step], threshold);
    if s'.log != s.log { assert s'.log[..|s.log|] == s.log; }
  }

  lemma {:induction false} HugeThresholdNeverTrips(steps: seq<Step>, threshold: u32)
    requires 0x1_0000 < threshold
    ensures Run(steps, threshold).breaker.Closed?
  {
    if steps != [] {
      var front := steps[..|steps| - 1];
      HugeThresholdNeverTrips(front, threshold);
      TripsExactlyAtThreshold(front, steps[|steps| - 1], threshold);
      assert front + [steps[|steps| - 1]] == steps;
    }
  }

  /** Successes that won in the latest half-open episode. */
  function EpisodeSuccesses(log: seq<Win>): nat {
    if log == [] then 0 else
    var (front, w) := (log[..|log| - 1], log[|log| - 1]);
    if w.before.Open? && w.after.HalfOpen? then 0
    else EpisodeSuccesses(front) + if w.op == Success && w.before.HalfOpen? then 1 else 0
  }

  ghost predicate CountsSuccesses(s: System) {
    s.breaker.HalfOpen? ==> s.breaker.successes == EpisodeSuccesses(s.log)
  }

  lemma {:induction false} SuccessesAlways(steps: seq<Step>, threshold: u32)
    ensures CountsSuccesses(Run(steps, threshold))
  {
    if steps != [] {
      hide Encode, Decide, EpisodeSuccesses, Call, WordInv;
      var s, step := Run(steps[..|steps| - 1], threshold), steps[|steps| - 1];
      SuccessesAlways(steps[..|steps| - 1], threshold);
      var s' := Run(steps, threshold);
      if s'.log != s.log { SuccessCounts(s, OpOf(s.requests[step.i]), step.reset, threshold); }
    }
  }

  lemma {:induction false} SuccessCounts(s: System, op: Op, reset: bool, threshold: u32)
    requires CountsSuccesses(s)
    ensures var after := Call(s.breaker, op, reset, threshold).0;
      after.HalfOpen? ==> after.successes == EpisodeSuccesses(s.log + [Win(op, s.breaker, after)])
  {
    var w := Win(op, s.breaker, Call(s.breaker, op, reset, threshold).0);
    assert (s.log + [w])[..|s.log|] == s.log;
  }

  /**
   * In every interleaving, a half-open breaker closes exactly on the third winning success of its
   * episode, opens exactly on a winning failure, and stays half-open otherwise.
   */
  lemma {:induction false} ClosesExactlyOnTheThirdSuccess(steps: seq<Step>, step: Step, threshold: u32)
    requires Run(steps, threshold).breaker.HalfOpen?
    ensures var (s, s') := (Run(steps, threshold), Run(steps + [step], threshold));
      var won := |s'.log| == |s.log| + 1;
      && (s'.breaker.Closed? <==>
          won && s'.log[|s.log|].op == Success && EpisodeSuccesses(s'.log) == 3)
      && (s'.breaker.Open? <==> won && s'.log[|s.log|].op == Failure)
  {
    hide Encode, Decide;
    var s, s' := Run(steps, threshold), Run(steps + [step], threshold);
    RunStep(steps, step, threshold);
    WordInvAlways(steps, threshold);
    SuccessesAlways(steps, threshold);
    if s'.log != s.log {
      assert s'.log[..|s.log|] == s.log;
      PassRefinesCall(s.breaker, OpOf(s.requests[step.i]), step.reset, threshold);
    }
  }

  /** An open breaker leaves that state only by a winning request that may reset it, as its first probe. */
  lemma {:induction false} OpensToOneProbe(steps: seq<Step>, step: Step, threshold: u32)
    requires Run(steps, threshold).breaker.Open?
    ensures var (s, s') := (Run(steps, threshold), Run(steps + [step], threshold));
      || (|s'.log| == |s.log| && s'.breaker == s.breaker)
      || (&& |s'.log| == |s.log| + 1 && s'.log[|s.log|].op == Allow && step.Resolve? && step.reset
          && s'.breaker == HalfOpen(0, 1) && s'.episode == s.episode + 1)
  {
    hide Encode, Decide;
    var s, s' := Run(steps, threshold), Run(steps + [step], threshold);
    RunStep(steps, step, threshold);
    WordInvAlways(steps, threshold);
    if s'.log != s.log {
      var op := OpOf(s.requests[step.i]);
      PassRefinesCall(s.breaker, op, step.reset, threshold);
      OpenSwaps(s.breaker, op, step.reset, threshold);
    }
  }

  lemma {:induction false} OpenSwaps(b: Breaker, op: Op, reset: bool, threshold: u32)
    requires IsBreaker(b) && b.Open?
    ensures Decide(op, Encode(b), reset, threshold).Cas? <==> op == Allow && reset
  {
    hide Encode, Pack, StateField, Failures, Successes, HalfOpenRequests;
    EncodeFields(b);
  }

  // ----- Half-open episodes -----

  function ProbeOf(r: Request): Option<nat> {
    if r.Admitted? || r.Reporting? || r.Reported? || r.Abandoned? then r.probe else None
  }

  /** The requests an episode admitted. */
  ghost function Probes(s: System, e: nat): set<nat> {
    set i: nat | i < |s.requests| && ProbeOf(s.requests[i]) == Some(e)
  }

  /** Those of them that have reported, and those that never will. */
  ghost function ReportedProbes(s: System, e: nat): set<nat> {
    set i: nat | i < |s.requests| && s.requests[i] == Reported(Some(e))
  }

  ghost function AbandonedProbes(s: System, e: nat): set<nat> {
    set i: nat | i < |s.requests| && s.requests[i] == Abandoned(Some(e))
  }

  /** The probes that still owe a report. */
  ghost function Outstanding(s: System, e: nat): set<nat> {
    Probes(s, e) - ReportedProbes(s, e) - AbandonedProbes(s, e)
  }

  ghost predicate EpisodeInv(s: System) {
    && (forall i :: 0 <= i < |s.requests| ==> RequestInv(s, s.requests[i]))
    && (forall e: nat :: |Probes(s, e)| <= HALF_OPEN_MAX_REQUESTS)
    && (s.breaker.HalfOpen? ==> |Probes(s, s.episode)| == s.breaker.requests)
    && (s.breaker.HalfOpen? ==> |ReportedProbes(s, s.episode)| <= s.breaker.successes)
  }

  /** Probes belong to past or present episodes; a probe of the running one has seen only half-open words. */
  ghost predicate RequestInv(s: System, r: Request) {
    && (ProbeOf(r).Some? ==> ProbeOf(r).value <= s.episode)
    && (s.breaker.HalfOpen? && ProbeOf(r) == Some(s.episode) && r.Reporting? && r.pc.Loaded? ==>
        StateField(r.pc.current) == STATE_HALFOPEN)
  }

  /** Steps that leave the word alone and give no request a new probe tag. */
  lemma {:induction false} QuietStep(s: System, i: nat, r: Request)
    requires EpisodeInv(s) && i < |s.requests| && RequestInv(s, r)
    requires ProbeOf(r) == ProbeOf(s.requests[i])
    requires r.Reported? ==> !s.breaker.HalfOpen? || r.probe != Some(s.episode) || s.requests[i] == r
    ensures EpisodeInv(s.(requests := s.requests[i := r]))
  {
    var s' := s.(requests := s.requests[i := r]);
    forall e: nat ensures Probes(s', e) == Probes(s, e) {}
    assert s.breaker.HalfOpen? ==> ReportedProbes(s', s.episode) <= ReportedProbes(s, s.episode);
    SubsetSize(ReportedProbes(s', s.episode), ReportedProbes(s, s.episode));
  }

  lemma {:induction false} SubsetSize(a: set<nat>, b: set<nat>)
    ensures a <= b ==> |a| <= |b|
  {
    if a <= b && a != {} {
      var x :| x in a;
      SubsetSize(a - {x}, b - {x});
    }
  }

  lemma {:induction false} ArriveKeepsEpisodes(s: System)
    requires EpisodeInv(s)
    ensures EpisodeInv(s.(requests := s.requests + [Asking(Ready)]))
  {
    var s' := s.(requests := s.requests + [Asking(Ready)]);
    forall e: nat ensures Probes(s', e) == Probes(s, e) && ReportedProbes(s', e) == ReportedProbes(s, e) {}
  }

  /** A winning CAS of an asking request: one more probe of the episode it leaves running. */
  lemma {:induction false} AdmittingAddsOneProbe(s: System, s': System, i: nat, f: nat, e: nat)
    requires i < |s.requests| && s.requests[i].Asking? && s'.requests == s.requests[i := Admitted(Some(f))]
    ensures |Probes(s', e)| == |Probes(s, e)| + (if e == f then 1 else 0)
  {
    assert i !in Probes(s, e);
    if e == f {
      assert Probes(s', e) == Probes(s, e) + {i};
    } else {
      assert Probes(s', e) == Probes(s, e);
    }
  }

  lemma {:induction false} AdmittingReportsNothing(s: System, s': System, i: nat, f: nat, e: nat)
    requires i < |s.requests| && s.requests[i].Asking? && s'.requests == s.requests[i := Admitted(Some(f))]
    ensures ReportedProbes(s', e) == ReportedProbes(s, e)
  {
  }

  lemma {:induction false} FutureEpisodesAreEmpty(s: System, e: nat)
    requires EpisodeInv(s) && s.episode < e
    ensures Probes(s, e) == {} && ReportedProbes(s, e) == {}
  {
  }

  lemma {:induction false} WonAskKeepsEpisodes(s: System, i: nat, next: u64, reset: bool, threshold: u32)
    requires EpisodeInv(s) && IsBreaker(s.breaker) && i < |s.requests| && s.requests[i].Asking?
    requires Call(s.breaker, Allow, reset, threshold).0 != s.breaker
    ensures EpisodeInv(Won(s, i, next, reset, threshold))
  {
    hide Probes, ReportedProbes;
    var s' := Won(s, i, next, reset, threshold);
    if s.breaker.Open? { FutureEpisodesAreEmpty(s, s'.episode); }
    forall e: nat ensures |Probes(s', e)| <= HALF_OPEN_MAX_REQUESTS {
      AdmittingAddsOneProbe(s, s', i, s'.episode, e);
    }
    AdmittingAddsOneProbe(s, s', i, s'.episode, s'.episode);
    AdmittingReportsNothing(s, s', i, s'.episode, s'.episode);
  }

  /** A winning CAS of a reporting request. */
  lemma {:induction false} WonReportKeepsEpisodes(s: System, i: nat, next: u64, reset: bool, threshold: u32)
    requires EpisodeInv(s) && IsBreaker(s.breaker) && i < |s.requests| && s.requests[i].Reporting?
    ensures EpisodeInv(Won(s, i, next, reset, threshold))
  {
    var s' := Won(s, i, next, reset, threshold);
    forall e: nat ensures Probes(s', e) == Probes(s, e) {}
    assert ReportedProbes(s', s'.episode) <= ReportedProbes(s, s'.episode) + {i};
    SubsetSize(ReportedProbes(s', s'.episode), ReportedProbes(s, s'.episode) + {i});
  }

  lemma {:induction false} LoadKeepsEpisodes(s: System, i: nat, threshold: u32)
    requires EpisodeInv(s) && WordInv(s, threshold)
    ensures EpisodeInv(Apply(s, Load(i), threshold))
  {
    hide Encode, EpisodeInv;
    var s' := Apply(s, Load(i), threshold);
    if s' != s {
      EncodeFields(s.breaker);
      RequestsHold(s, i);
      QuietStep(s, i, s'.requests[i]);
    }
  }

  lemma {:induction false} RequestsHold(s: System, i: nat)
    requires EpisodeInv(s) && i < |s.requests|
    ensures RequestInv(s, s.requests[i])
  {
  }

  lemma {:induction false} ResolveKeepsEpisodes(s: System, i: nat, reset: bool, spurious: bool, threshold: u32)
    requires EpisodeInv(s) && WordInv(s, threshold)
    ensures EpisodeInv(Apply(s, Resolve(i, reset, spurious), threshold))
  {
    hide Encode, EpisodeInv;
    var s' := Apply(s, Resolve(i, reset, spurious), threshold);
    if s' != s {
      var r := s.requests[i];
      RequestsHold(s, i);
      if s'.log == s.log {
        QuietStep(s, i, s'.requests[i]);
      } else {
        PassRefinesCall(s.breaker, OpOf(r), reset, threshold);
        EncodeFields(s.breaker);
        var next := Decide(OpOf(r), s.word, reset, threshold).word;
        if r.Asking? {
          WonAskKeepsEpisodes(s, i, next, reset, threshold);
        } else {
          WonReportKeepsEpisodes(s, i, next, reset, threshold);
        }
      }
    }
  }

  lemma {:induction false} AnswerKeepsEpisodes(s: System, i: nat, r: Request)
    requires EpisodeInv(s) && i < |s.requests| && s.requests[i].Admitted?
    requires r == Abandoned(s.requests[i].probe)
      || r == Reporting(s.requests[i].probe, true, Ready) || r == Reporting(s.requests[i].probe, false, Ready)
    ensures EpisodeInv(s.(requests := s.requests[i := r]))
  {
    hide EpisodeInv;
    RequestsHold(s, i);
    QuietStep(s, i, r);
  }

  lemma {:induction false} EpisodeInvAlways(steps: seq<Step>, threshold: u32)
    ensures EpisodeInv(Run(steps, threshold))
  {
    if steps == [] {
      forall e: nat ensures Probes(Initial, e) == {} {}
    } else {
      hide EpisodeInv, WordInv, Encode, Decide, Pass;
      var s, step := Run(steps[..|steps| - 1], threshold), steps[|steps| - 1];
      EpisodeInvAlways(steps[..|steps| - 1], threshold);
      WordInvAlways(steps[..|steps| - 1], threshold);
      match step
      case Arrive => ArriveKeepsEpisodes(s);
      case Load(i) => LoadKeepsEpisodes(s, i, threshold);
      case Resolve(i, reset, spurious) => ResolveKeepsEpisodes(s, i, reset, spurious, threshold);
      case Answer(i, ok) =>
        if i < |s.requests| && s.requests[i].Admitted? {
          AnswerKeepsEpisodes(s, i, Reporting(s.requests[i].probe, ok, Ready));
        }
      case Abandon(i) =>
        if i < |s.requests| && s.requests[i].Admitted? {
          AnswerKeepsEpisodes(s, i, Abandoned(s.requests[i].probe));
        }
    }
  }

  /** No episode of any interleaving admits more than three requests. */
  lemma {:induction false} EpisodeAdmitsAtMostThree(steps: seq<Step>, threshold: u32, e: nat)
    ensures |Probes(Run(steps, threshold), e)| <= 3
  {
    EpisodeInvAlways(steps, threshold);
  }

  /**
   * Half-open accounting: every request the episode counted has succeeded, is still to report,
   * or was abandoned.  So unless one was abandoned, either the next request is admitted or
   * a probe of this episode is still out.
   */
  lemma {:induction false} HalfOpenIsNeverWedged(steps: seq<Step>, threshold: u32)
    requires Run(steps, threshold).breaker.HalfOpen?
    ensures var s := Run(steps, threshold);
      && s.breaker.requests <= s.breaker.successes + |Outstanding(s, s.episode)| + |AbandonedProbes(s, s.episode)|
      && (AbandonedProbes(s, s.episode) == {} ==>
          Outstanding(s, s.episode) != {}
          || forall reset: bool :: Call(s.breaker, Allow, reset, threshold).1)
  {
    hide EpisodeInv, WordInv, Run, Outstanding, AbandonedProbes;
    EpisodeInvAlways(steps, threshold);
    WordInvAlways(steps, threshold);
    HalfOpenAccounting(Run(steps, threshold), threshold);
  }

  lemma {:induction false} HalfOpenAccounting(s: System, threshold: u32)
    requires EpisodeInv(s) && WordInv(s, threshold) && s.breaker.HalfOpen?
    ensures s.breaker.requests <= s.breaker.successes + |Outstanding(s, s.episode)| + |AbandonedProbes(s, s.episode)|
    ensures s.breaker.successes < HALF_OPEN_MAX_REQUESTS && s.breaker.requests <= HALF_OPEN_MAX_REQUESTS
  {
    var (p, r, a) := (Probes(s, s.episode), ReportedProbes(s, s.episode), AbandonedProbes(s, s.episode));
    assert p == r + a + Outstanding(s, s.episode);
    assert r !! a;
  }

  // ----- A request that never reports -----

  /**
   * A request that can no longer move a half-open word on which all probes are used up: it is
   * done, it will be refused, or it reports on an Open word it loaded earlier and so does nothing.
   */
  predicate IsIdle(r: Request) {
    match r
    case Asking(pc) => pc.Ready? || StateField(pc.current) != STATE_CLOSED
    case Admitted(_) => false
    case Reporting(_, _, pc) =>
      pc.Loaded? && StateField(pc.current) != STATE_CLOSED && StateField(pc.current) != STATE_HALFOPEN
    case _ => true
  }

  ghost predicate AllIdle(s: System) {
    forall i :: 0 <= i < |s.requests| ==> IsIdle(s.requests[i])
  }

  /** All three probes used up and nobody left who can act. */
  ghost predicate IsWedged(s: System) {
    && s.breaker.HalfOpen? && s.breaker.requests == HALF_OPEN_MAX_REQUESTS && IsBreaker(s.breaker)
    && s.word == Encode(s.breaker) && AllIdle(s)
  }

  /** Only an abandoned probe can bring that about. */
  lemma {:induction false} WedgeNeedsAbandonment(steps: seq<Step>, threshold: u32)
    requires IsWedged(Run(steps, threshold))
    ensures var s := Run(steps, threshold);
      1 <= HALF_OPEN_MAX_REQUESTS - s.breaker.successes <= |AbandonedProbes(s, s.episode)|
  {
    hide EpisodeInv, WordInv, Run, Encode, StateField;
    var s := Run(steps, threshold);
    EpisodeInvAlways(steps, threshold);
    WordInvAlways(steps, threshold);
    HalfOpenAccounting(s, threshold);
    forall i: nat | i < |s.requests| ensures i !in Outstanding(s, s.episode) { RequestsHold(s, i); }
    assert Outstanding(s, s.episode) == {};
  }

  /** Then no step changes the word: every later request is refused, in any interleaving. */
  lemma {:induction false} WedgeIsForever(steps: seq<Step>, more: seq<Step>, threshold: u32)
    requires IsWedged(Run(steps, threshold))
    ensures IsWedged(Run(steps + more, threshold))
    ensures Run(steps + more, threshold).word == Run(steps, threshold).word
  {
    hide IsWedged, Apply, Run;
    if more == [] {
      assert steps + more == steps;
    } else {
      var front, last := more[..|more| - 1], more[|more| - 1];
      WedgeIsForever(steps, front, threshold);
      assert steps + more == (steps + front) + [last];
      RunStep(steps + front, last, threshold);
      WedgeStep(Run(steps + front, threshold), last, threshold);
    }
  }

  lemma {:induction false} WedgeStep(s: System, step: Step, threshold: u32)
    requires IsWedged(s)
    ensures IsWedged(Apply(s, step, threshold)) && Apply(s, step, threshold).word == s.word
  {
    hide Encode, Pack, StateField, HalfOpenRequests, Failures, Successes;
    EncodeFields(s.breaker);
    if step.Resolve? && step.i < |s.requests| && (s.requests[step.i].Asking? || s.requests[step.i].Reporting?)
      && s.requests[step.i].pc.Loaded?
    {
      IdlePass(s, step.i, step.reset, step.spurious, threshold);
    }
  }

  /** An idle request that finishes its pass stays idle and leaves the word alone. */
  lemma {:induction false} IdlePass(s: System, i: nat, reset: bool, spurious: bool, threshold: u32)
    requires i < |s.requests| && (s.requests[i].Asking? || s.requests[i].Reporting?) && s.requests[i].pc.Loaded?
    requires IsIdle(s.requests[i])
    requires StateField(s.word) == STATE_HALFOPEN && HalfOpenRequests(s.word) == HALF_OPEN_MAX_REQUESTS
    ensures var s' := Pass(s, i, reset, spurious, threshold);
      s' == s.(requests := s'.requests) && |s'.requests| == |s.requests|
      && s'.requests == s.requests[i := s'.requests[i]] && IsIdle(s'.requests[i])
  {
    hide Pack, StateField, HalfOpenRequests, Failures, Successes;
  }

  // ----- And nothing else lasts for ever -----

  /** The word tells the state. */
  lemma {:induction false} WordTells(b1: Breaker, b2: Breaker)
    requires IsBreaker(b1) && IsBreaker(b2) && b1 != b2
    ensures Encode(b1) != Encode(b2)
  {
    hide Encode;
    EncodeFields(b1);
    EncodeFields(b2);
  }

  lemma {:induction false} Differs(steps: seq<Step>, more: seq<Step>, threshold: u32)
    requires Run(steps + more, threshold).breaker != Run(steps, threshold).breaker
    ensures Run(steps + more, threshold).word != Run(steps, threshold).word
  {
    hide Run, Encode;
    WordInvAlways(steps, threshold);
    WordInvAlways(steps + more, threshold);
    WordTells(Run(steps, threshold).breaker, Run(steps + more, threshold).breaker);
  }

  /** A report that starts afresh while the breaker is not open takes effect. */
  lemma {:induction false} ReportEffect(steps: seq<Step>, i: nat, threshold: u32)
    requires var s := Run(steps, threshold);
      i < |s.requests| && s.requests[i].Reporting? && s.requests[i].pc.Ready? && !s.breaker.Open?
    ensures var s := Run(steps, threshold);
      Run(steps + [Load(i), Resolve(i, false, false)], threshold).breaker
      == Call(s.breaker, OpOf(s.requests[i]), false, threshold).0
  {
    hide Encode, Run, Decide;
    var s := Run(steps, threshold);
    assert steps + [Load(i), Resolve(i, false, false)] == (steps + [Load(i)]) + [Resolve(i, false, false)];
    RunStep(steps, Load(i), threshold);
    RunStep(steps + [Load(i)], Resolve(i, false, false), threshold);
    WordInvAlways(steps, threshold);
    ReportSwaps(s.breaker, OpOf(s.requests[i]), threshold);
  }

  lemma {:induction false} ReportSwaps(b: Breaker, op: Op, threshold: u32)
    requires IsBreaker(b) && !b.Open? && op != Allow
    ensures Decide(op, Encode(b), false, threshold).Cas?
  {
    hide Encode, Pack, StateField, Failures, Successes, HalfOpenRequests;
    EncodeFields(b);
  }

  /** A failure changes every state but Open, and in a half-open one so does a success. */
  lemma {:induction false} ReportMatters(b: Breaker, op: Op, threshold: u32)
    requires IsBreaker(b) && !b.Open? && op != Allow && (b.HalfOpen? || op == Failure)
    ensures Call(b, op, false, threshold).0 != b
  {
  }

  lemma {:induction false} ReportingWayOut(steps: seq<Step>, i: nat, threshold: u32) returns (more: seq<Step>)
    requires var s := Run(steps, threshold);
      && i < |s.requests| && s.requests[i].Reporting? && s.requests[i].pc.Ready? && !s.breaker.Open?
      && (s.breaker.HalfOpen? || !s.requests[i].ok)
    ensures Run(steps + more, threshold).breaker != Run(steps, threshold).breaker
  {
    hide Run;
    more := [Load(i), Resolve(i, false, false)];
    ReportEffect(steps, i, threshold);
    WordInvAlways(steps, threshold);
    ReportMatters(Run(steps, threshold).breaker, OpOf(Run(steps, threshold).requests[i]), threshold);
  }

  lemma {:induction false} AdmittedWayOut(steps: seq<Step>, i: nat, threshold: u32) returns (more: seq<Step>)
    requires var s := Run(steps, threshold); i < |s.requests| && s.requests[i].Admitted? && !s.breaker.Open?
    ensures Run(steps + more, threshold).breaker != Run(steps, threshold).breaker
  {
    hide Run;
    var first := Answer(i, false);
    RunStep(steps, first, threshold);
    more := ReportingWayOut(steps + [first], i, threshold);
    more := [first] + more;
    assert steps + more == (steps + [first]) + more[1..];
  }

  /** A request that is not idle can still change a half-open word. */
  lemma {:induction false} BusyWayOut(steps: seq<Step>, i: nat, threshold: u32) returns (more: seq<Step>)
    requires var s := Run(steps, threshold); i < |s.requests| && !IsIdle(s.requests[i]) && s.breaker.HalfOpen?
    ensures Run(steps + more, threshold).breaker != Run(steps, threshold).breaker
  {
    hide Run, StateField;
    var r := Run(steps, threshold).requests[i];
    if r.Admitted? {
      more := AdmittedWayOut(steps, i, threshold);
    } else if r.pc.Ready? {
      more := ReportingWayOut(steps, i, threshold);
    } else {
      var first := Resolve(i, false, true);
      RunStep(steps, first, threshold);
      if r.Asking? {
        more := AdmittedWayOut(steps + [first], i, threshold);
      } else {
        more := ReportingWayOut(steps + [first], i, threshold);
      }
      more := [first] + more;
      assert steps + more == (steps + [first]) + more[1..];
    }
  }

  /** A request is admitted by a half-open episode and abandoned, as when its body is too large. */
  function LostProbe(n: nat, reset: bool): seq<Step> {
    [Arrive, Load(n), Resolve(n, reset, false), Abandon(n)]
  }

  lemma {:induction false} LostProbeEffect(steps: seq<Step>, reset: bool, threshold: u32)
    requires var s := Run(steps, threshold);
      (s.breaker.Open? && reset) || (s.breaker.HalfOpen? && s.breaker.requests < HALF_OPEN_MAX_REQUESTS)
    ensures var s := Run(steps, threshold);
      var s' := Run(steps + LostProbe(|s.requests|, reset), threshold);
      && s'.breaker == Call(s.breaker, Allow, reset, threshold).0
      && s'.requests == s.requests + [Abandoned(Some(s'.episode))]
  {
    hide Encode, Run, Decide, Apply;
    var s := Run(steps, threshold);
    var n := |s.requests|;
    var t1 := steps + [Arrive];
    var t2 := t1 + [Load(n)];
    var t3 := t2 + [Resolve(n, reset, false)];
    assert steps + LostProbe(n, reset) == t3 + [Abandon(n)];
    RunStep(steps, Arrive, threshold);
    RunStep(t1, Load(n), threshold);
    RunStep(t2, Resolve(n, reset, false), threshold);
    RunStep(t3, Abandon(n), threshold);
    WordInvAlways(steps, threshold);
    LostProbeState(s, reset, threshold);
  }

  lemma {:induction false} LostProbeState(s: System, reset: bool, threshold: u32)
    requires IsBreaker(s.breaker) && s.word == Encode(s.breaker)
    requires (s.breaker.Open? && reset) || (s.breaker.HalfOpen? && s.breaker.requests < HALF_OPEN_MAX_REQUESTS)
    ensures var n := |s.requests|;
      var s3 := Apply(Apply(Apply(s, Arrive, threshold), Load(n), threshold), Resolve(n, reset, false), threshold);
      var s' := Apply(s3, Abandon(n), threshold);
      && s'.breaker == Call(s.breaker, Allow, reset, threshold).0
      && s'.requests == s.requests + [Abandoned(Some(s'.episode))]
  {
    hide Encode, Pack, StateField, Failures, Successes, HalfOpenRequests;
    EncodeFields(s.breaker);
  }

  /** A closed breaker can always be failed. */
  lemma {:induction false} ClosedWayOut(steps: seq<Step>, threshold: u32) returns (more: seq<Step>)
    requires Run(steps, threshold).breaker.Closed?
    ensures Run(steps + more, threshold).breaker != Run(steps, threshold).breaker
  {
    hide Run, Encode, StateField, Pack;
    var s := Run(steps, threshold);
    var n := |s.requests|;
    var t1 := steps + [Arrive];
    var t2 := t1 + [Load(n)];
    var t3 := t2 + [Resolve(n, false, false)];
    RunStep(steps, Arrive, threshold);
    RunStep(t1, Load(n), threshold);
    RunStep(t2, Resolve(n, false, false), threshold);
    WordInvAlways(steps, threshold);
    EncodeFields(s.breaker);
    var rest := AdmittedWayOut(t3, n, threshold);
    more := [Arrive, Load(n), Resolve(n, false, false)] + rest;
    assert steps + more == t3 + rest;
  }

  lemma {:induction false} WayOut(steps: seq<Step>, threshold: u32) returns (more: seq<Step>)
    requires !IsWedged(Run(steps, threshold))
    ensures Run(steps + more, threshold).word != Run(steps, threshold).word
  {
    hide Run, Encode, IsIdle;
    var s := Run(steps, threshold);
    WordInvAlways(steps, threshold);
    if s.breaker.Closed? {
      more := ClosedWayOut(steps, threshold);
    } else if s.breaker.Open? || s.breaker.requests < HALF_OPEN_MAX_REQUESTS {
      more := LostProbe(|s.requests|, true);
      LostProbeEffect(steps, true, threshold);
    } else {
      var i :| 0 <= i < |s.requests| && !IsIdle(s.requests[i]);
      more := BusyWayOut(steps, i, threshold);
    }
    Differs(steps, more, threshold);
  }

  /**
   * The exact condition: a breaker's word never changes again, whatever happens, if and only if
   * it is half-open with all probes used up and no request can still act.
   */
  lemma {:induction false} FrozenIffWedged(steps: seq<Step>, threshold: u32)
    ensures (forall more: seq<Step> :: Run(steps + more, threshold).word == Run(steps, threshold).word)
      <==> IsWedged(Run(steps, threshold))
  {
    hide Run, IsWedged;
    if IsWedged(Run(steps, threshold)) {
      forall more: seq<Step> ensures Run(steps + more, threshold).word == Run(steps, threshold).word {
        WedgeIsForever(steps, more, threshold);
      }
    } else {
      var more := WayOut(steps, threshold);
      assert Run(steps + more, threshold).word != Run(steps, threshold).word;
    }
  }

  /** `k` lost probes, the first of which may reopen the breaker. */
  function LostProbes(n: nat, k: nat, reset: bool): seq<Step>
    decreases k
  {
    if k == 0 then [] else LostProbe(n, reset) + LostProbes(n + 1, k - 1, false)
  }

  /** The probes an open or half-open breaker has left. */
  function Remaining(b: Breaker): nat
    requires !b.Closed? && IsBreaker(b)
  {
    if b.Open? then HALF_OPEN_MAX_REQUESTS else HALF_OPEN_MAX_REQUESTS - b.requests
  }

  /**
   * Every run that ends Open or half-open with no request able to act is wedged for good if all
   * the probes it has left never report.
   */
  lemma {:induction false} LostProbesWedge(steps: seq<Step>, reset: bool, threshold: u32)
    requires var s := Run(steps, threshold);
      !s.breaker.Closed? && IsBreaker(s.breaker) && AllIdle(s) && (s.breaker.Open? ==> reset)
    ensures var s := Run(steps, threshold);
      IsWedged(Run(steps + LostProbes(|s.requests|, Remaining(s.breaker), reset), threshold))
    decreases Remaining(Run(steps, threshold).breaker)
  {
    hide Encode, Run, LostProbe;
    var s := Run(steps, threshold);
    var n, k := |s.requests|, Remaining(s.breaker);
    WordInvAlways(steps, threshold);
    if k == 0 {
      assert steps + LostProbes(n, k, reset) == steps;
    } else {
      LostProbeEffect(steps, reset, threshold);
      var t := steps + LostProbe(n, reset);
      WordInvAlways(t, threshold);
      LostProbesWedge(t, false, threshold);
      assert steps + LostProbes(n, k, reset) == t + LostProbes(n + 1, k - 1, false);
    }
  }

  /** One failure trips a breaker of threshold 1, three lost probes wedge it. */
  function TrippingRun(): seq<Step> {
    [Arrive, Load(0), Resolve(0, false, false), Answer(0, false), Load(0), Resolve(0, false, false)]
  }

  lemma {:induction false} FirstRequestFails()
    ensures Run(TrippingRun()[..4], 1) == System(Encode(Closed(0)), [Reporting(None, false, Ready)], Closed(0), 0, [])
  {
    hide Encode, Decide;
    var t := TrippingRun();
    DecideAtClosed();
    assert t[..1] == [] + [t[0]] && t[..2] == t[..1] + [t[1]] && t[..3] == t[..2] + [t[2]] && t[..4] == t[..3] + [t[3]];
    RunStep([], t[0], 1);
    RunStep(t[..1], t[1], 1);
    RunStep(t[..2], t[2], 1);
    RunStep(t[..3], t[3], 1);
  }

  lemma {:induction false} OneFailureTrips()
    ensures var s := Run(TrippingRun()[..6], 1);
      s.breaker == Open(1) && s.requests == [Reported(None)]
  {
    hide Encode, Decide;
    var t := TrippingRun();
    DecideAtClosed();
    FirstRequestFails();
    assert t[..5] == t[..4] + [t[4]] && t[..6] == t[..5] + [t[5]];
    RunStep(t[..4], t[4], 1);
    RunStep(t[..5], t[5], 1);
  }

  lemma {:induction false} DecideAtClosed()
    ensures Decide(Allow, Encode(Closed(0)), false, 1) == Return(true)
    ensures Decide(Failure, Encode(Closed(0)), false, 1).Cas?
  {
    hide Encode, Pack, StateField, Failures;
    EncodeFields(Closed(0));
  }

  /** A run that does this: the breaker stays half-open and refuses every request for ever. */
  lemma {:induction false} FourRequestsWedge(more: seq<Step>)
    ensures IsWedged(Run(TrippingRun() + LostProbes(1, 3, true) + more, 1))
  {
    hide Encode, Apply, Run, IsWedged, LostProbes;
    OneFailureTrips();
    assert TrippingRun()[..6] == TrippingRun();
    LostProbesWedge(TrippingRun(), true, 1);
    WedgeIsForever(TrippingRun() + LostProbes(1, 3, true), more, 1);
  }
}
