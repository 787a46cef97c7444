/** Runs of the breaker in which calls come one at a time, with their times. */
module BreakerTiming {
  import opened Words
  import opened CircuitBreaker

  datatype TimedCall = TimedCall(op: Op, nowNs: nat)

  /** The breaker's state and its failure timestamp. */
  datatype Memory = Memory(breaker: Breaker, lastFailureUs: nat)

  function After(m: Memory, c: TimedCall, threshold: u32, timeoutNs: nat): Memory {
    var reset := ShouldReset(m.lastFailureUs, c.nowNs, timeoutNs);
    var next := Call(m.breaker, c.op, reset, threshold).0;
    match c.op
    case Allow => Memory(next, m.lastFailureUs)
    case Success => Memory(next, if m.breaker.HalfOpen? && next.Closed? then 0 else m.lastFailureUs)
    case Failure => Memory(next, c.nowNs / 1000 + 1)
  }

  function Run(calls: seq<TimedCall>, threshold: u32, timeoutNs: nat): Memory {
    if calls == [] then Memory(Closed(0), 0)
    else After(Run(calls[..|calls| - 1], threshold, timeoutNs), calls[|calls| - 1], threshold, timeoutNs)
  }

  /** What the methods of the object compute on a word is what `After` says of the state. */
  lemma {:induction false} MethodsRefineAfter(m: Memory, c: TimedCall, threshold: u32, timeoutNs: nat)
    requires IsBreaker(m.breaker)
    ensures var reset := c.op == Allow && ShouldReset(m.lastFailureUs, c.nowNs, timeoutNs);
      && WordAfter(c.op, Encode(m.breaker), reset, threshold) == Encode(After(m, c, threshold, timeoutNs).breaker)
      && ResultOf(c.op, Encode(m.breaker), reset, threshold) == Call(m.breaker, c.op, reset, threshold).1
      && IsBreaker(After(m, c, threshold, timeoutNs).breaker)
    ensures c.op == Success ==>
      (ClosesOn(Encode(m.breaker), threshold) <==>
       m.breaker.HalfOpen? && After(m, c, threshold, timeoutNs).breaker.Closed?)
  {
    hide Encode, Decide;
    var reset := c.op == Allow && ShouldReset(m.lastFailureUs, c.nowNs, timeoutNs);
    PassRefinesCall(m.breaker, c.op, reset, threshold);
  }

  function LatestFailure(calls: seq<TimedCall>): Option<nat> {
    if calls == [] then None
    else if calls[|calls| - 1].op == Failure then Some(calls[|calls| - 1].nowNs)
    else LatestFailure(calls[..|calls| - 1])
  }

  /** Outside Closed the timestamp is that of the latest recorded failure; in particular it is set. */
  lemma {:induction false} OpenRemembersTheLatestFailure(calls: seq<TimedCall>, threshold: u32, timeoutNs: nat)
    ensures var m := Run(calls, threshold, timeoutNs);
      && IsBreaker(m.breaker)
      && (!m.breaker.Closed? ==>
          LatestFailure(calls).Some? && m.lastFailureUs == LatestFailure(calls).value / 1000 + 1)
  {
    if calls != [] {
      OpenRemembersTheLatestFailure(calls[..|calls| - 1], threshold, timeoutNs);
    }
  }

  /** The check wants time to have passed, even for a timeout of zero. */
  function Wait(timeoutNs: nat): nat {
    if timeoutNs == 0 then 1 else timeoutNs
  }

  /**
   * In every run that ends Open, a request is let through exactly from the timeout after the
   * latest failure on, the failure time taken in whole microseconds; earlier ones are refused.
   */
  lemma {:induction false} ReopensExactlyAtTheTimeout(calls: seq<TimedCall>, threshold: u32, timeoutNs: nat, nowNs: nat)
    requires Run(calls, threshold, timeoutNs).breaker.Open?
    ensures var m := Run(calls, threshold, timeoutNs);
      var reset := ShouldReset(m.lastFailureUs, nowNs, timeoutNs);
      && LatestFailure(calls).Some?
      && (Call(m.breaker, Allow, reset, threshold).1 <==>
          nowNs >= LatestFailure(calls).value / 1000 * 1000 + Wait(timeoutNs))
      && After(m, TimedCall(Allow, nowNs), threshold, timeoutNs).breaker ==
          (if Call(m.breaker, Allow, reset, threshold).1 then HalfOpen(0, 1) else m.breaker)
  {
    OpenRemembersTheLatestFailure(calls, threshold, timeoutNs);
  }

  /**
   * The full timeout is respected to the nanosecond exactly for failures recorded on a whole
   * microsecond; any other failure lets a request through less than a microsecond early.
   */
  lemma {:induction false} EarlyByLessThanAMicrosecond(calls: seq<TimedCall>, threshold: u32, timeoutNs: nat)
    requires Run(calls, threshold, timeoutNs).breaker.Open?
    ensures var m := Run(calls, threshold, timeoutNs);
      && LatestFailure(calls).Some?
      && var failed := LatestFailure(calls).value;
      && (forall now: nat | ShouldReset(m.lastFailureUs, now, timeoutNs) :: now > failed + Wait(timeoutNs) - 1000)
      && ((forall now: nat | ShouldReset(m.lastFailureUs, now, timeoutNs) :: now >= failed + Wait(timeoutNs))
          <==> failed % 1000 == 0)
  {
    OpenRemembersTheLatestFailure(calls, threshold, timeoutNs);
    var m := Run(calls, threshold, timeoutNs);
    assert ShouldReset(m.lastFailureUs, LatestFailure(calls).value / 1000 * 1000 + Wait(timeoutNs), timeoutNs);
  }
}
