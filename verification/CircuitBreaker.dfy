/**
 * The circuit breaker: its packed word, one pass of each CAS loop, and the abstract
 * three-state machine the word stands for.
 */
module CircuitBreaker {
  import opened Words

  const STATE_CLOSED: nat := 0
  const STATE_OPEN: nat := 1
  const STATE_HALFOPEN: nat := 2
  const HALF_OPEN_MAX_REQUESTS: nat := 3

  // ----- The packed word: [63:62] state, [47:32] failures, [31:16] successes, [15:0] requests -----

  function Pack(state: nat, failures: nat, successes: nat, requests: nat): u64
    requires state < 4
  {
    state * 0x4000_0000_0000_0000
    + (failures % 0x1_0000) * 0x1_0000_0000
    + (successes % 0x1_0000) * 0x1_0000
    + requests % 0x1_0000
  }

  function StateField(word: u64): nat {
    word / 0x4000_0000_0000_0000
  }

  function Failures(word: u64): nat {
    (word / 0x1_0000_0000) % 0x1_0000
  }

  function Successes(word: u64): nat {
    (word / 0x1_0000) % 0x1_0000
  }

  function HalfOpenRequests(word: u64): nat {
    word % 0x1_0000
  }

  /** Packing loses nothing but the bits above 16 of each counter. */
  lemma {:induction false} PackRoundTrips(state: nat, failures: nat, successes: nat, requests: nat)
    requires state < 4
    ensures var w := Pack(state, failures, successes, requests);
      && StateField(w) == state && Failures(w) == failures % 0x1_0000
      && Successes(w) == successes % 0x1_0000 && HalfOpenRequests(w) == requests % 0x1_0000
  {
    var w := Pack(state, failures, successes, requests);
    var high := state * 0x4000_0000 + failures % 0x1_0000;
    var middle := high * 0x1_0000 + successes % 0x1_0000;
    assert w == middle * 0x1_0000 + requests % 0x1_0000;
    assert w / 0x1_0000 == middle && w / 0x1_0000_0000 == high && w / 0x4000_0000_0000_0000 == state;
  }

  /** The layout: state in bits 62-63, failures in 32-47, successes in 16-31, half-open requests in 0-15. */
  lemma {:induction false} WordLayout(f: nat, s: nat, r: nat)
    requires f < 0x1_0000 && s < 0x1_0000 && r < 0x1_0000
    ensures Encode(Closed(f)) == f * 0x1_0000_0000
    ensures Encode(Open(f)) == 0x4000_0000_0000_0000 + f * 0x1_0000_0000
    ensures Encode(HalfOpen(s, r)) == 0x8000_0000_0000_0000 + s * 0x1_0000 + r
  {
    SmallField(f);
    SmallField(s);
    SmallField(r);
    SmallField(0);
  }

  lemma {:induction false} SmallField(x: nat)
    requires x < 0x1_0000
    ensures x % 0x1_0000 == x
  {
  }

  lemma {:induction false} PackMasks(state: nat, failures: nat)
    requires state < 4
    ensures Pack(state, failures % 0x1_0000, 0, 0) == Pack(state, failures, 0, 0)
  {
  }

  // ----- One pass of a CAS loop -----

  datatype Op = Allow | Success | Failure

  /** A pass either returns, or tries to replace the word it loaded. */
  datatype Action = Return(result: bool) | Cas(word: u64, closes: bool)

  function Decide(op: Op, current: u64, reset: bool, threshold: u32): Action {
    var state := StateField(current);
    match op
    case Allow =>
      if state == STATE_CLOSED then Return(true)
      else if state == STATE_OPEN then
        if reset then Cas(Pack(STATE_HALFOPEN, 0, 0, 1), false) else Return(false)
      else if state == STATE_HALFOPEN then
        var requests := HalfOpenRequests(current);
        if requests < HALF_OPEN_MAX_REQUESTS
        then Cas(Pack(STATE_HALFOPEN, Failures(current), Successes(current), requests + 1), false)
        else Return(false)
      else Return(false)
    case Success =>
      if state == STATE_CLOSED then Cas(Pack(STATE_CLOSED, 0, 0, 0), false)
      else if state == STATE_HALFOPEN then
        var successes := Successes(current) + 1;
        if successes >= HALF_OPEN_MAX_REQUESTS then Cas(Pack(STATE_CLOSED, 0, 0, 0), true)
        else Cas(Pack(STATE_HALFOPEN, Failures(current), successes, HalfOpenRequests(current)), false)
      else Return(true)
    case Failure =>
      if state == STATE_CLOSED then
        var failures := Failures(current) + 1;
        if failures >= threshold then Cas(Pack(STATE_OPEN, failures, 0, 0), false)
        else Cas(Pack(STATE_CLOSED, failures, 0, 0), false)
      else if state == STATE_HALFOPEN then Cas(Pack(STATE_OPEN, 0, 0, 0), false)
      else Return(true)
  }

  // ----- The abstract machine -----

  datatype Breaker =
    | Closed(failures: nat)
    | Open(failures: nat)
    | HalfOpen(successes: nat, requests: nat)

  /** The counters each state may carry; everything else in the word is zero. */
  predicate IsBreaker(b: Breaker) {
    match b
    case Closed(f) => f < 0x1_0000
    case Open(f) => f < 0x1_0000
    case HalfOpen(s, r) => s < HALF_OPEN_MAX_REQUESTS && 1 <= r <= HALF_OPEN_MAX_REQUESTS
  }

  function Encode(b: Breaker): u64 {
    match b
    case Closed(f) => Pack(STATE_CLOSED, f, 0, 0)
    case Open(f) => Pack(STATE_OPEN, f, 0, 0)
    case HalfOpen(s, r) => Pack(STATE_HALFOPEN, 0, s, r)
  }

  lemma {:induction false} EncodeFields(b: Breaker)
    requires IsBreaker(b)
    ensures StateField(Encode(b)) == if b.Closed? then STATE_CLOSED else if b.Open? then STATE_OPEN else STATE_HALFOPEN
    ensures !b.HalfOpen? ==> Failures(Encode(b)) == b.failures
    ensures b.HalfOpen? ==>
      Failures(Encode(b)) == 0 && Successes(Encode(b)) == b.successes && HalfOpenRequests(Encode(b)) == b.requests
  {
    hide Pack, StateField, Failures, Successes, HalfOpenRequests;
    match b
    case Closed(f) => PackRoundTrips(STATE_CLOSED, f, 0, 0);
    case Open(f) => PackRoundTrips(STATE_OPEN, f, 0, 0);
    case HalfOpen(s, r) => PackRoundTrips(STATE_HALFOPEN, 0, s, r);
  }

  /** One call on the abstract machine: the state after it and what it answers. */
  function Call(b: Breaker, op: Op, reset: bool, threshold: u32): (Breaker, bool) {
    match op
    case Allow =>
      (match b
       case Closed(_) => (b, true)
       case Open(_) => if reset then (HalfOpen(0, 1), true) else (b, false)
       case HalfOpen(s, r) => if r < HALF_OPEN_MAX_REQUESTS then (HalfOpen(s, r + 1), true) else (b, false))
    case Success =>
      (match b
       case Closed(_) => (Closed(0), true)
       case Open(_) => (b, true)
       case HalfOpen(s, r) => if s + 1 >= HALF_OPEN_MAX_REQUESTS then (Closed(0), true) else (HalfOpen(s + 1, r), true))
    case Failure =>
      (match b
       case Closed(f) => (if f + 1 >= threshold then Open((f + 1) % 0x1_0000) else Closed((f + 1) % 0x1_0000), true)
       case Open(_) => (b, true)
       case HalfOpen(_, _) => (Open(0), true))
  }

  /** On every word that encodes a state, one pass of the loop is one step of the machine. */
  lemma {:induction false} PassRefinesCall(b: Breaker, op: Op, reset: bool, threshold: u32)
    requires IsBreaker(b)
    ensures var (next, result) := Call(b, op, reset, threshold);
      && IsBreaker(next)
      && match Decide(op, Encode(b), reset, threshold)
         case Return(r) => next == b && r == result
         case Cas(w, closes) => w == Encode(next) && result && (closes <==> b.HalfOpen? && next.Closed?)
  {
    hide Pack, StateField, Failures, Successes, HalfOpenRequests;
    EncodeFields(b);
    if b.Closed? {
      PackMasks(STATE_OPEN, b.failures + 1);
      PackMasks(STATE_CLOSED, b.failures + 1);
    }
  }

  // ----- The object, called one method at a time -----

  /** Whether the timeout has passed; `lastFailureUs` is microseconds plus one, zero for never. */
  predicate ShouldReset(lastFailureUs: nat, nowNs: nat, timeoutNs: nat) {
    lastFailureUs != 0 &&
    var failedNs := (lastFailureUs - 1) * 1000;
    nowNs > failedNs && nowNs - failedNs >= timeoutNs
  }

  /** The word after a call that meets no interference. */
  function WordAfter(op: Op, word: u64, reset: bool, threshold: u32): u64 {
    match Decide(op, word, reset, threshold)
    case Return(_) => word
    case Cas(w, _) => w
  }

  function ResultOf(op: Op, word: u64, reset: bool, threshold: u32): bool {
    match Decide(op, word, reset, threshold)
    case Return(r) => r
    case Cas(_, _) => true
  }

  function ClosesOn(word: u64, threshold: u32): bool {
    var a := Decide(Success, word, false, threshold);
    a.Cas? && a.closes
  }

  /**
   * `spurious` is how often the weak compare-and-swap fails for no reason before it works.
   */
  class CircuitBreaker {
    var packed: u64
    var lastFailureUs: nat
    const threshold: u32
    const timeoutNs: nat

    constructor (threshold: u32, timeoutNs: nat)
      ensures packed == Encode(Closed(0)) && lastFailureUs == 0
      ensures this.threshold == threshold && this.timeoutNs == timeoutNs
    {
      packed := Pack(STATE_CLOSED, 0, 0, 0);
      lastFailureUs := 0;
      this.threshold, this.timeoutNs := threshold, timeoutNs;
    }

    method AllowRequest(nowNs: nat, spurious: nat) returns (allowed: bool)
      modifies `packed
      ensures var reset := ShouldReset(lastFailureUs, nowNs, timeoutNs);
        && packed == WordAfter(Allow, old(packed), reset, threshold)
        && allowed == ResultOf(Allow, old(packed), reset, threshold)
    {
      hide Pack, StateField, Failures, Successes, HalfOpenRequests;
      var misses := spurious;
      while true
        invariant packed == old(packed)
        decreases misses
      {
        var current := packed;
        var state := StateField(current);
        var next: u64;
        if state == STATE_CLOSED {
          return true;
        } else if state == STATE_OPEN {
          if !ShouldReset(lastFailureUs, nowNs, timeoutNs) {
            return false;
          }
          next := Pack(STATE_HALFOPEN, 0, 0, 1);
        } else if state == STATE_HALFOPEN {
          var requests := HalfOpenRequests(current);
          if requests >= HALF_OPEN_MAX_REQUESTS {
            return false;
          }
          next := Pack(STATE_HALFOPEN, Failures(current), Successes(current), requests + 1);
        } else {
          return false;
        }
        if misses == 0 {
          packed := next;
          return true;
        }
        misses := misses - 1;
      }
    }

    method RecordSuccess(spurious: nat)
      modifies this
      ensures packed == WordAfter(Success, old(packed), false, threshold)
      ensures lastFailureUs == if ClosesOn(old(packed), threshold) then 0 else old(lastFailureUs)
    {
      hide Pack, StateField, Failures, Successes, HalfOpenRequests;
      var misses := spurious;
      while true
        invariant packed == old(packed) && lastFailureUs == old(lastFailureUs)
        decreases misses
      {
        var current := packed;
        var state := StateField(current);
        var next: u64, closes := 0, false;
        if state == STATE_CLOSED {
          next := Pack(STATE_CLOSED, 0, 0, 0);
        } else if state == STATE_HALFOPEN {
          var successes, requests := Successes(current) + 1, HalfOpenRequests(current);
          if successes >= HALF_OPEN_MAX_REQUESTS {
            next, closes := Pack(STATE_CLOSED, 0, 0, 0), true;
          } else {
            next := Pack(STATE_HALFOPEN, Failures(current), successes, requests);
          }
        } else {
          return;
        }
        if misses == 0 {
          packed := next;
          if closes {
            lastFailureUs := 0;
          }
          return;
        }
        misses := misses - 1;
      }
    }

    method RecordFailure(nowNs: nat, spurious: nat)
      modifies this
      ensures packed == WordAfter(Failure, old(packed), false, threshold)
      ensures lastFailureUs == nowNs / 1000 + 1
    {
      lastFailureUs := nowNs / 1000 + 1;
      hide Pack, StateField, Failures, Successes, HalfOpenRequests;
      var misses := spurious;
      while true
        invariant packed == old(packed) && lastFailureUs == nowNs / 1000 + 1
        decreases misses
      {
        var current := packed;
        var state := StateField(current);
        var next: u64;
        if state == STATE_CLOSED {
          var failures := Failures(current) + 1;
          if failures >= threshold {
            next := Pack(STATE_OPEN, failures, 0, 0);
          } else {
            next := Pack(STATE_CLOSED, failures, 0, 0);
          }
        } else if state == STATE_HALFOPEN {
          next := Pack(STATE_OPEN, 0, 0, 0);
        } else {
          return;
        }
        if misses == 0 {
          packed := next;
          return;
        }
        misses := misses - 1;
      }
    }
  }
}
