/**
 * The token bucket: 16.16 fixed-point tokens and a 32-bit millisecond offset in one word.
 *
 * Tokens, capacity and refill rate are fixed-point naturals; times are milliseconds since
 * creation, of which the word keeps the low 32 bits.
 */
module TokenBucket {
  import opened Words

  const CLOCK: nat := 0x1_0000_0000

  /** Fixed-point rates below 2^32 per millisecond, so that a refill fits 64 bits. */
  datatype Config = Config(capacity: nat, rate: nat)

  predicate IsConfig(c: Config) {
    c.capacity <= 65535 * 65536 && c.rate < CLOCK
  }

  /** Saturating conversion of a real number of tokens. */
  function ToFixed(x: real): (r: u64)
  {
    var scaled := (x * 65536.0).Floor;
    if scaled < 0 then 0 else if scaled >= 0x1_0000_0000_0000_0000 then 0xFFFF_FFFF_FFFF_FFFF else scaled
  }

  function Pack(tokens: nat, offsetMs: nat): u64 {
    (tokens * CLOCK) % 0x1_0000_0000_0000_0000 + offsetMs % CLOCK
  }

  function Tokens(word: u64): nat {
    word / CLOCK
  }

  function OffsetMs(word: u64): nat {
    word % CLOCK
  }

  /** Tokens above, time below, 32 bits each. */
  lemma {:induction false} PackRoundTrips(tokens: nat, offsetMs: nat)
    ensures Tokens(Pack(tokens, offsetMs)) == tokens % 0x1_0000_0000
    ensures OffsetMs(Pack(tokens, offsetMs)) == offsetMs % 0x1_0000_0000
    ensures Pack(tokens, offsetMs) == tokens % 0x1_0000_0000 * 0x1_0000_0000 + offsetMs % 0x1_0000_0000
  {
    var q, r := tokens / 0x1_0000_0000, tokens % 0x1_0000_0000;
    assert tokens * 0x1_0000_0000 == q * 0x1_0000_0000_0000_0000 + r * 0x1_0000_0000;
    assert (tokens * CLOCK) % 0x1_0000_0000_0000_0000 == r * 0x1_0000_0000;
  }

  function Min(a: nat, b: nat): nat {
    if a < b then a else b
  }

  /** 32-bit wrapping subtraction. */
  function Elapsed(nowMs: nat, offsetMs: nat): (e: nat)
    ensures e < CLOCK
  {
    (nowMs % CLOCK - offsetMs) % CLOCK
  }

  function Refilled(c: Config, word: u64, nowMs: nat): nat {
    Min(Tokens(word) + Elapsed(nowMs, OffsetMs(word)) * c.rate, c.capacity)
  }

  /** One pass of the loop on a loaded word: the word it would store, and the verdict. */
  function Attempt(c: Config, word: u64, need: nat, nowMs: nat): (u64, bool) {
    var tokens := Refilled(c, word, nowMs);
    if tokens >= need then (Pack(tokens - need, nowMs), true) else (Pack(tokens, nowMs), false)
  }

  class TokenBucket {
    var packed: u64
    const config: Config

    constructor (ratePerSecond: real, burst: nat)
      requires ToFixed(ratePerSecond / 1000.0) < CLOCK
      ensures IsConfig(config)
      ensures config == Configured(ratePerSecond, burst)
      ensures packed == Pack(config.capacity, 0)
    {
      var capacity := Min(burst, 65535) * 65536;
      config := Config(capacity, ToFixed(ratePerSecond / 1000.0));
      packed := Pack(capacity, 0);
    }

    /**
     * `spurious` counts the weak compare-and-swaps that fail for no reason on the granting
     * path; `lands` says whether the single best-effort one of a refusal succeeds.
     */
    method TryAcquireN(n: real, nowMs: nat, spurious: nat, lands: bool) returns (acquired: bool)
      requires IsConfig(config)
      modifies `packed
      ensures n <= 0.0 ==> acquired && packed == old(packed)
      ensures n > 0.0 ==>
        var (word, granted) := Attempt(config, old(packed), ToFixed(n), nowMs);
        acquired == granted && packed == if granted || lands then word else old(packed)
    {
      hide Elapsed, Pack, Tokens, OffsetMs, ToFixed;
      if n <= 0.0 {
        return true;
      }
      var need, now := ToFixed(n), nowMs % CLOCK;
      var misses := spurious;
      while true
        invariant packed == old(packed)
        decreases misses
      {
        var current := packed;
        LowHalfIsEnough(nowMs, OffsetMs(current));
        var elapsed := Elapsed(now, OffsetMs(current));
        var toAdd := elapsed * config.rate;
        RefillFits(config, current, elapsed);
        var tokens := Min(Tokens(current) + toAdd, config.capacity);
        if tokens >= need {
          if misses == 0 {
            packed := Pack(tokens - need, now);
            return true;
          }
          misses := misses - 1;
        } else {
          if lands {
            packed := Pack(tokens, now);
          }
          return false;
        }
      }
    }
  }

  lemma {:induction false} LowHalfIsEnough(nowMs: nat, offsetMs: nat)
    ensures Elapsed(nowMs % CLOCK, offsetMs) == Elapsed(nowMs, offsetMs)
    ensures forall tokens: nat :: Pack(tokens, nowMs % CLOCK) == Pack(tokens, nowMs)
  {
  }

  /** The sum that is capped never wraps around 64 bits. */
  lemma {:induction false} RefillFits(c: Config, word: u64, elapsed: nat)
    requires IsConfig(c) && elapsed < CLOCK
    ensures Tokens(word) + elapsed * c.rate < 0x1_0000_0000_0000_0000
  {
    assert elapsed * c.rate <= 0xFFFF_FFFF * 0xFFFF_FFFF by {
      MulBound(elapsed, c.rate, 0xFFFF_FFFF);
    }
  }

  lemma {:induction false} MulBound(a: nat, b: nat, m: nat)
    requires a <= m && b <= m
    ensures a * b <= m * m
  {
    assert m * m == a * b + a * (m - b) + (m - a) * m;
  }

  // ----- Runs of calls -----

  /** A call that asks for `need` fixed-point tokens; `lands` as above. */
  datatype Acquire = Acquire(need: nat, nowMs: nat, lands: bool)

  /** The bucket with its full refill time. */
  datatype Level = Level(tokens: nat, lastMs: nat)

  function Refill(c: Config, b: Level, nowMs: nat): nat {
    Min(b.tokens + (nowMs - b.lastMs) % CLOCK * c.rate, c.capacity)
  }

  predicate Grants(c: Config, b: Level, a: Acquire) {
    Refill(c, b, a.nowMs) >= a.need
  }

  function After(c: Config, b: Level, a: Acquire): Level {
    if Grants(c, b, a) then Level(Refill(c, b, a.nowMs) - a.need, a.nowMs)
    else if a.lands then Level(Refill(c, b, a.nowMs), a.nowMs)
    else b
  }

  function Run(c: Config, calls: seq<Acquire>): Level {
    if calls == [] then Level(c.capacity, 0) else After(c, Run(c, calls[..|calls| - 1]), calls[|calls| - 1])
  }

  /** The word holds the level and the low 32 bits of the refill time; the token field never spills. */
  lemma {:induction false} AttemptRefinesAfter(c: Config, b: Level, a: Acquire)
    requires IsConfig(c) && b.tokens <= c.capacity
    ensures After(c, b, a).tokens <= c.capacity < CLOCK
    ensures Tokens(Pack(b.tokens, b.lastMs)) == b.tokens
    ensures var (word, granted) := Attempt(c, Pack(b.tokens, b.lastMs), a.need, a.nowMs);
      && granted == Grants(c, b, a)
      && (granted || a.lands ==> word == Pack(After(c, b, a).tokens, After(c, b, a).lastMs))
  {
    PackRoundTrips(b.tokens, b.lastMs);
    WrappedElapsed(a.nowMs, b.lastMs);
  }

  /** Wrapping subtraction of the low halves is the true difference modulo 2^32. */
  lemma {:induction false} WrappedElapsed(nowMs: nat, lastMs: nat)
    ensures Elapsed(nowMs, lastMs % CLOCK) == (nowMs - lastMs) % CLOCK
  {
  }

  lemma {:induction false} TokensNeverExceedCapacity(c: Config, calls: seq<Acquire>)
    ensures Run(c, calls).tokens <= c.capacity
  {
    if calls != [] { TokensNeverExceedCapacity(c, calls[..|calls| - 1]); }
  }

  ghost predicate IsMonotone(calls: seq<Acquire>) {
    forall i, j :: 0 <= i < j < |calls| ==> calls[i].nowMs <= calls[j].nowMs
  }

  /** The tokens granted by calls from..|calls|. */
  function Granted(c: Config, calls: seq<Acquire>, from: nat): nat {
    if |calls| <= from then 0 else
    var front, last := calls[..|calls| - 1], calls[|calls| - 1];
    Granted(c, front, from) + if Grants(c, Run(c, front), last) then last.need else 0
  }

  lemma {:induction false} LastRefillIsPast(c: Config, calls: seq<Acquire>, nowMs: nat)
    requires IsMonotone(calls) && (calls != [] ==> calls[|calls| - 1].nowMs <= nowMs)
    ensures Run(c, calls).lastMs <= nowMs
  {
    if calls != [] {
      var front := calls[..|calls| - 1];
      LastRefillIsPast(c, front, nowMs);
    }
  }

  /** Modulo 2^32 an elapsed time only ever shrinks, so a refill is never too large. */
  lemma {:induction false} RefillIsBounded(c: Config, b: Level, nowMs: nat)
    requires b.lastMs <= nowMs
    ensures Refill(c, b, nowMs) <= c.capacity
    ensures Refill(c, b, nowMs) <= b.tokens + c.rate * (nowMs - b.lastMs)
  {
    var e, gap := (nowMs - b.lastMs) % CLOCK, nowMs - b.lastMs;
    assert c.rate * gap == e * c.rate + (gap - e) * c.rate;
  }

  lemma {:induction false} SpansAdd(rate: nat, start: nat, middle: nat, end: nat)
    requires start <= middle <= end
    ensures rate * (end - start) == rate * (middle - start) + rate * (end - middle)
    ensures rate * (middle - start) >= 0 && rate * (end - middle) >= 0
  {
  }

  /** What was granted in the window plus what is left never exceeds capacity plus refill. */
  lemma {:induction false} WindowBalance(c: Config, calls: seq<Acquire>, from: nat)
    requires IsMonotone(calls) && from < |calls|
    ensures var b := Run(c, calls);
      if b.lastMs < calls[from].nowMs then Granted(c, calls, from) == 0
      else Granted(c, calls, from) + b.tokens <= c.capacity + c.rate * (b.lastMs - calls[from].nowMs)
  {
    hide Refill;
    var front, last, start := calls[..|calls| - 1], calls[|calls| - 1], calls[from].nowMs;
    var b := Run(c, front);
    LastRefillIsPast(c, front, last.nowMs);
    RefillIsBounded(c, b, last.nowMs);
    SpansAdd(c.rate, start, start, last.nowMs);
    if from < |front| {
      WindowBalance(c, front, from);
      if start <= b.lastMs { SpansAdd(c.rate, start, b.lastMs, last.nowMs); }
    } else {
      TokensNeverExceedCapacity(c, front);
    }
  }

  /**
   * The rate bound: over any window of any run on a monotone clock, also across the 32-bit
   * wrap-around, the tokens granted are at most capacity plus rate times the window length.
   */
  lemma {:induction false} RateBound(c: Config, calls: seq<Acquire>, from: nat, to: nat)
    requires IsMonotone(calls) && from < to <= |calls|
    ensures Granted(c, calls[..to], from) <= c.capacity + c.rate * (calls[to - 1].nowMs - calls[from].nowMs)
  {
    hide Refill, After;
    var window, start, end := calls[..to], calls[from].nowMs, calls[to - 1].nowMs;
    WindowBalance(c, window, from);
    LastRefillIsPast(c, window, end);
    SpansAdd(c.rate, start, if start <= Run(c, window).lastMs then Run(c, window).lastMs else start, end);
  }

  // ----- Calls whose times go backwards -----

  /** How far `now` is ahead of `last`; zero if it is behind. */
  function Ahead(last: nat, now: nat): nat {
    if now < last then 0 else now - last
  }

  /** A refill that credits more than the time since the last one, because the pass is behind it. */
  predicate Overcredits(c: Config, b: Level, nowMs: nat) {
    nowMs < b.lastMs && (nowMs - b.lastMs) % CLOCK != 0 && c.rate != 0 && b.tokens < c.capacity
  }

  /** What a stale pass does to the level. */
  lemma {:induction false} OvercreditsIff(c: Config, b: Level, nowMs: nat)
    requires b.tokens <= c.capacity
    ensures Refill(c, b, nowMs) > b.tokens + c.rate * Ahead(b.lastMs, nowMs) <==> Overcredits(c, b, nowMs)
  {
    if b.lastMs <= nowMs {
      RefillIsBounded(c, b, nowMs);
    } else {
      var e := (nowMs - b.lastMs) % CLOCK;
      Positive(e, c.rate);
    }
  }

  lemma {:induction false} Positive(e: nat, rate: nat)
    ensures e * rate > 0 <==> e != 0 && rate != 0
    ensures e * rate >= 0
  {
    if e != 0 && rate != 0 { assert e * rate == (e - 1) * rate + rate; }
  }

  ghost predicate AllLand(calls: seq<Acquire>) {
    forall k :: 0 <= k < |calls| ==> calls[k].lands
  }

  /** Calls at these times, all of whose writes land. */
  ghost predicate HasTimes(calls: seq<Acquire>, ts: seq<nat>) {
    && |calls| == |ts| && AllLand(calls)
    && forall k :: 0 <= k < |calls| ==> calls[k].nowMs == ts[k]
  }

  lemma {:induction false} LastLanded(c: Config, calls: seq<Acquire>)
    requires AllLand(calls) && calls != []
    ensures Run(c, calls).lastMs == calls[|calls| - 1].nowMs
  {
  }

  /** What the refills after call `from` can add: each gap taken modulo 2^32, and at most the capacity. */
  function Credit(c: Config, ts: seq<nat>, from: nat): nat {
    if |ts| <= from + 1 then 0 else
    Credit(c, ts[..|ts| - 1], from) + Min((ts[|ts| - 1] - ts[|ts| - 2]) % CLOCK * c.rate, c.capacity)
  }

  lemma {:induction false} RefillAdds(c: Config, b: Level, nowMs: nat)
    ensures Refill(c, b, nowMs) <= c.capacity
    ensures Refill(c, b, nowMs) <= b.tokens + Min((nowMs - b.lastMs) % CLOCK * c.rate, c.capacity)
  {
  }

  /** In any order of times, grants and what is left never exceed capacity plus credit. */
  lemma {:induction false} CreditBound(c: Config, calls: seq<Acquire>, ts: seq<nat>, from: nat)
    requires HasTimes(calls, ts) && from < |calls|
    ensures Granted(c, calls, from) + Run(c, calls).tokens <= c.capacity + Credit(c, ts, from)
  {
    hide Refill, Min;
    var front, last := calls[..|calls| - 1], calls[|calls| - 1];
    RefillAdds(c, Run(c, front), last.nowMs);
    if from < |front| {
      CreditBound(c, front, ts[..|ts| - 1], from);
      LastLanded(c, front);
    }
  }

  /** Calls that take all there is, from call `from` on. */
  function Drain(c: Config, ts: seq<nat>, from: nat): (calls: seq<Acquire>)
    ensures |calls| == |ts|
  {
    if ts == [] then [] else
    var k := |ts| - 1;
    var need :=
      if k < from then 0 else if k == from then c.capacity else Min((ts[k] - ts[k - 1]) % CLOCK * c.rate, c.capacity);
    Drain(c, ts[..k], from) + [Acquire(need, ts[k], true)]
  }

  lemma {:induction false} DrainHasTimes(c: Config, ts: seq<nat>, from: nat)
    ensures HasTimes(Drain(c, ts, from), ts)
  {
    if ts != [] { DrainHasTimes(c, ts[..|ts| - 1], from); }
  }

  /** They get capacity and credit to the last token. */
  lemma {:induction false} DrainGetsAll(c: Config, ts: seq<nat>, from: nat)
    ensures var calls := Drain(c, ts, from);
      && Run(c, calls).tokens == (if |ts| <= from then c.capacity else 0)
      && Granted(c, calls, from) == (if |ts| <= from then 0 else c.capacity + Credit(c, ts, from))
  {
    if ts != [] {
      var k := |ts| - 1;
      var calls, front := Drain(c, ts, from), Drain(c, ts[..k], from);
      DrainGetsAll(c, ts[..k], from);
      DrainHasTimes(c, ts[..k], from);
      assert calls[..k] == front;
      DrainStep(c, Run(c, front), ts[k]);
      if 0 < k { LastLanded(c, front); }
    }
  }

  lemma {:induction false} DrainStep(c: Config, b: Level, nowMs: nat)
    ensures b.tokens == c.capacity ==> Refill(c, b, nowMs) == c.capacity
    ensures b.tokens == 0 ==> Refill(c, b, nowMs) == Min((nowMs - b.lastMs) % CLOCK * c.rate, c.capacity)
  {
  }

  /**
   * The exact condition on the times: whatever the calls ask for, grants stay within capacity
   * plus `extra` exactly if the credit does.
   */
  lemma {:induction false} BoundHoldsIff(c: Config, ts: seq<nat>, from: nat, extra: int)
    requires from < |ts|
    ensures (forall calls: seq<Acquire> | HasTimes(calls, ts) :: Granted(c, calls, from) <= c.capacity + extra)
      <==> Credit(c, ts, from) <= extra
  {
    if Credit(c, ts, from) <= extra {
      forall calls: seq<Acquire> | HasTimes(calls, ts) ensures Granted(c, calls, from) <= c.capacity + extra {
        CreditBound(c, calls, ts, from);
      }
    } else {
      DrainHasTimes(c, ts, from);
      DrainGetsAll(c, ts, from);
      assert HasTimes(Drain(c, ts, from), ts);
    }
  }

  /** Times in order meet it with the length of the window. */
  lemma {:induction false} OrderedCredit(c: Config, ts: seq<nat>, from: nat)
    requires from < |ts| && forall i, j :: 0 <= i < j < |ts| ==> ts[i] <= ts[j]
    ensures Credit(c, ts, from) <= c.rate * (ts[|ts| - 1] - ts[from])
  {
    var k := |ts| - 1;
    if from < k {
      hide Min;
      OrderedCredit(c, ts[..k], from);
      GapCredit(c, ts[k - 1], ts[k]);
      SpansAdd(c.rate, ts[from], ts[k - 1], ts[k]);
    } else {
      SpansAdd(c.rate, ts[from], ts[from], ts[from]);
    }
  }

  lemma {:induction false} GapCredit(c: Config, t1: nat, t2: nat)
    requires t1 <= t2
    ensures Min((t2 - t1) % CLOCK * c.rate, c.capacity) <= c.rate * (t2 - t1)
  {
    var gap := t2 - t1;
    RefillSplits(c.rate, gap, gap % CLOCK);
  }

  /** The time the writes after call `from` moved forward, in all. */
  function Forward(ts: seq<nat>, from: nat): nat {
    if |ts| <= from + 1 then 0
    else Forward(ts[..|ts| - 1], from) + Ahead(ts[|ts| - 2], ts[|ts| - 1])
  }

  ghost predicate NeverOvercredits(c: Config, calls: seq<Acquire>, from: nat) {
    forall k :: from < k < |calls| ==> !Overcredits(c, Run(c, calls[..k]), calls[k].nowMs)
  }

  /** If no write after call `from` overcredits, grants are within capacity plus rate times the forward moves. */
  lemma {:induction false} HonestBound(c: Config, calls: seq<Acquire>, ts: seq<nat>, from: nat)
    requires HasTimes(calls, ts) && from < |calls| && NeverOvercredits(c, calls, from)
    ensures Granted(c, calls, from) + Run(c, calls).tokens <= c.capacity + c.rate * Forward(ts, from)
  {
    hide Refill, Overcredits, Ahead, Forward;
    var front, last := calls[..|calls| - 1], calls[|calls| - 1];
    RefillAdds(c, Run(c, front), last.nowMs);
    if from < |front| {
      forall k | from < k < |front| ensures !Overcredits(c, Run(c, front[..k]), front[k].nowMs) {
        assert front[..k] == calls[..k];
      }
      HonestBound(c, front, ts[..|ts| - 1], from);
      LastLanded(c, front);
      TokensNeverExceedCapacity(c, front);
      OvercreditsIff(c, Run(c, front), last.nowMs);
      ForwardAdds(c.rate, ts, from);
    }
  }

  lemma {:induction false} ForwardAdds(rate: nat, ts: seq<nat>, from: nat)
    requires from + 1 < |ts|
    ensures rate * Forward(ts, from)
      == rate * Forward(ts[..|ts| - 1], from) + rate * Ahead(ts[|ts| - 2], ts[|ts| - 1])
  {
    hide Ahead;
  }

  // ----- The configured rate -----

  /** The bucket a configuration of tokens per second and burst stands for. */
  function Configured(ratePerSecond: real, burst: nat): Config {
    Config(Min(burst, 65535) * 65536, ToFixed(ratePerSecond / 1000.0))
  }

  /** Fixed point rounds the rate down, so a slow enough rate never refills at all. */
  lemma {:induction false} NeverRefillsIff(ratePerSecond: real, burst: nat)
    ensures Configured(ratePerSecond, burst).rate == 0 <==> ratePerSecond * 65536.0 < 1000.0
  {
    assert ratePerSecond / 1000.0 * 65536.0 < 1.0 <==> ratePerSecond * 65536.0 < 1000.0;
  }

  lemma {:induction false} FixedIsBelow(x: real)
    requires 0.0 <= x
    ensures ToFixed(x) as real <= x * 65536.0
  {
  }

  /** Fixed point is exact to one unit of 1/65536 below 2^48 tokens, and saturates beyond at both ends. */
  lemma {:induction false} FixedIsClose(x: real)
    ensures 0.0 <= x < 281474976710656.0 ==> x * 65536.0 - 1.0 < ToFixed(x) as real <= x * 65536.0
    ensures x <= 0.0 ==> ToFixed(x) == 0
    ensures 281474976710656.0 <= x ==> ToFixed(x) == 0xFFFF_FFFF_FFFF_FFFF
  {
  }

  lemma {:induction false} FixedOfWhole(k: nat)
    requires k < 0x1_0000_0000_0000
    ensures ToFixed(k as real) == 65536 * k
  {
    assert k as real * 65536.0 == (65536 * k) as real;
  }

  lemma {:induction false} FixedIsMonotone(x: real, y: real)
    requires x <= y
    ensures ToFixed(x) <= ToFixed(y)
  {
    assert (x * 65536.0).Floor <= (y * 65536.0).Floor;
  }

  /** The stored rate, per millisecond and in units of 1/65536, is the configured one rounded down. */
  lemma {:induction false} ConfiguredRateIsClose(ratePerSecond: real, burst: nat)
    requires 0.0 <= ratePerSecond < 281474976710656000.0
    ensures var rate := Configured(ratePerSecond, burst).rate as real;
      ratePerSecond * 65.536 - 1.0 < rate <= ratePerSecond * 65.536
  {
    FixedIsClose(ratePerSecond / 1000.0);
    assert ratePerSecond / 1000.0 * 65536.0 == ratePerSecond * 65.536;
  }

  // ----- Counting whole tokens -----

  /** `n` calls for one token each, at one time. */
  function Ones(n: nat, ms: nat): (calls: seq<Acquire>)
    ensures |calls| == n
  {
    if n == 0 then [] else Ones(n - 1, ms) + [Acquire(ToFixed(1.0), ms, true)]
  }

  /** How many calls, from a level on, are granted. */
  function GrantCount(c: Config, b: Level, calls: seq<Acquire>): nat {
    if calls == [] then 0 else
    var front := calls[..|calls| - 1];
    GrantCount(c, b, front) + if Grants(c, RunFrom(c, b, front), calls[|calls| - 1]) then 1 else 0
  }

  function RunFrom(c: Config, b: Level, calls: seq<Acquire>): Level {
    if calls == [] then b else After(c, RunFrom(c, b, calls[..|calls| - 1]), calls[|calls| - 1])
  }

  /** Calls at one time take whole tokens while there are any. */
  lemma {:induction false} WholeTokens(c: Config, b: Level, n: nat, ms: nat)
    ensures var (tokens, calls) := (Refill(c, b, ms), Ones(n, ms));
      && GrantCount(c, b, calls) == Min(n, tokens / 65536)
      && (0 < n ==> RunFrom(c, b, calls) == Level(tokens - 65536 * Min(n, tokens / 65536), ms))
  {
    FixedOfWhole(1);
    if n != 0 {
      hide ToFixed, Refill;
      WholeTokens(c, b, n - 1, ms);
      var front, last := Ones(n - 1, ms), Acquire(ToFixed(1.0), ms, true);
      assert Ones(n, ms)[..n - 1] == front;
      var before := RunFrom(c, b, front);
      SameTime(c, before, ms);
      RefillIsCapped(c, b, ms);
    }
  }

  lemma {:induction false} SameTime(c: Config, b: Level, ms: nat)
    ensures b.lastMs == ms && b.tokens <= c.capacity ==> Refill(c, b, ms) == b.tokens
  {
  }

  lemma {:induction false} RefillIsCapped(c: Config, b: Level, ms: nat)
    ensures Refill(c, b, ms) <= c.capacity
  {
  }

  /**
   * A new bucket grants its burst, at most 65535, and refuses the rest; drained, it grants `t` ms
   * later what the rate brought in whole tokens, up to the burst, and refuses the rest.
   */
  lemma {:induction false} BurstThenRate(ratePerSecond: real, burst: nat, n: nat, ms: nat, m: nat, t: nat)
    requires t < CLOCK
    ensures var (c, b) := (Configured(ratePerSecond, burst), Min(burst, 65535));
      && GrantCount(c, Level(c.capacity, 0), Ones(n, ms)) == Min(n, b)
      && (b <= n && 0 < n ==>
          GrantCount(c, RunFrom(c, Level(c.capacity, 0), Ones(n, ms)), Ones(m, ms + t))
          == Min(m, Min(b, t * c.rate / 65536)))
  {
    hide ToFixed, Refill;
    var c, b := Configured(ratePerSecond, burst), Min(burst, 65535);
    var full := Level(c.capacity, 0);
    FullStaysFull(c, full, ms);
    WholeTokens(c, full, n, ms);
    if b <= n && 0 < n {
      var drained := RunFrom(c, full, Ones(n, ms));
      assert drained == Level(0, ms);
      WholeTokens(c, drained, m, ms + t);
      RefillFromZero(c, ms, t);
      WholePart(t * c.rate, b);
    }
  }

  lemma {:induction false} FullStaysFull(c: Config, b: Level, ms: nat)
    ensures b.tokens == c.capacity ==> Refill(c, b, ms) == c.capacity
  {
  }

  lemma {:induction false} RefillFromZero(c: Config, ms: nat, t: nat)
    requires t < CLOCK
    ensures Refill(c, Level(0, ms), ms + t) == Min(t * c.rate, c.capacity)
  {
  }

  lemma {:induction false} WholePart(x: nat, b: nat)
    ensures Min(x, b * 65536) / 65536 == Min(b, x / 65536)
  {
  }

  /** In the operator's units: whole tokens in a window are at most burst plus rate times seconds. */
  lemma {:induction false} ConfiguredRateHolds(ratePerSecond: real, burst: nat, calls: seq<Acquire>, from: nat, to: nat)
    requires 0.0 <= ratePerSecond && IsMonotone(calls) && from < to <= |calls|
    ensures var c := Configured(ratePerSecond, burst);
      var seconds := (calls[to - 1].nowMs - calls[from].nowMs) as real / 1000.0;
      Granted(c, calls[..to], from) as real / 65536.0 <= burst as real + ratePerSecond * seconds
  {
    hide ToFixed, Granted;
    var c, ms := Configured(ratePerSecond, burst), calls[to - 1].nowMs - calls[from].nowMs;
    RateBound(c, calls, from, to);
    FixedIsBelow(ratePerSecond / 1000.0);
    UnitsBound(c.rate, ratePerSecond / 1000.0 * 65536.0, ms);
  }

  lemma {:induction false} UnitsBound(rate: nat, limit: real, ms: nat)
    requires rate as real <= limit
    ensures (rate * ms) as real <= limit * ms as real
  {
    assert (limit - rate as real) * ms as real >= 0.0;
  }

  // ----- The ideal bucket, refilled every millisecond -----

  function Ticks(c: Config, tokens: nat, ms: nat): nat {
    if ms == 0 then tokens else Min(Ticks(c, tokens, ms - 1) + c.rate, c.capacity)
  }

  lemma {:induction false} TicksAddUp(c: Config, tokens: nat, ms: nat)
    requires tokens <= c.capacity
    ensures Ticks(c, tokens, ms) == Min(tokens + ms * c.rate, c.capacity)
  {
    if ms != 0 {
      TicksAddUp(c, tokens, ms - 1);
      assert ms * c.rate == (ms - 1) * c.rate + c.rate;
    }
  }

  lemma {:induction false} NoTicks(c: Config, tokens: nat)
    ensures Ticks(c, tokens, 0) == tokens
  {
  }

  lemma {:induction false} TicksCompose(c: Config, tokens: nat, ms1: nat, ms2: nat)
    ensures Ticks(c, Ticks(c, tokens, ms1), ms2) == Ticks(c, tokens, ms1 + ms2)
  {
    if ms2 != 0 { TicksCompose(c, tokens, ms1, ms2 - 1); }
  }

  /**
   * One lazy refill equals the ideal one exactly when the gap is under 2^32 ms, or the wrapped
   * gap already fills the bucket, or nothing is ever refilled.
   */
  lemma {:induction false} RefillIsIdealIff(c: Config, b: Level, nowMs: nat)
    requires b.tokens <= c.capacity && b.lastMs <= nowMs
    ensures var gap := nowMs - b.lastMs;
      Refill(c, b, nowMs) == Ticks(c, b.tokens, gap)
      <==> gap < CLOCK || c.rate == 0 || b.tokens + gap % CLOCK * c.rate >= c.capacity
  {
    hide Ticks;
    var gap := nowMs - b.lastMs;
    var e := gap % CLOCK;
    TicksAddUp(c, b.tokens, gap);
    RefillSplits(c.rate, gap, e);
  }

  lemma {:induction false} RefillSplits(rate: nat, gap: nat, e: nat)
    requires e <= gap
    ensures gap * rate == e * rate + (gap - e) * rate
    ensures (gap - e) * rate == 0 <==> gap == e || rate == 0
    ensures (gap - e) * rate >= 0
  {
  }

  /** The ideal bucket consumes on a grant and has no refill times to keep. */
  datatype Ideal = Ideal(tokens: nat, atMs: nat)

  function IdealAt(c: Config, m: Ideal, nowMs: nat): nat {
    Ticks(c, m.tokens, if m.atMs <= nowMs then nowMs - m.atMs else 0)
  }

  function IdealRun(c: Config, calls: seq<Acquire>): Ideal {
    if calls == [] then Ideal(c.capacity, 0) else
    var (m, a) := (IdealRun(c, calls[..|calls| - 1]), calls[|calls| - 1]);
    var tokens := IdealAt(c, m, a.nowMs);
    Ideal(if tokens >= a.need then tokens - a.need else tokens, a.nowMs)
  }

  /** Every call comes within 2^32 ms of the refill time stored when it is made. */
  ghost predicate IsPrompt(c: Config, calls: seq<Acquire>) {
    forall k :: 0 <= k < |calls| ==> calls[k].nowMs - Run(c, calls[..k]).lastMs < CLOCK
  }

  lemma {:induction false} PromptPrefix(c: Config, calls: seq<Acquire>)
    requires calls != [] && IsMonotone(calls) && IsPrompt(c, calls)
    ensures var front := calls[..|calls| - 1];
      IsMonotone(front) && IsPrompt(c, front) && calls[|calls| - 1].nowMs - Run(c, front).lastMs < CLOCK
  {
    var front := calls[..|calls| - 1];
    forall k | 0 <= k < |front| ensures calls[k].nowMs - Run(c, front[..k]).lastMs < CLOCK {
      assert front[..k] == calls[..k];
    }
  }

  /** The stored level, brought forward to the time of the last call, is the ideal level. */
  lemma {:induction false} LazyTracksIdeal(c: Config, calls: seq<Acquire>)
    requires IsMonotone(calls) && IsPrompt(c, calls)
    ensures var (b, m) := (Run(c, calls), IdealRun(c, calls));
      b.lastMs <= m.atMs && m.tokens <= c.capacity && b.tokens <= c.capacity
      && m.atMs == (if calls == [] then 0 else calls[|calls| - 1].nowMs)
      && Ticks(c, b.tokens, m.atMs - b.lastMs) == m.tokens
  {
    if calls != [] {
      var front, a := calls[..|calls| - 1], calls[|calls| - 1];
      hide Ticks, Refill, IdealAt, IsPrompt;
      PromptPrefix(c, calls);
      LazyTracksIdeal(c, front);
      LazyStep(c, front, a);
    }
  }

  lemma {:induction false} LazyStep(c: Config, front: seq<Acquire>, a: Acquire)
    requires var (b, m) := (Run(c, front), IdealRun(c, front));
      && b.lastMs <= m.atMs <= a.nowMs && a.nowMs - b.lastMs < CLOCK
      && b.tokens <= c.capacity && Ticks(c, b.tokens, m.atMs - b.lastMs) == m.tokens
    ensures var (b, tokens) := (After(c, Run(c, front), a), IdealAt(c, IdealRun(c, front), a.nowMs));
      var left := if tokens >= a.need then tokens - a.need else tokens;
      && b.lastMs <= a.nowMs && left <= c.capacity && b.tokens <= c.capacity
      && Ticks(c, b.tokens, a.nowMs - b.lastMs) == left
  {
    hide Ticks, Refill, IdealAt, Run, IdealRun;
    LazyDecidesIdeally(c, front, a);
    NoTicks(c, After(c, Run(c, front), a).tokens);
  }

  /** So the next call sees the same tokens in both, and gets the same answer. */
  lemma {:induction false} LazyDecidesIdeally(c: Config, calls: seq<Acquire>, a: Acquire)
    requires var (b, m) := (Run(c, calls), IdealRun(c, calls));
      && b.lastMs <= m.atMs <= a.nowMs && a.nowMs - b.lastMs < CLOCK
      && b.tokens <= c.capacity && Ticks(c, b.tokens, m.atMs - b.lastMs) == m.tokens
    ensures Refill(c, Run(c, calls), a.nowMs) == IdealAt(c, IdealRun(c, calls), a.nowMs)
    ensures Ticks(c, Run(c, calls).tokens, a.nowMs - Run(c, calls).lastMs) == IdealAt(c, IdealRun(c, calls), a.nowMs)
    ensures IdealAt(c, IdealRun(c, calls), a.nowMs) <= c.capacity
  {
    hide Ticks, Run, IdealRun;
    var b, m := Run(c, calls), IdealRun(c, calls);
    TicksCompose(c, b.tokens, m.atMs - b.lastMs, a.nowMs - m.atMs);
    RefillIsIdealIff(c, b, a.nowMs);
  }

  /** The lazy bucket refines the ideal one: in every prompt run each call gets the ideal answer. */
  lemma {:induction false} LazyRefinesIdeal(c: Config, calls: seq<Acquire>, k: nat)
    requires IsMonotone(calls) && IsPrompt(c, calls) && k < |calls|
    ensures Grants(c, Run(c, calls[..k]), calls[k])
      <==> IdealAt(c, IdealRun(c, calls[..k]), calls[k].nowMs) >= calls[k].need
  {
    var front := calls[..k];
    forall i | 0 <= i < k ensures front[i].nowMs - Run(c, front[..i]).lastMs < CLOCK {
      assert front[..i] == calls[..i];
    }
    LazyTracksIdeal(c, front);
    LazyDecidesIdeally(c, front, calls[k]);
  }

  /** The same calls at the same times, differing only in whether refusals were written back. */
  ghost predicate SameCalls(a: seq<Acquire>, b: seq<Acquire>) {
    |a| == |b| && forall k :: 0 <= k < |a| ==> a[k].need == b[k].need && a[k].nowMs == b[k].nowMs
  }

  lemma {:induction false} IdealIgnoresLanding(c: Config, a: seq<Acquire>, b: seq<Acquire>)
    requires SameCalls(a, b)
    ensures IdealRun(c, a) == IdealRun(c, b)
  {
    if a != [] { IdealIgnoresLanding(c, a[..|a| - 1], b[..|b| - 1]); }
  }

  /** A refused call is invisible: whether its write lands changes no later answer. */
  lemma {:induction false} RefusalsAreInvisible(c: Config, a: seq<Acquire>, b: seq<Acquire>, k: nat)
    requires SameCalls(a, b) && IsMonotone(a) && IsPrompt(c, a) && IsPrompt(c, b) && k < |a|
    ensures Grants(c, Run(c, a[..k]), a[k]) == Grants(c, Run(c, b[..k]), b[k])
  {
    hide IdealAt, Grants, Run, IdealRun, IsPrompt;
    assert IsMonotone(b);
    LazyRefinesIdeal(c, a, k);
    LazyRefinesIdeal(c, b, k);
    IdealIgnoresLanding(c, a[..k], b[..k]);
  }
}
