/** The two FNV-1a hashes: over a byte string, and over a 64-bit key with a seed. */
module Fnv {
  import opened Words

  const FNV_OFFSET: u64 := 0xcbf29ce484222325

  /** Wrapping multiplication by the 64-bit FNV prime. */
  function TimesPrime(x: u64): u64 {
    (x * 0x100000001b3) % 0x1_0000_0000_0000_0000
  }

  function Round(hash: u64, b: byte): u64 {
    TimesPrime(Xor64(hash, b))
  }

  /** The running hash after absorbing `bytes` from the state `hash`. */
  function Absorb(hash: u64, bytes: seq<byte>): u64 {
    if bytes == [] then hash
    else Round(Absorb(hash, bytes[..|bytes| - 1]), bytes[|bytes| - 1])
  }

  function Hash(bytes: seq<byte>): u64 {
    Absorb(FNV_OFFSET, bytes)
  }

  function KeyBytes(key: u64): seq<byte> {
    seq(8, i requires 0 <= i < 8 => (key / Pow2(8 * i)) % 256)
  }

  function SeededHash(key: u64, seed: u64): u64 {
    Absorb(Xor64(FNV_OFFSET, seed), KeyBytes(key))
  }

  method Fnv1aHash(bytes: seq<byte>) returns (hash: u64)
    ensures hash == Hash(bytes)
  {
    hash := FNV_OFFSET;
    var i := 0;
    while i < |bytes|
      invariant 0 <= i <= |bytes|
      invariant hash == Absorb(FNV_OFFSET, bytes[..i])
    {
      assert bytes[..i + 1][..i] == bytes[..i];
      hash := Xor64(hash, bytes[i]);
      hash := TimesPrime(hash);
      i := i + 1;
    }
    assert bytes[..i] == bytes;
  }

  method HashBackend(key: u64, seed: u64) returns (hash: u64)
    ensures hash == SeededHash(key, seed)
  {
    hash := Xor64(FNV_OFFSET, seed);
    ghost var all := KeyBytes(key);
    for i := 0 to 8
      invariant hash == Absorb(Xor64(FNV_OFFSET, seed), all[..i])
    {
      assert all[..i + 1][..i] == all[..i];
      var b := (key / Pow2(8 * i)) % 256;
      hash := Xor64(hash, b);
      hash := TimesPrime(hash);
    }
    assert all[..8] == all;
  }

  // ----- No round loses information about the running hash -----

  /** The prime is odd, so multiplying by its inverse modulo 2^64 undoes a round. */
  lemma {:induction false} PrimeIsInvertible(x: u64)
    ensures (TimesPrime(x) * 0xce965057aff6957b) % 0x1_0000_0000_0000_0000 == x
  {
    var wraps := (x * 0x100000001b3) / 0x1_0000_0000_0000_0000;
    assert TimesPrime(x) == x * 0x100000001b3 - wraps * 0x1_0000_0000_0000_0000;
    WordMultiple(x, x * 0xce9650590f - wraps * 0xce965057aff6957b);
  }

  lemma {:induction false} WordMultiple(x: u64, k: int)
    ensures (x + 0x1_0000_0000_0000_0000 * k) % 0x1_0000_0000_0000_0000 == x
  {
  }

  lemma {:induction false} RoundIsInjective(h1: u64, h2: u64, b1: byte, b2: byte)
    requires Round(h1, b1) == Round(h2, b2)
    ensures Xor64(h1, b1) == Xor64(h2, b2)
  {
    PrimeIsInvertible(Xor64(h1, b1));
    PrimeIsInvertible(Xor64(h2, b2));
  }

  /** Absorbing the same bytes keeps different running hashes different. */
  lemma {:induction false} AbsorbIsInjective(h1: u64, h2: u64, bytes: seq<byte>)
    ensures Absorb(h1, bytes) == Absorb(h2, bytes) <==> h1 == h2
  {
    if bytes != [] && Absorb(h1, bytes) == Absorb(h2, bytes) {
      var front, last := bytes[..|bytes| - 1], bytes[|bytes| - 1];
      RoundIsInjective(Absorb(h1, front), Absorb(h2, front), last, last);
      XorCancels(Absorb(h1, front), last);
      XorCancels(Absorb(h2, front), last);
      AbsorbIsInjective(h1, h2, front);
    }
  }

  lemma {:induction false} AbsorbAppends(h: u64, a: seq<byte>, b: seq<byte>)
    ensures Absorb(h, a + b) == Absorb(Absorb(h, a), b)
    decreases |b|
  {
    if b == [] {
      assert a + b == a;
    } else {
      assert (a + b)[..|a + b| - 1] == a + b[..|b| - 1];
      AbsorbAppends(h, a, b[..|b| - 1]);
    }
  }

  /** A common suffix never creates and never removes a collision. */
  lemma {:induction false} SuffixKeepsCollisions(a: seq<byte>, b: seq<byte>, suffix: seq<byte>)
    ensures Hash(a + suffix) == Hash(b + suffix) <==> Hash(a) == Hash(b)
  {
    AbsorbAppends(FNV_OFFSET, a, suffix);
    AbsorbAppends(FNV_OFFSET, b, suffix);
    AbsorbIsInjective(Hash(a), Hash(b), suffix);
  }

  /** Changing one byte of a string always changes its hash. */
  lemma {:induction false} OneByteAlwaysShows(bytes: seq<byte>, i: nat, b: byte)
    requires i < |bytes|
    ensures Hash(bytes[i := b]) == Hash(bytes) <==> b == bytes[i]
  {
    var prefix, suffix, old_ := bytes[..i], bytes[i + 1..], bytes[i];
    var h := Hash(prefix);
    assert bytes == (prefix + [old_]) + suffix;
    assert bytes[i := b] == (prefix + [b]) + suffix;
    SuffixKeepsCollisions(prefix + [old_], prefix + [b], suffix);
    assert (prefix + [old_])[..i] == prefix && (prefix + [b])[..i] == prefix;
    if Hash(bytes[i := b]) == Hash(bytes) {
      RoundIsInjective(h, h, b, old_);
      XorIsSymmetric(h, b);
      XorIsSymmetric(h, old_);
      XorCancels(b, h);
      XorCancels(old_, h);
    }
  }

  /** For one backend, different seeds always give different hashes. */
  lemma {:induction false} SeedIsInjective(key: u64, seed1: u64, seed2: u64)
    ensures SeededHash(key, seed1) == SeededHash(key, seed2) <==> seed1 == seed2
  {
    AbsorbIsInjective(Xor64(FNV_OFFSET, seed1), Xor64(FNV_OFFSET, seed2), KeyBytes(key));
    XorIsSymmetric(FNV_OFFSET, seed1);
    XorIsSymmetric(FNV_OFFSET, seed2);
    XorCancels(seed1, FNV_OFFSET);
    XorCancels(seed2, FNV_OFFSET);
  }
}
