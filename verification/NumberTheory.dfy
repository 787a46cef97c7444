/** Arithmetic modulo a prime: why a Maglev table size has to be prime. */
module NumberTheory {

  predicate Divides(d: nat, n: nat)
    requires d != 0
  {
    n % d == 0
  }

  ghost predicate IsPrime(p: nat) {
    2 <= p && forall d: nat | 2 <= d < p :: !Divides(d, p)
  }

  lemma {:induction false} FactorSign(p: int, z: int)
    requires 0 < p
    ensures z < 0 ==> p * z <= -p
    ensures 0 < z ==> p <= p * z
  {
  }

  lemma {:induction false} MultipleIsDivisible(d: nat, k: nat)
    requires d != 0
    ensures Divides(d, d * k)
  {
    var q, r := (d * k) / d, (d * k) % d;
    assert d * (k - q) == r;
    FactorSign(d, k - q);
  }

  lemma {:induction false} ModShift(x: nat, n: nat, q: nat)
    requires n != 0
    ensures (x + n * q) % n == x % n
  {
    var y := x + n * q;
    assert n * (y / n - q - x / n) == x % n - y % n;
    FactorSign(n, y / n - q - x / n);
  }

  lemma {:induction false} ModAdd(a: nat, b: nat, n: nat)
    requires n != 0
    ensures (a % n + b) % n == (a + b) % n
  {
    ModShift(a % n + b, n, a / n);
    assert a % n + b + n * (a / n) == a + b;
  }

  /** Positions closer together than `n` have different remainders. */
  lemma {:induction false} ModApart(a: nat, b: nat, n: nat)
    requires n != 0 && a < b < a + n
    ensures a % n != b % n
  {
    assert n * (b / n - a / n) == (b - a) - (b % n - a % n);
    FactorSign(n, b / n - a / n);
  }

  /** Euclid's lemma, by running Euclid's algorithm on `a` and the prime. */
  lemma {:induction false} PrimeDividesFactor(p: nat, a: nat, b: nat)
    requires IsPrime(p) && 0 < a < p
    requires Divides(p, a * b)
    ensures Divides(p, b)
    decreases a
  {
    if a == 1 {
      assert a * b == b;
    } else {
      assert !Divides(a, p);
      hide IsPrime, Divides;
      EuclidStep(p, a, b);
      PrimeDividesFactor(p, p % a, b);
    }
  }

  /** One step of the algorithm: the remainder has the property too. */
  lemma {:induction false} EuclidStep(p: nat, a: nat, b: nat)
    requires 2 <= a < p && !Divides(a, p) && Divides(p, a * b)
    ensures 0 < p % a < a && Divides(p, (p % a) * b)
  {
    var q, r, k := p / a, p % a, (a * b) / p;
    assert r == p - a * q && a * b == p * k;
    hide Divides;
    RemainderTimes(p, a, b, q, k);
    FactorSign(p, b - k * q);
    MultipleIsDivisible(p, b - k * q);
  }

  lemma {:induction false} RemainderTimes(p: int, a: int, b: int, q: int, k: int)
    requires a * b == p * k
    ensures (p - a * q) * b == p * (b - k * q)
    ensures 0 <= p - a * q && 0 <= b ==> 0 <= (p - a * q) * b
  {
    calc {
      (p - a * q) * b;
      p * b - (a * b) * q;
      p * b - (p * k) * q;
      { assert (p * k) * q == p * (k * q); }
      p * (b - k * q);
    }
  }

  lemma {:induction false} EqualRemainders(p: nat, x: nat, y: nat)
    requires p != 0 && x <= y && x % p == y % p
    ensures Divides(p, y - x)
  {
    var k := y / p - x / p;
    assert y - x == p * k;
    FactorSign(p, k);
    MultipleIsDivisible(p, k);
  }

  lemma {:induction false} PrimeSeparates(p: nat, skip: nat, d: nat, x: nat)
    requires IsPrime(p) && 1 <= skip < p && 0 < d < p
    ensures x % p != (x + skip * d) % p
  {
    hide IsPrime, Divides;
    var m := skip * d;
    FactorSign(skip, d);
    if x % p == (x + m) % p {
      EqualRemainders(p, x, x + m);
      PrimeDividesFactor(p, skip, d);
      SmallIsNotDivisible(p, d);
      assert false;
    }
  }

  lemma {:induction false} SmallIsNotDivisible(p: nat, d: nat)
    requires 0 < d < p
    ensures !Divides(p, d)
  {
  }

  /** Walking round a prime-sized ring with a constant stride never repeats early. */
  lemma {:induction false} StrideIsInjective(p: nat, offset: nat, skip: nat, i: nat, j: nat)
    requires IsPrime(p) && 1 <= skip < p
    requires i < j < p
    ensures (offset + i * skip) % p != (offset + j * skip) % p
  {
    hide IsPrime;
    PrimeSeparates(p, skip, j - i, offset + i * skip);
    assert offset + i * skip + skip * (j - i) == offset + j * skip;
  }

  // ----- Pigeonhole -----

  ghost predicate Injective(s: seq<nat>) {
    forall i, j :: 0 <= i < j < |s| ==> s[i] != s[j]
  }

  ghost function Values(s: seq<nat>): (v: set<nat>) {
    set x | x in s
  }

  ghost function Range(m: nat): (v: set<nat>)
    ensures forall x: nat :: x in v <==> x < m
    ensures |v| == m
  {
    if m == 0 then {} else Range(m - 1) + {m - 1}
  }

  lemma {:induction false} InjectiveSize(s: seq<nat>)
    requires Injective(s)
    ensures |Values(s)| == |s|
  {
    if s != [] {
      var front := s[..|s| - 1];
      InjectiveSize(front);
      assert s == front + [s[|s| - 1]];
      assert Values(s) == Values(front) + {s[|s| - 1]};
      assert s[|s| - 1] !in Values(front);
    }
  }

  /** A set that maps injectively into another is no larger. */
  lemma {:induction false} InjectionSize(a: set<nat>, b: set<nat>, f: nat -> nat)
    requires forall x | x in a :: f(x) in b
    requires forall x, y | x in a && y in a && f(x) == f(y) :: x == y
    ensures |a| <= |b|
  {
    if a != {} {
      var x :| x in a;
      InjectionSize(a - {x}, b - {f(x)}, f);
    }
  }

  lemma {:induction false} FullSubset(small: set<nat>, big: set<nat>)
    requires small <= big && |small| == |big|
    ensures small == big
  {
    if small != big {
      var x :| x in big && x !in small;
      FullSubsetSize(small, big - {x});
    }
  }

  lemma {:induction false} FullSubsetSize(small: set<nat>, big: set<nat>)
    requires small <= big
    ensures |small| <= |big|
  {
    if small != {} {
      var x :| x in small;
      FullSubsetSize(small - {x}, big - {x});
    }
  }

  /** `s` lists 0..m-1, each exactly once. */
  ghost predicate IsPermutation(s: seq<nat>, m: nat) {
    && |s| == m
    && (forall i :: 0 <= i < m ==> s[i] < m)
    && Injective(s)
  }

  lemma {:induction false} PermutationHits(s: seq<nat>, m: nat, c: nat)
    requires IsPermutation(s, m) && c < m
    ensures c in s
  {
    InjectiveSize(s);
    FullSubset(Values(s), Range(m));
    assert c in Range(m);
  }

  /** Double hashing over a prime-sized table visits every slot exactly once. */
  lemma {:induction false} StrideIsPermutation(p: nat, offset: nat, skip: nat, s: seq<nat>)
    requires IsPrime(p) && 1 <= skip < p && |s| == p
    requires forall j :: 0 <= j < p ==> s[j] == (offset + j * skip) % p
    ensures IsPermutation(s, p)
  {
    forall i, j | 0 <= i < j < p ensures s[i] != s[j] {
      hide IsPrime;
      StrideIsInjective(p, offset, skip, i, j);
    }
  }

  // ----- The two table sizes are prime -----

  predicate NoDivisorIn8(n: nat, d: nat)
    requires d != 0
  {
    && n % d != 0 && n % (d + 1) != 0 && n % (d + 2) != 0 && n % (d + 3) != 0
    && n % (d + 4) != 0 && n % (d + 5) != 0 && n % (d + 6) != 0 && n % (d + 7) != 0
  }

  predicate NoDivisorIn64(n: nat, d: nat)
    requires d != 0
  {
    && NoDivisorIn8(n, d) && NoDivisorIn8(n, d + 8) && NoDivisorIn8(n, d + 16) && NoDivisorIn8(n, d + 24)
    && NoDivisorIn8(n, d + 32) && NoDivisorIn8(n, d + 40) && NoDivisorIn8(n, d + 48) && NoDivisorIn8(n, d + 56)
  }

  lemma {:induction false} NoDivisorAt8(n: nat, lo: nat, d: nat)
    requires 1 <= lo <= d < lo + 8 && NoDivisorIn8(n, lo)
    ensures !Divides(d, n)
  {
    var k := d - lo;
    assert k == 0 || k == 1 || k == 2 || k == 3 || k == 4 || k == 5 || k == 6 || k == 7;
  }

  lemma {:induction false} NoDivisorAt64(n: nat, lo: nat, d: nat)
    requires 1 <= lo <= d < lo + 64 && NoDivisorIn64(n, lo)
    ensures !Divides(d, n)
  {
    hide NoDivisorIn8;
    NoDivisorAt8(n, lo + (d - lo) / 8 * 8, d);
  }

  /** Trial division only has to reach the square root. */
  lemma {:induction false} PrimeByTrialDivision(n: nat, root: nat)
    requires 2 <= n && 2 <= root && n < root * root
    requires forall d: nat | 2 <= d < root :: !Divides(d, n)
    ensures IsPrime(n)
  {
    forall d: nat | 2 <= d < n ensures !Divides(d, n) {
      if Divides(d, n) && root <= d {
        LargeDivisorHasSmallPartner(n, root, d);
        assert false;
      }
    }
  }

  lemma {:induction false} SquareBound(root: nat, d: nat, e: nat)
    requires root <= d && root <= e
    ensures root * root <= d * e
  {
    assert d * e == root * root + root * (e - root) + (d - root) * e;
  }

  lemma {:induction false} LargeDivisorHasSmallPartner(n: nat, root: nat, d: nat)
    requires 2 <= root <= d < n && n < root * root && Divides(d, n)
    ensures 2 <= n / d < root && Divides(n / d, n)
  {
    var e := n / d;
    assert n == d * e;
    FactorSign(d, e);
    assert d * 1 == d;
    if root <= e { SquareBound(root, d, e); assert false; }
    MultipleIsDivisible(e, d);
    assert e * d == d * e;
  }

  lemma {:induction false} CompactSizeIsPrime()
    ensures IsPrime(4099)
  {
    assert NoDivisorIn64(4099, 2);
    forall d: nat | 2 <= d < 65 ensures !Divides(d, 4099) { NoDivisorAt64(4099, 2, d); }
    PrimeByTrialDivision(4099, 65);
  }

  lemma {:induction false} FullSizeHasNoSmallDivisor()
    ensures NoDivisorIn64(65537, 2) && NoDivisorIn64(65537, 66)
  {
  }

  lemma {:induction false} FullSizeHasNoLargeDivisor()
    ensures NoDivisorIn64(65537, 130) && NoDivisorIn64(65537, 194)
  {
  }

  lemma {:induction false} FullSizeIsPrime()
    ensures IsPrime(65537)
  {
    FullSizeHasNoSmallDivisor();
    FullSizeHasNoLargeDivisor();
    forall d: nat | 2 <= d < 257 ensures !Divides(d, 65537) {
      hide NoDivisorIn64;
      NoDivisorAt64(65537, if d < 66 then 2 else if d < 130 then 66 else if d < 194 then 130 else 194, d);
    }
    PrimeByTrialDivision(65537, 257);
  }
}
