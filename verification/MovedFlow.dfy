/**
 * A flow that an ineligible newcomer moves between two eligible backends, and that removing it
 * moves back: three backends on one address, with their real hashes.
 */
module MovedFlow {
  import opened Words
  import opened Fnv
  import opened Maglev
  import opened Selection
  import opened Stickiness

  // ----- Evaluating the hashes -----

  const I := true
  const O := false

  function Nibble(b3: bool, b2: bool, b1: bool, b0: bool): (n: nat)
    ensures n < 16
  {
    (if b3 then 8 else 0) + (if b2 then 4 else 0) + (if b1 then 2 else 0) + if b0 then 1 else 0
  }

  lemma {:induction false} XorZero(a: nat)
    ensures Xor(a, 0) == a
  {
    if a != 0 { XorZero(a / 2); }
  }

  lemma {:induction false} XorBit(h: nat, k: nat, a: bool, b: bool)
    ensures Xor(2 * h + if a then 1 else 0, 2 * k + if b then 1 else 0) == 2 * Xor(h, k) + if a != b then 1 else 0
  {
    var x, y := 2 * h + if a then 1 else 0, 2 * k + if b then 1 else 0;
    XorHalves(x, y);
    hide Xor;
    assert x / 2 == h && y / 2 == k;
    assert (x + y) % 2 == if a != b then 1 else 0;
    assert Xor(x, y) == 2 * (Xor(x, y) / 2) + Xor(x, y) % 2;
  }

  lemma {:induction false} XorNibble(h: nat, k: nat,
      a3: bool, a2: bool, a1: bool, a0: bool, b3: bool, b2: bool, b1: bool, b0: bool)
    ensures Xor(16 * h + Nibble(a3, a2, a1, a0), 16 * k + Nibble(b3, b2, b1, b0))
      == 16 * Xor(h, k) + Nibble(a3 != b3, a2 != b2, a1 != b1, a0 != b0)
  {
    hide Xor;
    var h3, k3 := 2 * h + if a3 then 1 else 0, 2 * k + if b3 then 1 else 0;
    var h2, k2 := 2 * h3 + if a2 then 1 else 0, 2 * k3 + if b2 then 1 else 0;
    var h1, k1 := 2 * h2 + if a1 then 1 else 0, 2 * k2 + if b1 then 1 else 0;
    XorBit(h, k, a3, b3);
    XorBit(h3, k3, a2, b2);
    XorBit(h2, k2, a1, b1);
    XorBit(h1, k1, a0, b0);
  }

  /** A byte changes only the low eight bits of a word. */
  lemma {:induction false} XorByte(h: nat, b: byte, y: nat, q: nat,
      a7: bool, a6: bool, a5: bool, a4: bool, a3: bool, a2: bool, a1: bool, a0: bool,
      b7: bool, b6: bool, b5: bool, b4: bool, b3: bool, b2: bool, b1: bool, b0: bool)
    requires h == 256 * q + 16 * Nibble(a7, a6, a5, a4) + Nibble(a3, a2, a1, a0)
    requires b == 16 * Nibble(b7, b6, b5, b4) + Nibble(b3, b2, b1, b0)
    requires y == 256 * q + 16 * Nibble(a7 != b7, a6 != b6, a5 != b5, a4 != b4)
      + Nibble(a3 != b3, a2 != b2, a1 != b1, a0 != b0)
    ensures Xor(h, b) == y
  {
    hide Xor, Nibble;
    XorZero(q);
    XorNibble(q, 0, a7, a6, a5, a4, b7, b6, b5, b4);
    XorNibble(16 * q + Nibble(a7, a6, a5, a4), Nibble(b7, b6, b5, b4), a3, a2, a1, a0, b3, b2, b1, b0);
  }

  /** One round, given its exclusive or and the quotient and remainder of its product. */
  lemma {:induction false} RoundIs(h: u64, b: byte, y: nat, q: nat, wraps: nat, next: u64,
      a7: bool, a6: bool, a5: bool, a4: bool, a3: bool, a2: bool, a1: bool, a0: bool,
      b7: bool, b6: bool, b5: bool, b4: bool, b3: bool, b2: bool, b1: bool, b0: bool)
    requires h == 256 * q + 16 * Nibble(a7, a6, a5, a4) + Nibble(a3, a2, a1, a0)
    requires b == 16 * Nibble(b7, b6, b5, b4) + Nibble(b3, b2, b1, b0)
    requires y == 256 * q + 16 * Nibble(a7 != b7, a6 != b6, a5 != b5, a4 != b4)
      + Nibble(a3 != b3, a2 != b2, a1 != b1, a0 != b0)
    requires y * 0x100000001b3 == 0x1_0000_0000_0000_0000 * wraps + next
    ensures Round(h, b) == next
  {
    hide Xor, Nibble;
    XorByte(h, b, y, q, a7, a6, a5, a4, a3, a2, a1, a0, b7, b6, b5, b4, b3, b2, b1, b0);
    WordMultiple(next, wraps);
  }

  lemma {:induction false} AbsorbFirst(h: u64, b: byte, rest: seq<byte>)
    ensures Absorb(h, [b] + rest) == Absorb(Round(h, b), rest)
  {
    AbsorbAppends(h, [b], rest);
    assert [b][..0] == [];
  }

  lemma {:induction false} Absorb2(h0: u64, h1: u64, h2: u64, b0: byte, b1: byte, rest: seq<byte>)
    requires Round(h0, b0) == h1 && Round(h1, b1) == h2
    ensures Absorb(h0, [b0, b1] + rest) == Absorb(h2, rest)
  {
    hide Round, Absorb;
    AbsorbFirst(h0, b0, [b1] + rest);
    AbsorbFirst(h1, b1, rest);
    assert [b0] + ([b1] + rest) == [b0, b1] + rest;
  }

  lemma {:induction false} Absorb8(h0: u64, h1: u64, h2: u64, h3: u64, h4: u64, h5: u64, h6: u64, h7: u64, h8: u64,
      b0: byte, b1: byte, b2: byte, b3: byte, b4: byte, b5: byte, b6: byte, b7: byte)
    requires Round(h0, b0) == h1 && Round(h1, b1) == h2 && Round(h2, b2) == h3 && Round(h3, b3) == h4
    requires Round(h4, b4) == h5 && Round(h5, b5) == h6 && Round(h6, b6) == h7 && Round(h7, b7) == h8
    ensures Absorb(h0, [b0, b1, b2, b3, b4, b5, b6, b7]) == h8
  {
    hide Round, Absorb;
    Absorb2(h0, h1, h2, b0, b1, [b2, b3, b4, b5, b6, b7]);
    Absorb2(h2, h3, h4, b2, b3, [b4, b5, b6, b7]);
    Absorb2(h4, h5, h6, b4, b5, [b6, b7]);
    Absorb2(h6, h7, h8, b6, b7, []);
    assert [b0, b1] + [b2, b3, b4, b5, b6, b7] == [b0, b1, b2, b3, b4, b5, b6, b7];
    assert [b2, b3] + [b4, b5, b6, b7] == [b2, b3, b4, b5, b6, b7];
    assert [b4, b5] + [b6, b7] == [b4, b5, b6, b7] && [b6, b7] + [] == [b6, b7];
    NothingAbsorbed(h8);
  }

  lemma {:induction false} NothingAbsorbed(h: u64)
    ensures Absorb(h, []) == h
  {
  }

  lemma {:induction false} ByteAt(high: nat, b: byte, low: nat, p: nat)
    requires low < p
    ensures ((high * 256 + b) * p + low) / p % 256 == b
  {
    var x := (high * 256 + b) * p + low;
    assert x / p == high * 256 + b by { QuotientIs(x, high * 256 + b, low, p); }
  }

  lemma {:induction false} QuotientIs(x: nat, q: nat, low: nat, p: nat)
    requires low < p && x == q * p + low
    ensures x / p == q
  {
    var d := x / p - q;
    assert d * p + x % p == low;
    assert d >= 1 ==> d * p >= p;
    assert d <= -1 ==> d * p + p <= 0;
  }

  lemma {:induction false} SmallPowers()
    ensures Pow2(0) == 1 && Pow2(8) == 0x100 && Pow2(16) == 0x1_0000 && Pow2(24) == 0x100_0000
    ensures Pow2(32) == 0x1_0000_0000 && Pow2(40) == 0x100_0000_0000
    ensures Pow2(48) == 0x1_0000_0000_0000 && Pow2(56) == 0x100_0000_0000_0000
  {
    assert Pow2(0) == 1 && Pow2(8) == 256;
    hide Pow2;
    Pow2Adds(8, 8);
    Pow2Adds(16, 8);
    Pow2Adds(24, 8);
    Pow2Adds(32, 8);
    Pow2Adds(40, 8);
    Pow2Adds(48, 8);
  }

  lemma {:induction false} KeyBytesAre(key: u64,
      b0: byte, b1: byte, b2: byte, b3: byte, b4: byte, b5: byte, b6: byte, b7: byte)
    requires key == b0 + 0x100 * b1 + 0x1_0000 * b2 + 0x100_0000 * b3 + 0x1_0000_0000 * b4 + 0x100_0000_0000 * b5
      + 0x1_0000_0000_0000 * b6 + 0x100_0000_0000_0000 * b7
    ensures KeyBytes(key) == [b0, b1, b2, b3, b4, b5, b6, b7]
  {
    hide Pow2;
    SmallPowers();
    var (h6, h5, h4) := (b7, 256 * b7 + b6, 0x1_0000 * b7 + 256 * b6 + b5);
    var h3 := 256 * h4 + b4;
    var h2 := 256 * h3 + b3;
    var h1 := 256 * h2 + b2;
    var l1 := b0 + 0x100 * b1;
    var l2 := l1 + 0x1_0000 * b2;
    var l3 := l2 + 0x100_0000 * b3;
    var l4 := l3 + 0x1_0000_0000 * b4;
    var l5 := l4 + 0x100_0000_0000 * b5;
    ByteAt(256 * h1 + b1, b0, 0, 1);
    ByteAt(h1, b1, b0, 0x100);
    ByteAt(h2, b2, l1, 0x1_0000);
    ByteAt(h3, b3, l2, 0x100_0000);
    ByteAt(h4, b4, l3, 0x1_0000_0000);
    ByteAt(h5, b5, l4, 0x100_0000_0000);
    ByteAt(h6, b6, l5, 0x1_0000_0000_0000);
    ByteAt(0, b7, l5 + 0x1_0000_0000_0000 * b6, 0x100_0000_0000_0000);
  }

  // ----- Three backends -----

  const ADDRESS: seq<byte> := [10, 0, 0, 1, 0, 0, 0, 0, 0, 0, 0, 0, 0, 0, 0, 0]

  const A := Backend(ADDRESS, 97, 10, false)
  const B := Backend(ADDRESS, 39, 10, false)
  const C := Backend(ADDRESS, 72, 10, false)

  /** From the hash of the address to that of address and port. */
  lemma {:induction false} KeyOf(h0: u64, h1: u64, h2: u64, hi: byte, lo: byte)
    requires h0 == 0x0e1b9f0fd368022c && Round(h0, hi) == h1 && Round(h1, lo) == h2
    ensures Hash(ADDRESS + [hi, lo]) == h2
  {
    hide Round, Absorb;
    AddressFirstHalf();
    AddressSecondHalf();
    AbsorbAppends(FNV_OFFSET, ADDRESS[..8], ADDRESS[8..]);
    AbsorbAppends(FNV_OFFSET, ADDRESS, [hi, lo]);
    assert ADDRESS[..8] == [10, 0, 0, 1, 0, 0, 0, 0] && ADDRESS[8..] == [0, 0, 0, 0, 0, 0, 0, 0];
    assert ADDRESS[..8] + ADDRESS[8..] == ADDRESS;
    Absorb2(h0, h1, h2, hi, lo, []);
    assert [hi, lo] + [] == [hi, lo];
    NothingAbsorbed(h2);
  }

  /** The address 10.0.0.1, padded to 16 bytes. */
  lemma {:induction false} AddressFirstHalf()
    ensures Absorb(0xcbf29ce484222325, [10, 0, 0, 1, 0, 0, 0, 0]) == 0xd1e4db621823b4ac
  {
    hide Round, Absorb, Xor;
    RoundIs(0xcbf29ce484222325, 10, 0xcbf29ce48422232f, 0xcbf29ce4842223, 0xcbf29ce5de, 0xaf63c74c8601c8dd,
      O, O, I, O, O, I, O, I, O, O, O, O, I, O, I, O);
    RoundIs(0xaf63c74c8601c8dd, 0, 0xaf63c74c8601c8dd, 0xaf63c74c8601c8, 0xaf63c74db0, 0x08548407b5084f87,
      I, I, O, I, I, I, O, I, O, O, O, O, O, O, O, O);
    RoundIs(0x08548407b5084f87, 0, 0x08548407b5084f87, 0x8548407b5084f, 0x8548407c3, 0x2febe0189d1f2265,
      I, O, O, O, O, I, I, I, O, O, O, O, O, O, O, O);
    RoundIs(0x2febe0189d1f2265, 1, 0x2febe0189d1f2264, 0x2febe0189d1f22, 0x2febe018ee, 0x8cf02dd2fbe76fec,
      O, I, I, O, O, I, O, I, O, O, O, O, O, O, O, I);
    RoundIs(0x8cf02dd2fbe76fec, 0, 0x8cf02dd2fbe76fec, 0x8cf02dd2fbe76f, 0x8cf02dd3eb, 0x638dc9820a432e04,
      I, I, I, O, I, I, O, O, O, O, O, O, O, O, O, O);
    RoundIs(0x638dc9820a432e04, 0, 0x638dc9820a432e04, 0x638dc9820a432e, 0x638dc982b3, 0x6d1b6bf7702730cc,
      O, O, O, O, O, I, O, O, O, O, O, O, O, O, O, O);
    RoundIs(0x6d1b6bf7702730cc, 0, 0x6d1b6bf7702730cc, 0x6d1b6bf7702730, 0x6d1b6bf829, 0x8cc941739297eaa4,
      I, I, O, O, I, I, O, O, O, O, O, O, O, O, O, O);
    RoundIs(0x8cc941739297eaa4, 0, 0x8cc941739297eaa4, 0x8cc941739297ea, 0x8cc9417481, 0xd1e4db621823b4ac,
      I, O, I, O, O, I, O, O, O, O, O, O, O, O, O, O);
    Absorb8(0xcbf29ce484222325, 0xaf63c74c8601c8dd, 0x08548407b5084f87, 0x2febe0189d1f2265, 0x8cf02dd2fbe76fec,
      0x638dc9820a432e04, 0x6d1b6bf7702730cc, 0x8cc941739297eaa4, 0xd1e4db621823b4ac,
      10, 0, 0, 1, 0, 0, 0, 0);
  }

  lemma {:induction false} AddressSecondHalf()
    ensures Absorb(0xd1e4db621823b4ac, [0, 0, 0, 0, 0, 0, 0, 0]) == 0x0e1b9f0fd368022c
  {
    hide Round, Absorb, Xor;
    RoundIs(0xd1e4db621823b4ac, 0, 0xd1e4db621823b4ac, 0xd1e4db621823b4, 0xd1e4db637c, 0xcb9573af04ac0044,
      I, O, I, O, I, I, O, O, O, O, O, O, O, O, O, O);
    RoundIs(0xcb9573af04ac0044, 0, 0xcb9573af04ac0044, 0xcb9573af04ac00, 0xcb9573b05e, 0x9af3d664f044738c,
      O, I, O, O, O, I, O, O, O, O, O, O, O, O, O, O);
    RoundIs(0x9af3d664f044738c, 0, 0x9af3d664f044738c, 0x9af3d664f04473, 0x9af3d665f7, 0x90c8d984445056e4,
      I, O, O, O, I, I, O, O, O, O, O, O, O, O, O, O);
    RoundIs(0x90c8d984445056e4, 0, 0x90c8d984445056e4, 0x90c8d984445056, 0x90c8d9853a, 0x55a07fc01483a56c,
      I, I, I, O, O, I, O, O, O, O, O, O, O, O, O, O);
    RoundIs(0x55a07fc01483a56c, 0, 0x55a07fc01483a56c, 0x55a07fc01483a5, 0x55a07fc0a6, 0x035e7f62dbb21684,
      O, I, I, O, I, I, O, O, O, O, O, O, O, O, O, O);
    RoundIs(0x035e7f62dbb21684, 0, 0x035e7f62dbb21684, 0x35e7f62dbb216, 0x35e7f62e1, 0x6ba8f8fb4f9c424c,
      I, O, O, O, O, I, O, O, O, O, O, O, O, O, O, O);
    RoundIs(0x6ba8f8fb4f9c424c, 0, 0x6ba8f8fb4f9c424c, 0x6ba8f8fb4f9c42, 0x6ba8f8fc06, 0x8c615f084684a724,
      O, I, O, O, I, I, O, O, O, O, O, O, O, O, O, O);
    RoundIs(0x8c615f084684a724, 0, 0x8c615f084684a724, 0x8c615f084684a7, 0x8c615f0935, 0x0e1b9f0fd368022c,
      O, O, I, O, O, I, O, O, O, O, O, O, O, O, O, O);
    Absorb8(0xd1e4db621823b4ac, 0xcb9573af04ac0044, 0x9af3d664f044738c, 0x90c8d984445056e4, 0x55a07fc01483a56c,
      0x035e7f62dbb21684, 0x6ba8f8fb4f9c424c, 0x8c615f084684a724, 0x0e1b9f0fd368022c,
      0, 0, 0, 0, 0, 0, 0, 0);
  }

  lemma {:induction false} KeyA()
    ensures Key(A) == 0x75f891ce19ed285f
  {
    hide Round, Absorb, Xor;
    RoundIs(0x0e1b9f0fd368022c, 0, 0x0e1b9f0fd368022c, 0xe1b9f0fd36802, 0xe1b9f0feb, 0x60f173e439bbb0c4,
      O, O, I, O, I, I, O, O, O, O, O, O, O, O, O, O);
    RoundIs(0x60f173e439bbb0c4, 97, 0x60f173e439bbb0a5, 0x60f173e439bbb0, 0x60f173e4de, 0x75f891ce19ed285f,
      I, I, O, O, O, I, O, O, O, I, I, O, O, O, O, I);
    KeyOf(0x0e1b9f0fd368022c, 0x60f173e439bbb0c4, 0x75f891ce19ed285f, 0, 97);
  }

  lemma {:induction false} KeyB()
    ensures Key(B) == 0x75f8cfce19ed91b9
  {
    hide Round, Absorb, Xor;
    RoundIs(0x0e1b9f0fd368022c, 0, 0x0e1b9f0fd368022c, 0xe1b9f0fd36802, 0xe1b9f0feb, 0x60f173e439bbb0c4,
      O, O, I, O, I, I, O, O, O, O, O, O, O, O, O, O);
    RoundIs(0x60f173e439bbb0c4, 39, 0x60f173e439bbb0e3, 0x60f173e439bbb0, 0x60f173e4de, 0x75f8cfce19ed91b9,
      I, I, O, O, O, I, O, O, O, O, I, O, O, I, I, I);
    KeyOf(0x0e1b9f0fd368022c, 0x60f173e439bbb0c4, 0x75f8cfce19ed91b9, 0, 39);
  }

  lemma {:induction false} KeyC()
    ensures Key(C) == 0x75f878ce19ecfde4
  {
    hide Round, Absorb, Xor;
    RoundIs(0x0e1b9f0fd368022c, 0, 0x0e1b9f0fd368022c, 0xe1b9f0fd36802, 0xe1b9f0feb, 0x60f173e439bbb0c4,
      O, O, I, O, I, I, O, O, O, O, O, O, O, O, O, O);
    RoundIs(0x60f173e439bbb0c4, 72, 0x60f173e439bbb08c, 0x60f173e439bbb0, 0x60f173e4de, 0x75f878ce19ecfde4,
      I, I, O, O, O, I, O, O, O, I, O, O, I, O, O, O);
    KeyOf(0x0e1b9f0fd368022c, 0x60f173e439bbb0c4, 0x75f878ce19ecfde4, 0, 72);
  }

  lemma {:induction false} HashOffsetA()
    ensures Absorb(0xcbf29ce484222325, [95, 40, 237, 25, 206, 145, 248, 117]) == 0x482c92c78c2c7096
  {
    hide Round, Absorb, Xor;
    RoundIs(0xcbf29ce484222325, 95, 0xcbf29ce48422237a, 0xcbf29ce4842223, 0xcbf29ce5de, 0xaf64124c8602484e,
      O, O, I, O, O, I, O, I, O, I, O, I, I, I, I, I);
    RoundIs(0xaf64124c8602484e, 40, 0xaf64124c86024866, 0xaf64124c860248, 0xaf64124db0, 0x09537e07b5e10552,
      O, I, O, O, I, I, I, O, O, O, I, O, I, O, O, O);
    RoundIs(0x09537e07b5e10552, 237, 0x09537e07b5e105bf, 0x9537e07b5e105, 0x9537e07c5, 0xb9e4e61a0d5cc38d,
      O, I, O, I, O, O, I, O, I, I, I, O, I, I, O, I);
    RoundIs(0xb9e4e61a0d5cc38d, 25, 0xb9e4e61a0d5cc394, 0xb9e4e61a0d5cc3, 0xb9e4e61b49, 0x3cb69244b4a0547c,
      I, O, O, O, I, I, O, I, O, O, O, I, I, O, O, I);
    RoundIs(0x3cb69244b4a0547c, 206, 0x3cb69244b4a054b2, 0x3cb69244b4a054, 0x3cb692451b, 0xca8f3cbeec6fea76,
      O, I, I, I, I, I, O, O, I, I, O, O, I, I, I, O);
    RoundIs(0xca8f3cbeec6fea76, 145, 0xca8f3cbeec6feae7, 0xca8f3cbeec6fea, 0xca8f3cc044, 0xa14f1f6bc22c2685,
      O, I, I, I, O, I, I, O, I, O, O, I, O, O, O, I);
    RoundIs(0xa14f1f6bc22c2685, 248, 0xa14f1f6bc22c267d, 0xa14f1f6bc22c26, 0xa14f1f6cd4, 0x4598e11af1056667,
      I, O, O, O, O, I, O, I, I, I, I, I, I, O, O, O);
    RoundIs(0x4598e11af1056667, 117, 0x4598e11af1056612, 0x4598e11af10566, 0x4598e11b67, 0x482c92c78c2c7096,
      O, I, I, O, O, I, I, I, O, I, I, I, O, I, O, I);
    Absorb8(0xcbf29ce484222325, 0xaf64124c8602484e, 0x09537e07b5e10552, 0xb9e4e61a0d5cc38d, 0x3cb69244b4a0547c,
      0xca8f3cbeec6fea76, 0xa14f1f6bc22c2685, 0x4598e11af1056667, 0x482c92c78c2c7096,
      95, 40, 237, 25, 206, 145, 248, 117);
  }

  lemma {:induction false} OffsetA()
    ensures Offset(COMPACT_MAGLEV_SIZE, A, 0) == 1618
  {
    hide Xor, Absorb, KeyBytes, Key;
    KeyA();
    XorByte(0xcbf29ce484222325, 0, 0xcbf29ce484222325, 0xcbf29ce4842223,
      O, O, I, O, O, I, O, I, O, O, O, O, O, O, O, O);
    KeyBytesAre(0x75f891ce19ed285f, 95, 40, 237, 25, 206, 145, 248, 117);
    HashOffsetA();
  }

  lemma {:induction false} HashSkipA()
    ensures Absorb(0xcbf29ce484222324, [95, 40, 237, 25, 206, 145, 248, 117]) == 0x1b29c12452426a63
  {
    hide Round, Absorb, Xor;
    RoundIs(0xcbf29ce484222324, 95, 0xcbf29ce48422237b, 0xcbf29ce4842223, 0xcbf29ce5de, 0xaf64134c86024a01,
      O, O, I, O, O, I, O, O, O, I, O, I, I, I, I, I);
    RoundIs(0xaf64134c86024a01, 40, 0xaf64134c86024a29, 0xaf64134c86024a, 0xaf64134db0, 0x0956f407b5e403ab,
      O, O, O, O, O, O, O, I, O, O, I, O, I, O, O, O);
    RoundIs(0x0956f407b5e403ab, 237, 0x0956f407b5e40346, 0x956f407b5e403, 0x956f407c5, 0xc2c3ef1a12718ff2,
      I, O, I, O, I, O, I, I, I, I, I, O, I, I, O, I);
    RoundIs(0xc2c3ef1a12718ff2, 25, 0xc2c3ef1a12718feb, 0xc2c3ef1a12718f, 0xc2c3ef1b5d, 0x647f344d56f78c51,
      I, I, I, I, O, O, I, O, O, O, O, I, I, O, O, I);
    RoundIs(0x647f344d56f78c51, 206, 0x647f344d56f78c9f, 0x647f344d56f78c, 0x647f344e01, 0xbbb27e6ac6a3f22d,
      O, I, O, I, O, O, O, I, I, I, O, O, I, I, I, O);
    RoundIs(0xbbb27e6ac6a3f22d, 145, 0xbbb27e6ac6a3f2bc, 0xbbb27e6ac6a3f2, 0xbbb27e6c05, 0x943f8b6f88957574,
      O, O, I, O, I, I, O, I, I, O, O, I, O, O, O, I);
    RoundIs(0x943f8b6f88957574, 248, 0x943f8b6f8895758c, 0x943f8b6f889575, 0x943f8b7084, 0x7d6f7a8515f6bce4,
      O, I, I, I, O, I, O, O, I, I, I, I, I, O, O, O);
    RoundIs(0x7d6f7a8515f6bce4, 117, 0x7d6f7a8515f6bc91, 0x7d6f7a8515f6bc, 0x7d6f7a85eb, 0x1b29c12452426a63,
      I, I, I, O, O, I, O, O, O, I, I, I, O, I, O, I);
    Absorb8(0xcbf29ce484222324, 0xaf64134c86024a01, 0x0956f407b5e403ab, 0xc2c3ef1a12718ff2, 0x647f344d56f78c51,
      0xbbb27e6ac6a3f22d, 0x943f8b6f88957574, 0x7d6f7a8515f6bce4, 0x1b29c12452426a63,
      95, 40, 237, 25, 206, 145, 248, 117);
  }

  lemma {:induction false} SkipA()
    ensures Skip(COMPACT_MAGLEV_SIZE, A, 0) == 1332
  {
    hide Xor, Absorb, KeyBytes, Key;
    KeyA();
    XorByte(0xcbf29ce484222325, 1, 0xcbf29ce484222324, 0xcbf29ce4842223,
      O, O, I, O, O, I, O, I, O, O, O, O, O, O, O, I);
    KeyBytesAre(0x75f891ce19ed285f, 95, 40, 237, 25, 206, 145, 248, 117);
    HashSkipA();
  }

  lemma {:induction false} HashOffsetB()
    ensures Absorb(0xcbf29ce484222341, [185, 145, 237, 25, 206, 207, 248, 117]) == 0xcbb582e6791cab2d
  {
    hide Round, Absorb, Xor;
    RoundIs(0xcbf29ce484222341, 185, 0xcbf29ce4842223f8, 0xcbf29ce4842223, 0xcbf29ce5de, 0xaf64904c86031e68,
      O, I, O, O, O, O, O, I, I, O, I, I, I, O, O, I);
    RoundIs(0xaf64904c86031e68, 145, 0xaf64904c86031ef9, 0xaf64904c86031e, 0xaf64904db0, 0x0b002b07b74da11b,
      O, I, I, O, I, O, O, O, I, O, O, I, O, O, O, I);
    RoundIs(0x0b002b07b74da11b, 237, 0x0b002b07b74da1f6, 0xb002b07b74da1, 0xb002b07c9, 0xfeeb141c78ea3502,
      O, O, O, I, I, O, I, I, I, I, I, O, I, I, O, I);
    RoundIs(0xfeeb141c78ea3502, 25, 0xfeeb141c78ea351b, 0xfeeb141c78ea35, 0xfeeb141e2a, 0x13a8476175f83ce1,
      O, O, O, O, O, O, I, O, O, O, O, I, I, O, O, I);
    RoundIs(0x13a8476175f83ce1, 206, 0x13a8476175f83c2f, 0x13a8476175f83c, 0x13a8476197, 0x5f2d799b74ce43dd,
      I, I, I, O, O, O, O, I, I, I, O, O, I, I, I, O);
    RoundIs(0x5f2d799b74ce43dd, 207, 0x5f2d799b74ce4312, 0x5f2d799b74ce43, 0x5f2d799c16, 0x8888b5277a7bf796,
      I, I, O, I, I, I, O, I, I, I, O, O, I, I, I, I);
    RoundIs(0x8888b5277a7bf796, 248, 0x8888b5277a7bf76e, 0x8888b5277a7bf7, 0x8888b52862, 0x7c43401520a56fea,
      I, O, O, I, O, I, I, O, I, I, I, I, I, O, O, O);
    RoundIs(0x7c43401520a56fea, 117, 0x7c43401520a56f9f, 0x7c43401520a56f, 0x7c434015f3, 0xcbb582e6791cab2d,
      I, I, I, O, I, O, I, O, O, I, I, I, O, I, O, I);
    Absorb8(0xcbf29ce484222341, 0xaf64904c86031e68, 0x0b002b07b74da11b, 0xfeeb141c78ea3502, 0x13a8476175f83ce1,
      0x5f2d799b74ce43dd, 0x8888b5277a7bf796, 0x7c43401520a56fea, 0xcbb582e6791cab2d,
      185, 145, 237, 25, 206, 207, 248, 117);
  }

  lemma {:induction false} OffsetB()
    ensures Offset(COMPACT_MAGLEV_SIZE, B, 100) == 2951
  {
    hide Xor, Absorb, KeyBytes, Key;
    KeyB();
    XorByte(0xcbf29ce484222325, 100, 0xcbf29ce484222341, 0xcbf29ce4842223,
      O, O, I, O, O, I, O, I, O, I, I, O, O, I, O, O);
    KeyBytesAre(0x75f8cfce19ed91b9, 185, 145, 237, 25, 206, 207, 248, 117);
    HashOffsetB();
  }

  lemma {:induction false} HashOffsetC()
    ensures Absorb(0xcbf29ce4842223ed, [228, 253, 236, 25, 206, 120, 248, 117]) == 0x0941e93239a1c208
  {
    hide Round, Absorb, Xor;
    RoundIs(0xcbf29ce4842223ed, 228, 0xcbf29ce484222309, 0xcbf29ce4842223, 0xcbf29ce5de, 0xaf63a14c8601884b,
      I, I, I, O, I, I, O, I, I, I, I, O, O, I, O, O);
    RoundIs(0xaf63a14c8601884b, 253, 0xaf63a14c860188b6, 0xaf63a14c860188, 0xaf63a14db0, 0x07d3cb07b49b4d42,
      O, I, O, O, I, O, I, I, I, I, I, I, I, I, O, I);
    RoundIs(0x07d3cb07b49b4d42, 236, 0x07d3cb07b49b4dae, 0x7d3cb07b49b4d, 0x7d3cb07c1, 0xe82fac17e3e4feaa,
      O, I, O, O, O, O, I, O, I, I, I, O, I, I, O, O);
    RoundIs(0xe82fac17e3e4feaa, 25, 0xe82fac17e3e4feb3, 0xe82fac17e3e4fe, 0xe82fac196e, 0x6e001f983e1cca29,
      I, O, I, O, I, O, I, O, O, O, O, I, I, O, O, I);
    RoundIs(0x6e001f983e1cca29, 206, 0x6e001f983e1ccae7, 0x6e001f983e1cca, 0x6e001f98f9, 0x070096b18aecc685,
      O, O, I, O, I, O, O, I, I, I, O, O, I, I, I, O);
    RoundIs(0x070096b18aecc685, 120, 0x070096b18aecc6fd, 0x70096b18aecc6, 0x70096b196, 0xd2c70caf10561fe7,
      I, O, O, O, O, I, O, I, O, I, I, I, I, O, O, O);
    RoundIs(0xd2c70caf10561fe7, 248, 0xd2c70caf10561f1f, 0xd2c70caf10561f, 0xd2c70cb076, 0x7e59ac78c256e1ad,
      I, I, I, O, O, I, I, I, I, I, I, I, I, O, O, O);
    RoundIs(0x7e59ac78c256e1ad, 117, 0x7e59ac78c256e1d8, 0x7e59ac78c256e1, 0x7e59ac7999, 0x0941e93239a1c208,
      I, O, I, O, I, I, O, I, O, I, I, I, O, I, O, I);
    Absorb8(0xcbf29ce4842223ed, 0xaf63a14c8601884b, 0x07d3cb07b49b4d42, 0xe82fac17e3e4feaa, 0x6e001f983e1cca29,
      0x070096b18aecc685, 0xd2c70caf10561fe7, 0x7e59ac78c256e1ad, 0x0941e93239a1c208,
      228, 253, 236, 25, 206, 120, 248, 117);
  }

  lemma {:induction false} OffsetC()
    ensures Offset(COMPACT_MAGLEV_SIZE, C, 200) == 2950
  {
    hide Xor, Absorb, KeyBytes, Key;
    KeyC();
    XorByte(0xcbf29ce484222325, 200, 0xcbf29ce4842223ed, 0xcbf29ce4842223,
      O, O, I, O, O, I, O, I, I, I, O, O, I, O, O, O);
    KeyBytesAre(0x75f878ce19ecfde4, 228, 253, 236, 25, 206, 120, 248, 117);
    HashOffsetC();
  }

  // ----- The flow that moves -----

  /** The slot at which the flow is first looked up. */
  const SLOT := 2950

  /** A reaches the slot in its second round; C starts there, and B starts at the next slot. */
  lemma {:induction false} FirstRounds()
    ensures var (a, b, c) := (Permutation(COMPACT_MAGLEV_SIZE, A, 0), Permutation(COMPACT_MAGLEV_SIZE, B, 100),
          Permutation(COMPACT_MAGLEV_SIZE, C, 200));
      a[0] == 1618 && a[1] == SLOT && b[0] == SLOT + 1 && c[0] == SLOT
  {
    hide Offset, Skip;
    OffsetA();
    SkipA();
    OffsetB();
    OffsetC();
  }

  lemma {:induction false} Plans()
    ensures CompactPlan([A, B]) ==
      [Entry(0, Permutation(COMPACT_MAGLEV_SIZE, A, 0)), Entry(1, Permutation(COMPACT_MAGLEV_SIZE, B, 100))]
    ensures CompactPlan([A, B, C]) == CompactPlan([A, B]) + [Entry(2, Permutation(COMPACT_MAGLEV_SIZE, C, 200))]
  {
    hide Permutation;
    assert [A, B, C][..2] == [A, B] && [A, B][..1] == [A] && [A][..0] == [];
    OneShare(A, 0);
    OneShare(B, 1);
    OneShare(C, 2);
    assert CompactPlan([A]) == CompactPlan([]) + Share(A, 0, 1);
  }

  lemma {:induction false} OneShare(b: Backend, i: nat)
    requires i < MAX_BACKENDS && b.weight == 10
    ensures Repetitions(b) == 1 && Share(b, i, 1) == [Entry(i, Permutation(COMPACT_MAGLEV_SIZE, b, i * 100))]
  {
    hide Permutation;
    assert Share(b, i, 0) == [];
  }

  lemma {:induction false} Owners()
    ensures Owns(CompactPlan([A, B]), SLOT, 0)
    ensures Owns(CompactPlan([A, B, C]), SLOT, 2) && Owns(CompactPlan([A, B, C]), SLOT + 1, 1)
  {
    hide Permutation, CompactPlan;
    Plans();
    FirstRounds();
    var before, after := CompactPlan([A, B]), CompactPlan([A, B, C]);
    assert Wins(before, 1, 0, SLOT);
    assert Wins(after, 0, 2, SLOT);
    assert Wins(after, 0, 1, SLOT + 1);
  }

  /**
   * While A and B are eligible and C is not, appending C moves this flow from A to B, and
   * removing C moves it from B back to A.
   */
  lemma {:induction false} IneligibleNewcomerMovesAFlow(before: Route, after: Route, ok: Backend -> bool)
    requires IsAppend(before, after, C) && before.backends == [A, B] && ok(A) && ok(B) && !ok(C)
    ensures Select(before, ok, SLOT) == Some(0) && Select(after, ok, SLOT) == Some(1)
  {
    hide CompactPlan, Owns;
    Owners();
    assert after.backends == [A, B, C];
    OwnerIsUnique(CompactPlan([A, B]), SLOT, before.table[SLOT], 0);
    OwnerIsUnique(CompactPlan([A, B, C]), SLOT, after.table[SLOT], 2);
    OwnerIsUnique(CompactPlan([A, B, C]), SLOT + 1, after.table[SLOT + 1], 1);
    assert Candidate(before, SLOT, 0) == 0 && Candidate(after, SLOT, 0) == 2 && Candidate(after, SLOT, 1) == 1;
    hide Candidate, IsCompactTable;
    ScanFinds(before, ok, SLOT, 0, 20, 0);
    assert !IsOk(after, ok, Candidate(after, SLOT, 0));
    ScanFinds(after, ok, SLOT, 0, 30, 1);
  }

  /** The two routes exist: the builder makes their tables. */
  method Routes() returns (before: Route, after: Route)
    ensures IsAppend(before, after, C) && before.backends == [A, B]
  {
    hide CompactPlan, Owns;
    var t1 := BuildCompactTable([A, B]);
    var t2 := BuildCompactTable([A, B, C]);
    before, after := Route([A, B], t1), Route([A, B, C], t2);
  }
}
