/** The bucketing hash of policy/src/store.rs: FNV-1a rounds on 64 bits, from the
    source's own starting value. */
module Bucket {

  type u64 = n: int | 0 <= n < 0x1_0000_0000_0000_0000
  type byte = n: int | 0 <= n < 256

  /** Exclusive or of the low n bits. */
  function Xor(a: nat, b: nat, n: nat): (r: nat)
  {
    if n == 0 then 0 else 2 * Xor(a / 2, b / 2, n - 1) + (a % 2 + b % 2) % 2
  }

  lemma XorBounded(a: nat, b: nat)
    ensures Xor(a, b, 8) < 256
  {
    assert Xor(a, b, 8) == 2 * Xor(a / 2, b / 2, 7) + (a % 2 + b % 2) % 2;
    XorBelow(a, b, 8, 256);
  }

  lemma {:induction false} XorBelow(a: nat, b: nat, n: nat, limit: nat)
    requires limit == Pow2(n)
    ensures Xor(a, b, n) < limit
  {
    if n > 0 { XorBelow(a / 2, b / 2, n - 1, Pow2(n - 1)); }
  }

  function Pow2(n: nat): nat {
    if n == 0 then 1 else 2 * Pow2(n - 1)
  }

  const START: u64 := 1469598103934665603
  const MODULUS := 0x1_0000_0000_0000_0000
  const PRIME := 1099511628211
  const INVERSE := 0xce965057aff6957b

  /** A byte reaches the low eight bits only. */
  function Mixed(h: u64, b: byte): u64 {
    XorBounded(h % 256, b);
    h - h % 256 + Xor(h % 256, b, 8)
  }

  function Multiplied(x: u64): u64 {
    x * PRIME % MODULUS
  }

  /** The multiplier is odd, so it has an inverse modulo 2^64. */
  function Divided(x: u64): u64 {
    x * INVERSE % MODULUS
  }

  lemma Remainder(a: int, q: int, r: int)
    requires a == r + MODULUS * q && 0 <= r < MODULUS
    ensures a % MODULUS == r
  {
  }

  lemma Inverts(x: u64, f: int, g: int)
    requires f * g == 1 + MODULUS * 887285111055
    ensures (x * f % MODULUS) * g % MODULUS == x
  {
    var k := x * f / MODULUS;
    var y := x * f % MODULUS;
    assert x * f == MODULUS * k + y;
    calc {
      y * g;
      (x * f - MODULUS * k) * g;
      x * (f * g) - MODULUS * (k * g);
      x + MODULUS * (x * 887285111055 - k * g);
    }
    Remainder(y * g, x * 887285111055 - k * g, x);
  }

  lemma MultiplierInverts(x: u64)
    ensures Divided(Multiplied(x)) == x && Multiplied(Divided(x)) == x
  {
    assert PRIME * INVERSE == 1 + MODULUS * 887285111055;
    Inverts(x, PRIME, INVERSE);
    Inverts(x, INVERSE, PRIME);
  }

  /** One round: exclusive or with the byte, then a wrapping multiplication. */
  function Round(h: u64, b: byte): u64 {
    Multiplied(Mixed(h, b))
  }

  function Unround(h: u64, b: byte): u64 {
    Mixed(Divided(h), b)
  }

  function HashFrom(h: u64, seed: seq<byte>): u64 {
    if seed == [] then h else Round(HashFrom(h, seed[..|seed| - 1]), seed[|seed| - 1])
  }

  function Hash(seed: seq<byte>): u64 {
    HashFrom(START, seed)
  }

  function BucketOf(seed: seq<byte>): (r: int)
    ensures 0 <= r < 100
  {
    Hash(seed) % 100
  }

  method Bucket0To99(seed: seq<byte>) returns (bucket: int)
    ensures bucket == BucketOf(seed)
  {
    var hash: u64 := START;
    for i := 0 to |seed|
      invariant hash == Hash(seed[..i])
    {
      assert seed[..i + 1][..i] == seed[..i];
      hash := Mixed(hash, seed[i]);
      hash := hash * PRIME % MODULUS;
    }
    assert seed[..|seed|] == seed;
    bucket := hash % 100;
  }

  lemma LetterMixed()
    ensures Xor(131, 97, 8) == 226
  {
    assert Xor(1, 0, 1) == 1;
    assert Xor(2, 1, 2) == 3;
    assert Xor(4, 3, 3) == 7;
    assert Xor(8, 6, 4) == 14;
    assert Xor(16, 12, 5) == 28;
    assert Xor(32, 24, 6) == 56;
    assert Xor(65, 48, 7) == 113;
  }

  lemma LetterMultiplied()
    ensures Multiplied(1469598103934665698) == 4953267810257967366
  {
    assert 1469598103934665698 * PRIME == 4953267810257967366 + MODULUS * 87594872982;
    Remainder(1469598103934665698 * PRIME, 87594872982, 4953267810257967366);
  }

  lemma LetterHash(h: u64)
    requires h == START
    ensures Mixed(h, 97) == 1469598103934665698
  {
    assert h % 256 == 131;
    LetterMixed();
  }

  /** The hash of nothing, and of the letter a. */
  lemma KnownHashes()
    ensures Hash([]) == 1469598103934665603
    ensures Hash([97]) == 4953267810257967366
  {
    assert [97][..0] == [];
    LetterHash(START);
    LetterMultiplied();
  }

  lemma XorHalves(a: nat, b: nat, n: nat)
    requires n > 0
    ensures Xor(a, b, n) / 2 == Xor(a / 2, b / 2, n - 1)
    ensures Xor(a, b, n) % 2 == (a % 2 + b % 2) % 2
  {
  }

  lemma {:induction false} XorUndone(a: nat, b: nat, n: nat)
    requires a < Pow2(n)
    ensures Xor(Xor(a, b, n), b, n) == a
  {
    if n > 0 {
      XorUndone(a / 2, b / 2, n - 1);
      var x := Xor(a, b, n);
      XorHalves(a, b, n);
      XorHalves(x, b, n);
      ParityTwice(a % 2, b % 2);
      SameHalves(Xor(x, b, n), a);
    }
  }

  function Bit(a: nat, i: nat): nat {
    if i == 0 then a % 2 else Bit(a / 2, i - 1)
  }

  /** Bit by bit it is the exclusive or, and there are no bits beyond the n-th. */
  lemma {:induction false} XorBits(a: nat, b: nat, n: nat, i: nat)
    ensures Bit(Xor(a, b, n), i) == if i < n && Bit(a, i) != Bit(b, i) then 1 else 0
    decreases i
  {
    if n > 0 {
      XorHalves(a, b, n);
      if i > 0 { XorBits(a / 2, b / 2, n - 1, i - 1); }
    } else if i > 0 {
      XorBits(0, 0, 0, i - 1);
    }
  }

  lemma ParityTwice(a: nat, b: nat)
    requires a < 2 && b < 2
    ensures ((a + b) % 2 + b) % 2 == a
  {
  }

  lemma SameHalves(a: nat, b: nat)
    requires a / 2 == b / 2 && a % 2 == b % 2
    ensures a == b
  {
  }

  lemma {:induction false} XorSeparates(a: nat, b: nat, c: nat, n: nat)
    requires b < Pow2(n) && c < Pow2(n) && b != c
    ensures Xor(a, b, n) != Xor(a, c, n)
  {
    if n > 0 {
      XorHalves(a, b, n);
      XorHalves(a, c, n);
      if b % 2 == c % 2 {
        if b / 2 == c / 2 { SameHalves(b, c); }
        XorSeparates(a / 2, b / 2, c / 2, n - 1);
      } else {
        ParityTwice(b % 2, a % 2);
        ParityTwice(c % 2, a % 2);
      }
    }
  }

  lemma Pow2Of8()
    ensures Pow2(8) == 256
  {
    assert Pow2(4) == 16;
  }

  lemma MixUndone(h: u64, b: byte)
    ensures Mixed(Mixed(h, b), b) == h
  {
    var low, high := h % 256, h / 256;
    XorBounded(low, b);
    Pow2Of8();
    XorUndone(low, b, 8);
    LowByte(high, low);
    LowByte(high, Xor(low, b, 8));
  }

  lemma LowByte(high: nat, low: byte)
    ensures (256 * high + low) % 256 == low && 256 * high + low - low == 256 * high
  {
  }

  /** For each byte a round is a bijection on 64-bit states. */
  lemma RoundIsBijective(h: u64, b: byte)
    ensures Unround(Round(h, b), b) == h
    ensures Round(Unround(h, b), b) == h
  {
    MultiplierInverts(Mixed(h, b));
    MultiplierInverts(h);
    MixUndone(h, b);
    MixUndone(Divided(h), b);
  }

  lemma RoundSeparatesBytes(h: u64, a: byte, b: byte)
    requires a != b
    ensures Round(h, a) != Round(h, b)
  {
    Pow2Of8();
    XorSeparates(h % 256, a, b, 8);
    MultiplierInverts(Mixed(h, a));
    MultiplierInverts(Mixed(h, b));
  }

  lemma {:induction false} HashSeparatesStates(g: u64, h: u64, seed: seq<byte>)
    requires g != h
    ensures HashFrom(g, seed) != HashFrom(h, seed)
  {
    if seed != [] {
      var before, b := seed[..|seed| - 1], seed[|seed| - 1];
      HashSeparatesStates(g, h, before);
      RoundIsBijective(HashFrom(g, before), b);
      RoundIsBijective(HashFrom(h, before), b);
    }
  }

  lemma {:induction false} HashAppend(h: u64, a: seq<byte>, b: seq<byte>)
    ensures HashFrom(h, a + b) == HashFrom(HashFrom(h, a), b)
  {
    if b == [] {
      assert a + b == a;
    } else {
      assert (a + b)[..|a + b| - 1] == a + b[..|b| - 1];
      HashAppend(h, a, b[..|b| - 1]);
    }
  }

  /** Seeds that differ in one byte never share their 64-bit hash. */
  lemma OneByteChangesHash(prefix: seq<byte>, a: byte, b: byte, suffix: seq<byte>)
    requires a != b
    ensures Hash(prefix + [a] + suffix) != Hash(prefix + [b] + suffix)
  {
    var h := HashFrom(START, prefix);
    HashAppend(START, prefix + [a], suffix);
    HashAppend(START, prefix + [b], suffix);
    assert (prefix + [a])[..|prefix|] == prefix && (prefix + [b])[..|prefix|] == prefix;
    RoundSeparatesBytes(h, a, b);
    HashSeparatesStates(Round(h, a), Round(h, b), suffix);
  }
}
