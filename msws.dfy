/** The Middle Square Weyl Sequence generator shared by the two random
    data programs: a 64-bit `state` and a 64-bit Weyl counter, both static
    in the source and both updated on every draw. `unsigned long long` is
    an integer below 2^64 and every operation on it wraps explicitly. */
module Msws {
  /** 2^64 and 2^32. */
  const Modulus: int := 0x1_0000_0000_0000_0000
  const Half: int := 0x1_0000_0000

  /** `unsigned long long`. */
  type U64 = x: int | 0 <= x < 0x1_0000_0000_0000_0000

  /** The Weyl increment, also the counter's initial value. */
  const WeylConstant: U64 := 0xb5ad4eceda1ce2a9

  const IntMin: int := -0x8000_0000
  const IntMax: int := 0x7fff_ffff

  /** The generator's two static variables. */
  datatype Generator = Generator(state: U64, weyl: U64)

  /** The statics at program start. */
  const Initial: Generator := Generator(0, WeylConstant)

  /** `(x >> 32) | (x << 32)`: swaps the two 32-bit halves of `x`. */
  function Rotate(x: U64): U64 {
    x / Half + (x % Half) * Half
  }

  /** The generator after one draw: the counter advances by the constant,
      the state is squared, the counter added, and the halves swapped, all
      modulo 2^64. */
  function Next(g: Generator): Generator {
    var w := (g.weyl + WeylConstant) % Modulus;
    Generator(Rotate(((g.state * g.state) % Modulus + w) % Modulus), w)
  }

  /** `min..max` is a range `genRand` handles: both ends and the width
      `max - min + 1` are C ints and the width is positive. */
  predicate ValidRange(min: int, max: int) {
    IntMin <= min <= max <= IntMax && max - min + 1 <= IntMax
  }

  /** `min + (int)(state % range)` with the width promoted to 64 bits. */
  function Scale(x: nat, min: int, max: int): (r: int)
    requires ValidRange(min, max)
    ensures min <= r <= max
  {
    min + x % (max - min + 1)
  }

  /** `genRand(min, max)`: the value drawn and the generator after it. */
  function Draw(g: Generator, min: int, max: int): (int, Generator)
    requires ValidRange(min, max)
  {
    var g' := Next(g);
    (Scale(g'.state, min, max), g')
  }

  /** `n` successive draws from `min..max`. */
  function Draws(g: Generator, n: nat, min: int, max: int): (seq<int>, Generator)
    requires ValidRange(min, max)
    decreases n
  {
    if n == 0 then ([], g)
    else
      var (v, g1) := Draw(g, min, max);
      var (vs, g2) := Draws(g1, n - 1, min, max);
      ([v] + vs, g2)
  }

  /** Swapping the halves twice gives back the value, so the scramble
      loses no bits of the state. */
  lemma RotateInvolution(x: U64)
    ensures Rotate(Rotate(x)) == x
  {
    var hi, lo := x / Half, x % Half;
    assert x == hi * Half + lo;
    var r := hi + lo * Half;
    assert r / Half == lo && r % Half == hi;
  }

  /** The halves of the rotated value are the original's, swapped. */
  lemma RotateSwapsHalves(x: U64)
    ensures Rotate(x) / Half == x % Half && Rotate(x) % Half == x / Half
  {
  }

  /** Every value of the range is produced by some state: the state
      `v - min`, which is below 2^32. */
  lemma ScaleOnto(v: int, min: int, max: int)
    requires ValidRange(min, max) && min <= v <= max
    ensures v - min < 0x1_0000_0000 && Scale(v - min, min, max) == v
  {
    SmallMod(v - min, max - min + 1);
  }

  lemma SmallMod(x: nat, w: int)
    requires x < w
    ensures x % w == x
  {
  }

  /** `n` draws give `n` values, each inside the range. */
  lemma {:induction false} DrawsInRange(g: Generator, n: nat, min: int, max: int)
    requires ValidRange(min, max)
    ensures |Draws(g, n, min, max).0| == n
    ensures forall i :: 0 <= i < n ==> min <= Draws(g, n, min, max).0[i] <= max
    decreases n
  {
    if n > 0 {
      var (v, g1) := Draw(g, min, max);
      DrawsInRange(g1, n - 1, min, max);
    }
  }

  /** After `n` draws the counter has advanced by `n` constants. */
  lemma {:induction false} WeylAfterDraws(g: Generator, n: nat, min: int, max: int)
    requires ValidRange(min, max)
    ensures Draws(g, n, min, max).1.weyl == (g.weyl + n * WeylConstant) % Modulus
    decreases n
  {
    if n > 0 {
      var g1 := Next(g);
      WeylAfterDraws(g1, n - 1, min, max);
      ModAddLeft(g.weyl + WeylConstant, (n - 1) * WeylConstant);
      assert g.weyl + WeylConstant + (n - 1) * WeylConstant == g.weyl + n * WeylConstant;
    }
  }

  lemma ModAddLeft(a: nat, b: nat)
    ensures (a % Modulus + b) % Modulus == (a + b) % Modulus
  {
    var q := a / Modulus;
    assert a == q * Modulus + a % Modulus;
    assert a + b == q * Modulus + (a % Modulus + b);
  }

  /** Drawing `m` values and then `n` more is drawing `m + n` values. */
  lemma {:induction false} DrawsCompose(g: Generator, m: nat, n: nat, min: int, max: int)
    requires ValidRange(min, max)
    ensures var (a, g1) := Draws(g, m, min, max);
            var (b, g2) := Draws(g1, n, min, max);
            Draws(g, m + n, min, max) == (a + b, g2)
    decreases m
  {
    if m > 0 {
      var (v, g1) := Draw(g, min, max);
      DrawsCompose(g1, m - 1, n, min, max);
      var (a, h) := Draws(g1, m - 1, min, max);
      var (b, h2) := Draws(h, n, min, max);
      assert Draws(g, m, min, max) == ([v] + a, h);
      assert Draws(g, m + n, min, max) == ([v] + Draws(g1, m - 1 + n, min, max).0, h2);
      assert [v] + (a + b) == ([v] + a) + b;
    } else {
      assert [] + Draws(g, n, min, max).0 == Draws(g, n, min, max).0;
    }
  }

  lemma DrawsStep(g: Generator, n: nat, min: int, max: int)
    requires ValidRange(min, max) && n > 0
    ensures var (v, g1) := Draw(g, min, max);
            Draws(g, n, min, max).0 == [v] + Draws(g1, n - 1, min, max).0 &&
            Draws(g, n, min, max).1 == Draws(g1, n - 1, min, max).1
  {
  }

  /** The two statics as an object updated in place. */
  class Rng {
    var state: U64
    var weyl: U64

    /** The statics' initial values. */
    constructor ()
      ensures Gen() == Initial
    {
      state := 0;
      weyl := WeylConstant;
    }

    function Gen(): Generator
      reads this
    {
      Generator(state, weyl)
    }

    /** `genRand`. */
    method GenRand(min: int, max: int) returns (r: int)
      requires ValidRange(min, max)
      modifies this
      ensures (r, Gen()) == Draw(old(Gen()), min, max)
      ensures min <= r <= max
    {
      state := (state * state) % Modulus;
      weyl := (weyl + WeylConstant) % Modulus;
      state := (state + weyl) % Modulus;
      state := state / Half + (state % Half) * Half;
      var range := max - min + 1;
      r := min + (state as int) % range;
    }

    /** `setSeed`: replaces the state and keeps the counter. */
    method SetSeed(seed: U64)
      modifies this
      ensures Gen() == Generator(seed, old(weyl))
    {
      state := seed;
    }
  }
}
