/** The xorshift128+ generator behind `rnd`, `rndd` and `srnd`: a two-word
    64-bit state, advanced by shifts and exclusive-ors, whose output is the
    wrapping sum of the new second word and the old one. */
module Random {

  /** The constant second word `Seed` installs. */
  const SeedWord: bv64 := 0x5ea3_4222_ef71_888b

  /** Steps `Seed` takes (and discards) after installing the seed. */
  const SeedSteps: nat := 16

  const UInt64Max: bv64 := 0xffff_ffff_ffff_ffff

  /** The generator's `state[0]` and `state[1]`. */
  datatype Words = Words(s0: bv64, s1: bv64)

  // ---------------------------------------------------------------------
  // The three statements of a step and the output sum, each with its inverse

  /** `x ^= x << 23` */
  function ShlXor23(x: bv64): bv64
  {
    x ^ (x << 23)
  }

  /** `x ^= x >> 17` */
  function ShrXor17(x: bv64): bv64
  {
    x ^ (x >> 17)
  }

  /** `x ^= y ^ (y >> 26)` */
  function FoldIn(x: bv64, y: bv64): bv64
  {
    x ^ (y ^ (y >> 26))
  }

  /** `x + y` on `uint64_t`: addition modulo 2^64. */
  function WrapAdd(a: bv64, b: bv64): bv64
  {
    a + b
  }

  function UnShlXor23(a: bv64): bv64
  {
    a ^ (a << 23) ^ (a << 46)
  }

  function UnShrXor17(b: bv64): bv64
  {
    b ^ (b >> 17) ^ (b >> 34) ^ (b >> 51)
  }

  lemma ShlXor23Undo(x: bv64)
    ensures UnShlXor23(ShlXor23(x)) == x
  {
    assert ShlXor23(x) == x ^ (x << 23);
  }

  lemma ShlXor23Redo(a: bv64)
    ensures ShlXor23(UnShlXor23(a)) == a
  {
    assert UnShlXor23(a) == a ^ (a << 23) ^ (a << 46);
  }

  lemma ShrXor17Undo(x: bv64)
    ensures UnShrXor17(ShrXor17(x)) == x
  {
    assert ShrXor17(x) == x ^ (x >> 17);
  }

  lemma ShrXor17Redo(b: bv64)
    ensures ShrXor17(UnShrXor17(b)) == b
  {
    assert UnShrXor17(b) == b ^ (b >> 17) ^ (b >> 34) ^ (b >> 51);
  }

  lemma FoldInInvolution(x: bv64, y: bv64)
    ensures FoldIn(FoldIn(x, y), y) == x
  {
    assert FoldIn(x, y) == x ^ (y ^ (y >> 26));
  }

  // ---------------------------------------------------------------------
  // One step as a function of the state

  /** The new `state[1]`: the three statements applied to the old `state[0]`,
      the last one folding in the old `state[1]`. */
  function Mix(x: bv64, y: bv64): bv64
  {
    FoldIn(ShrXor17(ShlXor23(x)), y)
  }

  /** The state after one step: the old second word moves to the first. */
  function Next(st: Words): (r: Words)
    ensures r.s0 == st.s1
  {
    Words(st.s1, Mix(st.s0, st.s1))
  }

  /** The value one step returns: new `state[1]` plus old `state[1]`. */
  function Output(st: Words): bv64
  {
    WrapAdd(Next(st).s1, st.s1)
  }

  /** The old first word back from the mixed word and the old second word:
      the three statements undone in reverse order. */
  function Unmix(m: bv64, y: bv64): bv64
  {
    UnShlXor23(UnShrXor17(FoldIn(m, y)))
  }

  lemma UnmixMix(x: bv64, y: bv64)
    ensures Unmix(Mix(x, y), y) == x
  {
    FoldInInvolution(ShrXor17(ShlXor23(x)), y);
    ShrXor17Undo(ShlXor23(x));
    ShlXor23Undo(x);
  }

  lemma MixUnmix(m: bv64, y: bv64)
    ensures Mix(Unmix(m, y), y) == m
  {
    ShlXor23Redo(UnShrXor17(FoldIn(m, y)));
    ShrXor17Redo(FoldIn(m, y));
    FoldInInvolution(m, y);
  }

  /** The state one step earlier. */
  function Prev(st: Words): Words
  {
    Words(Unmix(st.s1, st.s0), st.s0)
  }

  /** A step can be undone and redone: the step is a bijection on states. */
  lemma StepBijective(st: Words)
    ensures Prev(Next(st)) == st
    ensures Next(Prev(st)) == st
  {
    UnmixMix(st.s0, st.s1);
    MixUnmix(st.s1, st.s0);
  }

  lemma NextInjective(p: Words, q: Words)
    ensures Next(p) == Next(q) ==> p == q
  {
    StepBijective(p);
    StepBijective(q);
  }

  /** The state after `n` steps. */
  function Iterate(st: Words, n: nat): Words
  {
    if n == 0 then st else Next(Iterate(st, n - 1))
  }

  lemma {:induction false} IterateInjective(p: Words, q: Words, n: nat)
    ensures Iterate(p, n) == Iterate(q, n) ==> p == q
  {
    if n > 0 {
      NextInjective(Iterate(p, n - 1), Iterate(q, n - 1));
      IterateInjective(p, q, n - 1);
    }
  }

  /** The all-zero state is a fixed point: from it the generator returns 0
      forever. */
  lemma {:induction false} ZeroStuck(n: nat)
    ensures Iterate(Words(0, 0), n) == Words(0, 0)
    ensures Output(Iterate(Words(0, 0), n)) == 0
  {
    if n > 0 {
      ZeroStuck(n - 1);
    }
  }

  /** The state `Seed(s)` leaves: (s, SeedWord) advanced 16 times. */
  function Seeded(s: bv64): Words
  {
    Iterate(Words(s, SeedWord), SeedSteps)
  }

  /** Different seeds leave different states, and no seed leaves the
      all-zero state. */
  lemma SeededDistinct(s: bv64, t: bv64)
    ensures s != t ==> Seeded(s) != Seeded(t)
    ensures Seeded(s) != Words(0, 0)
  {
    IterateInjective(Words(s, SeedWord), Words(t, SeedWord), SeedSteps);
    IterateInjective(Words(s, SeedWord), Words(0, 0), SeedSteps);
    ZeroStuck(SeedSteps);
  }

  // ---------------------------------------------------------------------
  // Unit draws

  /** `rndd()`'s quotient `rnd() / UINT64_MAX`, taken exactly. */
  function UnitOf(u: bv64): (r: real)
    ensures 0.0 <= r <= 1.0
    ensures r == 1.0 <==> u == UInt64Max
  {
    QuotientBounds(u as int, UInt64Max as int);
    (u as int) as real / (UInt64Max as int) as real
  }

  lemma QuotientBounds(n: int, m: int)
    requires 0 <= n <= m && 0 < m
    ensures 0.0 <= n as real / m as real <= 1.0
    ensures n as real / m as real == 1.0 <==> n == m
  {
  }

  /** `rndd(start, end)`'s affine map of a unit draw. */
  function Scaled(d: real, start: real, end: real): (r: real)
    ensures start <= end && 0.0 <= d <= 1.0 ==> start <= r <= end
    ensures d == 1.0 ==> r == end
  {
    ScaleBounds(d, end - start);
    d * (end - start) + start
  }

  lemma ScaleBounds(d: real, span: real)
    ensures 0.0 <= d <= 1.0 && 0.0 <= span ==> 0.0 <= d * span <= span
    ensures 0.0 <= d < 1.0 && 0.0 < span ==> d * span < span
  {
    if 0.0 <= d <= 1.0 && 0.0 <= span {
      assert d * span <= 1.0 * span;
    }
    if 0.0 <= d < 1.0 && 0.0 < span {
      assert d * span < 1.0 * span;
    }
  }

  /** From the state (0x07e0_7ff0_3fff_e000, 0) the next `rnd()` is
      UINT64_MAX, so the next `rndd()` is exactly 1.0 and the next
      `rndd(start, end)` is `end`. */
  lemma RnddReachesOne(start: real, end: real)
    ensures Output(Words(0x07e0_7ff0_3fff_e000, 0)) == UInt64Max
    ensures Scaled(UnitOf(Output(Words(0x07e0_7ff0_3fff_e000, 0))), start, end) == end
  {
    assert ShlXor23(0x07e0_7ff0_3fff_e000) == 0x07e0_7ff0_3fff_e000 ^ (0x07e0_7ff0_3fff_e000 << 23);
  }

  /** A unit draw kept below 1: the top 53 bits over 2^53. */
  function UnitBelowOne(u: bv64): (r: real)
    ensures 0.0 <= r < 1.0
  {
    var n := (u as int) / 2048;
    TopBits(u as int);
    BelowOne(n, 9007199254740992);
    n as real / 9007199254740992 as real
  }

  lemma BelowOne(n: int, m: int)
    requires 0 <= n < m
    ensures 0.0 <= n as real / m as real < 1.0
  {
  }

  lemma TopBits(m: int)
    requires 0 <= m < 0x1_0000_0000_0000_0000
    ensures 0 <= m / 2048 < 9007199254740992
  {
  }

  /** With the draw below 1, `rndd(start, end)` stays below `end`, whatever
      the word drawn. */
  lemma ScaledBelowEnd(u: bv64, start: real, end: real)
    requires start < end
    ensures start <= Scaled(UnitBelowOne(u), start, end) < end
  {
    var d, span := UnitBelowOne(u), end - start;
    ScaleBounds(d, span);
    assert d * span < span;
    assert Scaled(d, start, end) == d * span + start;
  }

  // ---------------------------------------------------------------------
  // The generator object

  /** One generator (the source keeps one per thread). */
  class XorShiftP {
    var state0: bv64
    var state1: bv64

    function Current(): Words
      reads this
    {
      Words(state0, state1)
    }

    /** The source seeds each thread's generator with a hash of its thread
        id; that hash is the parameter here. */
    constructor (threadHash: bv64)
      ensures Current() == Seeded(threadHash)
    {
      new;
      Seed(threadHash);
    }

    method Step() returns (r: bv64)
      modifies this
      ensures Current() == Next(old(Current()))
      ensures r == Output(old(Current()))
    {
      var x := state0;
      var y := state1;
      state0 := y;
      x := ShlXor23(x);
      x := ShrXor17(x);
      x := FoldIn(x, y);
      state1 := x;
      r := WrapAdd(x, y);
    }

    /** Installs (s, SeedWord) and discards 16 outputs: the state afterwards
        depends on `s` alone. */
    method Seed(s: bv64)
      modifies this
      ensures Current() == Seeded(s)
    {
      state0 := s;
      state1 := SeedWord;
      for i := 0 to SeedSteps
        invariant Current() == Iterate(Words(s, SeedWord), i)
      {
        var _ := Rnd(this);
      }
    }
  }

  /** `rnd()`: one step of the generator. */
  method Rnd(prng: XorShiftP) returns (r: bv64)
    modifies prng
    ensures prng.Current() == Next(old(prng.Current()))
    ensures r == Output(old(prng.Current()))
  {
    r := prng.Step();
  }

  /** `rndd()`: one `rnd()` divided by UINT64_MAX. */
  method Rndd(prng: XorShiftP) returns (r: real)
    modifies prng
    ensures prng.Current() == Next(old(prng.Current()))
    ensures r == UnitOf(Output(old(prng.Current())))
  {
    var u := Rnd(prng);
    r := (u as int) as real / (UInt64Max as int) as real;
  }

  /** `rndd(start, end)`: one `rndd()` mapped onto [start, end]. */
  method RnddRange(prng: XorShiftP, start: real, end: real) returns (r: real)
    modifies prng
    ensures prng.Current() == Next(old(prng.Current()))
    ensures r == Scaled(UnitOf(Output(old(prng.Current()))), start, end)
  {
    var d := Rndd(prng);
    r := Scaled(d, start, end);
  }

  /** `srnd(s)`: reseeds the generator. */
  method Srnd(prng: XorShiftP, s: bv64)
    modifies prng
    ensures prng.Current() == Seeded(s)
  {
    prng.Seed(s);
  }
}
