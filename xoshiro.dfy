/** The xoshiro128+ pseudo-random generator, seeded by the splitmix32a
    mixer.  JavaScript keeps each state word as a signed 32-bit integer;
    every operation on them is bitwise or wraps modulo 2^32, so a word is
    modelled by its bit pattern, a `bv32`.  Each bit-level step is a small
    function of its own, so that the methods below are tied to the
    specification by the order of the steps and not by bit arithmetic. */
module Xoshiro {
  import opened Wrappers

  /** The seed used when none is given. */
  const DefaultSeed: int := 0x9e3779b9

  const TwoTo32: int := 0x1_0000_0000

  /** The generator's four state words. */
  datatype State = State(s0: bv32, s1: bv32, s2: bv32, s3: bv32)

  const Zero: State := State(0, 0, 0, 0)

  /** The low 32 bits of an integer seed, the bit pattern both `ToUint32`
      (for `>>>`) and `ToInt32` (for `^`) read from it. */
  function Low32(z: int): bv32 {
    (z % TwoTo32) as bv32
  }

  /** The first line of `updateZ`: `Math.imul(z ^ (z >>> 16), 0x21f0aaad)`.
      `Math.imul` keeps the low 32 bits of the product, which is `bv32`
      multiplication. */
  function ShiftMul16(z: bv32): bv32 {
    (z ^ (z >> 16)) * 0x21f0aaad
  }

  /** The second line: `Math.imul(z ^ (z >>> 15), 0x735a2d97)`. */
  function ShiftMul15(z: bv32): bv32 {
    (z ^ (z >> 15)) * 0x735a2d97
  }

  /** The third line: `z ^ (z >>> 15)`. */
  function XorShift15(z: bv32): bv32 {
    z ^ (z >> 15)
  }

  /** The splitmix32a mixer: one call of `updateZ`. */
  function Mix(z: bv32): bv32 {
    XorShift15(ShiftMul15(ShiftMul16(z)))
  }

  /** The state the constructor gives for `seed`: four successive outputs
      of the mixer, starting from the seed's low 32 bits. */
  function Seeded(seed: int): (st: State)
    ensures st.s0 == Mix(Low32(seed))
    ensures st.s1 == Mix(st.s0) && st.s2 == Mix(st.s1) && st.s3 == Mix(st.s2)
  {
    var s0 := Mix(Low32(seed));
    var s1 := Mix(s0);
    var s2 := Mix(s1);
    State(s0, s1, s2, Mix(s2))
  }

  /** The signed value JavaScript holds for a word. */
  function Int32(w: bv32): (n: int)
    ensures -0x8000_0000 <= n < 0x8000_0000
    ensures n == w as int || n == w as int - 0x1_0000_0000
  {
    if w as int < 0x8000_0000 then w as int else w as int - 0x1_0000_0000
  }

  /** ECMAScript ToUint32 of an integer, what `>>> 0` yields. */
  function ToUint32(n: int): (u: int)
    ensures 0 <= u < TwoTo32
  {
    n % 0x1_0000_0000
  }

  /** What `uint32` returns for state `st`: `this.s0 + this.s3` adds the two
      signed words exactly, and `>>> 0` reduces the sum modulo 2^32. */
  function Output(st: State): int {
    ToUint32(Int32(st.s0) + Int32(st.s3))
  }

  /** The output is the sum of the two words' unsigned values modulo 2^32,
      whatever their signs, and always lies in [0, 2^32). */
  lemma OutputIsUnsignedSum(st: State)
    ensures Output(st) == (st.s0 as int + st.s3 as int) % TwoTo32
    ensures 0 <= Output(st) < TwoTo32
  {
    var a, b := st.s0 as int, st.s3 as int;
    var k := (if Int32(st.s0) == a then 0 else 1) + (if Int32(st.s3) == b then 0 else 1);
    assert Int32(st.s0) + Int32(st.s3) == a + b - k * 0x1_0000_0000;
    ModShift(a + b, k);
  }

  lemma ModShift(n: int, k: int)
    requires 0 <= k <= 2
    ensures (n - k * 0x1_0000_0000) % 0x1_0000_0000 == n % 0x1_0000_0000
  {
    if k == 1 {
      assert n - 0x1_0000_0000 == n - k * 0x1_0000_0000;
    } else if k == 2 {
      assert n - 0x2_0000_0000 == n - k * 0x1_0000_0000;
    }
  }

  function Xor(a: bv32, b: bv32): bv32 { a ^ b }
  function Shl9(a: bv32): bv32 { a << 9 }
  /** `s << 11 | s >>> 21`. */
  function Rotl11(a: bv32): bv32 { a.RotateLeft(11) }

  /** The xoshiro128+ state transition, as `uint32` performs it: `t` is taken
      from the old `s1`, then the words are overwritten one after the
      other, each from the values current at that point. */
  function Next(st: State): State {
    var t := Shl9(st.s1);
    var s2 := Xor(st.s2, st.s0);
    var s3 := Xor(st.s3, st.s1);
    var s1 := Xor(st.s1, s2);
    var s0 := Xor(st.s0, s3);
    State(s0, s1, Xor(s2, t), Rotl11(s3))
  }

  /** The outputs of `n` draws from state `st`. */
  function Outputs(st: State, n: nat): (out: seq<int>)
    ensures |out| == n
    ensures forall i :: 0 <= i < n ==> 0 <= out[i] < TwoTo32
    decreases n
  {
    if n == 0 then []
    else
      OutputIsUnsignedSum(st);
      [Output(st)] + Outputs(Next(st), n - 1)
  }

  /** The state after `n` draws. */
  function Advance(st: State, n: nat): State
    decreases n
  {
    if n == 0 then st else Advance(Next(st), n - 1)
  }

  /** The draws of `m + n` are the first `m` draws followed by the `n` draws
      from the state they leave. */
  lemma {:induction false} OutputsSplit(st: State, m: nat, n: nat)
    ensures Outputs(st, m + n) == Outputs(st, m) + Outputs(Advance(st, m), n)
    decreases m
  {
    if m > 0 {
      OutputsSplit(Next(st), m - 1, n);
      var head := [Output(st)];
      assert Outputs(st, m + n) == head + Outputs(Next(st), (m - 1) + n);
      assert Outputs(st, m) == head + Outputs(Next(st), m - 1);
      assert Advance(st, m) == Advance(Next(st), m - 1);
    }
  }

  /** The all-zero state is a fixed point of the transition and outputs 0. */
  lemma ZeroIsFixed()
    ensures Next(Zero) == Zero
    ensures Output(Zero) == 0
  {
  }

  /** The mixer keeps 0 at 0. */
  lemma MixOfZero()
    ensures Mix(0) == 0
  {
  }

  /** A seed that is 0 modulo 2^32 gives the all-zero state, which only
      ever yields 0: the seeding adds no constant before mixing. */
  lemma {:induction false} ZeroSeedYieldsZeros(seed: int, n: nat)
    requires seed % TwoTo32 == 0
    ensures Seeded(seed) == Zero
    ensures forall i :: 0 <= i < n ==> Outputs(Seeded(seed), n)[i] == 0
  {
    assert Low32(seed) == 0;
    MixOfZero();
    ZeroOutputs(n);
  }

  lemma {:induction false} ZeroOutputs(n: nat)
    ensures forall i :: 0 <= i < n ==> Outputs(Zero, n)[i] == 0
  {
    if n > 0 {
      ZeroOutputs(n - 1);
      ZeroIsFixed();
      assert Outputs(Zero, n) == [0] + Outputs(Zero, n - 1);
    }
  }

  /** `Xoshiro128p`: the state words are private fields that every `uint32`
      call overwrites. */
  class Xoshiro128p {
    var s0: bv32
    var s1: bv32
    var s2: bv32
    var s3: bv32

    function Current(): State
      reads this
    {
      State(s0, s1, s2, s3)
    }

    /** `new Xoshiro128p(z)` (`seed` is `None` when the argument is left out):
        the `updateZ` closure mixes `z` in place and each state word takes
        the next value of `z`. */
    constructor (seed: Option<int>)
      ensures Current() == Seeded(if seed.Some? then seed.value else DefaultSeed)
    {
      var z := Low32(if seed.Some? then seed.value else DefaultSeed);
      z := UpdateZ(z);
      s0 := z;
      z := UpdateZ(z);
      s1 := z;
      z := UpdateZ(z);
      s2 := z;
      z := UpdateZ(z);
      s3 := z;
    }

    /** `updateZ`: three reassignments of `z`. */
    static method UpdateZ(z: bv32) returns (z': bv32)
      ensures z' == Mix(z)
    {
      z' := ShiftMul16(z);
      z' := ShiftMul15(z');
      z' := XorShift15(z');
    }

    /** `uint32()`: the sum of the first and last words, taken before the
        words are updated one after the other; always in [0, 2^32). */
    method Uint32() returns (r: int)
      modifies this
      ensures r == Output(old(Current()))
      ensures 0 <= r < TwoTo32
      ensures Current() == Next(old(Current()))
    {
      var t := Shl9(s1);
      var sum := Int32(s0) + Int32(s3);
      s2 := Xor(s2, s0);
      s3 := Xor(s3, s1);
      s1 := Xor(s1, s2);
      s0 := Xor(s0, s3);
      s2 := Xor(s2, t);
      s3 := Rotl11(s3);
      r := ToUint32(sum);
    }
  }

  /** Two generators built from the same seed, drawn from alternately `n`
      times, yield the same outputs: those of the seeded state. */
  method SameSeedSameDraws(seed: int, n: nat) returns (first: seq<int>, second: seq<int>)
    ensures first == second == Outputs(Seeded(seed), n)
    ensures forall i :: 0 <= i < n ==> 0 <= first[i] < TwoTo32
  {
    var a := new Xoshiro128p(Some(seed));
    var b := new Xoshiro128p(Some(seed));
    ghost var st := a.Current();
    first, second := [], [];
    for i := 0 to n
      invariant a != b
      invariant a.Current() == b.Current() == Advance(st, i)
      invariant first == second == Outputs(st, i)
    {
      OutputsSnoc(st, i);
      AdvanceStep(st, i);
      var x := a.Uint32();
      var y := b.Uint32();
      first, second := first + [x], second + [y];
    }
  }

  /** One more draw appends the output of the state reached so far. */
  lemma OutputsSnoc(st: State, i: nat)
    ensures Outputs(st, i + 1) == Outputs(st, i) + [Output(Advance(st, i))]
  {
    OutputsSplit(st, i, 1);
    assert Outputs(Advance(st, i), 1) == [Output(Advance(st, i))];
  }

  lemma {:induction false} AdvanceStep(st: State, i: nat)
    ensures Advance(st, i + 1) == Next(Advance(st, i))
    decreases i
  {
    if i > 0 {
      AdvanceStep(Next(st), i - 1);
    }
  }
}
