/**
 The xorshift64* generator. The state is a 64-bit vector, so that shifts drop bits; the word drawn from
 it is an integer below 2^64.
 */
module Rng {
  import opened Common

  type Word = bv64

  const ZERO_SEED: Word := 0x9E37_79B9_7F4A_7C15

  const MULTIPLIER: int := 0x2545_F491_4F6C_DD1D

  /** MULTIPLIER * INVERSE leaves 1 modulo 2^64. */
  const INVERSE: int := 0x5907_1D96_D81E_CD35

  // ------------------------------------------------------------------ one draw

  function Xor(a: Word, b: Word): Word { a ^ b }

  function Right12(x: Word): Word { x >> 12 }

  function Left25(x: Word): Word { x << 25 }

  function Right27(x: Word): Word { x >> 27 }

  function Mix12(x: Word): Word { Xor(x, Right12(x)) }

  function Mix25(x: Word): Word { Xor(x, Left25(x)) }

  function Mix27(x: Word): Word { Xor(x, Right27(x)) }

  function NextState(x: Word): Word {
    Mix27(Mix25(Mix12(x)))
  }

  /** `wrapping_mul` by the multiplier. */
  function Wrapped(n: u64): u64 {
    (n * MULTIPLIER) % TWO_64
  }

  function Number(x: Word): u64 { x as int }

  function Output(state: Word): u64 {
    Wrapped(Number(state))
  }

  function Seeded(seed: Word): Word {
    if seed == 0 then ZERO_SEED else seed
  }

  class Generator {
    var state: Word

    constructor (seed: Word)
      ensures state == Seeded(seed)
    {
      state := if seed == 0 then ZERO_SEED else seed;
    }

    method NextU64() returns (r: u64)
      modifies this
      ensures state == NextState(old(state)) && r == Output(state)
    {
      hide Xor, Right12, Left25, Right27, Number, Wrapped;
      var x := state;
      x := Xor(x, Right12(x));
      x := Xor(x, Left25(x));
      x := Xor(x, Right27(x));
      state := x;
      r := Wrapped(Number(x));
    }

    /** A draw in [0, n), and 0 without a draw when n is 0. */
    method Below(n: u64) returns (r: u64)
      modifies this
      ensures n == 0 ==> r == 0 && state == old(state)
      ensures n != 0 ==> r < n && state == NextState(old(state)) && r == Output(state) % n
    {
      hide NextState, Output;
      if n == 0 {
        r := 0;
      } else {
        var x := NextU64();
        r := x % n;
      }
    }

    method PickIndex(len: u64) returns (r: Option<u64>)
      modifies this
      ensures len == 0 ==> r == None && state == old(state)
      ensures len != 0 ==> r.Some? && r.value < len && state == NextState(old(state)) && r.value == Output(state) % len
    {
      hide NextState, Output;
      if len == 0 { return None; }
      var i := Below(len);
      r := Some(i);
    }
  }

  // ------------------------------------------------------------------ the update is injective

  lemma XorFindsDifference(a: Word, b: Word)
    ensures Xor(a, b) == 0 ==> a == b
  {
  }

  lemma XorWithSelf(a: Word)
    ensures Xor(a, a) == 0
  {
  }

  lemma XorSwaps(a: Word, b: Word, c: Word, d: Word)
    ensures Xor(Xor(a, b), Xor(c, d)) == Xor(Xor(a, c), Xor(b, d))
  {
    XorAssociates(a, b, Xor(c, d));
    XorAssociates(b, c, d);
    XorCommutes(b, c);
    XorAssociates(c, b, d);
    XorAssociates(a, c, Xor(b, d));
    hide Xor;
  }

  lemma XorAssociates(a: Word, b: Word, c: Word)
    ensures Xor(Xor(a, b), c) == Xor(a, Xor(b, c))
  {
  }

  lemma XorCommutes(a: Word, b: Word)
    ensures Xor(a, b) == Xor(b, a)
  {
  }

  lemma Right12Distributes(a: Word, b: Word)
    ensures Right12(Xor(a, b)) == Xor(Right12(a), Right12(b))
  {
  }

  lemma Left25Distributes(a: Word, b: Word)
    ensures Left25(Xor(a, b)) == Xor(Left25(a), Left25(b))
  {
  }

  lemma Right27Distributes(a: Word, b: Word)
    ensures Right27(Xor(a, b)) == Xor(Right27(a), Right27(b))
  {
  }

  /** A word that equals its own shift has lost every bit. */
  lemma ShiftsMove(d: Word)
    ensures d == Right12(d) ==> d == 0
    ensures d == Left25(d) ==> d == 0
    ensures d == Right27(d) ==> d == 0
  {
  }

  /** Mixing a word with a shift of itself loses nothing: what two such words differ by is its own shift. */
  lemma MixesAreInjective(a: Word, b: Word)
    ensures Mix12(a) == Mix12(b) ==> a == b
    ensures Mix25(a) == Mix25(b) ==> a == b
    ensures Mix27(a) == Mix27(b) ==> a == b
  {
    hide Xor, Right12, Left25, Right27;
    var d := Xor(a, b);
    ShiftsMove(d);
    XorFindsDifference(a, b);
    XorWithSelf(Mix12(b));
    Right12Distributes(a, b);
    XorSwaps(a, Right12(a), b, Right12(b));
    XorFindsDifference(d, Right12(d));
    XorWithSelf(Mix25(b));
    Left25Distributes(a, b);
    XorSwaps(a, Left25(a), b, Left25(b));
    XorFindsDifference(d, Left25(d));
    XorWithSelf(Mix27(b));
    Right27Distributes(a, b);
    XorSwaps(a, Right27(a), b, Right27(b));
    XorFindsDifference(d, Right27(d));
  }

  /** The update is injective, and with 2^64 states that makes it a permutation. */
  lemma NextStateIsInjective(a: Word, b: Word)
    ensures NextState(a) == NextState(b) <==> a == b
  {
    hide Mix12, Mix25, Mix27;
    MixesAreInjective(a, b);
    MixesAreInjective(Mix12(a), Mix12(b));
    MixesAreInjective(Mix25(Mix12(a)), Mix25(Mix12(b)));
  }

  lemma ZeroIsFixed()
    ensures NextState(0) == 0
  {
  }

  /** The multiplier is odd, so it has an inverse: the drawn word determines the state. */
  lemma WrappedIsInvertible(n: u64)
    ensures (Wrapped(n) * INVERSE) % TWO_64 == n
  {
    var q := n * MULTIPLIER / TWO_64;
    RemainderIs(n * MULTIPLIER, TWO_64);
    assert MULTIPLIER * INVERSE == 0xcf65b3f17bf4a6b * TWO_64 + 1;
    var k := n * 0xcf65b3f17bf4a6b - q * INVERSE;
    assert Wrapped(n) * INVERSE == n + k * TWO_64;
    hide Wrapped;
    MultiplesVanish(n, k, TWO_64);
  }

  lemma RemainderIs(x: int, m: nat)
    requires m > 0
    ensures x % m == x - x / m * m
  {
  }

  lemma MultiplesVanish(n: nat, k: int, m: nat)
    requires n < m
    ensures (n + k * m) % m == n
  {
    var x := n + k * m;
    RemainderIs(x, m);
    var d := x / m - k;
    assert n - x % m == d * m;
    MultiplesAreApart(d, m);
  }

  lemma MultiplesAreApart(d: int, m: nat)
    ensures d > 0 ==> d * m >= m
    ensures d < 0 ==> d * m + m <= 0
  {
  }

  lemma NumberBack(x: Word)
    ensures Number(x) as bv64 == x
  {
  }

  lemma OutputIsInjective(a: Word, b: Word)
    ensures Output(a) == Output(b) <==> a == b
  {
    hide Wrapped, Number;
    WrappedIsInvertible(Number(a));
    WrappedIsInvertible(Number(b));
    NumberBack(a);
    NumberBack(b);
  }

  /** The update of a sum of states is the sum of their updates, so those of single bits determine it. */
  lemma UpdateIsLinear(a: Word, b: Word)
    ensures NextState(Xor(a, b)) == Xor(NextState(a), NextState(b))
  {
    hide Xor, Right12, Left25, Right27;
    MixesAreLinear(a, b);
    MixesAreLinear(Mix12(a), Mix12(b));
    MixesAreLinear(Mix25(Mix12(a)), Mix25(Mix12(b)));
  }

  lemma MixesAreLinear(a: Word, b: Word)
    ensures Mix12(Xor(a, b)) == Xor(Mix12(a), Mix12(b)) && Mix25(Xor(a, b)) == Xor(Mix25(a), Mix25(b))
    ensures Mix27(Xor(a, b)) == Xor(Mix27(a), Mix27(b))
  {
    hide Xor, Right12, Left25, Right27;
    Right12Distributes(a, b);
    Left25Distributes(a, b);
    Right27Distributes(a, b);
    XorSwaps(a, b, Right12(a), Right12(b));
    XorSwaps(a, b, Left25(a), Left25(b));
    XorSwaps(a, b, Right27(a), Right27(b));
  }

  /** Where the lowest, a middle and the highest bit go, the first draws from two seeds, and the seed 0. */
  lemma KnownDraws()
    ensures NextState(1) == 0x200_0001
    ensures NextState(0x2_0000_0000) == 0x0400_4002_8028_0040
    ensures NextState(0x8000_0000_0000_0000) == 0x8008_0010_0100_0000
    ensures Draw(1, 0) == 0x47E4_CE4B_896C_DD1D
    ensures Seeded(0) == 0x9E37_79B9_7F4A_7C15 && Seeded(1) == 1
  {
  }

  // ------------------------------------------------------------------ runs

  function StateAfter(seed: Word, draws: nat): Word {
    if draws == 0 then Seeded(seed) else NextState(StateAfter(seed, draws - 1))
  }

  /** The word that draw number `k` returns. */
  function Draw(seed: Word, k: nat): u64 {
    Output(StateAfter(seed, k + 1))
  }

  lemma {:induction false} StateIsNeverZero(seed: Word, draws: nat)
    ensures StateAfter(seed, draws) != 0
  {
    hide NextState;
    if draws > 0 {
      StateIsNeverZero(seed, draws - 1);
      NextStateIsInjective(StateAfter(seed, draws - 1), 0);
      ZeroIsFixed();
    }
  }

  lemma ZeroDrawsZero()
    ensures Output(0) == 0
  {
    assert (0 as bv64) as int == 0;
  }

  /** From any seed, zero included, no draw returns 0. */
  lemma NoDrawIsZero(seed: Word, k: nat)
    ensures Draw(seed, k) != 0
  {
    hide Output, StateAfter;
    StateIsNeverZero(seed, k + 1);
    ZeroDrawsZero();
    OutputIsInjective(StateAfter(seed, k + 1), 0);
  }

  lemma {:induction false} SameStates(seed: Word, i: nat, k: nat)
    requires i <= k && StateAfter(seed, i) == StateAfter(seed, k)
    ensures StateAfter(seed, k - i) == Seeded(seed)
  {
    hide NextState, Seeded;
    if i > 0 {
      NextStateIsInjective(StateAfter(seed, i - 1), StateAfter(seed, k - 1));
      SameStates(seed, i - 1, k - 1);
    }
  }

  lemma {:induction false} SameFuture(seed: Word, p: nat, k: nat)
    requires StateAfter(seed, p) == Seeded(seed)
    ensures StateAfter(seed, k + p) == StateAfter(seed, k)
  {
    hide NextState, Seeded;
    if k > 0 { SameFuture(seed, p, k - 1); }
  }

  /**
   The draws have no lead-in: once two of them return the same word, as many draws apart as they are,
   every draw repeats.
   */
  lemma DrawsRepeatFromTheSeed(seed: Word, i: nat, k: nat, any: nat)
    requires i <= k && Draw(seed, i) == Draw(seed, k)
    ensures Draw(seed, any + (k - i)) == Draw(seed, any)
  {
    hide Output, StateAfter, Seeded;
    OutputIsInjective(StateAfter(seed, i + 1), StateAfter(seed, k + 1));
    SameStates(seed, i + 1, k + 1);
    SameFuture(seed, k - i, any + 1);
  }
}
