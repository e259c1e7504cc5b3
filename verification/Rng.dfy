/**
  The SplitMix64 generator and `rng.int` of src/builtins.cpp.  Words are naturals below 2^64 with the
  wrap-around written out; exclusive or and right shift are defined bit by bit.
 */
module Rng {
  import opened Values

  const MODULUS: nat := 0x1_0000_0000_0000_0000
  const GAMMA: nat := 0x9e37_79b9_7f4a_7c15

  type Word = w: nat | w < MODULUS

  // ----- bitwise operations -----

  function Xor(a: nat, b: nat): nat
    decreases a + b
  {
    if a == 0 then b else if b == 0 then a else (a + b) % 2 + 2 * Xor(a / 2, b / 2)
  }

  function ShiftRight(a: nat, k: nat): nat
    decreases k
  {
    if k == 0 then a else ShiftRight(a / 2, k - 1)
  }

  function Pow2(k: nat): nat {
    if k == 0 then 1 else 2 * Pow2(k - 1)
  }

  lemma {:induction false} XorHalves(a: nat, b: nat)
    ensures Xor(a, b) % 2 == (a + b) % 2 && Xor(a, b) / 2 == Xor(a / 2, b / 2)
  {
    if a != 0 && b != 0 {
      Halves((a + b) % 2, Xor(a / 2, b / 2));
    } else {
      assert Xor(0, b) == b && Xor(a, 0) == a;
      assert Xor(0, b / 2) == b / 2 && Xor(a / 2, 0) == a / 2;
    }
  }

  lemma Halves(low: nat, high: nat)
    requires low < 2
    ensures (low + 2 * high) % 2 == low && (low + 2 * high) / 2 == high
  {
  }

  lemma SameHalves(x: nat, y: nat)
    requires x % 2 == y % 2 && x / 2 == y / 2
    ensures x == y
  {
  }

  lemma ParityCancels(a: nat, b: nat, ab: nat)
    requires ab % 2 == (a + b) % 2
    ensures (ab + b) % 2 == a % 2
  {
  }

  lemma {:induction false} XorCancel(a: nat, b: nat)
    ensures Xor(Xor(a, b), b) == a
    decreases a + b
  {
    hide Xor;
    XorZero(a);
    XorZero(b);
    if a == 0 {
      XorSelf(b);
    } else if b != 0 {
      XorHalves(a, b);
      XorHalves(Xor(a, b), b);
      XorCancel(a / 2, b / 2);
      ParityCancels(a, b, Xor(a, b));
      SameHalves(Xor(Xor(a, b), b), a);
    }
  }

  lemma {:induction false} XorSelf(b: nat)
    ensures Xor(b, b) == 0
  {
    if b != 0 {
      XorSelf(b / 2);
    }
  }

  lemma ParityAssociates(a: nat, b: nat, c: nat, ab: nat, bc: nat)
    requires ab % 2 == (a + b) % 2 && bc % 2 == (b + c) % 2
    ensures (ab + c) % 2 == (a + bc) % 2
  {
  }

  lemma {:induction false} XorAssociates(a: nat, b: nat, c: nat)
    ensures Xor(Xor(a, b), c) == Xor(a, Xor(b, c))
    decreases a + b + c, 1
  {
    hide Xor;
    XorZero(a);
    XorZero(b);
    XorZero(c);
    if a == 0 {
      XorZero(Xor(b, c));
    } else if b != 0 && c == 0 {
      XorZero(Xor(a, b));
    } else if b != 0 {
      XorHalves(a, b);
      XorHalves(b, c);
      AssociatesByHalves(a, b, c, Xor(a, b), Xor(b, c));
    }
  }

  lemma {:induction false} AssociatesByHalves(a: nat, b: nat, c: nat, ab: nat, bc: nat)
    requires a > 0
    requires ab % 2 == (a + b) % 2 && ab / 2 == Xor(a / 2, b / 2)
    requires bc % 2 == (b + c) % 2 && bc / 2 == Xor(b / 2, c / 2)
    ensures Xor(ab, c) == Xor(a, bc)
    decreases a + b + c, 0
  {
    hide Xor;
    XorAssociates(a / 2, b / 2, c / 2);
    XorHalves(ab, c);
    XorHalves(a, bc);
    ParityAssociates(a, b, c, ab, bc);
    SameHalves(Xor(ab, c), Xor(a, bc));
  }

  lemma {:induction false} XorBounded(a: nat, b: nat, k: nat)
    requires a < Pow2(k) && b < Pow2(k)
    ensures Xor(a, b) < Pow2(k)
  {
    if k > 0 && a != 0 && b != 0 {
      XorBounded(a / 2, b / 2, k - 1);
    }
  }

  lemma {:induction false} ShiftXor(a: nat, b: nat, k: nat)
    ensures ShiftRight(Xor(a, b), k) == Xor(ShiftRight(a, k), ShiftRight(b, k))
    decreases k
  {
    if k > 0 {
      XorHalves(a, b);
      ShiftXor(a / 2, b / 2, k - 1);
    }
  }

  lemma {:induction false} ShiftShift(a: nat, j: nat, k: nat)
    ensures ShiftRight(ShiftRight(a, j), k) == ShiftRight(a, j + k)
    decreases j
  {
    if j > 0 {
      ShiftShift(a / 2, j - 1, k);
    }
  }

  lemma {:induction false} ShiftBounded(a: nat, k: nat)
    ensures ShiftRight(a, k) <= a
    decreases k
  {
    if k > 0 {
      ShiftBounded(a / 2, k - 1);
    }
  }

  lemma {:induction false} ShiftOut(a: nat, k: nat, n: nat)
    requires a < Pow2(n) && n <= k
    ensures ShiftRight(a, k) == 0
    decreases k
  {
    if n > 0 {
      ShiftOut(a / 2, k - 1, n - 1);
    } else if k > 0 {
      ShiftOut(0, k - 1, 0);
    }
  }

  lemma NextByte(k: nat)
    ensures Pow2(k + 8) == 256 * Pow2(k)
  {
    assert Pow2(k + 4) == 16 * Pow2(k) by { assert Pow2(k + 2) == 4 * Pow2(k); }
    assert Pow2(k + 6) == 64 * Pow2(k);
  }

  lemma WordWidth()
    ensures Pow2(64) == MODULUS
  {
    assert Pow2(0) == 1;
    NextByte(0);
    NextByte(8);
    NextByte(16);
    NextByte(24);
    NextByte(32);
    NextByte(40);
    NextByte(48);
    NextByte(56);
  }

  // ----- the two kinds of mixing step, each with its inverse -----

  function XorShift(z: Word, k: nat): Word {
    WordWidth();
    ShiftBounded(z, k);
    XorBounded(z, ShiftRight(z, k), 64);
    Xor(z, ShiftRight(z, k))
  }

  function UnXorShift(x: Word, k: nat): Word {
    WordWidth();
    ShiftBounded(x, k);
    ShiftBounded(x, 2 * k);
    XorBounded(x, ShiftRight(x, k), 64);
    XorBounded(Xor(x, ShiftRight(x, k)), ShiftRight(x, 2 * k), 64);
    Xor(Xor(x, ShiftRight(x, k)), ShiftRight(x, 2 * k))
  }

  /** Shifting by a third of the word or more, the step is undone by folding twice. */
  lemma {:induction false} XorShiftUndone(z: Word, k: nat)
    requires 3 * k >= 64
    ensures UnXorShift(XorShift(z, k), k) == z
    ensures XorShift(UnXorShift(z, k), k) == z
  {
    hide Xor, ShiftRight, Pow2;
    WordWidth();
    var z1, z2 := ShiftRight(z, k), ShiftRight(z, 2 * k);
    ShiftShift(z, k, k);
    ShiftShift(z, k, 2 * k);
    ShiftOut(z, 3 * k, 64);
    XorZero(z1);
    XorZero(z2);

    var x := XorShift(z, k);
    ShiftXor(z, z1, k);
    ShiftXor(z, z1, 2 * k);
    XorAssociates(Xor(z, z1), z1, z2);
    XorCancel(z, z1);
    XorCancel(z, z2);

    var u := UnXorShift(z, k);
    ShiftXor(Xor(z, z1), z2, k);
    ShiftShift(z, 2 * k, k);
    XorZero(Xor(z1, z2));
    XorAssociates(z, z1, z2);
    XorCancel(z, Xor(z1, z2));
  }

  lemma {:induction false} XorZero(a: nat)
    ensures Xor(a, 0) == a && Xor(0, a) == a
  {
  }

  function Times(a: Word, c: Word): Word {
    (a * c) % MODULUS
  }

  lemma Remainder(a: Word, q: int)
    ensures (a + MODULUS * q) % MODULUS == a
  {
    var x := a + MODULUS * q;
    assert x == MODULUS * (x / MODULUS) + x % MODULUS;
    assert MODULUS * (q - x / MODULUS) == x % MODULUS - a;
  }

  /** Multiplying by an odd constant is undone by multiplying by its inverse. */
  lemma {:induction false} TimesUndone(a: Word, c: Word, inverse: Word, q: nat)
    requires c * inverse == 1 + MODULUS * q
    ensures Times(Times(a, c), inverse) == a
  {
    var high := a * c / MODULUS;
    assert Times(a, c) == a * c - MODULUS * high;
    calc {
      Times(a, c) * inverse;
      (a * c - MODULUS * high) * inverse;
      a * (c * inverse) - MODULUS * (high * inverse);
      a * (1 + MODULUS * q) - MODULUS * (high * inverse);
      a + MODULUS * (a * q - high * inverse);
    }
    Remainder(a, a * q - high * inverse);
  }

  // ----- the generator -----

  const MUL1: Word := 0xbf58_476d_1ce4_e5b9
  const MUL2: Word := 0x94d0_49bb_1331_11eb
  const INV1: Word := 0x96de_1b17_3f11_9089
  const INV2: Word := 0x3196_42b2_d24d_8ec3
  const GAMMA_INV: Word := 0xf1de_83e1_9937_733d

  /** The output word of a state, after the state has been advanced. */
  function Mix(state: Word): Word {
    XorShift(Times(XorShift(Times(XorShift(state, 30), MUL1), 27), MUL2), 31)
  }

  function Unmix(word: Word): Word {
    UnXorShift(Times(UnXorShift(Times(UnXorShift(word, 31), INV2), 27), INV1), 30)
  }

  /** The output function is a bijection on 64-bit words. */
  lemma MixIsBijective(w: Word)
    ensures Unmix(Mix(w)) == w
    ensures Mix(Unmix(w)) == w
  {
    hide XorShift, UnXorShift, Times;
    XorShiftUndone(w, 30);
    var a := XorShift(w, 30);
    TimesUndone(a, MUL1, INV1, 8125545580553827436);
    var b := Times(a, MUL1);
    XorShiftUndone(b, 27);
    var c := XorShift(b, 27);
    TimesUndone(c, MUL2, INV2, 2077064247507883091);
    XorShiftUndone(Times(c, MUL2), 31);

    XorShiftUndone(w, 31);
    var d := UnXorShift(w, 31);
    TimesUndone(d, INV2, MUL2, 2077064247507883091);
    var e := Times(d, INV2);
    XorShiftUndone(e, 27);
    var f := UnXorShift(e, 27);
    TimesUndone(f, INV1, MUL1, 8125545580553827436);
    XorShiftUndone(Times(f, INV1), 30);
  }

  /** The state after k draws from `seed`. */
  function StateAfter(seed: Word, k: nat): Word {
    (seed + k * GAMMA) % MODULUS
  }

  /** The k-th word drawn, counting from one. */
  function Draw(seed: Word, k: nat): Word {
    Mix(StateAfter(seed, k))
  }

  lemma StateStep(seed: Word, k: nat)
    ensures StateAfter(seed, k + 1) == (StateAfter(seed, k) + GAMMA) % MODULUS
  {
    var x := seed + k * GAMMA;
    assert seed + (k + 1) * GAMMA == x + GAMMA;
    assert x + GAMMA == (x % MODULUS + GAMMA) + MODULUS * (x / MODULUS);
    var y := x % MODULUS + GAMMA;
    assert x + GAMMA == y % MODULUS + MODULUS * (y / MODULUS + x / MODULUS);
    Remainder(y % MODULUS, y / MODULUS + x / MODULUS);
  }

  /** The increment is odd, so 2^64 draws visit 2^64 different states. */
  lemma StatesDistinct(seed: Word, j: nat, k: nat)
    requires j < k < j + MODULUS
    ensures StateAfter(seed, j) != StateAfter(seed, k)
  {
    if StateAfter(seed, j) == StateAfter(seed, k) {
      var x, y := seed + j * GAMMA, seed + k * GAMMA;
      var d: Word := k - j;
      assert d * GAMMA == y - x;
      assert y - x == MODULUS * (y / MODULUS - x / MODULUS);
      Remainder(0, y / MODULUS - x / MODULUS);
      assert Times(d, GAMMA) == 0;
      TimesUndone(d, GAMMA, GAMMA_INV, 10771413168148108919);
    }
  }

  lemma DrawsDistinct(seed: Word, j: nat, k: nat)
    requires j < k < j + MODULUS
    ensures Draw(seed, j) != Draw(seed, k)
  {
    hide Mix, Unmix, StateAfter;
    StatesDistinct(seed, j, k);
    MixIsBijective(StateAfter(seed, j));
    MixIsBijective(StateAfter(seed, k));
  }

  // ----- rejection sampling -----

  /** Draws below the threshold are rejected: 2^64 mod n of them, computed as (-n) mod n. */
  function Threshold(n: nat): (t: nat)
    requires 0 < n < MODULUS
    ensures t == MODULUS % n && t < n
  {
    assert MODULUS == (MODULUS - n) + n;
    SubtractOnce(MODULUS, n);
    (MODULUS - n) % n
  }

  lemma SubtractOnce(m: nat, n: nat)
    requires 0 < n <= m
    ensures (m - n) % n == m % n
  {
    var q := (m - n) / n;
    assert m == n * (q + 1) + (m - n) % n;
    Quotient(m, n, q + 1, (m - n) % n);
  }

  lemma NextMultiple(n: nat, p: nat, q: nat)
    requires p < q
    ensures n * p + n <= n * q
  {
    assert n * (p + 1) + n * (q - p - 1) == n * q;
  }

  lemma SameQuotient(n: nat, p: nat, s: nat, q: nat, r: nat)
    requires n * p + s == n * q + r && s < n && r < n
    ensures p == q && s == r
  {
    if p < q {
      NextMultiple(n, p, q);
    } else if q < p {
      NextMultiple(n, q, p);
    }
  }

  lemma Quotient(x: nat, n: nat, q: nat, r: nat)
    requires 0 < n && x == n * q + r && r < n
    ensures x / n == q && x % n == r
  {
    Division(x, n);
    SameQuotient(n, x / n, x % n, q, r);
  }

  ghost function Draws(seed: Word, d: nat): set<nat> {
    if d == 0 then {} else Draws(seed, d - 1) + {Draw(seed, d)}
  }

  lemma {:induction false} DrawsAre(seed: Word, d: nat)
    requires d <= MODULUS
    ensures |Draws(seed, d)| == d
    ensures forall w :: w in Draws(seed, d) ==> exists k: nat :: 1 <= k <= d && w == Draw(seed, k)
  {
    hide Draw;
    if d > 0 {
      DrawsAre(seed, d - 1);
      if Draw(seed, d) in Draws(seed, d - 1) {
        var k: nat :| 1 <= k <= d - 1 && Draw(seed, d) == Draw(seed, k);
        DrawsDistinct(seed, k, d);
      }
    }
  }

  ghost function Below(t: nat): (s: set<nat>)
    ensures |s| == t && forall w: nat :: w in s <==> w < t
  {
    if t == 0 then {} else Below(t - 1) + {t - 1}
  }

  lemma SubsetSmaller(a: set<nat>, b: set<nat>)
    requires a <= b
    ensures |a| <= |b|
  {
    assert b == a + (b - a);
  }

  /** Words are never drawn twice, so no more than t draws in a row fall below t. */
  lemma RejectionsAreFew(seed: Word, d: nat, t: nat)
    requires d <= MODULUS && forall k: nat :: 1 <= k <= d ==> Draw(seed, k) < t
    ensures d <= t
  {
    hide Draw;
    DrawsAre(seed, d);
    SubsetSmaller(Draws(seed, d), Below(t));
  }

  class Generator {
    var state: Word

    constructor (seed: Word)
      ensures state == seed
    {
      state := seed;
    }

    method Next() returns (word: Word)
      modifies this
      ensures state == StateAfter(old(state), 1) && word == Draw(old(state), 1)
    {
      state := (state + GAMMA) % MODULUS;
      var z := state;
      z := Times(XorShift(z, 30), MUL1);
      z := Times(XorShift(z, 27), MUL2);
      word := XorShift(z, 31);
    }

    /**
      `rng.int`: the first word not below the threshold, reduced modulo n.  It is found within
      (2^64 mod n) + 1 draws.  None is the "expected n > 0" error.
     */
    method Int(n: int) returns (r: Option<nat>, ghost draws: nat)
      requires n < 0x8000_0000_0000_0000
      modifies this
      ensures n <= 0 ==> r == None && state == old(state) && draws == 0
      ensures n > 0 ==> 1 <= draws <= MODULUS % n + 1 && state == StateAfter(old(state), draws)
      ensures n > 0 ==> Draw(old(state), draws) >= MODULUS % n && r == Some(Draw(old(state), draws) % n)
      ensures n > 0 ==> forall k: nat :: 1 <= k < draws ==> Draw(old(state), k) < MODULUS % n
    {
      hide Draw, Mix, StateAfter;
      draws := 0;
      if n <= 0 {
        return None, 0;
      }
      ghost var seed := state;
      var threshold := Threshold(n);
      StateAtStart(seed);
      while true
        invariant draws <= threshold && state == StateAfter(seed, draws)
        invariant forall k: nat :: 1 <= k <= draws ==> Draw(seed, k) < threshold
        decreases threshold - draws
      {
        ghost var before := state;
        var word := Next();
        DrawStep(seed, draws);
        draws := draws + 1;
        if word >= threshold {
          return Some(word % n), draws;
        }
        RejectionsAreFew(seed, draws, threshold);
      }
    }
  }

  lemma StateAtStart(seed: Word)
    ensures StateAfter(seed, 0) == seed
  {
  }

  lemma DrawStep(seed: Word, k: nat)
    ensures var here := StateAfter(seed, k);
      StateAfter(here, 1) == StateAfter(seed, k + 1) && Draw(here, 1) == Draw(seed, k + 1)
  {
    hide Mix;
    StateStep(seed, k);
  }

  // ----- uniformity -----

  /** Words of one residue among those from `low` on, over q whole periods. */
  lemma {:induction false} ResidueCount(low: nat, n: nat, v: nat, q: nat, s: set<nat>)
    requires v < n && forall w: nat :: w in s <==> low <= w < low + n * q && w % n == v
    ensures |s| == q
    decreases q
  {
    if q == 0 {
      assert s == {};
    } else {
      var top := low + n * (q - 1);
      var hit := OnlyHit(top, n, v);
      var rest := s - {hit};
      assert low + n * q == top + n;
      assert hit in s;
      forall w: nat | true
        ensures w in rest <==> low <= w < top && w % n == v
      {
        if top <= w < top + n && w % n == v {
          HitUnique(top, n, w, hit);
        }
      }
      ResidueCount(low, n, v, q - 1, rest);
    }
  }

  /** A period of n consecutive words holds exactly one of each residue. */
  function OnlyHit(top: nat, n: nat, v: nat): (w: nat)
    requires v < n
    ensures top <= w < top + n && w % n == v
  {
    var base := top - top % n;
    var q := top / n;
    assert base == n * q;
    Quotient(base + v, n, q, v);
    assert n * (q + 1) == n * q + n;
    Quotient(base + n + v, n, q + 1, v);
    if base + v >= top then base + v else base + n + v
  }

  lemma HitUnique(top: nat, n: nat, a: nat, b: nat)
    requires n > 0 && top <= a < top + n && top <= b < top + n && a % n == b % n
    ensures a == b
  {
    Division(a, n);
    Division(b, n);
    SamePeriod(top, n, a / n, b / n, a % n);
  }

  lemma Division(a: nat, n: nat)
    requires n > 0
    ensures a == n * (a / n) + a % n
  {
  }

  lemma SamePeriod(top: nat, n: nat, p: nat, q: nat, r: nat)
    requires top <= n * p + r < top + n && top <= n * q + r < top + n
    ensures p == q
  {
    if p < q {
      NextMultiple(n, p, q);
    } else if q < p {
      NextMultiple(n, q, p);
    }
  }

  predicate Yields(word: nat, n: nat, v: nat)
    requires 0 < n < MODULUS
  {
    Threshold(n) <= word && word % n == v
  }

  /** The accepted words that give v. */
  ghost function Accepted(n: nat, v: nat): set<nat>
    requires 0 < n < MODULUS
  {
    set w: nat | w < MODULUS && Yields(w, n, v)
  }

  lemma AcceptedIsUniform(n: nat, v: nat)
    requires v < n < MODULUS
    ensures |Accepted(n, v)| == (MODULUS - MODULUS % n) / n
  {
    var t, q := MODULUS % n, MODULUS / n;
    assert MODULUS == n * q + t;
    Quotient(n * q, n, q, 0);
    ResidueCount(t, n, v, q, Accepted(n, v));
  }

  /** The seeds whose first draw is accepted and gives v. */
  ghost function Seeds(n: nat, v: nat): set<nat>
    requires 0 < n < MODULUS
  {
    set s: nat | s < MODULUS && Yields(Draw(s, 1), n, v)
  }

  function SeedOf(word: Word): Word {
    (Unmix(word) + (MODULUS - GAMMA)) % MODULUS
  }

  lemma SeedOfDraw(w: Word)
    ensures Draw(SeedOf(w), 1) == w && SeedOf(Draw(w, 1)) == w
  {
    hide Mix, Unmix;
    MixIsBijective(w);
    MixIsBijective(StateAfter(w, 1));
  }

  lemma {:induction false} PairedSets(a: set<nat>, b: set<nat>)
    requires forall w :: w in a ==> w < MODULUS && SeedOf(w) in b
    requires forall s :: s in b ==> s < MODULUS && Draw(s, 1) in a
    ensures |a| == |b|
    decreases a
  {
    hide Draw, SeedOf;
    if a == {} {
      assert forall s :: s in b ==> Draw(s, 1) in a;
      assert b == {};
    } else {
      var w :| w in a;
      var s := SeedOf(w);
      SeedOfDraw(w);
      var a', b' := a - {w}, b - {s};
      forall x | x in a' ensures SeedOf(x) in b' { SeedOfDraw(x); }
      forall x | x in b' ensures Draw(x, 1) in a' { SeedOfDraw(x); }
      PairedSets(a', b');
    }
  }

  /** Over all seeds, every value below n is equally often what the first draw gives. */
  lemma SeedsAreUniform(n: nat, v: nat)
    requires v < n < MODULUS
    ensures |Seeds(n, v)| == (MODULUS - MODULUS % n) / n
  {
    hide Draw, SeedOf, Yields;
    forall w | w in Accepted(n, v) ensures SeedOf(w) in Seeds(n, v) { SeedOfDraw(w); }
    PairedSets(Accepted(n, v), Seeds(n, v));
    AcceptedIsUniform(n, v);
  }
}
