/** Two flipped bits: the order of the generator of tools/spinel_probe.py's frame check sequence. */
module TwoBits {
  import opened Crc

  /** The register `n` steps after a single one. */
  function Power(n: nat): bv16 {
    Shift(1, n)
  }

  // ---- Powers multiply ----

  function Turn(c: bv16, t: bv16, b: bool): bv16 {
    ShiftBit(if b then Xor(c, t) else c)
  }

  function Four(c: bv16, t: bv16, w: bv16): bv16 {
    Turn(Turn(Turn(Turn(c, t, Odd(w)), t, Odd(Half(w))), t, Odd(Half(Half(w)))), t, Odd(Half(Half(Half(w)))))
  }

  /** Sixteen steps that add `t` wherever `w` has a bit. */
  function Product(t: bv16, w: bv16): bv16 {
    Four(Four(Four(Four(0, t, w), t, w >> 4), t, w >> 8), t, w >> 12)
  }

  lemma ShiftSwap(x: bv16, n: nat)
    ensures Shift(ShiftBit(x), n) == ShiftBit(Shift(x, n))
  {
    IterateSum(ShiftBit, x, 1, n);
    assert Iterate(ShiftBit, x, 1) == ShiftBit(Iterate(ShiftBit, x, 0));
  }

  lemma TurnShifted(c: bv16, t: bv16, b: bool, n: nat)
    ensures Shift(Turn(c, t, b), n) == Turn(Shift(c, n), Shift(t, n), b)
  {
    ShiftSwap(if b then Xor(c, t) else c, n);
    ShiftLinear(c, t, n);
  }

  lemma FourShifted(c: bv16, t: bv16, w: bv16, n: nat)
    ensures Shift(Four(c, t, w), n) == Four(Shift(c, n), Shift(t, n), w)
  {
    var c1 := Turn(c, t, Odd(w));
    var c2 := Turn(c1, t, Odd(Half(w)));
    var c3 := Turn(c2, t, Odd(Half(Half(w))));
    TurnShifted(c, t, Odd(w), n);
    TurnShifted(c1, t, Odd(Half(w)), n);
    TurnShifted(c2, t, Odd(Half(Half(w))), n);
    TurnShifted(c3, t, Odd(Half(Half(Half(w)))), n);
  }

  lemma {:induction false} ShiftZero(n: nat)
    ensures Shift(0, n) == 0
  {
    if n == 0 {
    } else {
      ShiftZero(n - 1);
    }
  }

  lemma ProductShifted(t: bv16, w: bv16, n: nat)
    ensures Shift(Product(t, w), n) == Product(Shift(t, n), w)
  {
    var c1 := Four(0, t, w);
    var c2 := Four(c1, t, w >> 4);
    var c3 := Four(c2, t, w >> 8);
    ShiftZero(n);
    FourShifted(0, t, w, n);
    FourShifted(c1, t, w >> 4, n);
    FourShifted(c2, t, w >> 8, n);
    FourShifted(c3, t, w >> 12, n);
  }

  lemma TurnOne(c: bv16, b: bool)
    ensures Turn(c, 1, b) == Step(c, b)
  {
    XorNothing(c);
  }

  lemma FourOne(c: bv16, w: bv16)
    ensures Shift(Xor(c, w), 4) == Xor(Four(c, 1, w), w >> 4)
  {
    var w1, w2, w3 := Half(w), Half(Half(w)), Half(Half(Half(w)));
    var c1 := Step(c, Odd(w));
    var c2 := Step(c1, Odd(w1));
    var c3 := Step(c2, Odd(w2));
    TurnOne(c, Odd(w));
    TurnOne(c1, Odd(w1));
    TurnOne(c2, Odd(w2));
    TurnOne(c3, Odd(w3));
    PeelBit(c, w);
    PeelBit(c1, w1);
    PeelBit(c2, w2);
    PeelBit(c3, w3);
    HalfFour(w);
    IterateFour(ShiftBit, Xor(c, w));
  }

  lemma FourTimes(x: bv16, k: nat)
    requires k == 16
    ensures Shift(Shift(Shift(Shift(x, 4), 4), 4), 4) == Shift(x, k)
  {
    IterateSum(ShiftBit, x, 4, 4);
    IterateSum(ShiftBit, x, 8, 4);
    IterateSum(ShiftBit, x, 12, 4);
  }

  lemma ShiftedOut(w: bv16, c: bv16)
    ensures Xor(0, w) == w && Xor(c, (w >> 12) >> 4) == c
    ensures (w >> 4) >> 4 == w >> 8 && (w >> 8) >> 4 == w >> 12
  {
    ShiftsAdd(w);
    XorNothing(w);
    XorNothing(c);
  }

  lemma ProductOne(w: bv16, k: nat)
    requires k == 16
    ensures Product(1, w) == Shift(w, k)
  {
    var c1 := Four(0, 1, w);
    var c2 := Four(c1, 1, w >> 4);
    var c3 := Four(c2, 1, w >> 8);
    FourOne(0, w);
    FourOne(c1, w >> 4);
    FourOne(c2, w >> 8);
    FourOne(c3, w >> 12);
    ShiftedOut(w, Product(1, w));
    FourTimes(w, k);
  }

  /** The exponents add, but for the sixteen steps that multiplying takes. */
  lemma PowersMultiply(m: nat, n: nat, k: nat)
    requires k == 16
    ensures Product(Power(n), Power(m)) == Power(m + n + k)
  {
    ProductShifted(1, Power(m), n);
    ProductOne(Power(m), k);
    IterateSum(ShiftBit, 1 as bv16, m, k);
    IterateSum(ShiftBit, 1 as bv16, m + k, n);
  }

  lemma Powers(m: nat, n: nat, p: nat, a: bv16, b: bv16, c: bv16)
    requires Power(m) == a && Power(n) == b && Product(b, a) == c && p == m + n + 16
    ensures Power(p) == c
  {
    PowersMultiply(m, n, p - m - n);
  }

  // ---- Some powers ----

  /** Exponents are written as multiples of `u`, which is 1, so that the verifier does not count up to them. */
  lemma SmallDoublings(u: nat)
    requires u == 1
    ensures Power(16 * u) == 0x19D8
    ensures Power(48 * u) == 0x042B
    ensures Power(112 * u) == 0x7EEA
    ensures Power(240 * u) == 0x20F3
  {
    assert Power(0) == 1;
    Powers(0, 0, 16 * u, 0x0001, 0x0001, 0x19D8);
    Powers(16 * u, 16 * u, 48 * u, 0x19D8, 0x19D8, 0x042B);
    Powers(48 * u, 48 * u, 112 * u, 0x042B, 0x042B, 0x7EEA);
    Powers(112 * u, 112 * u, 240 * u, 0x7EEA, 0x7EEA, 0x20F3);
  }

  lemma MiddleDoublings(u: nat)
    requires u == 1
    ensures Power(496 * u) == 0x7F90
    ensures Power(1008 * u) == 0x46D8
    ensures Power(2032 * u) == 0x157E
    ensures Power(4080 * u) == 0xF2AA
  {
    SmallDoublings(u);
    Powers(240 * u, 240 * u, 496 * u, 0x20F3, 0x20F3, 0x7F90);
    Powers(496 * u, 496 * u, 1008 * u, 0x7F90, 0x7F90, 0x46D8);
    Powers(1008 * u, 1008 * u, 2032 * u, 0x46D8, 0x46D8, 0x157E);
    Powers(2032 * u, 2032 * u, 4080 * u, 0x157E, 0x157E, 0xF2AA);
  }

  lemma LargeDoublings(u: nat)
    requires u == 1
    ensures Power(8176 * u) == 0x7022
    ensures Power(16368 * u) == 0x3444
    ensures Power(32752 * u) == 0x8000
  {
    MiddleDoublings(u);
    Powers(4080 * u, 4080 * u, 8176 * u, 0xF2AA, 0xF2AA, 0x7022);
    Powers(8176 * u, 8176 * u, 16368 * u, 0x7022, 0x7022, 0x3444);
    Powers(16368 * u, 16368 * u, 32752 * u, 0x3444, 0x3444, 0x8000);
  }

  /** The register comes round again after 32767 steps. */
  lemma FullCircle(u: nat)
    requires u == 1
    ensures Power(32767 * u) == 1
  {
    LargeDoublings(u);
    assert Power(0) == 1;
    Powers(32752 * u, 0, 32768 * u, 0x8000, 0x0001, 0x8408);
    assert ShiftBit(1) == 0x8408;
    ShiftBitInjective(Power(32767 * u), 1);
  }

  lemma NineMore(n: nat)
    ensures Power(n + 9) == ShiftBit(Shift(Power(n), 8))
  {
    IterateSum(ShiftBit, 1 as bv16, n, 8);
    assert Power(n + 9) == ShiftBit(Power(n + 8));
  }

  lemma After217(u: nat)
    requires u == 1
    ensures Power(217 * u) != 1
  {
    SmallDoublings(u);
    Powers(112 * u, 48 * u, 176 * u, 0x7EEA, 0x042B, 0xA95D);
    Powers(176 * u, 16 * u, 208 * u, 0xA95D, 0x19D8, 0xCD50);
    NineMore(208 * u);
    ShiftEight(0xCD50);
  }

  lemma After1057(u: nat)
    requires u == 1
    ensures Power(1057 * u) != 1
  {
    SmallDoublings(u);
    MiddleDoublings(u);
    assert Power(0) == 1;
    Powers(1008 * u, 16 * u, 1040 * u, 0x46D8, 0x19D8, 0xCD0F);
    Powers(1040 * u, 0, 1056 * u, 0xCD0F, 0x0001, 0x9E21);
    assert Power(1056 * u + 1) == ShiftBit(0x9E21);
  }

  lemma After4681(u: nat)
    requires u == 1
    ensures Power(4681 * u) != 1
  {
    SmallDoublings(u);
    MiddleDoublings(u);
    assert Power(0) == 1;
    Powers(4080 * u, 496 * u, 4592 * u, 0xF2AA, 0x7F90, 0x0A54);
    Powers(4592 * u, 48 * u, 4656 * u, 0x0A54, 0x042B, 0xC100);
    Powers(4656 * u, 0, 4672 * u, 0xC100, 0x0001, 0xD785);
    NineMore(4672 * u);
    ShiftEight(0xD785);
  }

  // ---- The order of the generator ----

  lemma PowerSum(m: nat, n: nat)
    requires Power(m) == 1
    ensures Power(m + n) == Power(n)
  {
    IterateSum(ShiftBit, 1 as bv16, m, n);
  }

  lemma {:induction false} PowerMultiple(g: nat, k: nat)
    requires Power(g) == 1
    ensures Power(g * k) == 1
  {
    if k == 0 {
      assert g * k == 0;
    } else {
      PowerMultiple(g, k - 1);
      PowerSum(g, g * (k - 1));
      assert g + g * (k - 1) == g * k;
    }
  }

  /** Euclid's algorithm: the exponents that give one have a common divisor that gives one. */
  lemma CommonDivisor(m: nat, n: nat) returns (g: nat, x: nat, y: nat)
    requires Power(m) == 1 && Power(n) == 1
    ensures Power(g) == 1 && m == g * x && n == g * y
    decreases m + n, m
  {
    if m == 0 {
      g, x, y := n, 0, 1;
    } else if n < m {
      g, y, x := CommonDivisor(n, m);
    } else {
      PowerSum(m, n - m);
      g, x, y := CommonDivisor(m, n - m);
      assert g * (x + y) == g * x + g * y;
      y := x + y;
    }
  }

  lemma SmallDivisor(k: nat, d: nat)
    requires k * d == 32767 && d < 182
    ensures d in {1, 7, 31, 151}
  {
  }

  /** 32767 is 7 * 31 * 151: each of its divisors but itself divides 4681, 1057 or 217. */
  lemma ProperDivisor(g: nat, y: nat) returns (z: nat)
    requires g * y == 32767 && y > 1
    ensures g * z in {4681, 1057, 217}
  {
    assert g >= 182 && y >= 182 ==> g * y >= 182 * 182;
    if y < 182 {
      SmallDivisor(g, y);
      z := 1;
    } else {
      assert y * g == g * y;
      SmallDivisor(y, g);
      z := if g == 1 then 217 else if g == 7 then 31 else if g == 31 then 7 else 7;
    }
  }

  lemma NoEarlierReturn(g: nat, y: nat, u: nat)
    requires u == 1 && g * y == 32767 && y > 1
    ensures Power(g) != 1
  {
    var z := ProperDivisor(g, y);
    After217(u);
    After1057(u);
    After4681(u);
    assert g * z == 217 * u || g * z == 1057 * u || g * z == 4681 * u;
    if Power(g) == 1 {
      PowerMultiple(g, z);
    }
  }

  lemma SmallerFactor(g: nat, x: nat, y: nat)
    requires 0 < g * x < g * y
    ensures y > 1
  {
    assert x >= 1 ==> g * x >= g;
    assert y <= 1 ==> g * y <= g;
  }

  lemma NoReturnWithin(r: nat, u: nat)
    requires u == 1 && 0 < r < 32767
    ensures Power(r) != 1
  {
    if Power(r) == 1 {
      FullCircle(u);
      var g, x, y := CommonDivisor(r, 32767 * u);
      SmallerFactor(g, x, y);
      NoEarlierReturn(g, y, u);
    }
  }

  /** From a single one the register comes back to it after 32767 steps and their multiples, and at no other time. */
  lemma OrderExactly(n: nat)
    ensures Power(n) == 1 <==> n % 32767 == 0
  {
    var u, q, r := 1, n / 32767, n % 32767;
    FullCircle(u);
    PowerMultiple(32767 * u, q);
    PowerSum(32767 * u * q, r);
    assert n == 32767 * u * q + r;
    if r > 0 {
      NoReturnWithin(r, u);
    } else {
      assert Power(r) == 1;
    }
  }

  // ---- Two flipped bits ----

  lemma XorAssociative(a: bv16, b: bv16, c: bv16)
    ensures Xor(a, Xor(b, c)) == Xor(Xor(a, b), c)
  {
  }

  lemma XorSwap(c: bv16, e: bv16, b: bv16)
    ensures Xor(Xor(c, e), b) == Xor(Xor(c, b), e)
  {
  }

  lemma XorPairs(c: bv16, e: bv16, b: bv16, p: bv16)
    ensures Xor(Xor(c, e), Xor(b, p)) == Xor(Xor(c, b), Xor(e, p))
  {
    XorAssociative(Xor(c, e), b, p);
    XorAssociative(Xor(c, b), e, p);
    XorSwap(c, e, b);
  }

  lemma FlippedBit(b: bool)
    ensures Bit(!b) == Xor(Bit(b), 1)
  {
  }

  lemma FlippedStep(c: bv16, b: bool, e: bv16)
    ensures Step(Xor(c, e), !b) == Xor(Step(c, b), ShiftBit(Xor(e, 1)))
  {
    FlippedBit(b);
    XorPairs(c, e, Bit(b), 1);
    ShiftBitLinear(Xor(c, Bit(b)), Xor(e, 1));
  }

  /** An error in the register runs on by itself while the bits agree. */
  lemma {:induction false} ErrorRuns(c: bv16, e: bv16, bits: seq<bool>)
    ensures Run(Xor(c, e), bits) == Xor(Run(c, bits), Shift(e, |bits|))
  {
    if bits == [] {
    } else {
      var n := |bits| - 1;
      ErrorRuns(c, e, bits[..n]);
      XorSwap(Run(c, bits[..n]), Shift(e, n), Bit(bits[n]));
      ShiftBitLinear(Xor(Run(c, bits[..n]), Bit(bits[n])), Shift(e, n));
    }
  }

  lemma RunParts(c: bv16, s: seq<bool>, i: nat, j: nat)
    requires i < j < |s|
    ensures Run(c, s) == Run(Step(Run(Step(Run(c, s[..i]), s[i]), s[i + 1..j]), s[j]), s[j + 1..])
  {
    assert s == s[..j + 1] + s[j + 1..];
    FoldConcat(Step, c, s[..j + 1], s[j + 1..]);
    assert s[..j + 1][..j] == s[..j] == s[..i + 1] + s[i + 1..j];
    FoldConcat(Step, c, s[..i + 1], s[i + 1..j]);
    assert s[..i + 1][..i] == s[..i];
  }

  lemma RunsTogether(c: bv16, d: bv16, bits: seq<bool>)
    ensures Run(c, bits) == Run(d, bits) <==> c == d
  {
    forall x, y, b | Step(x, b) == Step(y, b) ensures x == y {
      StepInjective(x, y, b);
    }
    if Run(c, bits) == Run(d, bits) {
      FoldApart(Step, c, d, bits);
    }
  }

  lemma ErrorGone(c: bv16, e: bv16)
    ensures Xor(c, ShiftBit(Xor(e, 1))) == c <==> e == 1
  {
  }

  /** Whether two bit strings of one length differ at `i` and `j` and nowhere else. */
  predicate DifferAt(s: seq<bool>, t: seq<bool>, i: nat, j: nat) {
    |s| == |t| && forall k | 0 <= k < |s| :: s[k] != t[k] <==> k == i || k == j
  }

  lemma TwoFlipsRun(c: bv16, s: seq<bool>, t: seq<bool>, i: nat, j: nat)
    requires i < j < |s| && DifferAt(s, t, i, j)
    ensures Run(c, s) == Run(c, t) <==> Power(j - i) == 1
  {
    RunParts(c, s, i, j);
    RunParts(c, t, i, j);
    assert t[..i] == s[..i] && t[i + 1..j] == s[i + 1..j] && t[j + 1..] == s[j + 1..];
    assert t[i] == !s[i] && t[j] == !s[j];
    var c0 := Run(c, s[..i]);
    XorNothing(c0);
    FlippedStep(c0, s[i], 0);
    XorNothing(1);
    var c1 := Step(c0, s[i]);
    ErrorRuns(c1, ShiftBit(1), s[i + 1..j]);
    ShiftSwap(1, j - i - 1);
    var c2, e := Run(c1, s[i + 1..j]), Power(j - i);
    FlippedStep(c2, s[j], e);
    ErrorGone(Step(c2, s[j]), e);
    RunsTogether(Step(c2, s[j]), Step(Xor(c2, e), !s[j]), s[j + 1..]);
  }

  lemma ChecksByRun(body: seq<bv8>)
    requires |body| > 2
    ensures Checks(body) <==> Run(0xFFFF, Bits(body)) == GOOD
  {
    ChecksExactly(body);
    RunBits(0xFFFF, body);
  }

  /** Two flipped bits go unnoticed exactly when they lie a multiple of 32767 bits apart, in a body of any length. */
  lemma TwoFlipsExactly(body: seq<bv8>, received: seq<bv8>, i: nat, j: nat)
    requires Checks(body) && |received| == |body| && i < j < |Bits(body)|
    requires DifferAt(Bits(body), Bits(received), i, j)
    ensures Checks(received) <==> (j - i) % 32767 == 0
  {
    ChecksByRun(body);
    ChecksByRun(received);
    TwoFlipsRun(0xFFFF, Bits(body), Bits(received), i, j);
    OrderExactly(j - i);
  }
}
