/**
 * The 16-bit frame check sequence of tools/spinel_probe.py (RFC 1662, Appendix C.2): the two
 * nested loops, and which corruptions of a frame body they cannot miss.
 */
module Crc {

  /** The register value left by every body that carries its own FCS. */
  const GOOD: bv16 := 0xF0B8

  function ShiftBit(crc: bv16): bv16 {
    if crc & 1 == 1 then (crc >> 1) ^ 0x8408 else crc >> 1
  }

  function Iterate<T>(f: T -> T, x: T, n: nat): T {
    if n == 0 then x else f(Iterate(f, x, n - 1))
  }

  function Shift(crc: bv16, n: nat): bv16 {
    Iterate(ShiftBit, crc, n)
  }

  function Add(crc: bv16, b: bv8): bv16 {
    Shift(crc ^ b as bv16, 8)
  }

  function Fold<T, B>(f: (T, B) -> T, x: T, s: seq<B>): T {
    if s == [] then x else f(Fold(f, x, s[..|s| - 1]), s[|s| - 1])
  }

  /** The register after running over `data` from `crc`. */
  function Register(crc: bv16, data: seq<bv8>): bv16 {
    Fold(Add, crc, data)
  }

  function FcsOf(data: seq<bv8>): bv16 {
    Register(0xFFFF, data) ^ 0xFFFF
  }

  /** `int.to_bytes(2, "little")` and `int.from_bytes(..., "little")`. */
  function Low(f: bv16): bv8 {
    (f & 0xFF) as bv8
  }

  function High(f: bv16): bv8 {
    (f >> 8) as bv8
  }

  function FromLittle(lo: bv8, hi: bv8): bv16 {
    lo as bv16 | (hi as bv16 << 8)
  }

  /** The test `decode` applies to an unstuffed body. */
  predicate Checks(body: seq<bv8>) {
    && |body| > 2
    && FcsOf(body[..|body| - 2]) == FromLittle(body[|body| - 2], body[|body| - 1])
  }

  method AddByte(crc: bv16, b: bv8) returns (r: bv16)
    ensures r == Add(crc, b)
  {
    r := crc ^ b as bv16;
    for j := 0 to 8
      invariant r == Shift(crc ^ b as bv16, j)
    {
      r := if r & 1 == 1 then (r >> 1) ^ 0x8408 else r >> 1;
    }
  }

  method Fcs(data: seq<bv8>) returns (r: bv16)
    ensures r == FcsOf(data)
  {
    r := 0xFFFF;
    for i := 0 to |data|
      invariant r == Register(0xFFFF, data[..i])
    {
      assert data[..i + 1][..i] == data[..i];
      r := AddByte(r, data[i]);
    }
    assert data[..|data|] == data;
    r := r ^ 0xFFFF;
  }

  // ---- Exclusive or ----

  function Xor(a: bv16, b: bv16): bv16 {
    a ^ b
  }

  function XorByte(a: bv8, b: bv8): bv8 {
    a ^ b
  }

  lemma XorShuffle(x: bv16, y: bv16, p: bv16)
    ensures (x ^ p) ^ (y ^ p) == x ^ y && (x ^ p) ^ y == (x ^ y) ^ p && x ^ (y ^ p) == (x ^ y) ^ p
  {
  }

  lemma XorBits(a: bv16, b: bv16)
    ensures (a ^ b) >> 1 == (a >> 1) ^ (b >> 1)
    ensures (a ^ b) & 1 == (a & 1) ^ (b & 1)
    ensures a & 1 == 0 || a & 1 == 1
  {
  }

  lemma XorFour(c: bv16, d: bv16, x: bv8, y: bv8)
    ensures (c ^ d) ^ (x ^ y) as bv16 == (c ^ x as bv16) ^ (d ^ y as bv16)
  {
  }

  lemma XorZero(a: bv16, b: bv16)
    ensures a ^ b == 0 <==> a == b
  {
  }

  // ---- The register is linear and loses nothing ----

  lemma ShiftBitLinear(a: bv16, b: bv16)
    ensures ShiftBit(Xor(a, b)) == Xor(ShiftBit(a), ShiftBit(b))
  {
    XorBits(a, b);
    XorBits(b, a);
    XorShuffle(a >> 1, b >> 1, 0x8408);
  }

  lemma {:induction false} IterateLinear<T(!new)>(f: T -> T, plus: (T, T) -> T, a: T, b: T, n: nat)
    requires forall x, y :: f(plus(x, y)) == plus(f(x), f(y))
    ensures Iterate(f, plus(a, b), n) == plus(Iterate(f, a, n), Iterate(f, b, n))
  {
    if n == 0 {
    } else {
      IterateLinear(f, plus, a, b, n - 1);
    }
  }

  lemma {:induction false} IterateInjective<T(!new)>(f: T -> T, a: T, b: T, n: nat)
    requires forall x, y :: f(x) == f(y) ==> x == y
    requires Iterate(f, a, n) == Iterate(f, b, n)
    ensures a == b
  {
    if n == 0 {
    } else {
      IterateInjective(f, a, b, n - 1);
    }
  }

  lemma {:induction false} IterateSum<T(!new)>(f: T -> T, x: T, m: nat, n: nat)
    ensures Iterate(f, Iterate(f, x, m), n) == Iterate(f, x, m + n)
  {
    if n == 0 {
    } else {
      IterateSum(f, x, m, n - 1);
    }
  }

  lemma ShiftLinear(a: bv16, b: bv16, n: nat)
    ensures Shift(Xor(a, b), n) == Xor(Shift(a, n), Shift(b, n))
  {
    forall x, y ensures ShiftBit(Xor(x, y)) == Xor(ShiftBit(x), ShiftBit(y)) {
      ShiftBitLinear(x, y);
    }
    IterateLinear(ShiftBit, Xor, a, b, n);
  }

  lemma ShiftBitInjective(a: bv16, b: bv16)
    requires ShiftBit(a) == ShiftBit(b)
    ensures a == b
  {
  }

  lemma ShiftInjective(a: bv16, b: bv16, n: nat)
    requires Shift(a, n) == Shift(b, n)
    ensures a == b
  {
    forall x, y | ShiftBit(x) == ShiftBit(y) ensures x == y {
      ShiftBitInjective(x, y);
    }
    IterateInjective(ShiftBit, a, b, n);
  }

  lemma AddLinear(c: bv16, x: bv8, d: bv16, y: bv8)
    ensures Add(Xor(c, d), XorByte(x, y)) == Xor(Add(c, x), Add(d, y))
  {
    XorFour(c, d, x, y);
    ShiftLinear(c ^ x as bv16, d ^ y as bv16, 8);
  }

  lemma AddInjective(c: bv16, d: bv16, x: bv8)
    requires Add(c, x) == Add(d, x)
    ensures c == d
  {
    ShiftInjective(c ^ x as bv16, d ^ x as bv16, 8);
    XorShuffle(c, d, x as bv16);
    XorZero(c ^ x as bv16, d ^ x as bv16);
    XorZero(c, d);
  }

  function Zip<B>(plus: (B, B) -> B, s: seq<B>, t: seq<B>): (e: seq<B>)
    requires |s| == |t|
    ensures |e| == |s| && forall i | 0 <= i < |s| :: e[i] == plus(s[i], t[i])
  {
    seq(|s|, i requires 0 <= i < |s| => plus(s[i], t[i]))
  }

  lemma {:induction false} FoldLinear<T(!new), B(!new)>(f: (T, B) -> T, plusT: (T, T) -> T, plusB: (B, B) -> B,
                                                        c: T, s: seq<B>, d: T, t: seq<B>)
    requires |s| == |t| && forall x, y, a, b :: f(plusT(x, y), plusB(a, b)) == plusT(f(x, a), f(y, b))
    ensures Fold(f, plusT(c, d), Zip(plusB, s, t)) == plusT(Fold(f, c, s), Fold(f, d, t))
  {
    if s == [] {
    } else {
      var n := |s| - 1;
      FoldLinear(f, plusT, plusB, c, s[..n], d, t[..n]);
      assert Zip(plusB, s, t)[..n] == Zip(plusB, s[..n], t[..n]);
    }
  }

  /** Bytewise exclusive or: the corruption that turns one body into another. */
  function Errors(s: seq<bv8>, t: seq<bv8>): (e: seq<bv8>)
    requires |s| == |t|
    ensures |e| == |s|
  {
    Zip(XorByte, s, t)
  }

  lemma RegisterLinear(c: bv16, s: seq<bv8>, d: bv16, t: seq<bv8>)
    requires |s| == |t|
    ensures Register(Xor(c, d), Errors(s, t)) == Xor(Register(c, s), Register(d, t))
  {
    forall x, y, a, b ensures Add(Xor(x, y), XorByte(a, b)) == Xor(Add(x, a), Add(y, b)) {
      AddLinear(x, a, y, b);
    }
    FoldLinear(Add, Xor, XorByte, c, s, d, t);
  }

  // ---- Two bytes at a time ----

  lemma ShiftEight(crc: bv16)
    ensures Shift(crc, 8) == ShiftBit(ShiftBit(ShiftBit(ShiftBit(ShiftBit(ShiftBit(ShiftBit(ShiftBit(crc))))))))
  {
    assert Shift(crc, 1) == ShiftBit(crc);
    assert Shift(crc, 2) == ShiftBit(ShiftBit(crc));
    assert Shift(crc, 4) == ShiftBit(ShiftBit(ShiftBit(ShiftBit(crc))));
    assert Shift(crc, 6) == ShiftBit(ShiftBit(ShiftBit(ShiftBit(ShiftBit(ShiftBit(crc))))));
  }

  /** Eight shifts of a word whose low byte is clear just move it down. */
  lemma ShiftHighByte(b: bv16)
    requires b <= 0xFF
    ensures Shift(b << 8, 8) == b
  {
    ShiftEight(b << 8);
    assert ShiftBit(b << 8) == b << 7;
    assert ShiftBit(b << 7) == b << 6;
    assert ShiftBit(b << 6) == b << 5;
    assert ShiftBit(b << 5) == b << 4;
    assert ShiftBit(b << 4) == b << 3;
    assert ShiftBit(b << 3) == b << 2;
    assert ShiftBit(b << 2) == b << 1;
    assert ShiftBit(b << 1) == b;
  }

  lemma XorWord(crc: bv16, lo: bv8, hi: bv8)
    ensures (crc ^ lo as bv16) ^ (hi as bv16 << 8) == crc ^ FromLittle(lo, hi)
    ensures hi as bv16 <= 0xFF
  {
  }

  lemma ShiftThrough(u: bv16, v: bv16, w: bv16)
    requires Shift(v, 8) == w
    ensures Shift(Xor(Shift(u, 8), w), 8) == Shift(Xor(u, v), 16)
  {
    ShiftLinear(u, v, 8);
    IterateSum(ShiftBit, Xor(u, v), 8, 8);
  }

  /** The register sees two bytes as one little-endian word. */
  lemma AddTwo(crc: bv16, lo: bv8, hi: bv8)
    ensures Add(Add(crc, lo), hi) == Shift(Xor(crc, FromLittle(lo, hi)), 16)
  {
    XorWord(crc, lo, hi);
    ShiftHighByte(hi as bv16);
    ShiftThrough(crc ^ lo as bv16, hi as bv16 << 8, hi as bv16);
  }

  lemma GoodWord(w: bv16)
    ensures Shift(w, 16) == GOOD <==> w == 0xFFFF
  {
    IterateSum(ShiftBit, 0xFFFF as bv16, 8, 8);
    ShiftEight(0xFFFF);
    ShiftEight(0x0F87);
    if Shift(w, 16) == GOOD {
      ShiftInjective(w, 0xFFFF, 16);
    }
  }

  // ---- Main results ----

  lemma FoldLastTwo<T, B>(f: (T, B) -> T, x: T, s: seq<B>)
    requires |s| >= 2
    ensures Fold(f, x, s) == f(f(Fold(f, x, s[..|s| - 2]), s[|s| - 2]), s[|s| - 1])
  {
    assert s[..|s| - 1][..|s| - 2] == s[..|s| - 2];
  }

  lemma XorCancels(a: bv16, b: bv16)
    ensures a ^ (a ^ b) == b
  {
  }

  lemma WordOfGood(crc: bv16, f: bv16)
    ensures Xor(crc, f) == 0xFFFF <==> crc ^ 0xFFFF == f
  {
    if Xor(crc, f) == 0xFFFF {
      XorCancels(crc, f);
    }
    if crc ^ 0xFFFF == f {
      XorCancels(crc, 0xFFFF);
    }
  }

  lemma CheckWord(crc: bv16, word: bv16)
    ensures Shift(Xor(crc, word), 16) == GOOD <==> crc ^ 0xFFFF == word
  {
    GoodWord(Xor(crc, word));
    WordOfGood(crc, word);
  }

  lemma CheckPair(front: seq<bv8>, lo: bv8, hi: bv8)
    ensures FcsOf(front) == FromLittle(lo, hi) <==> Register(0xFFFF, front + [lo, hi]) == GOOD
  {
    FoldLastTwo(Add, 0xFFFF as bv16, front + [lo, hi]);
    assert (front + [lo, hi])[..|front|] == front;
    AddTwo(Register(0xFFFF, front), lo, hi);
    CheckWord(Register(0xFFFF, front), FromLittle(lo, hi));
  }

  /** RFC 1662: a body is accepted exactly when the register run over all of it, FCS included, ends at 0xF0B8. */
  lemma ChecksExactly(body: seq<bv8>)
    requires |body| > 2
    ensures Checks(body) <==> Register(0xFFFF, body) == GOOD
  {
    var n := |body| - 2;
    assert body == body[..n] + [body[n], body[n + 1]];
    CheckPair(body[..n], body[n], body[n + 1]);
  }

  /** For every corruption of an accepted body, of any size: exactly which ones pass the check. */
  lemma MissedExactly(body: seq<bv8>, received: seq<bv8>)
    requires Checks(body) && |received| == |body|
    ensures Checks(received) <==> Register(0, Errors(body, received)) == 0
  {
    ChecksExactly(body);
    ChecksExactly(received);
    RegisterLinear(0xFFFF, body, 0xFFFF, received);
    XorZero(Register(0xFFFF, body), Register(0xFFFF, received));
  }

  // ---- The same register, bit by bit: least significant bit of each byte first ----

  function Bit(b: bool): bv16 {
    if b then 1 else 0
  }

  function Step(crc: bv16, b: bool): bv16 {
    ShiftBit(Xor(crc, Bit(b)))
  }

  function Run(crc: bv16, bits: seq<bool>): bv16 {
    Fold(Step, crc, bits)
  }

  function Half(x: bv16): bv16 {
    x >> 1
  }

  predicate Odd(x: bv16) {
    x & 1 == 1
  }

  /** The low `n` bits of a word, least significant first. */
  function LowBits(w: bv16, n: nat): (s: seq<bool>)
    ensures |s| == n
  {
    if n == 0 then [] else LowBits(w, n - 1) + [Odd(Iterate(Half, w, n - 1))]
  }

  /** All bits of a frame body, in the order they go over the line. */
  function Bits(data: seq<bv8>): (s: seq<bool>)
    ensures |s| == 8 * |data|
  {
    if data == [] then [] else Bits(data[..|data| - 1]) + LowBits(data[|data| - 1] as bv16, 8)
  }

  lemma SplitLowBit(crc: bv16, y: bv16, b: bv16)
    requires b == Bit(Odd(y))
    ensures Xor(crc, y) == Xor(Xor(crc, b), Xor(y, b))
    ensures Xor(y, b) & 1 != 1 && Xor(y, b) >> 1 == y >> 1
  {
  }

  lemma PeelBit(crc: bv16, y: bv16)
    ensures ShiftBit(Xor(crc, y)) == Xor(Step(crc, Odd(y)), Half(y))
  {
    var b := Bit(Odd(y));
    SplitLowBit(crc, y, b);
    ShiftBitLinear(Xor(crc, b), Xor(y, b));
  }

  lemma {:induction false} Peel(crc: bv16, y: bv16, n: nat)
    ensures Shift(Xor(crc, y), n) == Xor(Run(crc, LowBits(y, n)), Iterate(Half, y, n))
  {
    if n == 0 {
    } else {
      Peel(crc, y, n - 1);
      assert LowBits(y, n)[..n - 1] == LowBits(y, n - 1);
      PeelBit(Run(crc, LowBits(y, n - 1)), Iterate(Half, y, n - 1));
    }
  }

  lemma IterateFour<T>(f: T -> T, x: T)
    ensures Iterate(f, x, 4) == f(f(f(f(x))))
  {
    assert Iterate(f, x, 2) == f(f(x));
  }

  lemma HalfFour(y: bv16)
    ensures Half(Half(Half(Half(y)))) == y >> 4
  {
  }

  lemma FourHalves(y: bv16)
    ensures Iterate(Half, y, 4) == y >> 4
  {
    IterateFour(Half, y);
    HalfFour(y);
  }

  lemma ShiftsAdd(y: bv16)
    ensures (y >> 4) >> 4 == y >> 8 && (y >> 8) >> 4 == y >> 12 && (y >> 12) >> 4 == 0
  {
  }

  lemma AllHalves(y: bv16)
    ensures Iterate(Half, y, 8) == y >> 8 && Iterate(Half, y, 16) == 0
  {
    ShiftsAdd(y);
    FourHalves(y);
    FourHalves(y >> 4);
    FourHalves(y >> 8);
    FourHalves(y >> 12);
    IterateSum(Half, y, 4, 4);
    IterateSum(Half, y, 8, 4);
    IterateSum(Half, y, 12, 4);
  }

  lemma {:induction false} FoldConcat<T, B>(f: (T, B) -> T, x: T, s: seq<B>, t: seq<B>)
    ensures Fold(f, x, s + t) == Fold(f, Fold(f, x, s), t)
  {
    if t == [] {
      assert s + t == s;
    } else {
      assert (s + t)[..|s + t| - 1] == s + t[..|t| - 1];
      FoldConcat(f, x, s, t[..|t| - 1]);
    }
  }

  lemma {:induction false} FoldApart<T(!new), B(!new)>(f: (T, B) -> T, x: T, y: T, s: seq<B>)
    requires forall c, d, b :: f(c, b) == f(d, b) ==> c == d
    requires Fold(f, x, s) == Fold(f, y, s)
    ensures x == y
  {
    if s == [] {
    } else {
      FoldApart(f, x, y, s[..|s| - 1]);
    }
  }

  lemma HighByteClear(x: bv8)
    ensures x as bv16 >> 8 == 0
  {
  }

  lemma XorNothing(c: bv16)
    ensures Xor(c, 0) == c
  {
  }

  lemma RunByte(crc: bv16, x: bv8)
    ensures Run(crc, LowBits(x as bv16, 8)) == Add(crc, x)
  {
    Peel(crc, x as bv16, 8);
    AllHalves(x as bv16);
    HighByteClear(x);
    XorNothing(Run(crc, LowBits(x as bv16, 8)));
  }

  lemma RunWord(crc: bv16, w: bv16)
    ensures Run(crc, LowBits(w, 16)) == Shift(Xor(crc, w), 16)
  {
    Peel(crc, w, 16);
    AllHalves(w);
    XorNothing(Run(crc, LowBits(w, 16)));
  }

  /** The byte-wise register and the bit-serial one agree on every body. */
  lemma {:induction false} RunBits(crc: bv16, data: seq<bv8>)
    ensures Run(crc, Bits(data)) == Register(crc, data)
  {
    if data == [] {
    } else {
      var n := |data| - 1;
      RunBits(crc, data[..n]);
      FoldConcat(Step, crc, Bits(data[..n]), LowBits(data[n] as bv16, 8));
      RunByte(Register(crc, data[..n]), data[n]);
    }
  }

  lemma XorCancel(c: bv16, d: bv16, x: bv16)
    requires Xor(c, x) == Xor(d, x) || Xor(x, c) == Xor(x, d)
    ensures c == d
  {
  }

  lemma StepInjective(c: bv16, d: bv16, b: bool)
    requires Step(c, b) == Step(d, b)
    ensures c == d
  {
    ShiftBitInjective(Xor(c, Bit(b)), Xor(d, Bit(b)));
    XorCancel(c, d, Bit(b));
  }

  lemma WindowRun(before: seq<bool>, w: bv16, after: seq<bool>)
    ensures Run(0xFFFF, before + LowBits(w, 16) + after) == Run(Run(Run(0xFFFF, before), LowBits(w, 16)), after)
  {
    FoldConcat(Step, 0xFFFF as bv16, before + LowBits(w, 16), after);
    FoldConcat(Step, 0xFFFF as bv16, before, LowBits(w, 16));
  }

  /**
   * Replacing any 16 consecutive bits of an accepted body, at any bit position, by any other 16 bits is
   * always detected: no burst of up to 16 bits gets through, in a body of any length.
   */
  lemma BurstDetected(body: seq<bv8>, received: seq<bv8>, before: seq<bool>, w: bv16, w': bv16, after: seq<bool>)
    requires Checks(body) && |received| == |body| && w != w'
    requires Bits(body) == before + LowBits(w, 16) + after && Bits(received) == before + LowBits(w', 16) + after
    ensures !Checks(received)
  {
    if Checks(received) {
      ChecksExactly(body);
      ChecksExactly(received);
      RunBits(0xFFFF, body);
      RunBits(0xFFFF, received);
      var crc := Run(0xFFFF, before);
      WindowRun(before, w, after);
      WindowRun(before, w', after);
      forall c, d, b | Step(c, b) == Step(d, b) ensures c == d {
        StepInjective(c, d, b);
      }
      FoldApart(Step, Run(crc, LowBits(w, 16)), Run(crc, LowBits(w', 16)), after);
      RunWord(crc, w);
      RunWord(crc, w');
      ShiftInjective(Xor(crc, w), Xor(crc, w'), 16);
      XorCancel(w, w', crc);
    }
  }

  lemma LittleInjective(x: bv8, y: bv8, x': bv8, y': bv8)
    requires FromLittle(x, y) == FromLittle(x', y')
    ensures x == x' && y == y'
  {
  }

  lemma PairRun(before: seq<bv8>, x: bv8, y: bv8, after: seq<bv8>)
    ensures Register(0xFFFF, before + [x, y] + after) == Register(Add(Add(Register(0xFFFF, before), x), y), after)
  {
    FoldConcat(Add, 0xFFFF as bv16, before + [x, y], after);
    FoldLastTwo(Add, 0xFFFF as bv16, before + [x, y]);
    assert (before + [x, y])[..|before|] == before;
  }

  /** Replacing any one byte, or any two adjacent ones, of an accepted body of any length is always detected. */
  lemma TwoBytesDetected(before: seq<bv8>, x: bv8, y: bv8, x': bv8, y': bv8, after: seq<bv8>)
    requires Checks(before + [x, y] + after) && (x, y) != (x', y')
    ensures !Checks(before + [x', y'] + after)
  {
    var body, received := before + [x, y] + after, before + [x', y'] + after;
    if Checks(received) {
      ChecksExactly(body);
      ChecksExactly(received);
      var crc := Register(0xFFFF, before);
      PairRun(before, x, y, after);
      PairRun(before, x', y', after);
      forall c, d, b | Add(c, b) == Add(d, b) ensures c == d {
        AddInjective(c, d, b);
      }
      FoldApart(Add, Add(Add(crc, x), y), Add(Add(crc, x'), y'), after);
      AddTwo(crc, x, y);
      AddTwo(crc, x', y');
      var w, w' := FromLittle(x, y), FromLittle(x', y');
      ShiftInjective(Xor(crc, w), Xor(crc, w'), 16);
      XorCancel(w, w', crc);
      LittleInjective(x, y, x', y');
    }
  }

  // ---- Parity ----

  /** Whether an odd number of the first `n` bits is set. */
  predicate ParityOf<T>(odd: T -> bool, half: T -> T, x: T, n: nat) {
    n > 0 && odd(x) != ParityOf(odd, half, half(x), n - 1)
  }

  predicate Parity(x: bv16, n: nat) {
    ParityOf(Odd, Half, x, n)
  }

  lemma OddBits(x: bv16, y: bv16)
    ensures (x ^ y) & 1 == 1 <==> (x & 1 == 1) != (y & 1 == 1)
  {
  }

  lemma HalfBits(x: bv16, y: bv16)
    ensures (x ^ y) >> 1 == (x >> 1) ^ (y >> 1)
  {
  }

  lemma OddXor(x: bv16, y: bv16)
    ensures Odd(Xor(x, y)) <==> Odd(x) != Odd(y)
  {
    OddBits(x, y);
  }

  lemma HalfXor(x: bv16, y: bv16)
    ensures Half(Xor(x, y)) == Xor(Half(x), Half(y))
  {
    HalfBits(x, y);
  }

  lemma BitsXor(x: bv16, y: bv16)
    ensures Odd(Xor(x, y)) <==> Odd(x) != Odd(y)
    ensures Half(Xor(x, y)) == Xor(Half(x), Half(y))
  {
    OddXor(x, y);
    HalfXor(x, y);
  }

  lemma {:induction false} ParityOfSum<T(!new)>(odd: T -> bool, half: T -> T, plus: (T, T) -> T, x: T, y: T, n: nat)
    requires forall a, b :: (odd(plus(a, b)) <==> odd(a) != odd(b)) && half(plus(a, b)) == plus(half(a), half(b))
    ensures ParityOf(odd, half, plus(x, y), n) <==> ParityOf(odd, half, x, n) != ParityOf(odd, half, y, n)
  {
    if n == 0 {
    } else {
      ParityOfSum(odd, half, plus, half(x), half(y), n - 1);
    }
  }

  lemma ParityXor(x: bv16, y: bv16, n: nat)
    ensures Parity(Xor(x, y), n) <==> Parity(x, n) != Parity(y, n)
  {
    forall a, b ensures (Odd(Xor(a, b)) <==> Odd(a) != Odd(b)) && Half(Xor(a, b)) == Xor(Half(a), Half(b)) {
      BitsXor(a, b);
    }
    ParityOfSum(Odd, Half, Xor, x, y, n);
  }

  lemma {:induction false} ParityOfNext<T(!new)>(odd: T -> bool, half: T -> T, x: T, n: nat)
    ensures ParityOf(odd, half, x, n + 1) <==> ParityOf(odd, half, x, n) != odd(Iterate(half, x, n))
  {
    if n == 0 {
    } else {
      ParityOfNext(odd, half, half(x), n - 1);
      IterateSum(half, x, 1, n - 1);
      assert Iterate(half, x, 1) == half(Iterate(half, x, 0));
    }
  }

  lemma ParityHalf(x: bv16, n: nat)
    requires n == 16
    ensures Parity(Half(x), n) <==> Parity(x, n) != Odd(x)
  {
    ParityOfNext(Odd, Half, x, n);
    AllHalves(x);
  }

  lemma ParityConstants()
    ensures Parity(0x8408, 16) && Parity(1, 16) && !Parity(0, 16) && !Parity(0xFFFF, 16) && !Parity(GOOD, 16)
  {
    assert Parity(0x2, 2) && Parity(0x8, 4) && !Parity(0x21, 6) && !Parity(0x84, 8) && !Parity(0x210, 10) &&
       !Parity(0x840, 12) && Parity(0x2102, 14) && Parity(0x8408, 16);
    assert !Parity(0x0, 2) && !Parity(0x0, 4) && !Parity(0x0, 6) && !Parity(0x0, 8) && !Parity(0x0, 10) &&
       !Parity(0x0, 12) && !Parity(0x0, 14) && Parity(0x1, 16);
    assert !Parity(0x0, 2) && !Parity(0x0, 4) && !Parity(0x0, 6) && !Parity(0x0, 8) && !Parity(0x0, 10) &&
       !Parity(0x0, 12) && !Parity(0x0, 14) && !Parity(0x0, 16);
    assert !Parity(0x3, 2) && !Parity(0xF, 4) && !Parity(0x3F, 6) && !Parity(0xFF, 8) && !Parity(0x3FF, 10) &&
       !Parity(0xFFF, 12) && !Parity(0x3FFF, 14) && !Parity(0xFFFF, 16);
    assert !Parity(0x3, 2) && !Parity(0xF, 4) && !Parity(0x3C, 6) && !Parity(0xF0, 8) && Parity(0x3C2, 10) &&
       Parity(0xF0B, 12) && !Parity(0x3C2E, 14) && !Parity(0xF0B8, 16);
  }

  lemma ShiftBitCases(z: bv16)
    ensures ShiftBit(z) == if Odd(z) then Xor(Half(z), 0x8408) else Half(z)
  {
  }

  lemma ParityShift(z: bv16, n: nat, half: bv16, shifted: bv16)
    requires n == 16 && Parity(0x8408, n)
    requires half == Half(z) && shifted == if Odd(z) then Xor(half, 0x8408) else half
    ensures Parity(shifted, n) <==> Parity(z, n)
  {
    ParityHalf(z, n);
    ParityXor(half, 0x8408, n);
  }

  lemma ParityAdd(crc: bv16, b: bool, n: nat)
    requires Parity(1, n) && !Parity(0, n)
    ensures Parity(Xor(crc, Bit(b)), n) <==> Parity(crc, n) != b
  {
    ParityXor(crc, Bit(b), n);
  }

  /** The generator has an even number of terms, so each step hands the parity of its input on. */
  lemma ParityStep(crc: bv16, b: bool, n: nat)
    requires n == 16 && Parity(0x8408, n) && Parity(1, n) && !Parity(0, n)
    ensures Parity(Step(crc, b), n) <==> Parity(crc, n) != b
  {
    var z := Xor(crc, Bit(b));
    ParityAdd(crc, b, n);
    ShiftBitCases(z);
    ParityShift(z, n, Half(z), ShiftBit(z));
  }

  function Ones(bits: seq<bool>): nat {
    if bits == [] then 0 else Ones(bits[..|bits| - 1]) + if bits[|bits| - 1] then 1 else 0
  }

  lemma {:induction false} OnesOfFold<T(!new)>(f: (T, bool) -> T, odd: T -> bool, x: T, bits: seq<bool>)
    requires forall c, b :: odd(f(c, b)) <==> odd(c) != b
    ensures odd(Fold(f, x, bits)) <==> odd(x) != (Ones(bits) % 2 == 1)
  {
    if bits == [] {
    } else {
      OnesOfFold(f, odd, x, bits[..|bits| - 1]);
    }
  }

  predicate OddWord(x: bv16) {
    Parity(x, 16)
  }

  lemma ParityRun(crc: bv16, bits: seq<bool>)
    ensures OddWord(Run(crc, bits)) <==> OddWord(crc) != (Ones(bits) % 2 == 1)
  {
    forall c, b ensures OddWord(Step(c, b)) <==> OddWord(c) != b {
      ParityConstants();
      ParityStep(c, b, 16);
    }
    OnesOfFold(Step, OddWord, crc, bits);
  }

  /** Every accepted body has an even number of one bits. */
  lemma AcceptedBitsEven(body: seq<bv8>)
    requires Checks(body)
    ensures Ones(Bits(body)) % 2 == 0
  {
    ChecksExactly(body);
    RunBits(0xFFFF, body);
    ParityRun(0xFFFF, Bits(body));
    ParityConstants();
  }

  /** In how many places two bit strings differ. */
  function Flips(s: seq<bool>, t: seq<bool>): nat
    requires |s| == |t|
  {
    if s == [] then 0
    else Flips(s[..|s| - 1], t[..|t| - 1]) + if s[|s| - 1] != t[|t| - 1] then 1 else 0
  }

  lemma {:induction false} FlipsParity(s: seq<bool>, t: seq<bool>)
    requires |s| == |t|
    ensures (Ones(s) + Ones(t) + Flips(s, t)) % 2 == 0
  {
    if s == [] {
    } else {
      FlipsParity(s[..|s| - 1], t[..|t| - 1]);
    }
  }

  lemma FlipsOdd(s: seq<bool>, t: seq<bool>)
    requires |s| == |t| && Flips(s, t) % 2 == 1 && Ones(s) % 2 == 0
    ensures Ones(t) % 2 == 1
  {
    FlipsParity(s, t);
  }

  /** An odd number of flipped bits in an accepted body of any length is always detected. */
  lemma OddFlipsDetected(body: seq<bv8>, received: seq<bv8>)
    requires Checks(body) && |received| == |body| && Flips(Bits(body), Bits(received)) % 2 == 1
    ensures !Checks(received)
  {
    AcceptedBitsEven(body);
    FlipsOdd(Bits(body), Bits(received));
    if Checks(received) {
      AcceptedBitsEven(received);
    }
  }
}
