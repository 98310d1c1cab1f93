/** Spinel packed unsigned integers: `unpack_uint` and the capability loop of tools/spinel_probe.py. */
module PackedUint {
  import opened Bytes

  /** `b & 0x7F`. */
  function Low7(b: u8): (r: nat)
    ensures r < 128
  {
    b % 128
  }

  /** `b & 0x80`. */
  predicate More(b: u8) {
    b >= 128
  }

  function Digit(m: nat, more: bool): u8
    requires m < 128
  {
    if more then 128 + m else m
  }

  /** Base 128, least significant digit first, the top bit set on all but the last. */
  function Packed(n: nat): seq<u8> {
    if n < 128 then [Digit(n, false)] else [Digit(n % 128, true)] + Packed(n / 128)
  }

  function PackedAll(ns: seq<nat>): seq<u8> {
    if ns == [] then [] else Packed(ns[0]) + PackedAll(ns[1..])
  }

  function Pow128(k: nat): nat {
    if k == 0 then 1 else 128 * Pow128(k - 1)
  }

  /** The number read at `i` and the position after it; a number cut short by the end counts as it stands. */
  function Unpacked(d: seq<u8>, i: nat): (r: (nat, nat))
    ensures i < |d| ==> i < r.1 <= |d|
    ensures i >= |d| ==> r == (0, i)
    decreases |d| - i
  {
    if i >= |d| then (0, i)
    else if !More(d[i]) then (Low7(d[i]), i + 1)
    else var (v, j) := Unpacked(d, i + 1); (Low7(d[i]) + 128 * v, j)
  }

  function CapsFrom(d: seq<u8>, j: nat): seq<nat>
    decreases |d| - j
  {
    if j >= |d| then [] else [Unpacked(d, j).0] + CapsFrom(d, Unpacked(d, j).1)
  }

  function Times(a: nat, b: nat): nat {
    a * b
  }

  lemma AddDigit(val: nat, weight: nat, low: nat, v: nat)
    requires val < weight && low < 128
    ensures val + Times(weight, low + 128 * v) == val + low * weight + Times(128 * weight, v)
    ensures val + Times(weight, low) == val + low * weight < 128 * weight
    ensures Times(weight, 0) == 0
  {
  }

  /**
   * The loop of `unpack_uint`. Each digit is added above the ones before it: `val` stays below the weight
   * of the next digit, so the source's bitwise or of the two is their sum.
   */
  method UnpackUint(d: seq<u8>, start: nat) returns (val: nat, i: nat)
    ensures (val, i) == Unpacked(d, start)
  {
    val, i := 0, start;
    ghost var k := 0;
    var weight := 1;
    while i < |d|
      invariant start <= i && weight == Pow128(k) && val < weight
      invariant val + Times(weight, Unpacked(d, i).0) == Unpacked(d, start).0
      invariant Unpacked(d, i).1 == Unpacked(d, start).1
      decreases |d| - i
    {
      var low := Low7(d[i]);
      AddDigit(val, weight, low, Unpacked(d, i + 1).0);
      val := val + low * weight;
      i, weight, k := i + 1, 128 * weight, k + 1;
      if !More(d[i - 1]) {
        break;
      }
    }
  }

  /** The low seven bits of each byte, as digits to base 128, least significant first. */
  function Value(s: seq<u8>): nat {
    if s == [] then 0 else Value(s[..|s| - 1]) + Times(s[|s| - 1] % 0x80, Pow128(|s| - 1))
  }

  lemma TimesSum(a: nat, b: nat, c: nat)
    ensures Times(a, 128 * b) + 128 * c == 128 * (Times(a, b) + c)
  {
  }

  lemma {:induction false} ValueFront(b: u8, s: seq<u8>)
    ensures Value([b] + s) == b % 0x80 + 128 * Value(s)
  {
    var t := [b] + s;
    if s == [] {
      assert t == [b] && t[..0] == [];
      assert Times(b % 0x80, 1) == b % 0x80;
    } else {
      assert t[..|t| - 1] == [b] + s[..|s| - 1];
      ValueFront(b, s[..|s| - 1]);
      TimesSum(s[|s| - 1] % 0x80, Pow128(|s| - 1), Value(s[..|s| - 1]));
    }
  }

  /**
   * What is read from position `i`: all bytes up to and including the first below 0x80, or to the end if there is
   * none, and their value to base 128.
   */
  lemma {:induction false} UnpackedExactly(d: seq<u8>, i: nat)
    requires i < |d|
    ensures var (v, j) := Unpacked(d, i);
            && i < j <= |d| && v == Value(d[i..j])
            && (forall k | i <= k < j - 1 :: d[k] >= 0x80) && (d[j - 1] >= 0x80 ==> j == |d|)
    decreases |d| - i
  {
    var j := Unpacked(d, i).1;
    assert Value([]) == 0;
    if More(d[i]) && i + 1 < |d| {
      UnpackedExactly(d, i + 1);
      assert d[i..j] == [d[i]] + d[i + 1..j];
      ValueFront(d[i], d[i + 1..j]);
    } else {
      assert d[i..j] == [d[i]] + [];
      ValueFront(d[i], []);
    }
  }

  method Caps(body: seq<u8>) returns (caps: seq<nat>)
    ensures caps == CapsFrom(body, 0)
  {
    caps := [];
    var j := 0;
    while j < |body|
      invariant caps + CapsFrom(body, j) == CapsFrom(body, 0)
      decreases |body| - j
    {
      var c, j' := UnpackUint(body, j);
      caps, j := caps + [c], j';
    }
  }

  /** One number's bytes: each announces another, but the last one. */
  predicate Ended(s: seq<u8>) {
    s != [] && (forall k | 0 <= k < |s| - 1 :: s[k] >= 0x80) && s[|s| - 1] < 0x80
  }

  /** `d` cut into numbers, of which only the last may be cut short. */
  predicate CutInto(d: seq<u8>, pieces: seq<seq<u8>>) {
    if pieces == [] then d == []
    else
      var p := pieces[0];
      && p <= d && (Ended(p) || (p == d && p != [] && forall b | b in p :: b >= 0x80))
      && CutInto(d[|p|..], pieces[1..])
  }

  lemma {:induction false} CapsCut(d: seq<u8>, j: nat) returns (pieces: seq<seq<u8>>)
    requires j <= |d|
    ensures CutInto(d[j..], pieces) && |pieces| == |CapsFrom(d, j)|
    ensures forall k | 0 <= k < |pieces| :: CapsFrom(d, j)[k] == Value(pieces[k])
    decreases |d| - j
  {
    if j == |d| {
      pieces := [];
    } else {
      var n := Unpacked(d, j).1;
      var rest := CapsCut(d, n);
      UnpackedExactly(d, j);
      pieces := [d[j..n]] + rest;
      assert d[j..][n - j..] == d[n..] && pieces[1..] == rest;
      assert forall k | 0 <= k < |d[j..n]| :: d[j..n][k] == d[j + k];
    }
  }

  /** On any bytes at all: the capabilities are the values of the numbers that the bytes are cut into, in order. */
  lemma CapsExactly(d: seq<u8>)
    ensures exists pieces: seq<seq<u8>> ::
              && CutInto(d, pieces) && |pieces| == |CapsFrom(d, 0)|
              && forall k | 0 <= k < |pieces| :: CapsFrom(d, 0)[k] == Value(pieces[k])
  {
    var pieces := CapsCut(d, 0);
    assert d[0..] == d;
  }

  /** Reading at the start of an encoded number gives the number and stops right behind it. */
  lemma {:induction false} UnpackPacked(before: seq<u8>, n: nat, after: seq<u8>)
    ensures Unpacked(before + Packed(n) + after, |before|) == (n, |before| + |Packed(n)|)
    decreases n
  {
    var d := before + Packed(n) + after;
    if n < 128 {
      assert d[|before|] == Digit(n, false);
    } else {
      var first := Digit(n % 128, true);
      assert d[|before|] == first;
      assert d == (before + [first]) + Packed(n / 128) + after;
      UnpackPacked(before + [first], n / 128, after);
    }
  }

  lemma {:induction false} CapsOfPacked(before: seq<u8>, ns: seq<nat>)
    ensures CapsFrom(before + PackedAll(ns), |before|) == ns
    decreases |ns|
  {
    if ns == [] {
    } else {
      var d := before + PackedAll(ns);
      var next := before + Packed(ns[0]);
      assert d == before + Packed(ns[0]) + PackedAll(ns[1..]) == next + PackedAll(ns[1..]);
      UnpackPacked(before, ns[0], PackedAll(ns[1..]));
      CapsOfPacked(next, ns[1..]);
    }
  }

  /** The capability loop inverts the concatenated encodings of any list of naturals. */
  lemma CapsRoundTrip(ns: seq<nat>)
    ensures CapsFrom(PackedAll(ns), 0) == ns
  {
    CapsOfPacked([], ns);
    assert [] + PackedAll(ns) == PackedAll(ns);
  }

  /** How many bytes from `i` on end a number. */
  function Ends(d: seq<u8>, i: nat): nat
    decreases |d| - i
  {
    if i >= |d| then 0 else Ends(d, i + 1) + if More(d[i]) then 0 else 1
  }

  lemma {:induction false} EndsPast(d: seq<u8>, i: nat)
    requires i < |d|
    ensures var j := Unpacked(d, i).1;
            if Ends(d, i) == 0 then j == |d| else j > 0 && !More(d[j - 1]) && Ends(d, i) == 1 + Ends(d, j)
    decreases |d| - i
  {
    if More(d[i]) && i + 1 < |d| {
      EndsPast(d, i + 1);
    }
  }

  lemma {:induction false} NoEnds(d: seq<u8>, i: nat)
    requires i < |d| && Ends(d, i) == 0
    ensures More(d[|d| - 1])
    decreases |d| - i
  {
    if i + 1 < |d| {
      NoEnds(d, i + 1);
    }
  }

  /**
   * On any bytes at all: one number per terminating byte, and one more exactly when the last byte announces
   * another.
   */
  lemma {:induction false} CapsCount(d: seq<u8>, i: nat)
    ensures |CapsFrom(d, i)| == Ends(d, i) + if i < |d| && More(d[|d| - 1]) then 1 else 0
    decreases |d| - i
  {
    if i >= |d| {
    } else {
      EndsPast(d, i);
      CapsCount(d, Unpacked(d, i).1);
      if Ends(d, i) == 0 {
        NoEnds(d, i);
      }
    }
  }
}
