/** Fixed-width unsigned integers and their big-endian wire form. */
module Bytes {

  type u8 = x: int | 0 <= x < 0x100
  type u16 = x: int | 0 <= x < 0x1_0000
  type u32 = x: int | 0 <= x < 0x1_0000_0000

  datatype Option<+T> = None | Some(value: T) {
    function GetOr(default: T): T {
      match this
      case Some(v) => v
      case None => default
    }
  }

  /** `static_cast<uint8_t>(n >> 8), static_cast<uint8_t>(n & 0xFF)`: only the low 16 bits survive. */
  function Be16(n: nat): (s: seq<u8>)
    ensures |s| == 2
  {
    [n / 0x100 % 0x100, n % 0x100]
  }

  function Be32(v: u32): (s: seq<u8>)
    ensures |s| == 4
  {
    [v / 0x100_0000, v / 0x1_0000 % 0x100, v / 0x100 % 0x100, v % 0x100]
  }

  function ReadU16(s: seq<u8>, i: nat): u16
    requires i + 2 <= |s|
  {
    0x100 * s[i] as int + s[i + 1] as int
  }

  function ReadU32(s: seq<u8>, i: nat): u32
    requires i + 4 <= |s|
  {
    0x100_0000 * s[i] as int + 0x1_0000 * s[i + 1] as int + 0x100 * s[i + 2] as int + s[i + 3] as int
  }

  /** Reading back the 16-bit field gives the number modulo 2^16. */
  lemma ReadBe16(s: seq<u8>, i: nat, n: nat)
    requires i + 2 <= |s| && s[i..i + 2] == Be16(n)
    ensures ReadU16(s, i) == n % 0x1_0000
  {
    assert s[i] == s[i..i + 2][0] && s[i + 1] == s[i..i + 2][1];
    assert n == n / 0x100 * 0x100 + n % 0x100;
    assert n / 0x100 == n / 0x100 / 0x100 * 0x100 + n / 0x100 % 0x100;
  }

  lemma FourDigits(v: u32)
    ensures v == 0x100_0000 * (v / 0x100_0000) + 0x1_0000 * (v / 0x1_0000 % 0x100)
                 + 0x100 * (v / 0x100 % 0x100) + v % 0x100
  {
    var a := v / 0x100;
    var b := a / 0x100;
    assert v == 0x100 * a + v % 0x100 && a == 0x100 * b + a % 0x100 && b == 0x100 * (b / 0x100) + b % 0x100;
    assert b == v / 0x1_0000 && b / 0x100 == v / 0x100_0000;
  }

  lemma ReadBe32(s: seq<u8>, i: nat, v: u32)
    requires i + 4 <= |s| && s[i..i + 4] == Be32(v)
    ensures ReadU32(s, i) == v
  {
    FourDigits(v);
    var w := s[i..i + 4];
    assert w[0] == s[i] && w[1] == s[i + 1] && w[2] == s[i + 2] && w[3] == s[i + 3];
  }

  /** The most significant byte comes first. */
  lemma BigEndian(n: nat, v: u32)
    ensures var s := Be16(n); 0x100 * s[0] as int + s[1] as int == n % 0x1_0000
    ensures var s := Be32(v);
            0x100_0000 * s[0] as int + 0x1_0000 * s[1] as int + 0x100 * s[2] as int + s[3] as int == v
  {
    ReadBe16(Be16(n), 0, n);
    FourDigits(v);
  }

  /** The other way round: laying out the number read gives back the bytes. */
  lemma Be16OfRead(s: seq<u8>, i: nat)
    requires i + 2 <= |s|
    ensures Be16(ReadU16(s, i)) == s[i..i + 2]
  {
  }

  lemma Be32OfRead(s: seq<u8>, i: nat)
    requires i + 4 <= |s|
    ensures Be32(ReadU32(s, i)) == s[i..i + 4]
  {
    var v := ReadU32(s, i);
    assert v / 0x100 == 0x1_0000 * s[i] as int + 0x100 * s[i + 1] as int + s[i + 2] as int;
    assert v / 0x1_0000 == 0x100 * s[i] as int + s[i + 1] as int;
  }

  lemma Be32Injective(v: u32, w: u32)
    requires Be32(v) == Be32(w)
    ensures v == w
  {
    ReadBe32(Be32(v), 0, v);
    ReadBe32(Be32(w), 0, w);
  }

  lemma Be16Mod(n: nat)
    ensures Be16(n) == Be16(n % 0x1_0000)
  {
    var q := n / 0x1_0000;
    assert n == q * 0x1_0000 + n % 0x1_0000;
    assert n / 0x100 == q * 0x100 + n % 0x1_0000 / 0x100;
  }

  lemma Be16Injective(m: nat, n: nat)
    ensures Be16(m) == Be16(n) <==> m % 0x1_0000 == n % 0x1_0000
  {
    ReadBe16(Be16(m), 0, m);
    ReadBe16(Be16(n), 0, n);
    if m % 0x1_0000 == n % 0x1_0000 {
      Be16Mod(m);
      Be16Mod(n);
    }
  }

  /** `memcpy` into a buffer: the bytes land at `at`, everything else stays. */
  method CopyBytes(dst: array<u8>, at: nat, src: seq<u8>)
    requires at + |src| <= dst.Length
    modifies dst
    ensures dst[..at + |src|] == old(dst[..at]) + src
    ensures forall k | at + |src| <= k < dst.Length :: dst[k] == old(dst[k])
  {
    forall k | 0 <= k < |src| {
      dst[at + k] := src[k];
    }
  }
}
