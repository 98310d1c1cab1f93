/** The bytes a signature covers: lib/tunnel/tunnel_envelope.cpp and the client's `preimage`. */
module Envelope {
  import opened Bytes

  const DIR_REQUEST: u8 := 0x02
  const DIR_RESPONSE: u8 := 0x03
  const CLUSTER_ID: u32 := 0xFFF1_FC02
  const COMMAND_ID: u32 := 0xFFF1_0000

  /** "MTUNv1", without a terminating NUL. */
  const DOMAIN_TAG: seq<u8> := [0x4D, 0x54, 0x55, 0x4E, 0x76, 0x31]

  /** Everything before the device key: 19 bytes, whatever the arguments. */
  function Header(direction: u8, counter: u32): (s: seq<u8>)
    ensures |s| == 19
  {
    DOMAIN_TAG + [direction] + Be32(counter) + Be32(CLUSTER_ID) + Be32(COMMAND_ID)
  }

  /** The client's one-line expression. It is defined for keys of up to 65535 bytes only. */
  function Preimage(direction: u8, counter: u32, key: seq<u8>, payload: seq<u8>): (s: seq<u8>)
    ensures |s| == 21 + |key| + |payload|
  {
    Header(direction, counter) + Be16(|key|) + key + payload
  }

  method PutU32(out: array<u8>, at: nat, v: u32) returns (p: nat)
    requires at + 4 <= out.Length
    modifies out
    ensures p == at + 4
    ensures out[..p] == old(out[..at]) + Be32(v)
    ensures forall k | p <= k < out.Length :: out[k] == old(out[k])
  {
    CopyBytes(out, at, Be32(v));
    return at + 4;
  }

  /** The device's builder: a moving pointer `p` over the caller's buffer. */
  method BuildPreimage(direction: u8, counter: u32, key: seq<u8>, payload: seq<u8>, out: array<u8>)
    returns (size: Option<nat>)
    modifies out
    ensures size.Some? <==> 21 + |key| + |payload| <= out.Length
    ensures size.None? ==> out[..] == old(out[..])
    ensures size.Some? ==> size.value == 21 + |key| + |payload|
    ensures size.Some? ==> out[..size.value] == Preimage(direction, counter, key, payload)
    ensures size.Some? ==> forall k | size.value <= k < out.Length :: out[k] == old(out[k])
  {
    var need := |DOMAIN_TAG| + 1 + 4 + 4 + 4 + 2 + |key| + |payload|;
    if out.Length < need {
      return None;
    }
    var p := 0;
    CopyBytes(out, p, DOMAIN_TAG);
    p := p + |DOMAIN_TAG|;
    CopyBytes(out, p, [direction]);
    p := p + 1;
    assert out[..p] == DOMAIN_TAG + [direction];
    p := PutU32(out, p, counter);
    p := PutU32(out, p, CLUSTER_ID);
    p := PutU32(out, p, COMMAND_ID);
    assert out[..p] == Header(direction, counter);
    CopyBytes(out, p, Be16(|key|));
    p := p + 2;
    CopyBytes(out, p, key);
    p := p + |key|;
    CopyBytes(out, p, payload);
    p := p + |payload|;
    return Some(p);
  }

  lemma PreimageParts(direction: u8, counter: u32, key: seq<u8>, payload: seq<u8>)
    ensures var s := Preimage(direction, counter, key, payload);
            && s[6] == direction && s[7..11] == Be32(counter)
            && s[19..21] == Be16(|key|) && s[21..] == key + payload
            && s[..6] == DOMAIN_TAG && s[11..19] == Be32(CLUSTER_ID) + Be32(COMMAND_ID)
  {
  }

  /** The signed bytes one by one: "MTUNv1", direction 2 or 3, then cluster 0xFFF1FC02, command 0xFFF10000. */
  lemma PreimageBytes(direction: u8, counter: u32, key: seq<u8>, payload: seq<u8>)
    ensures Preimage(direction, counter, key, payload)
            == [0x4D, 0x54, 0x55, 0x4E, 0x76, 0x31, direction,
                counter / 0x100_0000, counter / 0x1_0000 % 0x100, counter / 0x100 % 0x100, counter % 0x100,
                0xFF, 0xF1, 0xFC, 0x02, 0xFF, 0xF1, 0x00, 0x00,
                |key| / 0x100 % 0x100, |key| % 0x100] + key + payload
    ensures DIR_REQUEST == 0x02 && DIR_RESPONSE == 0x03
  {
    assert Be32(CLUSTER_ID) == [0xFF, 0xF1, 0xFC, 0x02] && Be32(COMMAND_ID) == [0xFF, 0xF1, 0x00, 0x00];
  }

  /** For arguments of any length, exactly which inputs share a preimage. */
  lemma PreimageCollision(d1: u8, c1: u32, k1: seq<u8>, p1: seq<u8>, d2: u8, c2: u32, k2: seq<u8>, p2: seq<u8>)
    ensures Preimage(d1, c1, k1, p1) == Preimage(d2, c2, k2, p2) <==>
            d1 == d2 && c1 == c2 && |k1| % 0x1_0000 == |k2| % 0x1_0000 && k1 + p1 == k2 + p2
  {
    var s1, s2 := Preimage(d1, c1, k1, p1), Preimage(d2, c2, k2, p2);
    PreimageParts(d1, c1, k1, p1);
    PreimageParts(d2, c2, k2, p2);
    Be16Injective(|k1|, |k2|);
    if s1 == s2 {
      Be32Injective(c1, c2);
    }
    if d1 == d2 && c1 == c2 && |k1| % 0x1_0000 == |k2| % 0x1_0000 && k1 + p1 == k2 + p2 {
      assert s1 == Header(d1, c1) + Be16(|k1|) + (k1 + p1);
      assert s2 == Header(d2, c2) + Be16(|k2|) + (k2 + p2);
    }
  }

  /** For every key whose length fits its prefix the preimage determines all four arguments. */
  lemma PreimageInjective(d1: u8, c1: u32, k1: seq<u8>, p1: seq<u8>, d2: u8, c2: u32, k2: seq<u8>, p2: seq<u8>)
    requires |k1| < 0x1_0000 && |k2| < 0x1_0000
    requires Preimage(d1, c1, k1, p1) == Preimage(d2, c2, k2, p2)
    ensures d1 == d2 && c1 == c2 && k1 == k2 && p1 == p2
  {
    PreimageCollision(d1, c1, k1, p1, d2, c2, k2, p2);
    assert k1 == (k1 + p1)[..|k1|] && k2 == (k2 + p2)[..|k1|];
    assert p1 == (k1 + p1)[|k1|..] && p2 == (k2 + p2)[|k1|..];
  }
}
