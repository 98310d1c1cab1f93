/** The identity bundle and its chunked transfer: lib/tunnel/tunnel_identity.cpp. */
module Identity {
  import opened Bytes

  const BUNDLE_VERSION: u8 := 1
  const MAX_CHUNK := 400

  datatype Alg = EcdsaP256 | Ed25519

  /** What the attestation provider and the key export give; `None` or `false` is an error return. */
  datatype Attestation = Attestation(provider: bool, exports: bool, sign: seq<u8> -> Option<seq<u8>>,
                                     dac: Option<seq<u8>>, pai: Option<seq<u8>>)

  function AlgByte(alg: Alg): u8 {
    if alg == Ed25519 then 0 else 1
  }

  function Field(s: seq<u8>): (r: seq<u8>)
    ensures |r| == 2 + |s|
  {
    Be16(|s|) + s
  }

  function Fields(fs: seq<seq<u8>>): seq<u8> {
    if fs == [] then [] else Field(fs[0]) + Fields(fs[1..])
  }

  function Bundle(alg: Alg, fields: seq<seq<u8>>): seq<u8> {
    [BUNDLE_VERSION, AlgByte(alg)] + Fields(fields)
  }

  predicate ShortFields(fs: seq<seq<u8>>) {
    forall f | f in fs :: |f| < 0x1_0000
  }

  /** What the attestation key signs: a bundle with another version or algorithm needs another signature. */
  function AttestedBytes(alg: Alg, publicKey: seq<u8>): seq<u8> {
    [BUNDLE_VERSION, AlgByte(alg)] + publicKey
  }

  /** The bundle for a signer holding `publicKey`, or `None` when a step fails or `capacity` bytes do not hold it. */
  function Built(publicKey: Option<seq<u8>>, alg: Alg, a: Attestation, capacity: nat): Option<seq<u8>> {
    if publicKey.None? || !a.provider || !a.exports then None
    else
      var signature := a.sign(AttestedBytes(alg, publicKey.value));
      if signature.None? || a.dac.None? || a.pai.None? then None
      else
        var fields := [publicKey.value, signature.value, a.dac.value, a.pai.value];
        var s := Bundle(alg, fields);
        if ShortFields(fields) && |s| <= capacity then Some(s) else None
  }

  /** A bounded append cursor over the caller's buffer. */
  class Writer {
    const buf: array<u8>
    var len: nat

    ghost predicate Valid()
      reads this
    {
      len <= buf.Length
    }

    ghost function Contents(): seq<u8>
      requires Valid()
      reads this, buf
    {
      buf[..len]
    }

    constructor (buf: array<u8>)
      ensures Valid() && this.buf == buf && Contents() == []
    {
      this.buf, len := buf, 0;
    }

    method U8(v: u8) returns (ok: bool)
      requires Valid()
      modifies this, buf
      ensures Valid()
      ensures ok <==> old(len) + 1 <= buf.Length
      ensures len == old(len) + if ok then 1 else 0
      ensures Contents() == old(Contents()) + if ok then [v] else []
      ensures !ok ==> buf[..] == old(buf[..])
    {
      if len + 1 > buf.Length {
        return false;
      }
      buf[len] := v;
      len := len + 1;
      return true;
    }

    method PutField(s: seq<u8>) returns (ok: bool)
      requires Valid()
      modifies this, buf
      ensures Valid()
      ensures ok <==> |s| < 0x1_0000 && old(len) + 2 + |s| <= buf.Length
      ensures len == old(len) + if ok then 2 + |s| else 0
      ensures Contents() == old(Contents()) + if ok then Field(s) else []
      ensures !ok ==> buf[..] == old(buf[..])
    {
      if |s| > 0xFFFF || len + 2 + |s| > buf.Length {
        return false;
      }
      CopyBytes(buf, len, Be16(|s|));
      CopyBytes(buf, len + 2, s);
      len := len + 2 + |s|;
      return true;
    }
  }

  lemma FourFields(alg: Alg, f: seq<u8>, g: seq<u8>, h: seq<u8>, k: seq<u8>)
    ensures Bundle(alg, [f, g, h, k]) == [BUNDLE_VERSION, AlgByte(alg)] + Field(f) + Field(g) + Field(h) + Field(k)
  {
    var fs := [f, g, h, k];
    assert fs[1..] == [g, h, k] && [g, h, k][1..] == [h, k] && [h, k][1..] == [k];
    var a, b, c, d := Field(f), Field(g), Field(h), Field(k);
    assert Fields([k]) == d;
    assert Fields([h, k]) == c + d;
    assert Fields([g, h, k]) == b + (c + d);
    assert Fields(fs) == a + (b + (c + d));
    assert [BUNDLE_VERSION, AlgByte(alg)] + (a + (b + (c + d))) == [BUNDLE_VERSION, AlgByte(alg)] + a + b + c + d;
  }

  lemma BundleSize(alg: Alg, f: seq<u8>, g: seq<u8>, h: seq<u8>, k: seq<u8>)
    ensures ShortFields([f, g, h, k]) <==> |f| < 0x1_0000 && |g| < 0x1_0000 && |h| < 0x1_0000 && |k| < 0x1_0000
    ensures |Bundle(alg, [f, g, h, k])| == 10 + |f| + |g| + |h| + |k|
  {
    var fs := [f, g, h, k];
    assert fs[0] in fs && fs[1] in fs && fs[2] in fs && fs[3] in fs;
    FourFields(alg, f, g, h, k);
  }

  method BuildIdentityBundle(publicKey: Option<seq<u8>>, alg: Alg, a: Attestation,
                             out: array<u8>) returns (size: Option<nat>)
    modifies out
    ensures size.Some? <==> Built(publicKey, alg, a, out.Length).Some?
    ensures size.Some? ==> size.value <= out.Length && out[..size.value] == Built(publicKey, alg, a, out.Length).value
  {
    if publicKey.None? || !a.provider || !a.exports {
      return None;
    }
    var signature := a.sign(AttestedBytes(alg, publicKey.value));
    if signature.None? || a.dac.None? || a.pai.None? {
      return None;
    }
    var pub, sig, dac, pai := publicKey.value, signature.value, a.dac.value, a.pai.value;
    ghost var total := 10 + |pub| + |sig| + |dac| + |pai|;
    assert Built(publicKey, alg, a, out.Length).Some? <==>
           |pub| < 0x1_0000 && |sig| < 0x1_0000 && |dac| < 0x1_0000 && |pai| < 0x1_0000 && total <= out.Length by {
      BundleSize(alg, pub, sig, dac, pai);
    }
    var w := new Writer(out);
    var ok := w.U8(BUNDLE_VERSION);
    if !ok { return None; }
    ok := w.U8(AlgByte(alg));
    if !ok { return None; }
    ghost var head := [BUNDLE_VERSION, AlgByte(alg)];
    assert w.Contents() == head;
    ok := w.PutField(pub);
    if !ok { return None; }
    ok := w.PutField(sig);
    if !ok { return None; }
    ok := w.PutField(dac);
    if !ok { return None; }
    ok := w.PutField(pai);
    if !ok { return None; }
    assert w.Contents() == head + Field(pub) + Field(sig) + Field(dac) + Field(pai);
    FourFields(alg, pub, sig, dac, pai);
    return Some(w.len);
  }

  /** The position of the `i`-th field when reading starts at `p`. */
  function FieldStart(fs: seq<seq<u8>>, i: nat, p: nat): nat
    requires i <= |fs|
    decreases i
  {
    if i == 0 then p else FieldStart(fs, i - 1, p) + 2 + |fs[i - 1]|
  }

  lemma SliceBehind(head: seq<u8>, rest: seq<u8>, at: nat, n: nat)
    requires at + n <= |rest|
    ensures (head + rest)[|head| + at..|head| + at + n] == rest[at..at + n]
  {
  }

  lemma {:induction false} FieldStartShift(fs: seq<seq<u8>>, i: nat)
    requires 0 < i <= |fs|
    ensures FieldStart(fs, i, 0) == 2 + |fs[0]| + FieldStart(fs[1..], i - 1, 0)
  {
    if i > 1 {
      FieldStartShift(fs, i - 1);
    }
  }

  lemma {:induction false} FieldsAt(fs: seq<seq<u8>>, i: nat)
    requires i < |fs|
    ensures var at := FieldStart(fs, i, 0);
            at + 2 + |fs[i]| <= |Fields(fs)| && Fields(fs)[at..at + 2 + |fs[i]|] == Field(fs[i])
    ensures i + 1 == |fs| ==> FieldStart(fs, |fs|, 0) == |Fields(fs)|
  {
    if i > 0 {
      FieldsAt(fs[1..], i - 1);
      FieldStartShift(fs, i);
      FieldStartShift(fs, i + 1);
      var at := FieldStart(fs[1..], i - 1, 0);
      var head := Field(fs[0]);
      SliceBehind(head, Fields(fs[1..]), at, 2 + |fs[i]|);
    } else {
      assert Fields(fs)[..2 + |fs[0]|] == Field(fs[0]);
    }
  }

  lemma FieldSlice(head: seq<u8>, rest: seq<u8>, at: nat, f: seq<u8>)
    requires |f| < 0x1_0000 && at + 2 + |f| <= |rest| && rest[at..at + 2 + |f|] == Field(f)
    ensures ReadU16(head + rest, |head| + at) == |f|
    ensures (head + rest)[|head| + at + 2..|head| + at + 2 + |f|] == f
  {
    var s, p := head + rest, |head| + at;
    assert s[p..p + 2 + |f|] == Field(f);
    assert s[p..p + 2] == Field(f)[..2];
    assert s[p + 2..p + 2 + |f|] == Field(f)[2..];
    ReadBe16(s, p, |f|);
  }

  /** The length of `f` at position `p`, and `f` behind it. */
  predicate FieldAt(s: seq<u8>, p: nat, f: seq<u8>) {
    p + 2 + |f| <= |s| && ReadU16(s, p) == |f| && s[p + 2..p + 2 + |f|] == f
  }

  lemma FieldInBundle(s: seq<u8>, alg: Alg, fs: seq<seq<u8>>, i: nat, p: nat)
    requires i < |fs| && |fs[i]| < 0x1_0000 && s == Bundle(alg, fs) && p == 2 + FieldStart(fs, i, 0)
    ensures FieldAt(s, p, fs[i])
  {
    FieldsAt(fs, i);
    var head := [BUNDLE_VERSION, AlgByte(alg)];
    assert s == head + Fields(fs);
    FieldSlice(head, Fields(fs), p - 2, fs[i]);
  }

  lemma FourStarts(fs: seq<seq<u8>>)
    requires |fs| == 4
    ensures FieldStart(fs, 1, 0) == 2 + |fs[0]| && FieldStart(fs, 2, 0) == 4 + |fs[0]| + |fs[1]|
    ensures FieldStart(fs, 3, 0) == 6 + |fs[0]| + |fs[1]| + |fs[2]|
    ensures FieldStart(fs, 4, 0) == 8 + |fs[0]| + |fs[1]| + |fs[2]| + |fs[3]|
  {
    assert FieldStart(fs, 2, 0) == FieldStart(fs, 1, 0) + 2 + |fs[1]|;
    assert FieldStart(fs, 3, 0) == FieldStart(fs, 2, 0) + 2 + |fs[2]|;
  }

  /** Each length in front of its field, and the fields filling the bundle. */
  predicate FourFieldsAt(s: seq<u8>, fs: seq<seq<u8>>)
    requires |fs| == 4
  {
    var (a, b, c) := (4 + |fs[0]|, 6 + |fs[0]| + |fs[1]|, 8 + |fs[0]| + |fs[1]| + |fs[2]|);
    && |s| == c + 2 + |fs[3]|
    && FieldAt(s, 2, fs[0]) && FieldAt(s, a, fs[1]) && FieldAt(s, b, fs[2]) && FieldAt(s, c, fs[3])
  }

  lemma BundleEnds(s: seq<u8>, alg: Alg, fs: seq<seq<u8>>)
    requires |fs| == 4 && s == Bundle(alg, fs)
    ensures |s| == 10 + |fs[0]| + |fs[1]| + |fs[2]| + |fs[3]|
    ensures s[0] == BUNDLE_VERSION && s[1] == AlgByte(alg)
  {
    FourStarts(fs);
    FieldsAt(fs, 3);
  }

  lemma FirstFields(s: seq<u8>, alg: Alg, fs: seq<seq<u8>>)
    requires |fs| == 4 && ShortFields(fs) && s == Bundle(alg, fs)
    ensures FieldAt(s, 2, fs[0]) && FieldAt(s, 4 + |fs[0]|, fs[1])
  {
    assert fs[0] in fs && fs[1] in fs;
    FourStarts(fs);
    FieldInBundle(s, alg, fs, 0, 2);
    FieldInBundle(s, alg, fs, 1, 4 + |fs[0]|);
  }

  lemma LastFields(s: seq<u8>, alg: Alg, fs: seq<seq<u8>>)
    requires |fs| == 4 && ShortFields(fs) && s == Bundle(alg, fs)
    ensures FieldAt(s, 6 + |fs[0]| + |fs[1]|, fs[2]) && FieldAt(s, 8 + |fs[0]| + |fs[1]| + |fs[2]|, fs[3])
  {
    assert fs[2] in fs && fs[3] in fs;
    FourStarts(fs);
    FieldInBundle(s, alg, fs, 2, 6 + |fs[0]| + |fs[1]|);
    FieldInBundle(s, alg, fs, 3, 8 + |fs[0]| + |fs[1]| + |fs[2]|);
  }

  lemma BundleLayout(s: seq<u8>, alg: Alg, fs: seq<seq<u8>>)
    requires |fs| == 4 && ShortFields(fs) && s == Bundle(alg, fs)
    ensures s[0] == BUNDLE_VERSION && s[1] == AlgByte(alg) && FourFieldsAt(s, fs)
  {
    BundleEnds(s, alg, fs);
    FirstFields(s, alg, fs);
    LastFields(s, alg, fs);
  }

  /** Everything a bundle is made of is there, the signature over version 1, the algorithm and the key included. */
  predicate Attainable(pub: Option<seq<u8>>, alg: u8, a: Attestation) {
    pub.Some? && a.provider && a.exports && a.sign([1, alg] + pub.value).Some? && a.dac.Some? && a.pai.Some?
  }

  /**
   * What is built and when, in the attestation's own terms: version 1, the algorithm, then public key, attestation
   * signature, device certificate and intermediate certificate, in this order, each behind its length.
   */
  lemma BuiltExactly(publicKey: Option<seq<u8>>, alg: Alg, a: Attestation, capacity: nat, code: u8)
    requires code == if alg == Ed25519 then 0 else 1
    ensures Built(publicKey, alg, a, capacity).Some? <==>
            Attainable(publicKey, code, a) &&
            var (pub, signature) := (publicKey.value, a.sign([1, code] + publicKey.value).value);
            && |pub| <= 0xFFFF && |signature| <= 0xFFFF && |a.dac.value| <= 0xFFFF && |a.pai.value| <= 0xFFFF
            && 10 + |pub| + |signature| + |a.dac.value| + |a.pai.value| <= capacity
    ensures var s := Built(publicKey, alg, a, capacity);
            s.Some? ==>
              && s.value[0] == 1 && s.value[1] == code
              && FourFieldsAt(s.value, [publicKey.value, a.sign([1, code] + publicKey.value).value,
                                        a.dac.value, a.pai.value])
  {
    if Attainable(publicKey, code, a) {
      var fs := [publicKey.value, a.sign([1, code] + publicKey.value).value, a.dac.value, a.pai.value];
      BundleSize(alg, fs[0], fs[1], fs[2], fs[3]);
      if Built(publicKey, alg, a, capacity).Some? {
        BundleLayout(Built(publicKey, alg, a, capacity).value, alg, fs);
      }
    }
  }

  /** The report's `fieldLen`: the length at the cursor, and the cursor moved past the field behind it. */
  method NextField(s: seq<u8>, p: nat) returns (n: nat, q: nat)
    requires p + 2 <= |s|
    ensures n == ReadU16(s, p) && q == p + 2 + n
  {
    n := ReadU16(s, p);
    q := p + 2 + n;
  }

  /**
   * The re-reader, on whatever the writer produced: version, algorithm and all field lengths, each length
   * standing in front of the field itself, and the cursor ending at the end of the bundle.
   */
  method ReadBundle(s: seq<u8>, ghost alg: Alg, ghost fs: seq<seq<u8>>)
    returns (version: u8, algorithm: u8, pubLen: nat, sigLen: nat, dacLen: nat, paiLen: nat)
    requires |fs| == 4 && ShortFields(fs) && s == Bundle(alg, fs)
    ensures version == BUNDLE_VERSION && algorithm == AlgByte(alg)
    ensures |s| == 10 + pubLen + sigLen + dacLen + paiLen
    ensures s[4..4 + pubLen] == fs[0]
    ensures s[6 + pubLen..6 + pubLen + sigLen] == fs[1]
    ensures s[8 + pubLen + sigLen..8 + pubLen + sigLen + dacLen] == fs[2]
    ensures s[10 + pubLen + sigLen + dacLen..|s|] == fs[3]
  {
    BundleLayout(s, alg, fs);
    var p := 0;
    version, p := s[p], p + 1;
    algorithm, p := s[p], p + 1;
    pubLen, p := NextField(s, p);
    sigLen, p := NextField(s, p);
    dacLen, p := NextField(s, p);
    paiLen, p := NextField(s, p);
    assert p == |s|;
  }

  lemma FieldHead(f: seq<u8>, r: seq<u8>, g: seq<u8>, t: seq<u8>)
    requires |f| < 0x1_0000 && |g| < 0x1_0000 && Field(f) + r == Field(g) + t
    ensures f == g && r == t
  {
    var s := Field(f) + r;
    assert s[..2] == Be16(|f|) && s[..2] == Be16(|g|);
    Be16Injective(|f|, |g|);
    assert s[2..2 + |f|] == f && s[2..2 + |g|] == g;
    assert s[2 + |f|..] == r && s[2 + |g|..] == t;
  }

  /** Fields that fit their length prefix can be told apart: the bundle determines algorithm and fields. */
  lemma {:induction false} FieldsInjective(fs: seq<seq<u8>>, gs: seq<seq<u8>>)
    requires ShortFields(fs) && ShortFields(gs) && |fs| == |gs| && Fields(fs) == Fields(gs)
    ensures fs == gs
  {
    if fs == [] {
    } else {
      assert fs[0] in fs && gs[0] in gs;
      FieldHead(fs[0], Fields(fs[1..]), gs[0], Fields(gs[1..]));
      FieldsInjective(fs[1..], gs[1..]);
      assert fs == [fs[0]] + fs[1..] && gs == [gs[0]] + gs[1..];
    }
  }

  lemma BundleInjective(a: Alg, fs: seq<seq<u8>>, b: Alg, gs: seq<seq<u8>>)
    requires ShortFields(fs) && ShortFields(gs) && |fs| == |gs| && Bundle(a, fs) == Bundle(b, gs)
    ensures a == b && fs == gs
  {
    assert Bundle(a, fs)[1] == AlgByte(a) && Bundle(b, gs)[1] == AlgByte(b);
    assert Bundle(a, fs)[2..] == Fields(fs) && Bundle(b, gs)[2..] == Fields(gs);
    FieldsInjective(fs, gs);
  }

  // ---- Chunked transfer ----

  datatype Piece = Piece(offset: nat, total: nat, chunk: seq<u8>)

  function Chunk(bundle: seq<u8>, offset: nat): seq<u8>
    requires offset < |bundle|
  {
    bundle[offset..if |bundle| - offset < MAX_CHUNK then |bundle| else offset + MAX_CHUNK]
  }

  /** A piece as the device answers a request for `offset`. */
  ghost predicate PieceOf(p: Piece, bundle: seq<u8>) {
    p.offset < |bundle| && p.total == |bundle| && p.chunk == Chunk(bundle, p.offset)
  }

  /** A collector's memory after writing `chunk` at position `at`. */
  function Paste(known: map<nat, u8>, at: nat, chunk: seq<u8>): map<nat, u8>
    decreases |chunk|
  {
    if chunk == [] then known else Paste(known[at := chunk[0]], at + 1, chunk[1..])
  }

  /** What a collector knows after pasting the pieces in the order they arrived. */
  function Collected(ps: seq<Piece>): map<nat, u8> {
    if ps == [] then map[]
    else var p := ps[|ps| - 1]; Paste(Collected(ps[..|ps| - 1]), p.offset, p.chunk)
  }

  /** The whole bundle in the collector's terms. */
  function Whole(bundle: seq<u8>): map<nat, u8> {
    Paste(map[], 0, bundle)
  }

  predicate InPiece(p: Piece, i: nat) {
    p.offset <= i < p.offset + |p.chunk|
  }

  ghost predicate Covers(ps: seq<Piece>, i: nat) {
    exists p | p in ps :: InPiece(p, i)
  }

  lemma CoversLast(ps: seq<Piece>, i: nat)
    requires ps != []
    ensures Covers(ps, i) <==> Covers(ps[..|ps| - 1], i) || InPiece(ps[|ps| - 1], i)
  {
    var init, p := ps[..|ps| - 1], ps[|ps| - 1];
    assert ps == init + [p];
    assert forall q :: q in ps <==> q in init || q == p;
  }

  lemma {:induction false} PasteAt(known: map<nat, u8>, at: nat, chunk: seq<u8>, i: nat)
    ensures var m := Paste(known, at, chunk);
            && (i in m <==> i in known || at <= i < at + |chunk|)
            && (i in m ==> m[i] == if at <= i < at + |chunk| then chunk[i - at] else known[i])
    decreases |chunk|
  {
    if chunk == [] {
    } else {
      PasteAt(known[at := chunk[0]], at + 1, chunk[1..], i);
    }
  }

  lemma {:induction false} PasteSize(known: map<nat, u8>, at: nat, chunk: seq<u8>)
    ensures |Paste(known, at, chunk)| <= |known| + |chunk|
    ensures (forall i | i in known :: i < at) ==> |Paste(known, at, chunk)| == |known| + |chunk|
    decreases |chunk|
  {
    if chunk == [] {
    } else {
      var known' := known[at := chunk[0]];
      assert known'.Keys == known.Keys + {at};
      PasteSize(known', at + 1, chunk[1..]);
    }
  }

  /** Pasting one more piece of the bundle over what is known. */
  lemma PastedPiece(known: map<nat, u8>, p: Piece, bundle: seq<u8>, i: nat)
    requires PieceOf(p, bundle) && (i in known ==> i < |bundle| && known[i] == bundle[i])
    ensures var m := Paste(known, p.offset, p.chunk);
            (i in m <==> i in known || InPiece(p, i)) && (i in m ==> i < |bundle| && m[i] == bundle[i])
  {
    PasteAt(known, p.offset, p.chunk, i);
  }

  lemma {:induction false} CollectedExactly(ps: seq<Piece>, bundle: seq<u8>)
    requires forall p | p in ps :: PieceOf(p, bundle)
    ensures forall i: nat :: i in Collected(ps) <==> Covers(ps, i)
    ensures forall i | i in Collected(ps) :: i < |bundle| && Collected(ps)[i] == bundle[i]
    ensures |Collected(ps)| <= MAX_CHUNK * |ps|
  {
    if ps == [] {
    } else {
      var init, p := ps[..|ps| - 1], ps[|ps| - 1];
      assert PieceOf(p, bundle);
      var known := Collected(init);
      CollectedExactly(init, bundle);
      PasteSize(known, p.offset, p.chunk);
      forall i: nat
        ensures i in Collected(ps) <==> Covers(ps, i)
        ensures i in Collected(ps) ==> i < |bundle| && Collected(ps)[i] == bundle[i]
      {
        PastedPiece(known, p, bundle, i);
        CoversLast(ps, i);
      }
    }
  }

  lemma WholeExactly(bundle: seq<u8>)
    ensures forall i: nat :: i in Whole(bundle) <==> i < |bundle|
    ensures forall i | i in Whole(bundle) :: Whole(bundle)[i] == bundle[i]
    ensures |Whole(bundle)| == |bundle|
  {
    PasteSize(map[], 0, bundle);
    forall i: nat
      ensures i in Whole(bundle) <==> i < |bundle|
      ensures i in Whole(bundle) ==> Whole(bundle)[i] == bundle[i]
    {
      PasteAt(map[], 0, bundle, i);
    }
  }

  /** Pieces in any order, any of them repeated, rebuild the bundle exactly when they cover the announced total. */
  lemma TransferComplete(ps: seq<Piece>, bundle: seq<u8>)
    requires forall p | p in ps :: PieceOf(p, bundle)
    ensures Collected(ps) == Whole(bundle) <==> forall i: nat | i < |bundle| :: Covers(ps, i)
    ensures Collected(ps) == Whole(bundle) ==> |bundle| <= MAX_CHUNK * |ps|
  {
    CollectedExactly(ps, bundle);
    WholeExactly(bundle);
    if Collected(ps) == Whole(bundle) {
      forall i: nat | i < |bundle| ensures Covers(ps, i) {
        assert i in Whole(bundle);
      }
    }
  }

  /** Asking at 0, 400, 800, ... finishes in ceil(L / 400) requests, for every length; no plan needs fewer. */
  lemma SequentialPlan(ps: seq<Piece>, bundle: seq<u8>)
    requires |ps| == (|bundle| + MAX_CHUNK - 1) / MAX_CHUNK
    requires forall k | 0 <= k < |ps| :: PieceOf(ps[k], bundle) && ps[k].offset == MAX_CHUNK * k
    ensures Collected(ps) == Whole(bundle)
    ensures forall qs: seq<Piece> ::
              (forall q | q in qs :: PieceOf(q, bundle)) && Collected(qs) == Whole(bundle) ==> |ps| <= |qs|
  {
    forall i: nat | i < |bundle| ensures Covers(ps, i) {
      var k := i / MAX_CHUNK;
      assert ps[k] in ps && PieceOf(ps[k], bundle);
    }
    TransferComplete(ps, bundle);
    forall qs: seq<Piece> | (forall q | q in qs :: PieceOf(q, bundle)) && Collected(qs) == Whole(bundle)
      ensures |ps| <= |qs|
    {
      TransferComplete(qs, bundle);
    }
  }
}
