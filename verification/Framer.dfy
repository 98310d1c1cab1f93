/** HDLC framing and packed integers of tools/spinel_probe.py (RFC 1662, section 4.2). */
module Framer {
  import opened Crc

  const FLAG: bv8 := 0x7E
  const ESC: bv8 := 0x7D
  const ESC_XOR: bv8 := 0x20

  predicate Special(b: bv8) {
    b == 0x7E || b == 0x7D || b == 0x11 || b == 0x13
  }

  function StuffByte(b: bv8): seq<bv8> {
    if Special(b) then [ESC, b ^ ESC_XOR] else [b]
  }

  function Stuff(body: seq<bv8>): seq<bv8> {
    if body == [] then [] else Stuff(body[..|body| - 1]) + StuffByte(body[|body| - 1])
  }

  function Body(payload: seq<bv8>): seq<bv8> {
    payload + [Low(FcsOf(payload)), High(FcsOf(payload))]
  }

  function Encoded(payload: seq<bv8>): seq<bv8> {
    [FLAG] + Stuff(Body(payload)) + [FLAG]
  }

  lemma StuffNext(body: seq<bv8>, i: nat)
    requires i < |body|
    ensures [FLAG] + Stuff(body[..i + 1]) == [FLAG] + Stuff(body[..i]) + StuffByte(body[i])
  {
    assert body[..i + 1][..i] == body[..i];
  }

  method Encode(payload: seq<bv8>) returns (out: seq<bv8>)
    ensures out == Encoded(payload)
  {
    out := [FLAG];
    var fcs := Fcs(payload);
    var body := payload + [Low(fcs), High(fcs)];
    for i := 0 to |body|
      invariant out == [FLAG] + Stuff(body[..i])
    {
      StuffNext(body, i);
      if Special(body[i]) {
        out := out + [ESC, body[i] ^ ESC_XOR];
      } else {
        out := out + [body[i]];
      }
    }
    assert body[..|body|] == body;
    out := out + [FLAG];
  }

  // ---- The bytes on the line ----

  /** RFC 1662, section 4.2, byte by byte. */
  function Escape(b: bv8): seq<bv8> {
    match b
    case 0x7E => [0x7D, 0x5E]
    case 0x7D => [0x7D, 0x5D]
    case 0x11 => [0x7D, 0x31]
    case 0x13 => [0x7D, 0x33]
    case _ => [b]
  }

  function OnTheLine(body: seq<bv8>): seq<bv8> {
    if body == [] then [] else OnTheLine(body[..|body| - 1]) + Escape(body[|body| - 1])
  }

  lemma StuffByteExactly(b: bv8)
    ensures StuffByte(b) == Escape(b)
  {
  }

  lemma {:induction false} StuffExactly(body: seq<bv8>)
    ensures Stuff(body) == OnTheLine(body)
  {
    if body == [] {
    } else {
      StuffExactly(body[..|body| - 1]);
      StuffByteExactly(body[|body| - 1]);
    }
  }

  /** A frame on the line: 0x7E, payload and check sequence, low byte first, escaped byte by byte, 0x7E. */
  lemma EncodedExactly(payload: seq<bv8>)
    ensures Encoded(payload)
            == [0x7E] + OnTheLine(payload + [(FcsOf(payload) & 0xFF) as bv8, (FcsOf(payload) >> 8) as bv8]) + [0x7E]
  {
    StuffExactly(Body(payload));
  }

  /** The decoder's three loop variables. */
  datatype Decoder = Decoder(frames: seq<seq<bv8>>, cur: seq<bv8>, esc: bool)

  const START := Decoder([], [], false)

  function Accept(frames: seq<seq<bv8>>, cur: seq<bv8>): seq<seq<bv8>> {
    if Checks(cur) then frames + [cur[..|cur| - 2]] else frames
  }

  function Feed(d: Decoder, b: bv8): Decoder {
    if b == FLAG then Decoder(Accept(d.frames, d.cur), [], false)
    else if b == ESC then d.(esc := true)
    else Decoder(d.frames, d.cur + [if d.esc then b ^ ESC_XOR else b], false)
  }

  function FeedAll(d: Decoder, buf: seq<bv8>): Decoder {
    Fold(Feed, d, buf)
  }

  function Decoded(buf: seq<bv8>): seq<seq<bv8>> {
    FeedAll(START, buf).frames
  }

  method Decode(buf: seq<bv8>) returns (frames: seq<seq<bv8>>)
    ensures frames == Decoded(buf)
  {
    frames := [];
    var cur, esc := [], false;
    for i := 0 to |buf|
      invariant Decoder(frames, cur, esc) == FeedAll(START, buf[..i])
    {
      assert buf[..i + 1][..i] == buf[..i];
      var b := buf[i];
      if b == FLAG {
        if |cur| > 2 {
          var fcs := Fcs(cur[..|cur| - 2]);
          if fcs == FromLittle(cur[|cur| - 2], cur[|cur| - 1]) {
            frames := frames + [cur[..|cur| - 2]];
          }
        }
        cur, esc := [], false;
      } else if b == ESC {
        esc := true;
      } else {
        cur := cur + [if esc then b ^ ESC_XOR else b];
        esc := false;
      }
    }
    assert buf[..|buf|] == buf;
  }

  // ---- The decoder inverts the encoder, whatever came before ----

  lemma StuffedByteFacts(b: bv8)
    ensures (b ^ ESC_XOR) ^ ESC_XOR == b
    ensures Special(b) ==> !Special(b ^ ESC_XOR)
  {
  }

  lemma FoldOne<T, B>(f: (T, B) -> T, x: T, b: B)
    ensures Fold(f, x, [b]) == f(x, b)
  {
    assert [b][..0] == [];
    assert Fold(f, x, [b][..0]) == x;
  }

  function Grown(d: Decoder, s: seq<bv8>): Decoder {
    Decoder(d.frames, d.cur + s, false)
  }

  lemma FeedStuffedByte(d: Decoder, b: bv8)
    requires !d.esc
    ensures FeedAll(d, StuffByte(b)) == Grown(d, [b])
  {
    StuffedByteFacts(b);
    if Special(b) {
      var c := b ^ ESC_XOR;
      assert StuffByte(b) == [ESC] + [c];
      FoldConcat(Feed, d, [ESC], [c]);
      FoldOne(Feed, d, ESC);
      FoldOne(Feed, d.(esc := true), c);
    } else {
      FoldOne(Feed, d, b);
    }
  }

  lemma GrownTwice(d: Decoder, s: seq<bv8>, t: seq<bv8>)
    ensures Grown(Grown(d, s), t) == Grown(d, s + t)
  {
    assert d.cur + s + t == d.cur + (s + t);
  }

  lemma {:induction false} FeedStuffed(d: Decoder, body: seq<bv8>)
    requires !d.esc
    ensures FeedAll(d, Stuff(body)) == Grown(d, body)
  {
    if body == [] {
      assert d.cur + body == d.cur;
    } else {
      var init, b := body[..|body| - 1], body[|body| - 1];
      FeedStuffed(d, init);
      FoldConcat(Feed, d, Stuff(init), StuffByte(b));
      FeedStuffedByte(Grown(d, init), b);
      GrownTwice(d, init, [b]);
      assert init + [b] == body;
    }
  }

  lemma LittleRoundTrip(f: bv16)
    ensures FromLittle(Low(f), High(f)) == f
  {
  }

  lemma BodyChecks(payload: seq<bv8>)
    ensures Checks(Body(payload)) <==> payload != []
    ensures Body(payload)[..|Body(payload)| - 2] == payload
  {
    assert Body(payload)[..|payload|] == payload;
    LittleRoundTrip(FcsOf(payload));
  }

  function One(payload: seq<bv8>): seq<seq<bv8>> {
    if payload == [] then [] else [payload]
  }

  function NonEmpty(payloads: seq<seq<bv8>>): seq<seq<bv8>> {
    if payloads == [] then []
    else NonEmpty(payloads[..|payloads| - 1]) + One(payloads[|payloads| - 1])
  }

  function EncodedAll(payloads: seq<seq<bv8>>): seq<bv8> {
    if payloads == [] then [] else EncodedAll(payloads[..|payloads| - 1]) + Encoded(payloads[|payloads| - 1])
  }

  /** A flag ends whatever was in progress. */
  lemma FeedFlag(d: Decoder)
    ensures FeedAll(d, [FLAG]) == Decoder(Accept(d.frames, d.cur), [], false)
  {
    FoldOne(Feed, d, FLAG);
  }

  lemma FeedFrame(d: Decoder, payload: seq<bv8>)
    ensures FeedAll(d, Encoded(payload)) == Decoder(Accept(d.frames, d.cur) + One(payload), [], false)
  {
    var d1 := Decoder(Accept(d.frames, d.cur), [], false);
    var body := Body(payload);
    FoldConcat(Feed, d, [FLAG], Stuff(body));
    FeedFlag(d);
    FeedStuffed(d1, body);
    FoldConcat(Feed, d, [FLAG] + Stuff(body), [FLAG]);
    FeedFlag(Grown(d1, body));
    assert d1.cur + body == body;
    BodyChecks(payload);
  }

  lemma {:induction false} FeedFrames(d: Decoder, first: seq<seq<bv8>>, payloads: seq<seq<bv8>>)
    requires payloads != [] && first == Accept(d.frames, d.cur)
    ensures FeedAll(d, EncodedAll(payloads)) == Decoder(first + NonEmpty(payloads), [], false)
  {
    var init, p := payloads[..|payloads| - 1], payloads[|payloads| - 1];
    FoldConcat(Feed, d, EncodedAll(init), Encoded(p));
    if init == [] {
      assert EncodedAll(payloads) == Encoded(p);
      FeedFrame(d, p);
      assert NonEmpty(payloads) == One(p);
    } else {
      FeedFrames(d, first, init);
      FeedFrame(Decoder(first + NonEmpty(init), [], false), p);
      assert first + NonEmpty(init) + One(p) == first + (NonEmpty(init) + One(p));
    }
  }

  /**
   * Resynchronisation: after any line noise `g`, whatever partial frame or escape it leaves, the decoder
   * returns what `g` closed by a flag would have given and then every non-empty payload, in order.
   */
  lemma Resynchronises(g: seq<bv8>, payloads: seq<seq<bv8>>)
    requires payloads != []
    ensures Decoded(g + EncodedAll(payloads)) == Decoded(g + [FLAG]) + NonEmpty(payloads)
  {
    var noise := FeedAll(START, g);
    FoldConcat(Feed, START, g, [FLAG]);
    FeedFlag(noise);
    FoldConcat(Feed, START, g, EncodedAll(payloads));
    FeedFrames(noise, Accept(noise.frames, noise.cur), payloads);
  }

  /** One frame alone comes back exactly when it carries something: a body of two bytes or fewer is dropped. */
  lemma RoundTripExactly(payload: seq<bv8>)
    ensures Decoded(Encoded(payload)) == [payload] <==> payload != []
  {
    FeedFrame(START, payload);
  }

  /** No flag and no flow-control character at `i`, and an escape there hides a special byte. */
  predicate CleanAt(s: seq<bv8>, i: nat)
    requires i < |s|
  {
    && s[i] != FLAG && s[i] != 0x11 && s[i] != 0x13
    && (s[i] == ESC ==> i + 1 < |s| && Special(s[i + 1] ^ ESC_XOR))
  }

  predicate Clean(s: seq<bv8>) {
    forall i | 0 <= i < |s| :: CleanAt(s, i)
  }

  lemma CleanConcat(s: seq<bv8>, t: seq<bv8>)
    requires Clean(s) && Clean(t)
    ensures Clean(s + t)
  {
    forall i | 0 <= i < |s + t| ensures CleanAt(s + t, i) {
      assert if i < |s| then CleanAt(s, i) else CleanAt(t, i - |s|);
    }
  }

  lemma StuffByteClean(b: bv8)
    ensures Clean(StuffByte(b))
  {
    StuffedByteFacts(b);
  }

  /**
   * Between its two flags a frame contains no flag and no flow-control character, and every escape hides a special
   * byte.
   */
  lemma {:induction false} Transparent(body: seq<bv8>)
    ensures Clean(Stuff(body))
  {
    if body == [] {
    } else {
      Transparent(body[..|body| - 1]);
      StuffByteClean(body[|body| - 1]);
      CleanConcat(Stuff(body[..|body| - 1]), StuffByte(body[|body| - 1]));
    }
  }

  // ---- What the decoder returns, on any input ----

  /** What follows the last flag. */
  function Rest(buf: seq<bv8>): seq<bv8> {
    if buf == [] || buf[|buf| - 1] == FLAG then [] else Rest(buf[..|buf| - 1]) + [buf[|buf| - 1]]
  }

  /** The stretches of the input that a flag ends, without the flags. */
  function Closed(buf: seq<bv8>): seq<seq<bv8>> {
    if buf == [] then []
    else
      var init, b := buf[..|buf| - 1], buf[|buf| - 1];
      if b == FLAG then Closed(init) + [Rest(init)] else Closed(init)
  }

  function Joined(segments: seq<seq<bv8>>): seq<bv8> {
    if segments == [] then [] else Joined(segments[..|segments| - 1]) + segments[|segments| - 1] + [FLAG]
  }

  predicate Escaped(s: seq<bv8>) {
    s != [] && s[|s| - 1] == ESC
  }

  /** Escape characters dropped, and each byte behind one restored. */
  function Unescaped(s: seq<bv8>): seq<bv8> {
    if s == [] then []
    else
      var init, b := s[..|s| - 1], s[|s| - 1];
      if b == ESC then Unescaped(init) else Unescaped(init) + [if Escaped(init) then b ^ ESC_XOR else b]
  }

  lemma UnescapedNext(s: seq<bv8>, b: bv8)
    ensures Unescaped(s + [b]) == if b == ESC then Unescaped(s)
                                  else Unescaped(s) + [if Escaped(s) then b ^ ESC_XOR else b]
  {
    assert (s + [b])[..|s|] == s;
  }

  /** Behind anything but an escape: 0x7D flips bit 5 of the byte behind it, other bytes stand for themselves. */
  lemma UnescapedExactly(s: seq<bv8>, b: bv8)
    requires (s == [] || s[|s| - 1] != 0x7D) && b != 0x7D
    ensures Unescaped(s + [b]) == Unescaped(s) + [b]
    ensures Unescaped(s + [0x7D] + [b]) == Unescaped(s) + [b ^ 0x20]
  {
    UnescapedNext(s, b);
    UnescapedNext(s, 0x7D);
    UnescapedNext(s + [0x7D], b);
  }

  /** So each of the four escapes is undone. */
  lemma EscapesUndone(s: seq<bv8>)
    requires s == [] || s[|s| - 1] != 0x7D
    ensures Unescaped(s + [0x7D] + [0x5E]) == Unescaped(s) + [0x7E]
    ensures Unescaped(s + [0x7D] + [0x5D]) == Unescaped(s) + [0x7D]
    ensures Unescaped(s + [0x7D] + [0x31]) == Unescaped(s) + [0x11]
    ensures Unescaped(s + [0x7D] + [0x33]) == Unescaped(s) + [0x13]
  {
    UnescapedExactly(s, 0x5E);
    UnescapedExactly(s, 0x5D);
    UnescapedExactly(s, 0x31);
    UnescapedExactly(s, 0x33);
  }

  /** The payloads of the segments whose bytes carry their own check sequence. */
  function Passed(segments: seq<seq<bv8>>): seq<seq<bv8>> {
    if segments == [] then []
    else Accept(Passed(segments[..|segments| - 1]), Unescaped(segments[|segments| - 1]))
  }

  lemma {:induction false} DecoderState(buf: seq<bv8>)
    ensures FeedAll(START, buf) == Decoder(Passed(Closed(buf)), Unescaped(Rest(buf)), Escaped(Rest(buf)))
  {
    if buf == [] {
    } else {
      var init, b := buf[..|buf| - 1], buf[|buf| - 1];
      DecoderState(init);
      if b == FLAG {
        assert Closed(buf)[..|Closed(init)|] == Closed(init);
      } else {
        assert Rest(buf)[..|Rest(init)|] == Rest(init);
      }
    }
  }

  lemma JoinedOne(segments: seq<seq<bv8>>, s: seq<bv8>)
    ensures Joined(segments + [s]) == Joined(segments) + s + [FLAG]
  {
    assert (segments + [s])[..|segments|] == segments;
  }

  lemma {:induction false} JoinsBack(buf: seq<bv8>)
    ensures Joined(Closed(buf)) + Rest(buf) == buf
  {
    if buf == [] {
    } else {
      var init, b := buf[..|buf| - 1], buf[|buf| - 1];
      var joined, rest := Joined(Closed(init)), Rest(init);
      JoinsBack(init);
      assert buf == joined + rest + [b];
      if b == FLAG {
        JoinedOne(Closed(init), rest);
        assert Joined(Closed(buf)) + [] == Joined(Closed(buf));
      } else {
        assert joined + (rest + [b]) == joined + rest + [b];
      }
    }
  }

  /** The segments and the rest are the input, cut at its flags and nowhere else. */
  lemma {:induction false} SegmentsExactly(buf: seq<bv8>)
    ensures Joined(Closed(buf)) + Rest(buf) == buf
    ensures FLAG !in Rest(buf) && forall s | s in Closed(buf) :: FLAG !in s
  {
    JoinsBack(buf);
    if buf == [] {
    } else {
      SegmentsExactly(buf[..|buf| - 1]);
    }
  }

  /**
   * On any input at all the decoder returns, in order, exactly the payloads of those segments between flags whose
   * unescaped bytes are longer than two and end with the check sequence of the bytes before.
   */
  lemma DecodedExactly(buf: seq<bv8>)
    ensures Decoded(buf) == Passed(Closed(buf))
  {
    DecoderState(buf);
  }

  lemma {:induction false} NoFlagRest(s: seq<bv8>)
    requires FLAG !in s
    ensures Rest(s) == s
  {
    if s == [] {
    } else {
      NoFlagRest(s[..|s| - 1]);
      assert s == s[..|s| - 1] + [s[|s| - 1]];
    }
  }

  lemma CleanHasNoFlag(s: seq<bv8>)
    requires Clean(s)
    ensures FLAG !in s
  {
    forall i | 0 <= i < |s| ensures s[i] != FLAG {
      assert CleanAt(s, i);
    }
  }

  /** Unescaping inverts byte stuffing. */
  lemma UnescapesStuffed(body: seq<bv8>)
    ensures Unescaped(Stuff(body)) == body
  {
    Transparent(body);
    CleanHasNoFlag(Stuff(body));
    NoFlagRest(Stuff(body));
    DecoderState(Stuff(body));
    FeedStuffed(START, body);
    assert START.cur + body == body;
  }

  lemma {:induction false} PassedFrom(segments: seq<seq<bv8>>, f: seq<bv8>)
    requires f in Passed(segments)
    ensures exists s :: s in segments && Checks(Unescaped(s)) && f == Unescaped(s)[..|Unescaped(s)| - 2]
  {
    var init, s := segments[..|segments| - 1], segments[|segments| - 1];
    if Checks(Unescaped(s)) && f == Unescaped(s)[..|Unescaped(s)| - 2] {
      assert s in segments;
    } else {
      PassedFrom(init, f);
      assert forall t :: t in init ==> t in segments;
    }
  }

  /** Every frame returned stood between flags in the input, followed there by the check sequence of its own bytes. */
  lemma FramesChecked(buf: seq<bv8>)
    ensures forall f | f in Decoded(buf) ::
              exists s :: s in Closed(buf) && Checks(Unescaped(s)) && f == Unescaped(s)[..|Unescaped(s)| - 2]
  {
    DecodedExactly(buf);
    forall f | f in Decoded(buf)
      ensures exists s :: s in Closed(buf) && Checks(Unescaped(s)) && f == Unescaped(s)[..|Unescaped(s)| - 2]
    {
      PassedFrom(Closed(buf), f);
    }
  }
}
