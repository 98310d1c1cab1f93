/**
 * What the device's replies mean, which requests move the replay state, and the identity transfer as a client sees
 * it.
 */
module Replies {
  import opened Bytes
  import opened Envelope
  import opened History
  import opened Replay
  import opened ClientKey
  import opened Identity
  import opened Device
  import opened DeviceRuns
  import opened DeviceTheorems

  // ---- Every reply ----

  lemma ParsedShape(v: Verifier, d: Device, r: SignedRequest, capacity: nat, f: Foreign)
    requires capacity >= 5
    ensures var reply := OnParsed(v, d, r, capacity, f).reply;
            |reply.Payload()| <= capacity && (reply.Payload() != [] <==> reply.Reason().None?)
  {
  }

  lemma KeyShape(d: Device, key: seq<u8>, capacity: nat, f: Foreign, now: nat)
    requires capacity >= 5
    ensures var reply := OnKey(d, key, capacity, f, now).reply;
            |reply.Payload()| <= capacity && (reply.Payload() != [] <==> reply.Reason().None?)
  {
  }

  /**
   * For every input and every buffer of 5 bytes or more: either bytes that fit, or a reason, and never both or
   * neither.
   */
  lemma ReplyShape(v: Verifier, d: Device, input: seq<u8>, capacity: nat, f: Foreign, now: nat)
    requires capacity >= 5
    ensures var reply := Process(v, d, input, capacity, f, now).reply;
            |reply.Payload()| <= capacity && (reply.Payload() != [] <==> reply.Reason().None?)
  {
    if Parses(input) {
      ParsedShape(v, d, ParseSigned(input).value, capacity, f);
    } else if input != [] && input[0] == TYPE_REGISTER_KEY && |input| >= 3 && |input| >= 3 + ReadU16(input, 1) {
      KeyShape(WithBundle(d, f).0, input[3..3 + ReadU16(input, 1)], capacity, f, now);
    }
  }

  /** The first byte of a reply, and what the request must have been. */
  predicate TypeFits(reply: Reply, input: seq<u8>) {
    reply.Sent? ==>
      reply.bytes != [] && input != [] &&
      match input[0]
      case 0xFF => reply.bytes == input
      case 0x00 => reply.bytes[0] == TYPE_IDENTITY_RESPONSE
      case 0x02 => reply.bytes[0] == TYPE_SIGNED_RESPONSE || reply.bytes[0] == TYPE_REPLAY_REJECT ||
         reply.bytes == [TYPE_AUTH_REJECT]
      case 0x05 => reply.bytes[0] == TYPE_REGISTER_ACK || reply.bytes == [TYPE_AUTH_REJECT]
      case _ => false
  }

  lemma ReplyTypes(v: Verifier, d: Device, input: seq<u8>, capacity: nat, f: Foreign, now: nat)
    ensures TypeFits(Process(v, d, input, capacity, f, now).reply, input)
  {
  }

  // ---- The layout of signed envelopes ----

  lemma SignedParts(kind: u8, counter: u32, payload: seq<u8>, signature: seq<u8>, trailing: seq<u8>)
    ensures var s, n := Signed(kind, counter, payload, signature) + trailing, 7 + |payload|;
            && |s| == n + 2 + |signature| + |trailing|
            && s[1..5] == Be32(counter) && s[5..7] == Be16(|payload|) && s[n..n + 2] == Be16(|signature|)
            && s[7..n] == payload && s[n + 2..n + 2 + |signature|] == signature
  {
  }

  lemma ParsedFrom(s: seq<u8>, counter: u32, payload: seq<u8>, signature: seq<u8>)
    requires var n := 7 + |payload|;
             && |s| >= n + 2 + |signature| && ReadU32(s, 1) == counter && ReadU16(s, 5) == |payload| &&
                ReadU16(s, n) == |signature|
             && s[7..n] == payload && s[n + 2..n + 2 + |signature|] == signature
    ensures ParseSigned(s) == Some(SignedRequest(counter, payload, signature))
  {
  }

  /** The parser recovers what was laid out, whatever follows it. */
  lemma SignedRoundTrip(kind: u8, counter: u32, payload: seq<u8>, signature: seq<u8>, trailing: seq<u8>)
    requires |payload| < 0x1_0000 && |signature| < 0x1_0000
    ensures ParseSigned(Signed(kind, counter, payload, signature) + trailing)
            == Some(SignedRequest(counter, payload, signature))
  {
    var s, n := Signed(kind, counter, payload, signature) + trailing, 7 + |payload|;
    SignedParts(kind, counter, payload, signature, trailing);
    ReadBe32(s, 1, counter);
    ReadBe16(s, 5, |payload|);
    ReadBe16(s, n, |signature|);
    ParsedFrom(s, counter, payload, signature);
  }

  predicate Fits(r: SignedRequest) {
    |r.payload| < 0x1_0000 && |r.signature| < 0x1_0000
  }

  /** `input` is a signed envelope for `r`, with `trailing` behind it. */
  predicate LaidOut(input: seq<u8>, r: SignedRequest, trailing: seq<u8>) {
    input != [] && Fits(r) && input == Signed(input[0], r.counter, r.payload, r.signature) + trailing
  }

  lemma Rebuilt(input: seq<u8>)
    requires ParseSigned(input).Some?
    ensures exists trailing :: LaidOut(input, ParseSigned(input).value, trailing)
  {
    var r := ParseSigned(input).value;
    var n := 7 + |r.payload|;
    var m := n + 2 + |r.signature|;
    Be32OfRead(input, 1);
    Be16OfRead(input, 5);
    Be16OfRead(input, n);
    assert input[7..n] == r.payload && input[n + 2..m] == r.signature;
    assert input == [input[0]] + input[1..5] + input[5..7] + input[7..n] + input[n..n + 2] + input[n + 2..m]
                    + input[m..];
    assert LaidOut(input, r, input[m..]);
  }

  /** Parser and layout, both ways: `r` is parsed exactly from the bytes that lay out `r`, whatever follows. */
  lemma ParsedExactly(input: seq<u8>, r: SignedRequest)
    requires input != []
    ensures ParseSigned(input) == Some(r) <==> exists trailing :: LaidOut(input, r, trailing)
  {
    if ParseSigned(input) == Some(r) {
      Rebuilt(input);
    }
    if exists trailing :: LaidOut(input, r, trailing) {
      var trailing :| LaidOut(input, r, trailing);
      SignedRoundTrip(input[0], r.counter, r.payload, r.signature, trailing);
    }
  }

  /** The registration envelope: a key behind its length, and anything behind that. */
  predicate KeyLaidOut(input: seq<u8>, key: seq<u8>, trailing: seq<u8>) {
    |key| < 0x1_0000 && input == [TYPE_REGISTER_KEY] + Be16(|key|) + key + trailing
  }

  lemma KeyParsed(input: seq<u8>, key: seq<u8>, trailing: seq<u8>)
    requires KeyLaidOut(input, key, trailing)
    ensures |input| >= 3 && ReadU16(input, 1) == |key| && |input| >= 3 + |key| && input[3..3 + |key|] == key
  {
    assert input[1..3] == Be16(|key|);
    ReadBe16(input, 1, |key|);
  }

  lemma KeyRebuilt(input: seq<u8>)
    requires |input| >= 3 && input[0] == TYPE_REGISTER_KEY && |input| >= 3 + ReadU16(input, 1)
    ensures var n := ReadU16(input, 1); KeyLaidOut(input, input[3..3 + n], input[3 + n..])
  {
    Be16OfRead(input, 1);
    assert input == [input[0]] + input[1..3] + input[3..3 + ReadU16(input, 1)] + input[3 + ReadU16(input, 1)..];
  }

  /** The four request layouts. */
  ghost predicate WellFormed(input: seq<u8>) {
    input != [] &&
    match input[0]
    case 0xFF => true
    case 0x00 => |input| >= 3
    case 0x02 => exists r, trailing :: LaidOut(input, r, trailing)
    case 0x05 => exists key, trailing :: KeyLaidOut(input, key, trailing)
    case _ => false
  }

  lemma SignedWellFormed(input: seq<u8>)
    requires input != []
    ensures ParseSigned(input).Some? <==> exists r, trailing :: LaidOut(input, r, trailing)
  {
    if ParseSigned(input).Some? {
      Rebuilt(input);
    }
    if exists r, trailing :: LaidOut(input, r, trailing) {
      var r, trailing :| LaidOut(input, r, trailing);
      ParsedExactly(input, r);
    }
  }

  lemma KeyWellFormed(input: seq<u8>)
    requires input != [] && input[0] == TYPE_REGISTER_KEY
    ensures (|input| >= 3 && |input| >= 3 + ReadU16(input, 1)) <==>
            exists key, trailing :: KeyLaidOut(input, key, trailing)
  {
    if |input| >= 3 && |input| >= 3 + ReadU16(input, 1) {
      KeyRebuilt(input);
    }
    if exists key, trailing :: KeyLaidOut(input, key, trailing) {
      var key, trailing :| KeyLaidOut(input, key, trailing);
      KeyParsed(input, key, trailing);
    }
  }

  lemma InvalidCases(v: Verifier, d: Device, input: seq<u8>, capacity: nat, f: Foreign, now: nat)
    ensures Process(v, d, input, capacity, f, now).reply == Rejected(InvalidCommand) <==>
            !(input != [] &&
              match input[0]
              case 0xFF => true
              case 0x00 => |input| >= 3
              case 0x02 => ParseSigned(input).Some?
              case 0x05 => |input| >= 3 && |input| >= 3 + ReadU16(input, 1)
              case _ => false)
  {
  }

  /** `InvalidCommand` means malformed and nothing else: exactly the inputs outside the four layouts get it. */
  lemma InvalidExactly(v: Verifier, d: Device, input: seq<u8>, capacity: nat, f: Foreign, now: nat)
    ensures Process(v, d, input, capacity, f, now).reply == Rejected(InvalidCommand) <==> !WellFormed(input)
  {
    InvalidCases(v, d, input, capacity, f, now);
    if input != [] && input[0] == TYPE_SIGNED_REQUEST {
      SignedWellFormed(input);
    }
    if input != [] && input[0] == TYPE_REGISTER_KEY {
      KeyWellFormed(input);
    }
  }

  // ---- Registrations ----

  /** How a client reads an acknowledgement: the key, and the device's signature over it. */
  function AckIn(bytes: seq<u8>): Option<(seq<u8>, seq<u8>)> {
    if |bytes| < 5 || |bytes| < 5 + ReadU16(bytes, 1) then None
    else
      var n := 3 + ReadU16(bytes, 1);
      if |bytes| != n + 2 + ReadU16(bytes, n) then None else Some((bytes[3..n], bytes[n + 2..]))
  }

  lemma AckParts(s: seq<u8>, n: nat, key: seq<u8>, signature: seq<u8>)
    requires s == RegisterAck(key, signature) && n == 3 + |key|
    ensures |s| == n + 2 + |signature| && s[1..3] == Be16(|key|) && s[n..n + 2] == Be16(|signature|)
    ensures s[3..n] == key && s[n + 2..] == signature
  {
  }

  lemma AckRoundTrip(key: seq<u8>, signature: seq<u8>)
    requires |key| < 0x1_0000 && |signature| < 0x1_0000
    ensures AckIn(RegisterAck(key, signature)) == Some((key, signature))
  {
    var s, n := RegisterAck(key, signature), 3 + |key|;
    AckParts(s, n, key, signature);
    ReadBe16(s, 1, |key|);
    ReadBe16(s, n, |signature|);
  }

  /**
   * A registration: once the identity is or can be built, stored exactly inside the window and for 32 bytes, and
   * refused without any further effect otherwise; and an acknowledgement names the key the device now holds, with
   * the device's signature.
   */
  lemma RegistrationExactly(v: Verifier, d: Device, input: seq<u8>, key: seq<u8>, trailing: seq<u8>, capacity: nat,
                            f: Foreign, now: nat)
    requires KeyLaidOut(input, key, trailing)
    ensures var o, (d1, built) := Process(v, d, input, capacity, f, now), WithBundle(d, f);
            var open := d.keys.windowUntil != 0 && now < d.keys.windowUntil && |key| == KEY_LENGTH;
            && (!built ==> o == Outcome(d1, Rejected(Failure), []))
            && (built ==> (o == Outcome(d1, Sent([TYPE_AUTH_REJECT]), []) <==> !open))
            && (built && open ==>
                  && o.device.keys == d.keys.(key := Some(key), cached := None, windowUntil := 0)
                  && o.device.flash.clientKey == if f.keySave then Some(key) else d.flash.clientKey)
            && (o.reply.Sent? && o.reply.bytes[0] == TYPE_REGISTER_ACK ==>
                  && f.signature.Some? && AckIn(o.reply.bytes) == Some((key, f.signature.value))
                  && o.device.keys.key == Some(key))
  {
    KeyParsed(input, key, trailing);
    if MayRegister(d.keys, key, now) && f.signature.Some? {
      AckRoundTrip(key, f.signature.value);
    }
  }

  // ---- Signed requests ----

  /** Everything that decides the fate of a signed request, apart from the counter. */
  predicate Verifies(v: Verifier, d: Device, r: SignedRequest) {
    d.keys.key.Some? && v(d.keys.key.value, Preimage(DIR_REQUEST, r.counter, d.devicePub, r.payload), r.signature)
  }

  predicate Answerable(r: SignedRequest, capacity: nat, f: Foreign) {
    f.signature.Some? && |r.payload| <= PAYLOAD_MAX && 9 + |r.payload| + SIGNATURE_LENGTH <= capacity
  }

  predicate Accepts(es: seq<Event>, r: SignedRequest) {
    exists e | e in es :: e.Accepted? && e.command.counter == r.counter && e.command.payload == r.payload
  }

  /** The signature is good under the registered key, the signed bytes fit their buffer, and the key can be imported. */
  predicate Authentic(v: Verifier, d: Device, r: SignedRequest, f: Foreign) {
    && Verifies(v, d, r)
    && 21 + |d.devicePub| + |r.payload| <= PREIMAGE_CAPACITY && (d.keys.cached.Some? || f.imports)
  }

  /**
   * Fresh, and either reserved already or open to a new reservation: no wrap, and storage to keep it if there is
   * any.
   */
  predicate Spendable(g: Guard, counter: u32, save: bool) {
    && g.floor < counter
    && (counter < g.ceiling || (counter <= 0xFFFF_FFFF - 64 && (save || !g.persistent)))
  }

  lemma ReadyReaches(v: Verifier, d: Device, r: SignedRequest, f: Foreign)
    requires IdentityOk(d) && KeysOk(d) && d.replayReady
    ensures Readied(d, f) == (d, true, [])
    ensures Reaches(v, d, r, f) <==> Authentic(v, d, r, f)
  {
  }

  lemma SpendsExactly(g: Guard, counter: u32, save: bool)
    ensures Consumed(g, counter, save).ok <==> Spendable(g, counter, save)
  {
  }

  lemma AcceptsExactly(d: Device, r: SignedRequest, capacity: nat, f: Foreign)
    ensures Accepts(Answered(d, r, capacity, f).events, r) <==> Spendable(d.guard, r.counter, f.ceilingSave)
  {
    SpendsExactly(d.guard, r.counter, f.ceilingSave);
    var e := Consumed(d.guard, r.counter, f.ceilingSave);
    if e.ok {
      assert Answered(d, r, capacity, f).events[|Saves(e.saved)|] == Accepted(CommandOf(d, r));
    }
  }

  /**
   * A signed response is sent exactly when the request was newly accepted and its answer could be signed and fits;
   * it then parses, under the request's own layout, to the same counter and payload with the device's signature. An
   * accepted request that is not answered so gets an error status, its counter spent all the same.
   */
  lemma AnswerExactly(d: Device, r: SignedRequest, capacity: nat, f: Foreign)
    requires |r.payload| < 0x1_0000
    ensures var reply := Answered(d, r, capacity, f).reply;
            && (reply.Sent? && reply.bytes[0] == TYPE_SIGNED_RESPONSE <==>
                  Spendable(d.guard, r.counter, f.ceilingSave) && Answerable(r, capacity, f))
            && (reply.Sent? && reply.bytes[0] == TYPE_SIGNED_RESPONSE ==>
                  ParseSigned(reply.bytes) == Some(SignedRequest(r.counter, r.payload, f.signature.value)))
            && (reply.Sent? && reply.bytes[0] == TYPE_REPLAY_REJECT <==> r.counter <= d.guard.floor)
            && (reply.Sent? && reply.bytes[0] == TYPE_REPLAY_REJECT ==>
                  |reply.bytes| == 5 && ReadU32(reply.bytes, 1) == d.guard.floor)
            && (reply.Rejected? <==>
                  Fresh(d.guard, r.counter)
                  && !(Spendable(d.guard, r.counter, f.ceilingSave) && Answerable(r, capacity, f)))
  {
    SpendsExactly(d.guard, r.counter, f.ceilingSave);
    if Fresh(d.guard, r.counter) {
      if Spendable(d.guard, r.counter, f.ceilingSave) && Answerable(r, capacity, f) {
        var s := Signed(TYPE_SIGNED_RESPONSE, r.counter, r.payload, f.signature.value);
        SignedRoundTrip(TYPE_SIGNED_RESPONSE, r.counter, r.payload, f.signature.value, []);
        assert s + [] == s;
      }
    } else {
      var s := [TYPE_REPLAY_REJECT] + Be32(d.guard.floor);
      assert s[1..5] == Be32(d.guard.floor);
      ReadBe32(s, 1, d.guard.floor);
    }
  }

  lemma ParsedLength(input: seq<u8>)
    ensures ParseSigned(input).Some? ==>
            |ParseSigned(input).value.payload| < 0x1_0000 && |ParseSigned(input).value.signature| < 0x1_0000
  {
  }

  /** The reply to a signed request that reached the counter is the reply to its answer. */
  lemma ReplyOfParsed(v: Verifier, d: Device, r: SignedRequest, capacity: nat, f: Foreign)
    ensures Reaches(v, d, r, f) ==>
              OnParsed(v, d, r, capacity, f).reply
              == Answered(Authenticated(v, Readied(d, f).0, r, f).0, r, capacity, f).reply
    ensures !Reaches(v, d, r, f) ==>
              OnParsed(v, d, r, capacity, f).reply.Rejected? ||
                 OnParsed(v, d, r, capacity, f).reply == Sent([TYPE_AUTH_REJECT])
  {
  }

  lemma AcceptsBehind(saves: seq<Event>, es: seq<Event>, r: SignedRequest)
    requires forall e | e in saves :: e.CeilingSaved?
    ensures Accepts(saves + es, r) <==> Accepts(es, r)
  {
    if Accepts(es, r) {
      var e :| e in es && e.Accepted? && e.command.counter == r.counter && e.command.payload == r.payload;
      assert e in saves + es;
    }
  }

  /**
   * Exactly which signed requests are accepted, by a device in any standing state: it is or can be initialised,
   * then the signature verifies under the registered key, the signed bytes fit, the key can be imported, and the
   * counter can be spent. The reply's size plays no part.
   */
  lemma AcceptedExactly(v: Verifier, d: Device, r: SignedRequest, capacity: nat, f: Foreign)
    requires IdentityOk(d) && KeysOk(d)
    ensures var (d1, ready, _) := Readied(d, f);
            Accepts(OnParsed(v, d, r, capacity, f).events, r) <==>
            ready && Authentic(v, d1, r, f) && Spendable(d1.guard, r.counter, f.ceilingSave)
    ensures d.replayReady ==> Readied(d, f) == (d, true, [])
  {
    var (d1, ready, saves) := Readied(d, f);
    var d2 := Authenticated(v, d1, r, f).0;
    var reached := Reaches(v, d, r, f);
    ReadiedSaves(d, f);
    EventsOfParsed(v, d, r, capacity, f);
    AcceptsBehind(saves, if reached then Answered(d2, r, capacity, f).events else [], r);
    AcceptsExactly(d2, r, capacity, f);
  }

  /**
   * What a signed response tells the client, at any device whatever its state: the request it answers was accepted
   * in this very exchange. The converse holds for requests that can be answered; the others are accepted, and their
   * counters spent, without an answer.
   */
  lemma SignedResponseExactly(v: Verifier, d: Device, input: seq<u8>, capacity: nat, f: Foreign, now: nat)
    requires Parses(input)
    ensures var o, r := Process(v, d, input, capacity, f, now), ParseSigned(input).value;
            && (o.reply.Sent? && o.reply.bytes[0] == TYPE_SIGNED_RESPONSE <==>
                  Accepts(o.events, r) && Answerable(r, capacity, f))
            && (o.reply.Sent? && o.reply.bytes[0] == TYPE_SIGNED_RESPONSE ==>
                  ParseSigned(o.reply.bytes) == Some(SignedRequest(r.counter, r.payload, f.signature.value)))
            && (Accepts(o.events, r) && !Answerable(r, capacity, f) ==> o.reply.Rejected?)
  {
    var r := ParseSigned(input).value;
    var d2 := Authenticated(v, Readied(d, f).0, r, f).0;
    ParsedLength(input);
    ReplyOfParsed(v, d, r, capacity, f);
    EventsOfParsed(v, d, r, capacity, f);
    ReadiedSaves(d, f);
    AcceptsExactly(d2, r, capacity, f);
    AnswerExactly(d2, r, capacity, f);
    AcceptsBehind(Readied(d, f).2, if Reaches(v, d, r, f) then Answered(d2, r, capacity, f).events else [], r);
  }

  /**
   * The size check comes last: sent to an initialised device, an authentic request with a payload of 257 bytes or more
   * spends its counter and is recorded as accepted, and the reply is an error all the same.
   */
  lemma OversizedIsSpent(v: Verifier, d: Device, input: seq<u8>, r: SignedRequest, trailing: seq<u8>, capacity: nat,
                         f: Foreign, now: nat)
    requires IdentityOk(d) && KeysOk(d) && d.replayReady
    requires LaidOut(input, r, trailing) && input[0] == TYPE_SIGNED_REQUEST && |r.payload| > PAYLOAD_MAX
    requires Authentic(v, d, r, f) && Spendable(d.guard, r.counter, f.ceilingSave) && f.signature.Some?
    ensures var o := Process(v, d, input, capacity, f, now);
            && o.reply == Rejected(ConstraintError) && Accepts(o.events, r) && o.device.guard.floor == r.counter
  {
    ParsedExactly(input, r);
    ReadyReaches(v, d, r, f);
    AcceptedExactly(v, d, r, capacity, f);
    ReplyOfParsed(v, d, r, capacity, f);
    SpendsExactly(d.guard, r.counter, f.ceilingSave);
  }

  // ---- Only authenticated requests move the replay state ----

  /** The request is a well-formed signed request whose signature verifies under the registered key. */
  predicate Drives(v: Verifier, d: Device, input: seq<u8>) {
    Parses(input) && Verifies(v, d, ParseSigned(input).value)
  }

  lemma Undriven(v: Verifier, d: Device, input: seq<u8>, capacity: nat, f: Foreign, now: nat)
    requires IdentityOk(d) && KeysOk(d) && d.replayReady && !Drives(v, d, input)
    ensures var o := Process(v, d, input, capacity, f, now);
            o.device.guard == d.guard && o.device.replayReady && o.device.flash.ceiling == d.flash.ceiling &&
               Unguarded(o.events)
  {
    if Parses(input) {
      var r := ParseSigned(input).value;
      ReadyReaches(v, d, r, f);
      EventsOfParsed(v, d, r, capacity, f);
    } else {
      OtherRequests(v, d, input, capacity, f, now);
    }
  }

  predicate WritesCeiling(es: seq<Event>) {
    exists e | e in es :: e.CeilingSaved?
  }

  /** Lazy initialisation writes a first ceiling: it finds none, or none that it can read. */
  predicate Reserves(d: Device, f: Foreign) {
    && !d.replayReady && WithBundle(d, f).1
    && f.replayInit.subsys && f.replayInit.save && (!f.replayInit.load || d.flash.ceiling.GetOr(0) == 0)
  }

  lemma ReadiedReserves(d: Device, f: Foreign)
    ensures WritesCeiling(Readied(d, f).2) <==> Reserves(d, f)
    ensures Reserves(d, f) ==> Readied(d, f).0.flash.ceiling == Some(RESERVE)
  {
    if Reserves(d, f) {
      assert Readied(d, f).2[0] == CeilingSaved(RESERVE);
    }
  }

  lemma UndrivenParsed(v: Verifier, d: Device, r: SignedRequest, capacity: nat, f: Foreign)
    requires IdentityOk(d) && KeysOk(d) && !Verifies(v, Readied(d, f).0, r)
    ensures var o, (d1, _, saves) := OnParsed(v, d, r, capacity, f), Readied(d, f);
            && (WritesCeiling(o.events) <==> Reserves(d, f))
            && (WritesCeiling(o.events) ==> o.device.flash.ceiling == Some(RESERVE))
            && forall e | e in o.events :: !e.Accepted?
  {
    ReadiedKeeps(d, f);
    ReadiedReserves(d, f);
    ReadiedSaves(d, f);
    EventsOfParsed(v, d, r, capacity, f);
    assert Readied(d, f).2 + [] == Readied(d, f).2;
  }

  /**
   * The one flash write of the counter that an unauthenticated request can cause, exactly: a well-formed signed
   * request, whatever its signature, that initialises the guard and thereby reserves a first ceiling. It accepts
   * nothing.
   */
  lemma UnauthenticatedWriteExactly(v: Verifier, d: Device, input: seq<u8>, capacity: nat, f: Foreign, now: nat)
    requires IdentityOk(d) && KeysOk(d) && !Drives(v, Readied(d, f).0, input)
    ensures var o := Process(v, d, input, capacity, f, now);
            && (WritesCeiling(o.events) <==> Parses(input) && Reserves(d, f))
            && (WritesCeiling(o.events) ==> o.device.flash.ceiling == Some(RESERVE))
            && forall e | e in o.events :: !e.Accepted?
  {
    if Parses(input) {
      UndrivenParsed(v, d, ParseSigned(input).value, capacity, f);
    } else {
      OtherRequests(v, d, input, capacity, f, now);
    }
  }

  /** A step that is no reset and no request with a good signature. */
  predicate Harmless(v: Verifier, w: World, s: Step) {
    !s.Restart? && !s.CrashIn? && (s.Request? ==> !Drives(v, w.device, s.input))
  }

  lemma HarmlessStep(v: Verifier, w: World, s: Step)
    requires IdentityOk(w.device) && KeysOk(w.device) && w.device.replayReady && Harmless(v, w, s)
    ensures View(Exec(v, w, s).device, Exec(v, w, s).log) == View(w.device, w.log)
    ensures Exec(v, w, s).device.replayReady
  {
    match s
    case Request(input, capacity, f) =>
      Undriven(v, w.device, input, capacity, f, w.now);
      UnguardedView(w.device.flash, w.log, Process(v, w.device, input, capacity, f, w.now).events);
    case Press => ViewOne(w.log, WindowOpened(w.now));
    case OpenWindow => ViewOne(w.log, WindowOpened(w.now));
    case Elapse(_) =>
    case ClientSigns(key, message) => ViewOne(w.log, ClientSigned(key, message));
  }

  /** From its `m`-th step on, the life takes harmless steps only. */
  predicate HarmlessFrom(v: Verifier, steps: seq<Step>, m: nat)
    requires m <= |steps|
  {
    m == |steps| ||
    (HarmlessFrom(v, steps[..|steps| - 1], m) && Harmless(v, Lived(v, steps[..|steps| - 1]), steps[|steps| - 1]))
  }

  /**
   * From any point of a life at which the device is initialised: whatever mix of echoes, identity requests,
   * registrations, malformed envelopes, bad signatures and button presses follows, floor, ceiling, flash and the
   * accepted counters stay put.
   */
  lemma {:induction false} OnlyAuthenticatedMove(v: Verifier, steps: seq<Step>, m: nat)
    requires m <= |steps| && Lived(v, steps[..m]).device.replayReady && HarmlessFrom(v, steps, m)
    ensures var w, w' := Lived(v, steps[..m]), Lived(v, steps);
            View(w'.device, w'.log) == View(w.device, w.log) && w'.device.replayReady
  {
    if m == |steps| {
      assert steps[..m] == steps;
    } else {
      var init := steps[..|steps| - 1];
      assert init[..m] == steps[..m];
      OnlyAuthenticatedMove(v, init, m);
      StandingFacts(v, init);
      HarmlessStep(v, Lived(v, init), steps[|steps| - 1]);
    }
  }

  // ---- The identity transfer ----

  /** How a client reads an identity response. */
  function PieceIn(bytes: seq<u8>): Piece
    requires |bytes| >= 5
  {
    Piece(ReadU16(bytes, 1), ReadU16(bytes, 3), bytes[5..])
  }

  function IdentityRequest(offset: nat): seq<u8> {
    [TYPE_IDENTITY_REQUEST] + Be16(offset)
  }

  lemma PieceParts(s: seq<u8>, kind: u8, offset: nat, total: nat, chunk: seq<u8>)
    requires s == [kind] + Be16(offset) + Be16(total) + chunk
    ensures |s| == 5 + |chunk| && s[1..3] == Be16(offset) && s[3..5] == Be16(total) && s[5..] == chunk
  {
  }

  lemma PieceRead(kind: u8, offset: nat, total: nat, chunk: seq<u8>)
    requires offset < 0x1_0000 && total < 0x1_0000
    ensures PieceIn([kind] + Be16(offset) + Be16(total) + chunk) == Piece(offset, total, chunk)
  {
    var s := [kind] + Be16(offset) + Be16(total) + chunk;
    PieceParts(s, kind, offset, total, chunk);
    ReadBe16(s, 1, offset);
    ReadBe16(s, 3, total);
  }

  lemma ResponsePiece(offset: nat, bundle: seq<u8>)
    requires offset < |bundle| < 0x1_0000
    ensures PieceOf(PieceIn(IdentityResponse(offset, bundle)), bundle) &&
            PieceIn(IdentityResponse(offset, bundle)).offset == offset
  {
    PieceRead(TYPE_IDENTITY_RESPONSE, offset, |bundle|, Chunk(bundle, offset));
  }

  /** Every identity response is a piece of the bundle the device has cached, announcing its length. */
  lemma IdentityReplies(v: Verifier, d: Device, input: seq<u8>, capacity: nat, f: Foreign, now: nat)
    requires IdentityOk(d) && input != [] && input[0] == TYPE_IDENTITY_REQUEST
    ensures var o := Process(v, d, input, capacity, f, now);
            o.reply.Sent? ==>
              && |o.reply.bytes| >= 5 && PieceOf(PieceIn(o.reply.bytes), o.device.bundle)
              && Carries(o.device.bundle, o.device.devicePub)
  {
    if OnIdentity(d, input, capacity, f).reply.Sent? {
      WithBundleKeeps(d, f);
      ResponsePiece(ReadU16(input, 1), WithBundle(d, f).0.bundle);
    }
  }

  lemma IdentityAnswer(v: Verifier, d: Device, offset: nat, capacity: nat, f: Foreign, now: nat)
    requires offset < |d.bundle| <= BUNDLE_CAPACITY && capacity >= 5 + MAX_CHUNK
    ensures Process(v, d, IdentityRequest(offset), capacity, f, now)
            == Outcome(d, Sent(IdentityResponse(offset, d.bundle)), [])
  {
    var input := IdentityRequest(offset);
    assert input[1..3] == Be16(offset);
    ReadBe16(input, 1, offset);
  }

  /** `p` is what the client reads from the answer to its request at `offset`. */
  predicate Taken(v: Verifier, d: Device, offset: nat, capacity: nat, f: Foreign, now: nat, p: Piece) {
    var reply := Process(v, d, IdentityRequest(offset), capacity, f, now).reply;
    |reply.Payload()| >= 5 ==> p == PieceIn(reply.Payload())
  }

  /**
   * A client that asks a device with a cached bundle at 0, 400, 800, ... ends up, after ceil(L / 400) answers, with
   * exactly that bundle; the device's state does not change.
   */
  lemma TransferFromDevice(v: Verifier, d: Device, capacity: nat, f: Foreign, now: nat, ps: seq<Piece>)
    requires IdentityOk(d) && d.bundle != [] && capacity >= 5 + MAX_CHUNK
    requires |ps| == (|d.bundle| + MAX_CHUNK - 1) / MAX_CHUNK
    requires forall k | 0 <= k < |ps| :: Taken(v, d, MAX_CHUNK * k, capacity, f, now, ps[k])
    ensures Collected(ps) == Whole(d.bundle)
    ensures forall k | 0 <= k < |ps| :: Process(v, d, IdentityRequest(MAX_CHUNK * k), capacity, f, now).device == d
  {
    forall k | 0 <= k < |ps|
      ensures PieceOf(ps[k], d.bundle) && ps[k].offset == MAX_CHUNK * k
      ensures Process(v, d, IdentityRequest(MAX_CHUNK * k), capacity, f, now).device == d
    {
      assert Taken(v, d, MAX_CHUNK * k, capacity, f, now, ps[k]);
      IdentityAnswer(v, d, MAX_CHUNK * k, capacity, f, now);
      ResponsePiece(MAX_CHUNK * k, d.bundle);
    }
    SequentialPlan(ps, d.bundle);
  }
}
