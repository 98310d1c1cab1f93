/**
 * Requests and replies in terms of the bytes on the wire and the outcomes of the foreign calls: when the device builds
 * its identity, initialises, refuses, answers, registers, and what it has signed by then.
 */
module Exchanges {
  import opened Bytes
  import opened Envelope
  import opened History
  import opened Replay
  import opened ClientKey
  import opened Identity
  import opened Device
  import opened DeviceRuns
  import opened DeviceTheorems
  import opened Replies

  // ---- Echo ----

  /** An echo request is answered with itself exactly when it fits; it never touches the device. */
  lemma EchoExactly(v: Verifier, d: Device, input: seq<u8>, capacity: nat, f: Foreign, now: nat)
    requires input != [] && input[0] == 0xFF
    ensures var o := Process(v, d, input, capacity, f, now);
            && (o.reply == Sent(input) <==> |input| <= capacity)
            && (o.reply == Rejected(ConstraintError) <==> |input| > capacity)
            && o.device == d && o.events == []
  {
  }

  // ---- Building the identity ----

  /** The public key the signer holds, or is given now. */
  function SignerKey(d: Device, f: Foreign): Option<seq<u8>> {
    if d.signer.Some? then d.signer else f.signerKey
  }

  /** The bundle is there, or every step of building it works and it fits into 1200 bytes. */
  predicate Buildable(d: Device, f: Foreign) {
    || d.bundle != []
    || (var (pub, a) := (SignerKey(d, f), f.attestation);
        && f.exports && Attainable(pub, 0, a)
        && 10 + |pub.value| + |a.sign([1, 0] + pub.value).value| + |a.dac.value| + |a.pai.value| <= 1200)
  }

  /**
   * `bundle` is version 1, Ed25519, the key, the attestation signature over these three, and the device and
   * intermediate certificates.
   */
  predicate Attests(bundle: seq<u8>, pub: seq<u8>, a: Attestation) {
    && Attainable(Some(pub), 0, a)
    && |bundle| > 2 && bundle[0] == 1 && bundle[1] == 0
    && FourFieldsAt(bundle, [pub, a.sign([1, 0] + pub).value, a.dac.value, a.pai.value])
  }

  lemma BuildExactly(d: Device, f: Foreign)
    ensures var (d', ok) := WithBundle(d, f);
            && (ok <==> Buildable(d, f))
            && (d.bundle != [] ==> d' == d)
            && (d.bundle == [] ==> d' == d.(signer := SignerKey(d, f), bundle := d'.bundle, devicePub := d'.devicePub))
            && (d.bundle == [] && ok ==>
                  d'.signer == Some(d'.devicePub) && Attests(d'.bundle, d'.devicePub, f.attestation))
            && (!ok ==> d'.bundle == [] && d'.devicePub == d.devicePub)
  {
    BuiltExactly(SignerKey(d, f), Ed25519, f.attestation, BUNDLE_CAPACITY, 0);
  }

  // ---- Identity requests ----

  /** The bundle behind `offset`, or its first 400 bytes from there. */
  function Portion(bundle: seq<u8>, offset: nat): seq<u8>
    requires offset < |bundle|
  {
    if |bundle| - offset < 400 then bundle[offset..] else bundle[offset..offset + 400]
  }

  lemma PortionExactly(bundle: seq<u8>, input: seq<u8>, offset: nat)
    requires |input| >= 3 && offset == 0x100 * input[1] as int + input[2] as int && offset < |bundle|
    ensures Chunk(bundle, offset) == Portion(bundle, offset) && ReadU16(input, 1) == offset
    ensures IdentityResponse(offset, bundle)
            == [0x01, input[1], input[2], |bundle| / 0x100 % 0x100, |bundle| % 0x100] + Portion(bundle, offset)
  {
    Be16OfRead(input, 1);
    assert input[1..3] == [input[1], input[2]];
  }

  /** What the device answers once it has looked for the bundle `b`. */
  predicate IdentityReply(reply: Reply, input: seq<u8>, capacity: nat, ok: bool, b: seq<u8>)
    requires |input| >= 3
  {
    var offset := 0x100 * input[1] as int + input[2] as int;
    && (reply == Rejected(Failure) <==> !ok)
    && (reply == Rejected(ConstraintError) <==> ok && (offset >= |b| || 5 + |Portion(b, offset)| > capacity))
    && (reply.Sent? <==> ok && offset < |b| && 5 + |Portion(b, offset)| <= capacity)
    && (reply.Sent? ==>
          reply.bytes == [0x01, input[1], input[2], |b| / 0x100 % 0x100, |b| % 0x100] + Portion(b, offset))
  }

  lemma IdentityReplied(d: Device, input: seq<u8>, capacity: nat, f: Foreign)
    requires |input| >= 3
    ensures var o, (d', ok) := OnIdentity(d, input, capacity, f), WithBundle(d, f);
            o.device == d' && o.events == [] && IdentityReply(o.reply, input, capacity, ok, d'.bundle)
  {
    var b := WithBundle(d, f).0.bundle;
    var offset := 0x100 * input[1] as int + input[2] as int;
    if offset < |b| {
      PortionExactly(b, input, offset);
    }
  }

  /**
   * An identity request, to any device: refused when the bundle can neither be found nor built, out of range when the
   * offset is or the piece does not fit, and otherwise answered with up to 400 bytes of the bundle behind its offset
   * and the total. The device keeps the bundle and is otherwise as it was.
   */
  lemma IdentityExactly(v: Verifier, d: Device, input: seq<u8>, capacity: nat, f: Foreign, now: nat)
    requires |input| >= 3 && input[0] == 0x00
    ensures var o := Process(v, d, input, capacity, f, now);
            && IdentityReply(o.reply, input, capacity, Buildable(d, f), o.device.bundle)
            && (d.bundle != [] ==> o.device == d)
            && (d.bundle == [] && Buildable(d, f) ==>
                  && o.device.signer == Some(o.device.devicePub)
                  && Attests(o.device.bundle, o.device.devicePub, f.attestation))
            && o.device == d.(signer := o.device.signer, bundle := o.device.bundle, devicePub := o.device.devicePub)
            && o.events == []
  {
    BuildExactly(d, f);
    IdentityReplied(d, input, capacity, f);
  }

  lemma FirstPiece(v: Verifier, d: Device, capacity: nat, f: Foreign, f': Foreign, now: nat)
    requires IdentityOk(d) && Buildable(d, f) && capacity >= 405
    ensures var o := Process(v, d, IdentityRequest(0), capacity, f, now);
            && IdentityOk(o.device) && o.device.bundle != []
            && o.reply == Process(v, o.device, IdentityRequest(0), capacity, f', now).reply
  {
    var input, d' := IdentityRequest(0), WithBundle(d, f).0;
    WithBundleKeeps(d, f);
    BuildExactly(d, f);
    IdentityReplied(d, input, capacity, f);
    IdentityReplied(d', input, capacity, f');
  }

  /**
   * First contact: a client that asks a device, cached bundle or not, at 0 and then at 400, 800, ... holds exactly the
   * bundle the device then has.
   */
  lemma FirstContact(v: Verifier, d: Device, capacity: nat, f: Foreign, f': Foreign, now: nat, ps: seq<Piece>)
    requires IdentityOk(d) && Buildable(d, f) && capacity >= 405
    requires var d' := Process(v, d, IdentityRequest(0), capacity, f, now).device;
             && |ps| == (|d'.bundle| + 399) / 400 && ps != []
             && Taken(v, d, 0, capacity, f, now, ps[0])
             && forall k | 0 < k < |ps| :: Taken(v, d', 400 * k, capacity, f', now, ps[k])
    ensures var d' := Process(v, d, IdentityRequest(0), capacity, f, now).device;
            d'.bundle != [] && Collected(ps) == Whole(d'.bundle)
  {
    FirstPiece(v, d, capacity, f, f', now);
    var d' := Process(v, d, IdentityRequest(0), capacity, f, now).device;
    assert Taken(v, d', 0, capacity, f', now, ps[0]);
    forall k | 0 <= k < |ps| ensures Taken(v, d', MAX_CHUNK * k, capacity, f', now, ps[k]) {
      assert k == 0 || Taken(v, d', 400 * k, capacity, f', now, ps[k]);
    }
    TransferFromDevice(v, d', capacity, f', now, ps);
  }

  // ---- Initialisation ----

  /** What initialisation finds in the ceiling entry; 0 if nothing. */
  function Loadable(d: Device, f: Foreign): u32 {
    if f.replayInit.load then d.flash.ceiling.GetOr(0) else 0
  }

  /** The guard is there, or will be: it fails only when a first ceiling cannot be written. */
  predicate Bootable(d: Device, f: Foreign) {
    d.replayReady || !f.replayInit.subsys || f.replayInit.save || Loadable(d, f) != 0
  }

  /** Guard and flash writes of an initialisation. */
  predicate GuardBooted(d: Device, f: Foreign, g: Guard, saves: seq<Event>) {
    if !f.replayInit.subsys then g == Guard(0, 64, false) && saves == []
    else if Loadable(d, f) != 0 then g == Guard(Loadable(d, f), Loadable(d, f), true) && saves == []
    else g == Guard(0, 64, true) && saves == if f.replayInit.save then [CeilingSaved(64)] else []
  }

  /** The key in RAM after an initialisation: the entry, if it can be read and has 32 bytes. */
  function KeyBooted(d: Device, f: Foreign): Option<seq<u8>> {
    if f.keyReadable && d.flash.clientKey.Some? && |d.flash.clientKey.value| == 32 then d.flash.clientKey
    else d.keys.key
  }

  /** When a signed request finds the device ready, and what it then finds. */
  lemma ReadyExactly(d: Device, f: Foreign)
    requires IdentityOk(d)
    ensures var (d', ready, saves) := Readied(d, f);
            && (ready <==> Buildable(d, f) && Bootable(d, f))
            && d'.devicePub == WithBundle(d, f).0.devicePub && d'.bundle == WithBundle(d, f).0.bundle
            && d'.signer == (if d.bundle == [] then SignerKey(d, f) else d.signer)
            && (ready <==> d'.replayReady)
            && (d.replayReady ==> d' == d && saves == [])
            && (!d.replayReady && ready ==> d'.keys == d.keys.(key := KeyBooted(d, f), handler := true))
            && (!d.replayReady && Buildable(d, f) ==> GuardBooted(d, f, d'.guard, saves))
            && (!Buildable(d, f) ==> d'.guard == d.guard)
            && (!ready ==> d'.keys == d.keys && saves == [])
            && d'.flash == if saves == [CeilingSaved(64)] then d.flash.(ceiling := Some(64)) else d.flash
  {
    BuildExactly(d, f);
  }

  // ---- Signed requests: refusals ----

  /** The signature is good under the key in RAM, over the request preimage, and that key can be had. */
  predicate Good(v: Verifier, d: Device, r: SignedRequest, f: Foreign) {
    && d.keys.key.Some? && (d.keys.cached.Some? || f.imports)
    && v(d.keys.key.value, Preimage(0x02, r.counter, d.devicePub, r.payload), r.signature)
  }

  /** Room in the buffer for the signed bytes. */
  predicate Roomy(d: Device, r: SignedRequest) {
    21 + |d.devicePub| + |r.payload| <= 700
  }

  lemma JudgedExactly(v: Verifier, d: Device, r: SignedRequest, capacity: nat, f: Foreign)
    requires KeysOk(d)
    ensures var o := Judged(v, d, r, capacity, f);
            && (d.keys.key.None? ==> o == Outcome(d, Sent([0x07]), []))
            && (d.keys.key.Some? && !Roomy(d, r) ==> o == Outcome(d, Rejected(ConstraintError), []))
            && (d.keys.key.Some? && Roomy(d, r) && !Good(v, d, r, f) ==>
                  && o.reply == Sent([0x07]) && o.events == []
                  && o.device == d.(keys := d.keys.(cached := if f.imports then d.keys.key else d.keys.cached)))
            && (Roomy(d, r) && Good(v, d, r, f) ==> o.reply != Sent([0x07]))
  {
  }

  /**
   * Which refusal a well-formed signed request gets, whatever the device's state. It is never let through to the
   * counter then, and nothing is accepted or signed.
   */
  lemma RefusalExactly(v: Verifier, d: Device, input: seq<u8>, capacity: nat, f: Foreign, now: nat)
    requires IdentityOk(d) && KeysOk(d)
    requires input != [] && input[0] == 0x02 && ParseSigned(input).Some?
    ensures var o, r, (d1, _, saves) := Process(v, d, input, capacity, f, now), ParseSigned(input).value, Readied(d, f);
            var ready := Buildable(d, f) && Bootable(d, f);
            && (!ready ==> o == Outcome(d1, Rejected(Failure), []))
            && (o.reply == Sent([0x07]) <==>
                  ready && (d1.keys.key.None? || (Roomy(d1, r) && !Good(v, d1, r, f))))
            && (ready && d1.keys.key.Some? && !Roomy(d1, r) ==> o.reply == Rejected(ConstraintError))
            && (ready && !(Roomy(d1, r) && Good(v, d1, r, f)) ==>
                  o.events == saves && o.device == d1.(keys := d1.keys.(cached := o.device.keys.cached)))
  {
    ReadyExactly(d, f);
    ReadiedKeeps(d, f);
    JudgedExactly(v, Readied(d, f).0, ParseSigned(input).value, capacity, f);
  }

  // ---- Signed requests: answers ----

  /** The whole of what an authentic request gets from a guard and a signer. */
  predicate AnswerGiven(reply: Reply, g: Guard, r: SignedRequest, capacity: nat, f: Foreign) {
    var spent := Spendable(g, r.counter, f.ceilingSave);
    var fits := |r.payload| <= 256 && 73 + |r.payload| <= capacity;
    && (reply == Sent([0x04] + Be32(g.floor)) <==> r.counter <= g.floor)
    && (reply == Rejected(Failure) <==> r.counter > g.floor && (!spent || f.signature.None?))
    && (reply == Rejected(ConstraintError) <==> spent && f.signature.Some? && !fits)
    && (reply.Sent? && reply.bytes != [] && reply.bytes[0] == 0x03 <==> spent && f.signature.Some? && fits)
    && (reply.Sent? && reply.bytes != [] && reply.bytes[0] == 0x03 ==>
          reply.bytes == [0x03] + Be32(r.counter) + Be16(|r.payload|) + r.payload
                         + Be16(|f.signature.value|) + f.signature.value)
  }

  /** The request finds its counter fresh, at or above the ceiling, and room for a new reservation. */
  predicate Extends(g: Guard, counter: u32) {
    g.floor < counter && g.ceiling <= counter <= 0xFFFF_FFFF - 64
  }

  /** The guard after an authentic request. */
  predicate GuardSpent(g: Guard, counter: u32, save: bool, g': Guard) {
    && g'.persistent == g.persistent
    && g'.floor == (if Spendable(g, counter, save) then counter else g.floor)
    && g'.ceiling == (if Extends(g, counter) then counter + 64 else g.ceiling)
  }

  /** The ceiling that an authentic request writes, if any. */
  function Extension(g: Guard, counter: u32, save: bool): seq<Event> {
    if Extends(g, counter) && g.persistent && save then [CeilingSaved(counter + 64)] else []
  }

  /** An acceptance, and behind it the device's signature over the answer if the signer delivers one. */
  function Spending(d: Device, r: SignedRequest, f: Foreign): seq<Event>
    requires d.keys.key.Some?
  {
    [Accepted(Command(r.counter, r.payload, d.devicePub, d.keys.key.value))] +
    if f.signature.None? then [] else [DeviceSigned(d.devicePub, Preimage(0x03, r.counter, d.devicePub, r.payload))]
  }

  lemma ConsumedExactly(g: Guard, counter: u32, save: bool)
    ensures var e := Consumed(g, counter, save);
            && GuardSpent(g, counter, save, e.guard) && Saves(e.saved) == Extension(g, counter, save)
            && (e.ok <==> Spendable(g, counter, save))
  {
  }

  lemma ReplyExactly(d: Device, r: SignedRequest, capacity: nat, f: Foreign)
    ensures AnswerGiven(Answered(d, r, capacity, f).reply, d.guard, r, capacity, f)
  {
    ConsumedExactly(d.guard, r.counter, f.ceilingSave);
    if f.signature.Some? {
      assert Signed(0x03, r.counter, r.payload, f.signature.value)
          == [0x03] + Be32(r.counter) + Be16(|r.payload|) + r.payload + Be16(|f.signature.value|) + f.signature.value;
    }
  }

  lemma EventsExactly(d: Device, r: SignedRequest, capacity: nat, f: Foreign)
    requires d.keys.key.Some? && d.signer == Some(d.devicePub)
    ensures var (o, save) := (Answered(d, r, capacity, f), f.ceilingSave);
            && GuardSpent(d.guard, r.counter, save, o.device.guard)
            && o.events == Extension(d.guard, r.counter, save) +
                           (if Spendable(d.guard, r.counter, save) then Spending(d, r, f) else [])
            && o.device == d.(guard := o.device.guard, flash := o.device.flash)
  {
    var e := Consumed(d.guard, r.counter, f.ceilingSave);
    ConsumedExactly(d.guard, r.counter, f.ceilingSave);
    if !Fresh(d.guard, r.counter) {
      assert Extension(d.guard, r.counter, f.ceilingSave) + [] == [];
    }
  }

  lemma GoodReaches(v: Verifier, d: Device, r: SignedRequest, capacity: nat, f: Foreign)
    requires KeysOk(d) && Roomy(d, r) && Good(v, d, r, f)
    ensures Judged(v, d, r, capacity, f) == Answered(d.(keys := d.keys.(cached := d.keys.key)), r, capacity, f)
  {
  }

  /**
   * What a well-formed signed request gets that is not refused, whatever the device's state: the reply, the guard, the
   * events in their order, and the handle of the key kept for the next.
   */
  lemma AuthenticExactly(v: Verifier, d: Device, input: seq<u8>, capacity: nat, f: Foreign, now: nat)
    requires IdentityOk(d) && KeysOk(d)
    requires input != [] && input[0] == 0x02 && ParseSigned(input).Some? && Buildable(d, f) && Bootable(d, f)
    requires Roomy(Readied(d, f).0, ParseSigned(input).value) && Good(v, Readied(d, f).0, ParseSigned(input).value, f)
    ensures var o, r, (d1, _, saves) := Process(v, d, input, capacity, f, now), ParseSigned(input).value, Readied(d, f);
            && AnswerGiven(o.reply, d1.guard, r, capacity, f)
            && GuardSpent(d1.guard, r.counter, f.ceilingSave, o.device.guard)
            && o.device.keys == d1.keys.(cached := d1.keys.key)
            && o.events == saves + (Extension(d1.guard, r.counter, f.ceilingSave) +
                                    (if Spendable(d1.guard, r.counter, f.ceilingSave) then Spending(d1, r, f) else []))
  {
    var r, d1 := ParseSigned(input).value, Readied(d, f).0;
    var d2 := d1.(keys := d1.keys.(cached := d1.keys.key));
    ReadyExactly(d, f);
    ReadiedKeeps(d, f);
    GoodReaches(v, d1, r, capacity, f);
    ReplyExactly(d2, r, capacity, f);
    EventsExactly(d2, r, capacity, f);
    assert Spending(d2, r, f) == Spending(d1, r, f);
  }

  // ---- Registration ----

  /** A registration, and behind it the device's signature over the acknowledgement if the signer delivers one. */
  function Enrolment(d: Device, key: seq<u8>, f: Foreign, now: nat): seq<Event> {
    [Registered(key, now, f.keySave)] +
    if f.signature.None? then [] else [DeviceSigned(d.devicePub, Preimage(0x03, 0, d.devicePub, key))]
  }

  /** What a request to register `key` gets and does, on a device whose identity is to be had or not. */
  predicate EnrolmentGiven(o: Outcome, d: Device, built: bool, key: seq<u8>, capacity: nat, f: Foreign, now: nat) {
    var open := now < d.keys.windowUntil && |key| == 32;
    && (o.reply == Rejected(Failure) <==> !built || (open && f.signature.None?))
    && (o.reply == Sent([0x07]) <==> built && !open)
    && (o.reply == Rejected(ConstraintError) <==> built && open && f.signature.Some? && capacity < 101)
    && (o.reply.Sent? && o.reply.bytes != [0x07] ==>
          && f.signature.Some?
          && o.reply.bytes == [0x06, 0, 32] + key + Be16(|f.signature.value|) + f.signature.value)
    && o.events == (if built && open then Enrolment(o.device, key, f, now) else [])
    && o.device.keys == (if built && open then Keys(Some(key), 0, None, d.keys.handler) else d.keys)
    && o.device.flash == if built && open && f.keySave then d.flash.(clientKey := Some(key)) else d.flash
  }

  lemma KeyExactly(d: Device, key: seq<u8>, capacity: nat, f: Foreign, now: nat)
    requires d.signer == Some(d.devicePub)
    ensures EnrolmentGiven(OnKey(d, key, capacity, f, now), d, true, key, capacity, f, now)
  {
  }

  /**
   * A registration request, to any device: refused outside the window or for a key of another length than 32 bytes;
   * otherwise carried out, and acknowledged if the signer delivers and 101 bytes fit.
   */
  lemma EnrolmentExactly(v: Verifier, d: Device, input: seq<u8>, key: seq<u8>, trailing: seq<u8>, capacity: nat,
                         f: Foreign, now: nat)
    requires IdentityOk(d)
    requires |key| <= 0xFFFF && input == [0x05, |key| / 0x100, |key| % 0x100] + key + trailing
    ensures EnrolmentGiven(Process(v, d, input, capacity, f, now), d, Buildable(d, f), key, capacity, f, now)
  {
    assert KeyLaidOut(input, key, trailing);
    KeyParsed(input, key, trailing);
    BuildExactly(d, f);
    WithBundleKeeps(d, f);
    if Buildable(d, f) {
      KeyExactly(WithBundle(d, f).0, key, capacity, f, now);
    }
  }

  // ---- No signature leaves the device that it has not made ----

  /** The device has accepted this very request, and then signed its answer. */
  predicate SignedAnswer(es: seq<Event>, d: Device, r: SignedRequest) {
    && |es| >= 2
    && d.keys.key.Some?
    && es[|es| - 2] == Accepted(Command(r.counter, r.payload, d.devicePub, d.keys.key.value))
    && es[|es| - 1] == DeviceSigned(d.devicePub, Preimage(0x03, r.counter, d.devicePub, r.payload))
  }

  /** The device has registered this key, and then signed its acknowledgement. */
  predicate SignedAck(es: seq<Event>, d: Device, now: nat, saved: bool) {
    && d.keys.key.Some?
    && es == [Registered(d.keys.key.value, now, saved),
              DeviceSigned(d.devicePub, Preimage(0x03, 0, d.devicePub, d.keys.key.value))]
  }

  predicate Begins(reply: Reply, b: u8) {
    reply.Sent? && reply.bytes != [] && reply.bytes[0] == b
  }

  lemma AnswerSigned(v: Verifier, d: Device, input: seq<u8>, capacity: nat, f: Foreign, now: nat)
    requires IdentityOk(d) && KeysOk(d) && Parses(input)
    ensures var o := Process(v, d, input, capacity, f, now);
            Begins(o.reply, 0x03) ==> SignedAnswer(o.events, o.device, ParseSigned(input).value)
  {
    var o, r, d1 := Process(v, d, input, capacity, f, now), ParseSigned(input).value, Readied(d, f).0;
    if Begins(o.reply, 0x03) {
      RefusalExactly(v, d, input, capacity, f, now);
      AuthenticExactly(v, d, input, capacity, f, now);
      ReadyExactly(d, f);
      ReadiedKeeps(d, f);
      JudgedKeeps(v, d1, r, capacity, f);
      assert |Spending(d1, r, f)| == 2;
    }
  }

  lemma AckSigned(v: Verifier, d: Device, input: seq<u8>, capacity: nat, f: Foreign, now: nat)
    requires IdentityOk(d) && input != [] && input[0] == 0x05
    ensures var o := Process(v, d, input, capacity, f, now);
            Begins(o.reply, 0x06) ==> SignedAck(o.events, o.device, now, f.keySave)
  {
    if Begins(Process(v, d, input, capacity, f, now).reply, 0x06) {
      var n := ReadU16(input, 1);
      KeyRebuilt(input);
      assert input == [0x05, n / 0x100, n % 0x100] + input[3..3 + n] + input[3 + n..];
      EnrolmentExactly(v, d, input, input[3..3 + n], input[3 + n..], capacity, f, now);
    }
  }

  /**
   * Signed first, sent afterwards, in any standing state: behind a signed response the last two events are the
   * acceptance of the request and the signature over its answer; behind an acknowledgement there are exactly the
   * registration and the signature over it.
   */
  lemma SignedFirst(v: Verifier, d: Device, input: seq<u8>, capacity: nat, f: Foreign, now: nat)
    requires IdentityOk(d) && KeysOk(d)
    ensures var o := Process(v, d, input, capacity, f, now);
            && (Begins(o.reply, 0x03) ==>
                  Parses(input) && SignedAnswer(o.events, o.device, ParseSigned(input).value))
            && (Begins(o.reply, 0x06) ==> SignedAck(o.events, o.device, now, f.keySave))
  {
    ReplyTypes(v, d, input, capacity, f, now);
    if Parses(input) {
      AnswerSigned(v, d, input, capacity, f, now);
    } else if input != [] && input[0] == 0x05 {
      AckSigned(v, d, input, capacity, f, now);
    }
  }

  predicate Signs(es: seq<Event>) {
    exists e | e in es :: e.DeviceSigned?
  }

  /** An event that calls for a signature of the device. */
  predicate Causes(es: seq<Event>) {
    exists e | e in es :: e.Accepted? || e.Registered?
  }

  lemma SpentSigns(saves: seq<Event>, extension: seq<Event>, spending: seq<Event>)
    requires forall e | e in saves :: e.CeilingSaved?
    requires forall e | e in extension :: e.CeilingSaved?
    ensures Signs(saves + (extension + spending)) <==> Signs(spending)
    ensures Causes(saves + (extension + spending)) <==> Causes(spending)
  {
    var es := saves + (extension + spending);
    assert forall e :: e in es <==> e in saves || e in extension || e in spending;
  }

  lemma SpendingSigns(d: Device, r: SignedRequest, f: Foreign, spent: bool)
    requires d.keys.key.Some?
    ensures var es := if spent then Spending(d, r, f) else [];
            (Signs(es) <==> spent && f.signature.Some?) && (Causes(es) <==> spent)
  {
    var es := Spending(d, r, f);
    assert es[0] in es && es[0].Accepted?;
    assert f.signature.Some? ==> es[1] in es && es[1].DeviceSigned?;
  }

  lemma SignedRequestSigns(v: Verifier, d: Device, input: seq<u8>, capacity: nat, f: Foreign, now: nat)
    requires IdentityOk(d) && KeysOk(d) && Parses(input)
    ensures var es := Process(v, d, input, capacity, f, now).events;
            Signs(es) <==> Causes(es) && f.signature.Some?
  {
    var r := ParseSigned(input).value;
    var (d1, ready, saves) := Readied(d, f);
    ReadyExactly(d, f);
    ReadiedSaves(d, f);
    RefusalExactly(v, d, input, capacity, f, now);
    if ready && Roomy(d1, r) && Good(v, d1, r, f) {
      var spent := Spendable(d1.guard, r.counter, f.ceilingSave);
      AuthenticExactly(v, d, input, capacity, f, now);
      SpentSigns(saves, Extension(d1.guard, r.counter, f.ceilingSave), if spent then Spending(d1, r, f) else []);
      SpendingSigns(d1, r, f, spent);
    }
  }

  lemma RegistrationSigns(v: Verifier, d: Device, input: seq<u8>, capacity: nat, f: Foreign, now: nat)
    requires IdentityOk(d) && input != [] && input[0] == 0x05
    ensures var es := Process(v, d, input, capacity, f, now).events;
            Signs(es) <==> Causes(es) && f.signature.Some?
  {
    if |input| >= 3 && |input| >= 3 + ReadU16(input, 1) {
      var n, o := ReadU16(input, 1), Process(v, d, input, capacity, f, now);
      var key := input[3..3 + n];
      var es := Enrolment(o.device, key, f, now);
      KeyRebuilt(input);
      assert input == [0x05, n / 0x100, n % 0x100] + key + input[3 + n..];
      EnrolmentExactly(v, d, input, key, input[3 + n..], capacity, f, now);
      assert es[0] in es && es[0].Registered?;
      assert f.signature.Some? ==> es[1] in es && es[1].DeviceSigned?;
    }
  }

  /**
   * The device signs exactly when it has accepted or registered something and the signer delivers, whether or not the
   * reply then fits.
   */
  lemma SignsExactly(v: Verifier, d: Device, input: seq<u8>, capacity: nat, f: Foreign, now: nat)
    requires IdentityOk(d) && KeysOk(d)
    ensures var es := Process(v, d, input, capacity, f, now).events;
            Signs(es) <==> Causes(es) && f.signature.Some?
  {
    if Parses(input) {
      SignedRequestSigns(v, d, input, capacity, f, now);
    } else if input != [] && input[0] == 0x05 {
      RegistrationSigns(v, d, input, capacity, f, now);
    }
  }

  // ---- Whole lives ----

  lemma LivedNext(v: Verifier, steps: seq<Step>, s: Step)
    ensures Lived(v, steps + [s]) == Exec(v, Lived(v, steps), s)
  {
    assert (steps + [s])[..|steps|] == steps;
  }

  /**
   * A reset wipes everything but flash and sets the uptime back; one inside a request lets a prefix of its events
   * through, and of its flash writes those among them.
   */
  lemma ResetExactly(v: Verifier, w: World, s: Step)
    requires s.Restart? || s.CrashIn?
    ensures var w' := Exec(v, w, s);
            && w'.device == Device(w'.device.flash, None, [], [], false, Guard(0, 0, false), Keys(None, 0, None, false))
            && w'.now == 0
            && (s.Restart? ==> w'.device.flash == w.device.flash && w'.log == w.log + [Restarted])
            && (s.CrashIn? ==>
                  var es := Process(v, w.device, s.input, s.capacity, s.f, w.now).events;
                  var struck := if s.k < |es| then es[..s.k] else es;
                  w'.device.flash == WrittenAll(w.device.flash, struck) && w'.log == w.log + struck + [Restarted])
  {
  }

  /** In every life: a signed response or an acknowledgement leaves the device with its signature at the log's end. */
  lemma RepliesSigned(v: Verifier, steps: seq<Step>, s: Step)
    requires s.Request?
    ensures var w, w' := Lived(v, steps), Lived(v, steps + [s]);
            var reply := Process(v, w.device, s.input, s.capacity, s.f, w.now).reply;
            && w.log <= w'.log
            && (Begins(reply, 0x03) ==>
                  Parses(s.input) && SignedAnswer(w'.log[|w.log|..], w'.device, ParseSigned(s.input).value))
            && (Begins(reply, 0x06) ==> SignedAck(w'.log[|w.log|..], w'.device, w.now, s.f.keySave))
  {
    var w := Lived(v, steps);
    var es := Process(v, w.device, s.input, s.capacity, s.f, w.now).events;
    LivedNext(v, steps, s);
    StandingFacts(v, steps);
    SignedFirst(v, w.device, s.input, s.capacity, s.f, w.now);
    assert (w.log + es)[|w.log|..] == es;
  }

  lemma BundleOfRequest(v: Verifier, d: Device, input: seq<u8>, capacity: nat, f: Foreign, now: nat)
    requires IdentityOk(d) && KeysOk(d)
    ensures var d' := Process(v, d, input, capacity, f, now).device;
            || (d'.bundle == d.bundle && d'.devicePub == d.devicePub)
            || (d.bundle == [] && Attests(d'.bundle, d'.devicePub, f.attestation))
  {
    BuildExactly(d, f);
    if Parses(input) {
      ReadyExactly(d, f);
      ReadiedKeeps(d, f);
      JudgedKeeps(v, Readied(d, f).0, ParseSigned(input).value, capacity, f);
    }
  }

  /** Request `k` was answered in the current boot, and the bundle is made of what the attestation gave then. */
  predicate BuiltAt(steps: seq<Step>, k: nat, bundle: seq<u8>, pub: seq<u8>)
    requires k < |steps|
  {
    && steps[k].Request? && Attests(bundle, pub, steps[k].f.attestation)
    && forall i | k < i < |steps| :: !steps[i].Restart? && !steps[i].CrashIn?
  }

  ghost predicate BuiltWithin(steps: seq<Step>, d: Device) {
    d.bundle != [] ==> exists k | 0 <= k < |steps| :: BuiltAt(steps, k, d.bundle, d.devicePub)
  }

  lemma BuiltNext(init: seq<Step>, s: Step, d: Device, d': Device)
    requires BuiltWithin(init, d) && !s.Restart? && !s.CrashIn?
    requires || (d'.bundle == d.bundle && d'.devicePub == d.devicePub)
             || (s.Request? && Attests(d'.bundle, d'.devicePub, s.f.attestation))
    ensures BuiltWithin(init + [s], d')
  {
    var steps := init + [s];
    if d'.bundle == d.bundle && d'.devicePub == d.devicePub {
      if d.bundle != [] {
        var k :| 0 <= k < |init| && BuiltAt(init, k, d.bundle, d.devicePub);
        assert steps[k] == init[k] && forall i | k < i < |init| :: steps[i] == init[i];
        assert BuiltAt(steps, k, d'.bundle, d'.devicePub);
      }
    } else {
      assert BuiltAt(steps, |init|, d'.bundle, d'.devicePub);
    }
  }

  lemma BundleStep(v: Verifier, w: World, s: Step)
    requires IdentityOk(w.device) && KeysOk(w.device) && !s.Restart? && !s.CrashIn?
    ensures var d, d' := w.device, Exec(v, w, s).device;
            || (d'.bundle == d.bundle && d'.devicePub == d.devicePub)
            || (s.Request? && Attests(d'.bundle, d'.devicePub, s.f.attestation))
  {
    if s.Request? {
      BundleOfRequest(v, w.device, s.input, s.capacity, s.f, w.now);
    }
  }

  /**
   * In every life the cached bundle is that of one request since the last reset: its four fields are the bound public
   * key and the attestation signature, device certificate and intermediate certificate given then, in this order.
   */
  lemma {:induction false} BundleOfLife(v: Verifier, steps: seq<Step>)
    ensures BuiltWithin(steps, Lived(v, steps).device)
  {
    if steps == [] {
    } else {
      var init, s := steps[..|steps| - 1], steps[|steps| - 1];
      var w := Lived(v, init);
      BundleOfLife(v, init);
      assert steps == init + [s];
      if s.Restart? || s.CrashIn? {
        ResetExactly(v, w, s);
      } else {
        StandingFacts(v, init);
        BundleStep(v, w, s);
        BuiltNext(init, s, w.device, Exec(v, w, s).device);
      }
    }
  }

  /** A window is open for 60000 ms and not a millisecond more; a press opens it on initialised devices only. */
  lemma WindowExactly(v: Verifier, w: World, ms: nat, input: seq<u8>, key: seq<u8>, trailing: seq<u8>, capacity: nat,
                      f: Foreign)
    requires IdentityOk(w.device) && KeysOk(w.device) && Buildable(w.device, f)
    requires |key| <= 0xFFFF && input == [0x05, |key| / 0x100, |key| % 0x100] + key + trailing
    ensures var w' := Exec(v, Exec(v, w, OpenWindow), Elapse(ms));
            (Process(v, w'.device, input, capacity, f, w'.now).events != [] <==> ms < 60000 && |key| == 32)
    ensures Exec(v, w, Press) == if w.device.replayReady then Exec(v, w, OpenWindow) else w
  {
    var w' := Exec(v, Exec(v, w, OpenWindow), Elapse(ms));
    EnrolmentExactly(v, w'.device, input, key, trailing, capacity, f, w'.now);
  }
}
