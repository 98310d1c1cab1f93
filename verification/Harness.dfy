/** The client of measure/harness.py: its envelopes, and the loop of `main` against a device. */
module Harness {
  import opened Bytes
  import opened Envelope
  import opened Replay
  import opened ClientKey
  import opened Device
  import opened DeviceRuns
  import opened DeviceTheorems
  import opened Replies

  function EchoEnvelope(payload: seq<u8>): seq<u8> {
    [TYPE_ECHO] + payload
  }

  /** The signing expression of the loop body: preimage, signature, envelope. */
  function SignedEnvelope(sign: seq<u8> -> Signature, counter: u32, deviceKey: seq<u8>, payload: seq<u8>): seq<u8> {
    Signed(TYPE_SIGNED_REQUEST, counter, payload, sign(Preimage(DIR_REQUEST, counter, deviceKey, payload)))
  }

  /** The device parses exactly what the client encoded, whatever bytes follow. */
  lemma RequestRoundTrip(sign: seq<u8> -> Signature, counter: u32, deviceKey: seq<u8>, payload: seq<u8>,
                         trailing: seq<u8>)
    requires |payload| < 0x1_0000
    ensures var input := SignedEnvelope(sign, counter, deviceKey, payload) + trailing;
            Parses(input) &&
            ParseSigned(input)
            == Some(SignedRequest(counter, payload, sign(Preimage(DIR_REQUEST, counter, deviceKey, payload))))
  {
    var signature := sign(Preimage(DIR_REQUEST, counter, deviceKey, payload));
    SignedRoundTrip(TYPE_SIGNED_REQUEST, counter, payload, signature, trailing);
  }

  /** The envelopes byte by byte: type, big-endian counter, and payload and signature each behind its length. */
  lemma EnvelopeBytes(sign: seq<u8> -> Signature, counter: u32, deviceKey: seq<u8>, payload: seq<u8>)
    requires |payload| <= 0xFFFF
    ensures var signature := sign(Preimage(0x02, counter, deviceKey, payload));
            SignedEnvelope(sign, counter, deviceKey, payload)
            == [0x02, counter / 0x100_0000, counter / 0x1_0000 % 0x100, counter / 0x100 % 0x100, counter % 0x100,
                |payload| / 0x100, |payload| % 0x100] + payload + [0, |signature|] + signature
    ensures EchoEnvelope(payload) == [0xFF] + payload
  {
    var signature := sign(Preimage(0x02, counter, deviceKey, payload));
    assert Be16(|payload|) == [|payload| / 0x100, |payload| % 0x100] && Be16(|signature|) == [0, |signature|];
  }

  /** The unsigned control comes back as it was sent, from any device, exactly when it fits. */
  lemma EchoExchange(v: Verifier, d: Device, payload: seq<u8>, capacity: nat, f: Foreign, now: nat)
    ensures var o := Process(v, d, EchoEnvelope(payload), capacity, f, now);
            o.device == d && (o.reply == Sent([0xFF] + payload) <==> 1 + |payload| <= capacity)
  {
  }

  // ---- A client at its own device ----

  ghost predicate Signs(v: Verifier, key: seq<u8>, sign: seq<u8> -> Signature) {
    forall message :: v(key, message, sign(message))
  }

  /**
   * The device is initialised, knows this client's key, and is the one whose key the client binds; the payload can
   * be answered.
   */
  ghost predicate Paired(v: Verifier, d: Device, sign: seq<u8> -> Signature, deviceKey: seq<u8>, payload: seq<u8>,
                         capacity: nat) {
    && IdentityOk(d) && KeysOk(d) && d.replayReady
    && d.devicePub == deviceKey && d.keys.key.Some? && Signs(v, d.keys.key.value, sign)
    && |payload| <= PAYLOAD_MAX && 9 + |payload| + SIGNATURE_LENGTH <= capacity
  }

  /** The foreign calls a signed request needs all succeed. */
  predicate Willing(f: Foreign) {
    f.imports && f.ceilingSave && f.signature.Some?
  }

  /** `resp_type`: the first byte of a reply that has any. */
  function ResponseType(reply: Reply): Option<u8> {
    if reply.Sent? && reply.bytes != [] then Some(reply.bytes[0]) else None
  }

  lemma PairedReaches(v: Verifier, d: Device, sign: seq<u8> -> Signature, deviceKey: seq<u8>, payload: seq<u8>,
                      capacity: nat, counter: u32, f: Foreign)
    requires Paired(v, d, sign, deviceKey, payload, capacity) && f.imports
    ensures var r := SignedRequest(counter, payload, sign(Preimage(DIR_REQUEST, counter, deviceKey, payload)));
            Reaches(v, d, r, f) && Readied(d, f) == (d, true, [])
  {
    var r := SignedRequest(counter, payload, sign(Preimage(DIR_REQUEST, counter, deviceKey, payload)));
    ReadyReaches(v, d, r, f);
    assert v(d.keys.key.value, Preimage(DIR_REQUEST, counter, deviceKey, payload), r.signature);
  }

  lemma AnsweredFloor(d: Device, r: SignedRequest, capacity: nat, f: Foreign)
    requires f.ceilingSave
    ensures var g := Answered(d, r, capacity, f).device.guard;
            && g.floor == (if Spendable(d.guard, r.counter, true) then r.counter else d.guard.floor)
            && (r.counter <= d.guard.floor ==> g == d.guard)
  {
    SpendsExactly(d.guard, r.counter, true);
  }

  lemma Exchanged(v: Verifier, d: Device, r: SignedRequest, capacity: nat, f: Foreign)
    requires IdentityOk(d) && KeysOk(d) && Reaches(v, d, r, f) && Readied(d, f) == (d, true, [])
    requires f.ceilingSave && |r.payload| < 0x1_0000
    ensures var o, d' := OnParsed(v, d, r, capacity, f), OnParsed(v, d, r, capacity, f).device;
            && IdentityOk(d') && KeysOk(d')
            && d'.replayReady == d.replayReady && d'.devicePub == d.devicePub && d'.keys.key == d.keys.key
            && d'.guard.floor == (if Spendable(d.guard, r.counter, true) then r.counter else d.guard.floor)
            && (r.counter <= d.guard.floor ==> d'.guard == d.guard)
            && (Answerable(r, capacity, f) ==>
                  (ResponseType(o.reply) == Some(TYPE_SIGNED_RESPONSE) <==> Spendable(d.guard, r.counter, true)))
  {
    var d2 := Authenticated(v, d, r, f).0;
    ParsedKeeps(v, d, r, capacity, f);
    JudgedKeeps(v, d, r, capacity, f);
    ReplyOfParsed(v, d, r, capacity, f);
    AnsweredFloor(d2, r, capacity, f);
    AnswerExactly(d2, r, capacity, f);
  }

  /**
   * One signed exchange, for every counter: answered with a signed response exactly when the counter can be spent, and
   * then the floor is that counter.
   */
  lemma SignedExchange(v: Verifier, d: Device, sign: seq<u8> -> Signature, deviceKey: seq<u8>, payload: seq<u8>,
                       capacity: nat, counter: u32, f: Foreign, now: nat)
    requires Paired(v, d, sign, deviceKey, payload, capacity) && Willing(f)
    ensures var o := Process(v, d, SignedEnvelope(sign, counter, deviceKey, payload), capacity, f, now);
            && Paired(v, o.device, sign, deviceKey, payload, capacity)
            && o.device.guard.floor == (if Spendable(d.guard, counter, true) then counter else d.guard.floor)
            && (counter <= d.guard.floor ==> o.device.guard == d.guard)
            && (ResponseType(o.reply) == Some(TYPE_SIGNED_RESPONSE) <==> Spendable(d.guard, counter, true))
  {
    var r := SignedRequest(counter, payload, sign(Preimage(DIR_REQUEST, counter, deviceKey, payload)));
    var input := SignedEnvelope(sign, counter, deviceKey, payload);
    assert input + [] == input;
    RequestRoundTrip(sign, counter, deviceKey, payload, []);
    PairedReaches(v, d, sign, deviceKey, payload, capacity, counter, f);
    Exchanged(v, d, r, capacity, f);
  }

  predicate Succeeds(v: Verifier, d: Device, sign: seq<u8> -> Signature, deviceKey: seq<u8>, payload: seq<u8>,
                     capacity: nat, counter: u32, f: Foreign, now: nat) {
    var o := Process(v, d, SignedEnvelope(sign, counter, deviceKey, payload), capacity, f, now);
    ResponseType(o.reply) == Some(TYPE_SIGNED_RESPONSE)
  }

  /** `reply` names a floor, and a request one above that floor is answered by the device in state `d`. */
  predicate Retried(v: Verifier, d: Device, reply: Reply, sign: seq<u8> -> Signature, deviceKey: seq<u8>,
                    payload: seq<u8>, capacity: nat, f: Foreign, now: nat) {
    && reply.Sent? && |reply.bytes| == 5 && reply.bytes[0] == TYPE_REPLAY_REJECT
    && ReadU32(reply.bytes, 1) < 0xFFFF_FFFF
    && Succeeds(v, d, sign, deviceKey, payload, capacity, ReadU32(reply.bytes, 1) + 1, f, now)
  }

  lemma NextAnswered(v: Verifier, d: Device, sign: seq<u8> -> Signature, deviceKey: seq<u8>, payload: seq<u8>,
                     capacity: nat, next: u32, f: Foreign, now: nat)
    requires Paired(v, d, sign, deviceKey, payload, capacity) && Willing(f)
    ensures Succeeds(v, d, sign, deviceKey, payload, capacity, next, f, now) <==> Spendable(d.guard, next, true)
  {
    SignedExchange(v, d, sign, deviceKey, payload, capacity, next, f, now);
  }

  /** There is a counter above the floor, reserved already or open to a new reservation. */
  predicate Resumable(g: Guard) {
    g.floor < 0xFFFF_FFFF && (g.floor + 1 < g.ceiling || g.floor + 1 <= 0xFFFF_FFFF - 64)
  }

  lemma Retry(v: Verifier, d: Device, reply: Reply, sign: seq<u8> -> Signature, deviceKey: seq<u8>,
              payload: seq<u8>, capacity: nat, f: Foreign, now: nat)
    requires Paired(v, d, sign, deviceKey, payload, capacity) && Willing(f)
    requires reply.Sent? && |reply.bytes| == 5 && reply.bytes[0] == TYPE_REPLAY_REJECT &&
             ReadU32(reply.bytes, 1) == d.guard.floor
    ensures Retried(v, d, reply, sign, deviceKey, payload, capacity, f, now) <==> Resumable(d.guard)
  {
    if d.guard.floor < 0xFFFF_FFFF {
      NextAnswered(v, d, sign, deviceKey, payload, capacity, ReadU32(reply.bytes, 1) + 1, f, now);
    }
  }

  lemma StaleDevice(v: Verifier, d: Device, sign: seq<u8> -> Signature, deviceKey: seq<u8>, payload: seq<u8>,
                    capacity: nat, counter: u32, f: Foreign, now: nat)
    requires Paired(v, d, sign, deviceKey, payload, capacity) && Willing(f) && counter <= d.guard.floor
    ensures var d' := Process(v, d, SignedEnvelope(sign, counter, deviceKey, payload), capacity, f, now).device;
            Paired(v, d', sign, deviceKey, payload, capacity) && d'.guard == d.guard
  {
    SignedExchange(v, d, sign, deviceKey, payload, capacity, counter, f, now);
  }

  lemma StaleReply(v: Verifier, d: Device, sign: seq<u8> -> Signature, deviceKey: seq<u8>, payload: seq<u8>,
                   capacity: nat, counter: u32, f: Foreign, now: nat)
    requires Paired(v, d, sign, deviceKey, payload, capacity) && f.imports && counter <= d.guard.floor
    ensures var reply := Process(v, d, SignedEnvelope(sign, counter, deviceKey, payload), capacity, f, now).reply;
            reply.Sent? && |reply.bytes| == 5 && reply.bytes[0] == TYPE_REPLAY_REJECT &&
               ReadU32(reply.bytes, 1) == d.guard.floor
  {
    var r := SignedRequest(counter, payload, sign(Preimage(DIR_REQUEST, counter, deviceKey, payload)));
    var input := SignedEnvelope(sign, counter, deviceKey, payload);
    assert input + [] == input;
    RequestRoundTrip(sign, counter, deviceKey, payload, []);
    PairedReaches(v, d, sign, deviceKey, payload, capacity, counter, f);
    ReplyOfParsed(v, d, r, capacity, f);
    AnswerExactly(Authenticated(v, d, r, f).0, r, capacity, f);
  }

  /**
   * Resynchronisation in one round trip: a client behind the floor is told the floor, and its next request, at the
   * floor plus one, is accepted and answered exactly when the counter space is not exhausted.
   */
  lemma Resynchronises(v: Verifier, d: Device, sign: seq<u8> -> Signature, deviceKey: seq<u8>, payload: seq<u8>,
                       capacity: nat, counter: u32, f: Foreign, f': Foreign, now: nat, now': nat)
    requires Paired(v, d, sign, deviceKey, payload, capacity) && Willing(f) && Willing(f')
    requires counter <= d.guard.floor
    ensures var o := Process(v, d, SignedEnvelope(sign, counter, deviceKey, payload), capacity, f, now);
            Retried(v, o.device, o.reply, sign, deviceKey, payload, capacity, f', now') <==> Resumable(d.guard)
  {
    StaleDevice(v, d, sign, deviceKey, payload, capacity, counter, f, now);
    StaleReply(v, d, sign, deviceKey, payload, capacity, counter, f, now);
    var o := Process(v, d, SignedEnvelope(sign, counter, deviceKey, payload), capacity, f, now);
    Retry(v, o.device, o.reply, sign, deviceKey, payload, capacity, f', now');
  }

  // ---- The measurement loop ----

  datatype Tally = Tally(unsigned: seq<nat>, signed: seq<(nat, nat)>, errors: nat)

  /** The samples whose echo came back. */
  function Echoed(heard: nat -> bool, n: nat): seq<nat> {
    if n == 0 then [] else Echoed(heard, n - 1) + if heard(n - 1) then [n - 1] else []
  }

  /** Sample and counter of each signed response that came back: those with a counter above the floor at the start. */
  function Rows(heard: nat -> bool, start: nat, floor: nat, n: nat): seq<(nat, nat)> {
    if n == 0 then []
    else
      var c := start + n - 1;
      Rows(heard, start, floor, n - 1) + if heard(n - 1) && c > floor then [(n - 1, c)] else []
  }

  /** The floor after counters `start`, ..., `start + n - 1`. */
  function FloorAfter(start: nat, floor: nat, n: nat): nat {
    if n > 0 && start + n - 1 > floor then start + n - 1 else floor
  }

  /** Sign, send, and take the type of the answer. */
  method SignedSample(v: Verifier, d: Device, sign: seq<u8> -> Signature, deviceKey: seq<u8>, payload: seq<u8>,
                      capacity: nat, counter: u32, f: Foreign, now: nat) returns (kind: Option<u8>, d': Device)
    ensures Paired(v, d, sign, deviceKey, payload, capacity) && Willing(f) && counter <= 0xFFFF_FFFF - 64 ==>
              && Paired(v, d', sign, deviceKey, payload, capacity)
              && d'.guard.floor == (if counter > d.guard.floor then counter else d.guard.floor)
              && (kind == Some(TYPE_SIGNED_RESPONSE) <==> counter > d.guard.floor)
  {
    var o := Process(v, d, SignedEnvelope(sign, counter, deviceKey, payload), capacity, f, now);
    kind, d' := ResponseType(o.reply), o.device;
    if Paired(v, d, sign, deviceKey, payload, capacity) && Willing(f) && counter <= 0xFFFF_FFFF - 64 {
      SignedExchange(v, d, sign, deviceKey, payload, capacity, counter, f, now);
    }
  }

  /** The unsigned half of the loop body: the echo, and either a row or an error. */
  method UnsignedHalf(v: Verifier, d: Device, payload: seq<u8>, capacity: nat, heard: nat -> bool, i: nat,
                      rows: seq<nat>, f: Foreign, now: nat) returns (unsigned: seq<nat>, failed: nat, d': Device)
    requires rows == Echoed(heard, i)
    ensures d' == d && |unsigned| + failed == |rows| + 1 && unsigned == Echoed(heard, i + 1)
  {
    d' := Process(v, d, EchoEnvelope(payload), capacity, f, now).device;
    if heard(i) {
      unsigned, failed := rows + [i], 0;
    } else {
      unsigned, failed := rows, 1;
    }
  }

  /** Device and records after `n` samples of a paired client. */
  ghost predicate Expected(v: Verifier, d: Device, sign: seq<u8> -> Signature, deviceKey: seq<u8>, payload: seq<u8>,
                           capacity: nat, heard: nat -> bool, start: nat, floor: nat, n: nat, signed: seq<(nat, nat)>) {
    && Paired(v, d, sign, deviceKey, payload, capacity)
    && signed == Rows(heard, start, floor, n)
    && d.guard.floor == FloorAfter(start, floor, n)
  }

  /** The signed half of the loop body: exchange, and either a row or an error. */
  method SignedHalf(v: Verifier, d: Device, sign: seq<u8> -> Signature, deviceKey: seq<u8>, payload: seq<u8>,
                    capacity: nat, heard: nat -> bool, start: nat, i: nat, rows: seq<(nat, nat)>, f: Foreign, now: nat,
                    ghost floor: nat)
    returns (signed: seq<(nat, nat)>, failed: nat, d': Device)
    requires start + i <= 0xFFFF_FFFF
    ensures |signed| + failed == |rows| + 1
    ensures Expected(v, d, sign, deviceKey, payload, capacity, heard, start, floor, i, rows) && Willing(f) &&
            start + i <= 0xFFFF_FFFF - 64 ==>
              Expected(v, d', sign, deviceKey, payload, capacity, heard, start, floor, i + 1, signed)
  {
    var kind;
    kind, d' := SignedSample(v, d, sign, deviceKey, payload, capacity, start + i, f, now);
    if heard(i) && kind == Some(TYPE_SIGNED_RESPONSE) {
      signed, failed := rows + [(i, start + i)], 0;
    } else {
      signed, failed := rows, 1;
    }
  }

  /**
   * The loop of `main`, with the device answering at the other end. `echoHeard` and `heard` say which replies reach the
   * client in time; counters beyond 32 bits cannot be packed. Every sample is either recorded or counted as an error,
   * and for a client at its own device the recorded ones are known in advance.
   */
  method Measure(v: Verifier, d0: Device, sign: seq<u8> -> Signature, deviceKey: seq<u8>, payload: seq<u8>,
                 capacity: nat,
                 start: nat, samples: nat, f: nat -> Foreign, now: nat, echoHeard: nat -> bool, heard: nat -> bool)
    returns (t: Tally, counter: nat, d: Device)
    requires start + samples <= 0x1_0000_0000 && |payload| < 0x1_0000
    ensures counter == start + samples
    ensures |t.unsigned| + |t.signed| + t.errors == 2 * samples
    ensures t.unsigned == Echoed(echoHeard, samples)
    ensures Paired(v, d0, sign, deviceKey, payload, capacity) && (forall i :: Willing(f(i))) &&
            start + samples <= 0x1_0000_0000 - 64 ==>
              Expected(v, d, sign, deviceKey, payload, capacity, heard, start, d0.guard.floor, samples, t.signed)
  {
    var unsigned: seq<nat>, signed: seq<(nat, nat)>, errors := [], [], 0;
    ghost var paired := Paired(v, d0, sign, deviceKey, payload, capacity) && (forall i :: Willing(f(i))) &&
       start + samples <= 0x1_0000_0000 - 64;
    d, counter := d0, start;
    for i := 0 to samples
      invariant counter == start + i
      invariant |unsigned| + |signed| + errors == 2 * i
      invariant unsigned == Echoed(echoHeard, i)
      invariant paired ==> Expected(v, d, sign, deviceKey, payload, capacity, heard, start, d0.guard.floor, i, signed)
    {
      var failed;
      unsigned, failed, d := UnsignedHalf(v, d, payload, capacity, echoHeard, i, unsigned, f(2 * i), now);
      errors := errors + failed;
      signed, failed, d := SignedHalf(v, d, sign, deviceKey, payload, capacity, heard, start, i, signed,
                                      f(2 * i + 1), now, d0.guard.floor);
      errors := errors + failed;
      counter := counter + 1;
    }
    t := Tally(unsigned, signed, errors);
  }

  /**
   * Which samples are recorded: those heard, with a counter above the floor at the start, each under its own
   * counter.
   */
  lemma {:induction false} RowsExactly(heard: nat -> bool, start: nat, floor: nat, n: nat)
    ensures forall i: nat, c: nat :: (i, c) in Rows(heard, start, floor, n) <==>
              i < n && heard(i) && c == start + i && c > floor
  {
    if n == 0 {
    } else {
      RowsExactly(heard, start, floor, n - 1);
    }
  }

  /** Sample `i` has its row. */
  predicate Recorded(rows: seq<(nat, nat)>, start: nat, i: nat) {
    (i, start + i) in rows
  }

  lemma {:induction false} RowCount(heard: nat -> bool, start: nat, floor: nat, n: nat)
    requires forall i :: heard(i)
    ensures |Rows(heard, start, floor, n)|
            == n - if floor < start then 0 else if floor - start + 1 < n then floor - start + 1 else n
  {
    if n == 0 {
    } else {
      RowCount(heard, start, floor, n - 1);
    }
  }

  /** When every reply is heard, the signed samples lost are those that start at or below the floor, and no others. */
  lemma SamplesLost(heard: nat -> bool, start: nat, floor: nat, n: nat)
    requires forall i :: heard(i)
    ensures var rows := Rows(heard, start, floor, n);
            && (forall i: nat | i < n :: !Recorded(rows, start, i) <==> start + i <= floor)
            && |rows| == n - if floor < start then 0 else if floor - start + 1 < n then floor - start + 1 else n
  {
    RowsExactly(heard, start, floor, n);
    RowCount(heard, start, floor, n);
  }
}
