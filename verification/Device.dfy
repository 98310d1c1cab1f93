/**
 * One request to the device, as a function: lib/tunnel/tunnel_server.cpp with all options on.
 * The calls into the crypto library, the attestation provider and the settings storage are parameters.
 */
module Device {
  import opened Bytes
  import opened Envelope
  import opened History
  import opened Replay
  import opened ClientKey
  import opened Identity

  const TYPE_IDENTITY_REQUEST: u8 := 0x00
  const TYPE_IDENTITY_RESPONSE: u8 := 0x01
  const TYPE_SIGNED_REQUEST: u8 := 0x02
  const TYPE_SIGNED_RESPONSE: u8 := 0x03
  const TYPE_REPLAY_REJECT: u8 := 0x04
  const TYPE_REGISTER_KEY: u8 := 0x05
  const TYPE_REGISTER_ACK: u8 := 0x06
  const TYPE_AUTH_REJECT: u8 := 0x07
  const TYPE_ECHO: u8 := 0xFF

  const SIGNATURE_LENGTH := 64
  const PUBLIC_KEY_MAX := 65
  const BUNDLE_CAPACITY := 1200
  const PREIMAGE_CAPACITY := 700
  const PAYLOAD_MAX := 256

  /** The signing buffer holds 64 bytes and the export buffer 65; the library writes no more. */
  type Signature = s: seq<u8> | |s| <= SIGNATURE_LENGTH
  type PublicKey = s: seq<u8> | |s| <= PUBLIC_KEY_MAX

  datatype Reject = InvalidCommand | ConstraintError | Failure

  datatype Reply = Rejected(why: Reject) | Sent(bytes: seq<u8>) {
    /** The bytes of the response: none when there is no payload response. */
    function Payload(): seq<u8> {
      if Sent? then bytes else []
    }

    function Reason(): Option<Reject> {
      if Sent? then None else Some(why)
    }
  }

  /** What survives a reset. */
  datatype Flash = Flash(ceiling: Option<u32>, clientKey: Option<seq<u8>>)

  /**
   * Flash and RAM: the public key behind the signer's handle, the cached bundle (empty until built), the
   * public key bound into preimages, the replay guard and the key store.
   */
  datatype Device = Device(flash: Flash, signer: Option<PublicKey>, bundle: seq<u8>, devicePub: PublicKey,
                           replayReady: bool, guard: Guard, keys: Keys)

  /** How the foreign calls made while serving one request turn out. */
  datatype Foreign = Foreign(signerKey: Option<PublicKey>, attestation: Attestation, exports: bool,
                             replayInit: Storage, keyReadable: bool, imports: bool, ceilingSave: bool,
                             signature: Option<Signature>, keySave: bool)

  datatype Outcome = Outcome(device: Device, reply: Reply, events: seq<Event>)

  function Rebooted(flash: Flash): Device {
    Device(flash, None, [], [], false, Guard(0, 0, false), NO_KEYS)
  }

  const BLANK_DEVICE := Rebooted(Flash(None, None))

  function WithBundle(d: Device, f: Foreign): (Device, bool) {
    if d.bundle != [] then (d, true)
    else
      var signer := if d.signer.Some? then d.signer else f.signerKey;
      var bundle := Built(signer, Ed25519, f.attestation, BUNDLE_CAPACITY);
      if bundle.None? || !f.exports then (d.(signer := signer), false)
      else (d.(signer := signer, bundle := bundle.value, devicePub := signer.value), true)
  }

  function Guarded(d: Device, e: Effect): Device {
    d.(guard := e.guard, flash := if e.saved.Some? then d.flash.(ceiling := e.saved) else d.flash)
  }

  function WithReplay(d: Device, f: Foreign): (Device, bool, seq<Event>) {
    if d.replayReady then (d, true, [])
    else
      var e := Initialised(d.flash.ceiling, f.replayInit);
      var d1 := Guarded(d, e);
      if !e.ok then (d1, false, Saves(e.saved))
      else
        var keys := Loaded(d1.keys, d1.flash.clientKey, f.keyReadable);
        (d1.(replayReady := true, keys := keys), true, Saves(e.saved))
  }

  function OnEcho(d: Device, input: seq<u8>, capacity: nat): Outcome {
    Outcome(d, if |input| > capacity then Rejected(ConstraintError) else Sent(input), [])
  }

  function IdentityResponse(offset: nat, bundle: seq<u8>): seq<u8>
    requires offset < |bundle|
  {
    [TYPE_IDENTITY_RESPONSE] + Be16(offset) + Be16(|bundle|) + Chunk(bundle, offset)
  }

  function OnIdentity(d: Device, input: seq<u8>, capacity: nat, f: Foreign): Outcome {
    if |input| < 3 then Outcome(d, Rejected(InvalidCommand), [])
    else
      var offset := ReadU16(input, 1);
      var (d1, ok) := WithBundle(d, f);
      if !ok then Outcome(d1, Rejected(Failure), [])
      else if offset >= |d1.bundle| || 5 + |Chunk(d1.bundle, offset)| > capacity then
        Outcome(d1, Rejected(ConstraintError), [])
      else Outcome(d1, Sent(IdentityResponse(offset, d1.bundle)), [])
  }

  datatype SignedRequest = SignedRequest(counter: u32, payload: seq<u8>, signature: seq<u8>)

  /** u8 type, u32 counter, u16 length and payload, u16 length and signature; anything behind is ignored. */
  function ParseSigned(input: seq<u8>): Option<SignedRequest> {
    if |input| < 7 then None
    else
      var payloadLen := ReadU16(input, 5);
      if |input| < 7 + payloadLen + 2 then None
      else
        var sigLen := ReadU16(input, 7 + payloadLen);
        if |input| < 9 + payloadLen + sigLen then None
        else
          var payload, signature := input[7..7 + payloadLen], input[9 + payloadLen..9 + payloadLen + sigLen];
          Some(SignedRequest(ReadU32(input, 1), payload, signature))
  }

  /** The common layout of signed requests and signed responses. */
  function Signed(kind: u8, counter: u32, payload: seq<u8>, signature: seq<u8>): seq<u8> {
    [kind] + Be32(counter) + Be16(|payload|) + payload + Be16(|signature|) + signature
  }

  /** Key present, preimage fits its buffer, signature good: the device afterwards, and the reply when refused. */
  function Authenticated(v: Verifier, d: Device, r: SignedRequest, f: Foreign): (Device, Option<Reply>) {
    if d.keys.key.None? then (d, Some(Sent([TYPE_AUTH_REJECT])))
    else if 21 + |d.devicePub| + |r.payload| > PREIMAGE_CAPACITY then (d, Some(Rejected(ConstraintError)))
    else
      var message := Preimage(DIR_REQUEST, r.counter, d.devicePub, r.payload);
      var (keys, good) := Verified(d.keys, v, f.imports, message, r.signature);
      (d.(keys := keys), if good then None else Some(Sent([TYPE_AUTH_REJECT])))
  }

  /** The device's signature over the preimage it binds, if the signer delivers one. */
  function Signatures(d: Device, counter: u32, payload: seq<u8>, f: Foreign): seq<Event> {
    if f.signature.None? then []
    else [DeviceSigned(d.signer.GetOr([]), Preimage(DIR_RESPONSE, counter, d.devicePub, payload))]
  }

  function CommandOf(d: Device, r: SignedRequest): Command {
    Command(r.counter, r.payload, d.devicePub, d.keys.key.GetOr([]))
  }

  function AnswerReply(r: SignedRequest, capacity: nat, f: Foreign, accepted: bool): Reply {
    if !accepted || f.signature.None? then Rejected(Failure)
    else if |r.payload| > PAYLOAD_MAX || 9 + |r.payload| + SIGNATURE_LENGTH > capacity then Rejected(ConstraintError)
    else Sent(Signed(TYPE_SIGNED_RESPONSE, r.counter, r.payload, f.signature.value))
  }

  /**
   * Freshness, acceptance and the signed answer, in the code's order: the counter is spent and the answer signed
   * before the size check.
   */
  function Answered(d: Device, r: SignedRequest, capacity: nat, f: Foreign): Outcome {
    if !Fresh(d.guard, r.counter) then
      Outcome(d, Sent([TYPE_REPLAY_REJECT] + Be32(d.guard.floor)), [])
    else
      var e := Consumed(d.guard, r.counter, f.ceilingSave);
      Outcome(Guarded(d, e), AnswerReply(r, capacity, f, e.ok),
              Saves(e.saved) +
              if e.ok then [Accepted(CommandOf(d, r))] + Signatures(d, r.counter, r.payload, f) else [])
  }

  /** Authenticity before freshness: only an authenticated request reaches the counter. */
  function Judged(v: Verifier, d: Device, r: SignedRequest, capacity: nat, f: Foreign): Outcome {
    var (d1, refused) := Authenticated(v, d, r, f);
    if refused.Some? then Outcome(d1, refused.value, []) else Answered(d1, r, capacity, f)
  }

  /** `EnsureBundle() && EnsureReplay()`. */
  function Readied(d: Device, f: Foreign): (Device, bool, seq<Event>) {
    var (d1, built) := WithBundle(d, f);
    if built then WithReplay(d1, f) else (d1, false, [])
  }

  function OnParsed(v: Verifier, d: Device, r: SignedRequest, capacity: nat, f: Foreign): Outcome {
    var (d1, ready, saves) := Readied(d, f);
    if !ready then Outcome(d1, Rejected(Failure), saves)
    else var o := Judged(v, d1, r, capacity, f); o.(events := saves + o.events)
  }

  function OnSigned(v: Verifier, d: Device, input: seq<u8>, capacity: nat, f: Foreign): Outcome {
    var r := ParseSigned(input);
    if r.None? then Outcome(d, Rejected(InvalidCommand), []) else OnParsed(v, d, r.value, capacity, f)
  }

  function RegisterAck(key: seq<u8>, signature: seq<u8>): seq<u8> {
    [TYPE_REGISTER_ACK] + Be16(|key|) + key + Be16(|signature|) + signature
  }

  function KeyStored(d: Device, key: seq<u8>, f: Foreign): Device {
    d.(keys := Stored(d.keys, key), flash := if f.keySave then d.flash.(clientKey := Some(key)) else d.flash)
  }

  /** Register `key`, and answer with the stored key under the device's signature at counter 0. */
  function OnKey(d: Device, key: seq<u8>, capacity: nat, f: Foreign, now: nat): Outcome {
    if !MayRegister(d.keys, key, now) then Outcome(d, Sent([TYPE_AUTH_REJECT]), [])
    else
      Outcome(KeyStored(d, key, f),
              if f.signature.None? then Rejected(Failure)
              else if 5 + |key| + SIGNATURE_LENGTH > capacity then Rejected(ConstraintError)
              else Sent(RegisterAck(key, f.signature.value)),
              [Registered(key, now, f.keySave)] + Signatures(d, 0, key, f))
  }

  function OnRegister(d: Device, input: seq<u8>, capacity: nat, f: Foreign, now: nat): Outcome {
    if |input| < 3 || |input| < 3 + ReadU16(input, 1) then Outcome(d, Rejected(InvalidCommand), [])
    else
      var (d1, built) := WithBundle(d, f);
      if !built then Outcome(d1, Rejected(Failure), [])
      else OnKey(d1, input[3..3 + ReadU16(input, 1)], capacity, f, now)
  }

  /** `ProcessRequest`, for an output buffer of `capacity` bytes, at uptime `now`. */
  function Process(v: Verifier, d: Device, input: seq<u8>, capacity: nat, f: Foreign, now: nat): Outcome {
    if input == [] then Outcome(d, Rejected(InvalidCommand), [])
    else if input[0] == TYPE_ECHO then OnEcho(d, input, capacity)
    else if input[0] == TYPE_IDENTITY_REQUEST then OnIdentity(d, input, capacity, f)
    else if input[0] == TYPE_SIGNED_REQUEST then OnSigned(v, d, input, capacity, f)
    else if input[0] == TYPE_REGISTER_KEY then OnRegister(d, input, capacity, f, now)
    else Outcome(d, Rejected(InvalidCommand), [])
  }
}
