/** The request handler over its static buffers: lib/tunnel/tunnel_server.cpp. */
module Server {
  import opened Bytes
  import opened Envelope
  import opened History
  import opened Replay
  import opened ClientKey
  import opened Identity
  import opened Device

  class TunnelServer {
    const verifier: Verifier
    const settings: Settings
    const guard: ReplayGuard
    const store: ClientKeyStore
    const gBundle: array<u8>
    const gDevicePub: array<u8>
    const requestPreimage: array<u8>
    const responsePreimage: array<u8>
    const ackPreimage: array<u8>
    var signer: Option<PublicKey>
    var bundleLen: nat
    var devicePubLen: nat
    var replayReady: bool

    /** The device as a value; `Valid` ties it to the fields and buffers above. */
    ghost var state: Device

    ghost predicate Valid()
      reads this, gBundle, gDevicePub, guard, store, store.mKey, store.ring, settings
    {
      && guard.settings == settings && store.settings == settings && store.Valid()
      && gBundle.Length == BUNDLE_CAPACITY && gDevicePub.Length == PUBLIC_KEY_MAX
      && requestPreimage.Length == PREIMAGE_CAPACITY && responsePreimage.Length == PREIMAGE_CAPACITY &&
         ackPreimage.Length == 256
      && bundleLen <= gBundle.Length && devicePubLen <= gDevicePub.Length
      && gBundle != gDevicePub && gBundle != store.mKey && gDevicePub != store.mKey
      && state.bundle == gBundle[..bundleLen] && state.devicePub == gDevicePub[..devicePubLen]
      && state.flash == Flash(settings.ceiling, settings.clientKey)
      && state.signer == signer && state.replayReady == replayReady
      && state.guard == guard.Value() && state.keys == store.Value()
    }

    function Buffers(): set<array<u8>> {
      {gBundle, gDevicePub, requestPreimage, responsePreimage, ackPreimage, store.mKey}
    }

    constructor (verifier: Verifier, settings: Settings)
      ensures Valid() && fresh(Buffers()) && fresh(guard) && fresh(store) && fresh(store.ring)
      ensures this.settings == settings && this.verifier == verifier
      ensures state == Rebooted(Flash(settings.ceiling, settings.clientKey))
    {
      this.verifier, this.settings := verifier, settings;
      guard := new ReplayGuard(settings);
      store := new ClientKeyStore(settings);
      gBundle := new u8[BUNDLE_CAPACITY](_ => 0);
      gDevicePub := new u8[PUBLIC_KEY_MAX](_ => 0);
      requestPreimage := new u8[PREIMAGE_CAPACITY](_ => 0);
      responsePreimage := new u8[PREIMAGE_CAPACITY](_ => 0);
      ackPreimage := new u8[256](_ => 0);
      signer, bundleLen, devicePubLen, replayReady := None, 0, 0, false;
      state := Rebooted(Flash(settings.ceiling, settings.clientKey));
    }

    /** Once the signer is ready: the bundle, and the public key exported once more for the preimages. */
    method CacheBundle(f: Foreign) returns (ok: bool)
      requires Valid() && signer.Some? && bundleLen == 0
      modifies this`bundleLen, this`devicePubLen, this`state, gBundle, gDevicePub
      ensures Valid()
      ensures (state, ok) == WithBundle(old(state), f)
    {
      var size := BuildIdentityBundle(signer, Ed25519, f.attestation, gBundle);
      if size.Some? && f.exports {
        bundleLen := size.value;
        CopyBytes(gDevicePub, 0, signer.value);
        devicePubLen := |signer.value|;
        assert gDevicePub[..devicePubLen] == signer.value;
        state := state.(bundle := gBundle[..bundleLen], devicePub := signer.value);
        return true;
      }
      return false;
    }

    /** The lazy `Init` of the signer: fetched unless already held. */
    method FetchSigner(f: Foreign)
      requires Valid()
      modifies this`signer, this`state
      ensures Valid() && signer == if old(signer).Some? then old(signer) else f.signerKey
      ensures state == old(state).(signer := signer)
    {
      if signer.None? {
        signer := f.signerKey;
      }
      state := state.(signer := signer);
    }

    method EnsureBundle(f: Foreign) returns (ok: bool)
      requires Valid()
      modifies this, gBundle, gDevicePub
      ensures Valid()
      ensures (state, ok) == WithBundle(old(state), f)
    {
      if bundleLen != 0 {
        return true;
      }
      FetchSigner(f);
      if signer.None? {
        return false;
      }
      ok := CacheBundle(f);
    }

    method EnsureReplay(f: Foreign) returns (ok: bool)
      requires Valid()
      modifies this, guard, store, store.mKey, settings
      ensures Valid()
      ensures state == WithReplay(old(state), f).0 && ok == WithReplay(old(state), f).1
      ensures settings.log == old(settings.log) + WithReplay(old(state), f).2
    {
      if replayReady {
        return true;
      }
      ok := guard.Init(f.replayInit);
      state := Guarded(state, Initialised(state.flash.ceiling, f.replayInit));
      if !ok {
        return false;
      }
      replayReady := true;
      store.Init(f.keyReadable);
      state := state.(replayReady := true, keys := Loaded(state.keys, state.flash.clientKey, f.keyReadable));
      return true;
    }

    /** What the out-parameters and the output buffer say, against the specification's reply. */
    twostate predicate Replied(out: array<u8>, n: nat, new reject: Option<Reject>, new reply: Reply)
      reads out
    {
      && n == |reply.Payload()| <= out.Length
      && reject == reply.Reason()
      && out[..n] == reply.Payload()
      && out[n..] == old(out[n..])
    }

    /** The whole of what a request did is what the specification's outcome says. */
    twostate predicate Did(out: array<u8>, n: nat, new reject: Option<Reject>, new o: Outcome)
      reads this, settings, out
    {
      && state == o.device
      && settings.log == old(settings.log) + o.events
      && Replied(out, n, reject, o.reply)
    }

    method Echo(input: seq<u8>, out: array<u8>) returns (n: nat, reject: Option<Reject>)
      requires Valid() && out !in Buffers()
      modifies out
      ensures Valid() && Did(out, n, reject, OnEcho(old(state), input, out.Length))
    {
      if |input| > out.Length {
        return 0, Some(ConstraintError);
      }
      CopyBytes(out, 0, input);
      assert out[..|input|] == input;
      return |input|, None;
    }

    method WritePiece(offset: nat, total: nat, piece: seq<u8>, out: array<u8>) returns (n: nat)
      requires 5 + |piece| <= out.Length
      modifies out
      ensures n == 5 + |piece| && out[..n] == [TYPE_IDENTITY_RESPONSE] + Be16(offset) + Be16(total) + piece
      ensures forall k | n <= k < out.Length :: out[k] == old(out[k])
    {
      CopyBytes(out, 0, [TYPE_IDENTITY_RESPONSE]);
      CopyBytes(out, 1, Be16(offset));
      CopyBytes(out, 3, Be16(total));
      CopyBytes(out, 5, piece);
      n := 5 + |piece|;
    }

    method WriteChunk(offset: nat, chunk: nat, out: array<u8>) returns (n: nat)
      requires Valid() && out !in Buffers() && offset < bundleLen && 5 + chunk <= out.Length
      requires chunk == if bundleLen - offset < MAX_CHUNK then bundleLen - offset else MAX_CHUNK
      modifies out
      ensures Valid() && n == 5 + chunk && out[..n] == IdentityResponse(offset, state.bundle)
      ensures forall k | n <= k < out.Length :: out[k] == old(out[k])
    {
      var piece := gBundle[offset..offset + chunk];
      assert piece == Chunk(state.bundle, offset);
      n := WritePiece(offset, bundleLen, piece, out);
    }

    /** The reply once the bundle is there. */
    method SendPiece(offset: nat, out: array<u8>) returns (n: nat, reject: Option<Reject>)
      requires Valid() && out !in Buffers()
      modifies out
      ensures Valid()
      ensures Replied(out, n, reject, if offset >= |state.bundle| || 5 + |Chunk(state.bundle, offset)| > out.Length
                                      then Rejected(ConstraintError) else Sent(IdentityResponse(offset, state.bundle)))
    {
      if offset >= bundleLen {
        return 0, Some(ConstraintError);
      }
      var remaining := bundleLen - offset;
      var chunk := if remaining < MAX_CHUNK then remaining else MAX_CHUNK;
      if 5 + chunk > out.Length {
        return 0, Some(ConstraintError);
      }
      n := WriteChunk(offset, chunk, out);
      return n, None;
    }

    method SendIdentity(input: seq<u8>, out: array<u8>, f: Foreign) returns (n: nat, reject: Option<Reject>)
      requires Valid() && out !in Buffers()
      modifies this, gBundle, gDevicePub, out
      ensures Valid() && Did(out, n, reject, OnIdentity(old(state), input, out.Length, f))
    {
      if |input| < 3 {
        return 0, Some(InvalidCommand);
      }
      var offset: nat := ReadU16(input, 1);
      var ok := EnsureBundle(f);
      if !ok {
        return 0, Some(Failure);
      }
      n, reject := SendPiece(offset, out);
    }

    /** Rebuild the signed bytes and check the signature; `None` when they do not fit the buffer. */
    method CheckSignature(r: SignedRequest, f: Foreign) returns (good: Option<bool>)
      requires Valid() && state.keys.key.Some?
      modifies this`state, requestPreimage, store`imported, store.ring
      ensures Valid()
      ensures good.None? <==> 21 + |state.devicePub| + |r.payload| > PREIMAGE_CAPACITY
      ensures good.None? ==> state == old(state)
      ensures good.Some? ==>
                var message := Preimage(DIR_REQUEST, r.counter, state.devicePub, r.payload);
                var k := Verified(old(state).keys, verifier, f.imports, message, r.signature);
                state == old(state).(keys := k.0) && good.value == k.1
    {
      var size := BuildPreimage(DIR_REQUEST, r.counter, gDevicePub[..devicePubLen], r.payload, requestPreimage);
      if size.None? {
        return None;
      }
      var ok := store.Verify(verifier, f.imports, requestPreimage[..size.value], r.signature);
      state := state.(keys := store.Value());
      return Some(ok);
    }

    method Authenticate(r: SignedRequest, f: Foreign, out: array<u8>) returns (ok: bool, n: nat, reject: Option<Reject>)
      requires Valid() && out !in Buffers() && out.Length >= 5
      modifies this`state, requestPreimage, store`imported, store.ring, out
      ensures Valid() && state == Authenticated(verifier, old(state), r, f).0
      ensures ok <==> Authenticated(verifier, old(state), r, f).1.None?
      ensures ok ==> out[..] == old(out[..])
      ensures !ok ==> Replied(out, n, reject, Authenticated(verifier, old(state), r, f).1.value)
    {
      if store.keyLen == 0 {
        out[0] := TYPE_AUTH_REJECT;
        return false, 1, None;
      }
      var good := CheckSignature(r, f);
      if good.None? {
        return false, 0, Some(ConstraintError);
      }
      if !good.value {
        out[0] := TYPE_AUTH_REJECT;
        return false, 1, None;
      }
      return true, 0, None;
    }

    method WriteReplayReject(out: array<u8>) returns (n: nat)
      requires Valid() && out !in Buffers() && out.Length >= 5
      modifies out
      ensures Valid() && n == 5 && out[..n] == [TYPE_REPLAY_REJECT] + Be32(state.guard.floor)
      ensures forall k | n <= k < out.Length :: out[k] == old(out[k])
    {
      CopyBytes(out, 0, [TYPE_REPLAY_REJECT]);
      n := PutU32(out, 1, guard.floor);
    }

    /** What both signed answers end with: a byte string, and the device signature behind its length. */
    method WriteTail(body: seq<u8>, signature: seq<u8>, out: array<u8>, at: nat) returns (n: nat)
      requires at + |body| + 2 + |signature| <= out.Length
      modifies out
      ensures n == at + |body| + 2 + |signature|
      ensures out[..n] == old(out[..at]) + body + Be16(|signature|) + signature
      ensures forall k | n <= k < out.Length :: out[k] == old(out[k])
    {
      n := at;
      CopyBytes(out, n, body);
      n := n + |body|;
      CopyBytes(out, n, Be16(|signature|));
      n := n + 2;
      CopyBytes(out, n, signature);
      n := n + |signature|;
    }

    method WriteSignedResponse(counter: u32, payload: seq<u8>, signature: seq<u8>, out: array<u8>) returns (n: nat)
      requires 9 + |payload| + |signature| <= out.Length
      modifies out
      ensures n == 9 + |payload| + |signature| && out[..n] == Signed(TYPE_SIGNED_RESPONSE, counter, payload, signature)
      ensures forall k | n <= k < out.Length :: out[k] == old(out[k])
    {
      CopyBytes(out, 0, [TYPE_SIGNED_RESPONSE]);
      n := PutU32(out, 1, counter);
      CopyBytes(out, n, Be16(|payload|));
      n := n + 2;
      ghost var head := [TYPE_SIGNED_RESPONSE] + Be32(counter) + Be16(|payload|);
      assert out[..n] == head;
      n := WriteTail(payload, signature, out, n);
    }

    /** Spend the counter; the log records what it was spent on. */
    method Spend(r: SignedRequest, f: Foreign) returns (ok: bool)
      requires Valid()
      modifies this`state, guard, settings
      ensures Valid()
      ensures var e := Consumed(old(state).guard, r.counter, f.ceilingSave);
              && ok == e.ok && state == Guarded(old(state), e)
              && settings.log == old(settings.log) + Saves(e.saved)
                                 + if ok then [Accepted(CommandOf(old(state), r))] else []
    {
      ok := guard.Accept(r.counter, f.ceilingSave);
      state := Guarded(state, Consumed(state.guard, r.counter, f.ceilingSave));
      if ok {
        settings.Record(Accepted(CommandOf(state, r)));
      }
    }

    /** Build the response preimage and have it signed. */
    method Sign(counter: u32, payload: seq<u8>, f: Foreign, buffer: array<u8>) returns (signature: Option<Signature>)
      requires Valid() && (buffer == responsePreimage || buffer == ackPreimage)
      requires 21 + devicePubLen + |payload| <= buffer.Length
      modifies buffer, settings`log
      ensures Valid() && signature == f.signature
      ensures settings.log == old(settings.log) + Signatures(state, counter, payload, f)
    {
      var size := BuildPreimage(DIR_RESPONSE, counter, gDevicePub[..devicePubLen], payload, buffer);
      if f.signature.Some? {
        settings.Record(DeviceSigned(signer.GetOr([]), buffer[..size.value]));
      }
      return f.signature;
    }

    lemma Regrouped(log: seq<Event>, saves: seq<Event>, after: seq<Event>)
      ensures forall es: seq<Event> :: after == log + saves + es ==> after == log + (saves + es)
    {
      forall es: seq<Event> ensures after == log + saves + es ==> after == log + (saves + es) {
        assert log + saves + es == log + (saves + es);
      }
    }

    /** Spend the counter and sign the answer: everything of an answer but its bytes. */
    method Commit(r: SignedRequest, f: Foreign) returns (ok: bool)
      requires Valid() && 21 + |state.devicePub| + |r.payload| <= PREIMAGE_CAPACITY && Fresh(state.guard, r.counter)
      modifies this`state, guard, settings, responsePreimage
      ensures Valid()
      ensures var o := Answered(old(state), r, 0, f); state == o.device && settings.log == old(settings.log) + o.events
      ensures ok <==> Consumed(old(state).guard, r.counter, f.ceilingSave).ok && f.signature.Some?
    {
      ghost var log, e := settings.log, Consumed(state.guard, r.counter, f.ceilingSave);
      ghost var spent := [Accepted(CommandOf(state, r))];
      ok := Spend(r, f);
      if ok {
        var signature := Sign(r.counter, r.payload, f, responsePreimage);
        Regrouped(log + Saves(e.saved), spent, settings.log);
        Regrouped(log, Saves(e.saved), settings.log);
        ok := signature.Some?;
      }
    }

    /** The response preimage always fits: a request of the same size went through the same capacity just before. */
    method Answer(r: SignedRequest, f: Foreign, out: array<u8>) returns (n: nat, reject: Option<Reject>)
      requires Valid() && out !in Buffers() && out.Length >= 5
      requires 21 + |state.devicePub| + |r.payload| <= PREIMAGE_CAPACITY
      modifies this`state, guard, settings, responsePreimage, out
      ensures Valid() && Did(out, n, reject, Answered(old(state), r, out.Length, f))
    {
      if !guard.IsFresh(r.counter) {
        n := WriteReplayReject(out);
        return n, None;
      }
      var ok := Commit(r, f);
      if !ok {
        return 0, Some(Failure);
      }
      if |r.payload| > PAYLOAD_MAX || 9 + |r.payload| + SIGNATURE_LENGTH > out.Length {
        return 0, Some(ConstraintError);
      }
      n := WriteSignedResponse(r.counter, r.payload, f.signature.value, out);
      return n, None;
    }

    /** Authenticity before freshness. */
    method Judge(r: SignedRequest, f: Foreign, out: array<u8>) returns (n: nat, reject: Option<Reject>)
      requires Valid() && out !in Buffers() && out.Length >= 5
      modifies this`state, guard, store`imported, store.ring, settings, requestPreimage, responsePreimage, out
      ensures Valid() && Did(out, n, reject, Judged(verifier, old(state), r, out.Length, f))
    {
      var ok;
      ok, n, reject := Authenticate(r, f, out);
      if ok {
        n, reject := Answer(r, f, out);
      }
    }

    method EnsureReady(f: Foreign) returns (ok: bool)
      requires Valid()
      modifies this, guard, store, store.mKey, settings, gBundle, gDevicePub
      ensures Valid()
      ensures state == Readied(old(state), f).0 && ok == Readied(old(state), f).1
      ensures settings.log == old(settings.log) + Readied(old(state), f).2
    {
      ok := EnsureBundle(f);
      if ok {
        ok := EnsureReplay(f);
      }
    }

    method ServeParsed(r: SignedRequest, out: array<u8>, f: Foreign) returns (n: nat, reject: Option<Reject>)
      requires Valid() && out !in Buffers() && out.Length >= 5
      modifies this, guard, store, store.mKey, store.ring, settings, gBundle, gDevicePub
      modifies requestPreimage, responsePreimage, out
      ensures Valid() && Did(out, n, reject, OnParsed(verifier, old(state), r, out.Length, f))
    {
      ghost var log, saves := settings.log, Readied(state, f).2;
      var ok := EnsureReady(f);
      assert out[..] == old(out[..]);
      if !ok {
        return 0, Some(Failure);
      }
      n, reject := Judge(r, f, out);
      Regrouped(log, saves, settings.log);
    }

    method ServeSigned(input: seq<u8>, out: array<u8>, f: Foreign) returns (n: nat, reject: Option<Reject>)
      requires Valid() && out !in Buffers() && out.Length >= 5
      modifies this, guard, store, store.mKey, store.ring, settings, gBundle, gDevicePub
      modifies requestPreimage, responsePreimage, out
      ensures Valid() && Did(out, n, reject, OnSigned(verifier, old(state), input, out.Length, f))
    {
      var parsed := ParseSigned(input);
      if parsed.None? {
        return 0, Some(InvalidCommand);
      }
      n, reject := ServeParsed(parsed.value, out, f);
    }

    method WriteRegisterAck(key: seq<u8>, signature: seq<u8>, out: array<u8>) returns (n: nat)
      requires 5 + |key| + |signature| <= out.Length
      modifies out
      ensures n == 5 + |key| + |signature| && out[..n] == RegisterAck(key, signature)
      ensures out[n..] == old(out[n..])
    {
      CopyBytes(out, 0, [TYPE_REGISTER_ACK]);
      CopyBytes(out, 1, Be16(|key|));
      ghost var head := [TYPE_REGISTER_ACK] + Be16(|key|);
      assert out[..3] == head;
      n := WriteTail(key, signature, out, 3);
    }

    /** `ClientKeyStore::Register`, and what it does to the device as a whole. */
    method StoreKey(key: seq<u8>, f: Foreign, now: nat) returns (ok: bool)
      requires Valid()
      modifies this`state, store, store.mKey, store.ring, settings
      ensures Valid()
      ensures ok <==> MayRegister(old(state).keys, key, now)
      ensures state == if ok then KeyStored(old(state), key, f) else old(state)
      ensures settings.log == old(settings.log) + if ok then [Registered(key, now, f.keySave)] else []
    {
      ok := store.Register(key, now, f.keySave);
      if ok {
        state := KeyStored(state, key, f);
      }
    }

    method RegisterKey(key: seq<u8>, out: array<u8>, f: Foreign, now: nat) returns (n: nat, reject: Option<Reject>)
      requires Valid() && out !in Buffers() && out.Length >= 5
      modifies this`state, store, store.mKey, store.ring, settings, ackPreimage, out
      ensures Valid() && Did(out, n, reject, OnKey(old(state), key, out.Length, f, now))
    {
      ghost var log := settings.log;
      var ok := StoreKey(key, f, now);
      if !ok {
        out[0] := TYPE_AUTH_REJECT;
        return 1, None;
      }
      var signature := Sign(0, key, f, ackPreimage);
      Regrouped(log, [Registered(key, now, f.keySave)], settings.log);
      if signature.None? {
        return 0, Some(Failure);
      }
      if 5 + |key| + SIGNATURE_LENGTH > out.Length {
        return 0, Some(ConstraintError);
      }
      n := WriteRegisterAck(key, signature.value, out);
      return n, None;
    }

    method ServeRegister(input: seq<u8>, out: array<u8>, f: Foreign, now: nat) returns (n: nat, reject: Option<Reject>)
      requires Valid() && out !in Buffers() && out.Length >= 5
      modifies this, store, store.mKey, store.ring, settings, gBundle, gDevicePub, ackPreimage, out
      ensures Valid() && Did(out, n, reject, OnRegister(old(state), input, out.Length, f, now))
    {
      if |input| < 3 || |input| < 3 + ReadU16(input, 1) {
        return 0, Some(InvalidCommand);
      }
      var ok := EnsureBundle(f);
      if !ok {
        return 0, Some(Failure);
      }
      n, reject := RegisterKey(input[3..3 + ReadU16(input, 1)], out, f, now);
    }

    /** The dispatch. `now` is the uptime in milliseconds. */
    method ProcessRequest(input: seq<u8>, out: array<u8>, f: Foreign, now: nat) returns (n: nat, reject: Option<Reject>)
      requires Valid() && out !in Buffers() && out.Length >= 5
      modifies this, guard, store, store.mKey, store.ring, settings, out
      modifies gBundle, gDevicePub, requestPreimage, responsePreimage, ackPreimage
      ensures Valid() && Did(out, n, reject, Process(verifier, old(state), input, out.Length, f, now))
    {
      if |input| < 1 {
        return 0, Some(InvalidCommand);
      }
      match input[0] {
        case 0xFF => n, reject := Echo(input, out);
        case 0x00 => n, reject := SendIdentity(input, out, f);
        case 0x02 => n, reject := ServeSigned(input, out, f);
        case 0x05 => n, reject := ServeRegister(input, out, f, now);
        case _ => return 0, Some(InvalidCommand);
      }
    }
  }
}
