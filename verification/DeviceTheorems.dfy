/** What holds in every life of the device. */
module DeviceTheorems {
  import opened Bytes
  import opened Envelope
  import opened History
  import opened Replay
  import opened ClientKey
  import opened Identity
  import opened Device
  import opened DeviceRuns

  // ---- Standing facts about the device's RAM ----

  /**
   * Key store: an imported handle holds the registered key; before lazy initialisation there is neither handle nor
   * button handler.
   */
  predicate KeysOk(d: Device) {
    && (d.keys.cached.Some? ==> d.keys.cached == d.keys.key)
    && (d.keys.key.Some? ==> |d.keys.key.value| == KEY_LENGTH)
    && (d.keys.handler <==> d.replayReady)
    && (!d.replayReady ==> d.keys.cached == None)
  }

  ghost predicate Carries(bundle: seq<u8>, key: seq<u8>) {
    exists rest :: |rest| == 3 && bundle == Bundle(Ed25519, [key] + rest)
  }

  /**
   * Identity: a cached bundle carries, as its first field, the very key bound into every preimage, and the signer
   * holds that key.
   */
  ghost predicate IdentityOk(d: Device) {
    && (d.replayReady ==> d.bundle != [])
    && |d.bundle| <= BUNDLE_CAPACITY
    && (d.bundle != [] ==>
          && d.signer == Some(d.devicePub)
          && Carries(d.bundle, d.devicePub))
  }

  lemma WithBundleKeeps(d: Device, f: Foreign)
    requires IdentityOk(d)
    ensures var (d', ok) := WithBundle(d, f);
            && IdentityOk(d') && (ok ==> d'.bundle != [])
            && d' == d.(signer := d'.signer, bundle := d'.bundle, devicePub := d'.devicePub)
  {
    var (d', ok) := WithBundle(d, f);
    if d.bundle == [] && ok {
      var signature := f.attestation.sign(AttestedBytes(Ed25519, d'.devicePub)).value;
      var rest := [signature, f.attestation.dac.value, f.attestation.pai.value];
      assert [d'.devicePub] + rest == [d'.devicePub, rest[0], rest[1], rest[2]];
      assert d'.bundle == Bundle(Ed25519, [d'.devicePub] + rest);
    }
  }

  lemma ReadiedKeeps(d: Device, f: Foreign)
    requires IdentityOk(d) && KeysOk(d)
    ensures var (d', ok, _) := Readied(d, f);
            IdentityOk(d') && KeysOk(d') && (ok ==> d'.replayReady) && d'.keys.windowUntil == d.keys.windowUntil
  {
    WithBundleKeeps(d, f);
  }

  lemma JudgedKeeps(v: Verifier, d: Device, r: SignedRequest, capacity: nat, f: Foreign)
    requires KeysOk(d)
    ensures var d' := Judged(v, d, r, capacity, f).device;
            && d' == d.(guard := d'.guard, flash := d.flash.(ceiling := d'.flash.ceiling),
                        keys := d.keys.(cached := d'.keys.cached))
            && (d'.keys.cached == d.keys.cached || (d.keys.key.Some? && d'.keys.cached == d.keys.key))
  {
  }

  lemma ParsedKeeps(v: Verifier, d: Device, r: SignedRequest, capacity: nat, f: Foreign)
    requires IdentityOk(d) && KeysOk(d)
    ensures var d' := OnParsed(v, d, r, capacity, f).device;
            IdentityOk(d') && KeysOk(d') && d'.keys.windowUntil == d.keys.windowUntil
  {
    ReadiedKeeps(d, f);
    JudgedKeeps(v, Readied(d, f).0, r, capacity, f);
  }

  lemma ProcessKeeps(v: Verifier, d: Device, input: seq<u8>, capacity: nat, f: Foreign, now: nat)
    requires IdentityOk(d) && KeysOk(d)
    ensures var d' := Process(v, d, input, capacity, f, now).device; IdentityOk(d') && KeysOk(d')
  {
    WithBundleKeeps(d, f);
    if Parses(input) {
      ParsedKeeps(v, d, ParseSigned(input).value, capacity, f);
    }
  }

  lemma {:induction false} StandingFacts(v: Verifier, steps: seq<Step>)
    ensures var d := Lived(v, steps).device; IdentityOk(d) && KeysOk(d)
  {
    if steps == [] {
    } else {
      var s := steps[|steps| - 1];
      StandingFacts(v, steps[..|steps| - 1]);
      if s.Request? {
        var w := Lived(v, steps[..|steps| - 1]);
        ProcessKeeps(v, w.device, s.input, s.capacity, s.f, w.now);
      }
    }
  }

  // ---- What the events of one request say ----

  /** The message a client must have signed for this command to be accepted. */
  function RequestMessage(c: Command): seq<u8> {
    Preimage(DIR_REQUEST, c.counter, c.deviceKey, c.payload)
  }

  /** A device signature answers the event right before it: an acceptance, or a registration at counter 0. */
  predicate Answers(cause: Event, e: Event) {
    e.DeviceSigned? && |e.deviceKey| <= PUBLIC_KEY_MAX &&
    match cause
    case Accepted(c) => e.message == Preimage(DIR_RESPONSE, c.counter, e.deviceKey, c.payload) &&
       c.deviceKey == e.deviceKey && 0 < c.counter
    case Registered(key, _, _) => e.message == Preimage(DIR_RESPONSE, 0, e.deviceKey, key)
    case _ => false
  }

  predicate EventOk(v: Verifier, d: Device, input: seq<u8>, now: nat, es: seq<Event>, k: nat)
    requires k < |es|
  {
    match es[k]
    case Accepted(c) => Parses(input) && v(c.clientKey, RequestMessage(c), ParseSigned(input).value.signature)
    case DeviceSigned(_, _) => k > 0 && Answers(es[k - 1], es[k])
    case Registered(key, at, _) => k == 0 && at == now && MayRegister(d.keys, key, now)
    case CeilingSaved(_) => true
    case _ => false
  }

  lemma SignaturesAnswer(d: Device, cause: Event, counter: u32, payload: seq<u8>, f: Foreign)
    requires d.signer == Some(d.devicePub)
    requires match cause
             case Accepted(c) => c.counter == counter > 0 && c.payload == payload && c.deviceKey == d.devicePub
             case Registered(key, _, _) => key == payload && counter == 0
             case _ => false
    ensures forall e | e in Signatures(d, counter, payload, f) :: Answers(cause, e)
  {
  }

  /** The same for an event of a signed request, whatever else the request was. */
  predicate SignedEventOk(v: Verifier, r: SignedRequest, es: seq<Event>, k: nat)
    requires k < |es|
  {
    match es[k]
    case Accepted(c) => v(c.clientKey, RequestMessage(c), r.signature)
    case DeviceSigned(_, _) => k > 0 && Answers(es[k - 1], es[k])
    case CeilingSaved(_) => true
    case _ => false
  }

  /** Identity known, key registered, and the signature good under that very key. */
  predicate Proven(v: Verifier, d: Device, r: SignedRequest) {
    && d.signer == Some(d.devicePub) && d.keys.key.Some?
    && v(d.keys.key.value, Preimage(DIR_REQUEST, r.counter, d.devicePub, r.payload), r.signature)
  }

  lemma AnsweredEvents(v: Verifier, d: Device, r: SignedRequest, capacity: nat, f: Foreign, k: nat)
    requires Proven(v, d, r) && k < |Answered(d, r, capacity, f).events|
    ensures SignedEventOk(v, r, Answered(d, r, capacity, f).events, k)
  {
    var e := Consumed(d.guard, r.counter, f.ceilingSave);
    var s, a, t := Saves(e.saved), Accepted(CommandOf(d, r)), Signatures(d, r.counter, r.payload, f);
    if e.ok {
      SignaturesAnswer(d, a, r.counter, r.payload, f);
      assert Answered(d, r, capacity, f).events == s + ([a] + t);
      assert (s + ([a] + t))[|s|] == a;
      if k > |s| {
        assert (s + ([a] + t))[k] == t[0];
      }
    }
  }

  lemma EventCore(v: Verifier, saves: seq<Event>, reached: bool, d: Device, r: SignedRequest, capacity: nat,
                  f: Foreign, k: nat)
    requires forall e | e in saves :: e.CeilingSaved?
    requires reached ==> Proven(v, d, r)
    requires k < |EventsOf(saves, reached, d, r, capacity, f)|
    ensures SignedEventOk(v, r, EventsOf(saves, reached, d, r, capacity, f), k)
  {
    if k >= |saves| {
      AnsweredEvents(v, d, r, capacity, f, k - |saves|);
    }
  }

  lemma ReachedProven(v: Verifier, d: Device, r: SignedRequest, f: Foreign)
    requires IdentityOk(d) && KeysOk(d) && Reaches(v, d, r, f)
    ensures Proven(v, Authenticated(v, Readied(d, f).0, r, f).0, r)
  {
    ReadiedKeeps(d, f);
  }

  lemma ReadiedSaves(d: Device, f: Foreign)
    ensures forall e | e in Readied(d, f).2 :: e.CeilingSaved?
  {
  }

  lemma ParsedEvents(v: Verifier, d: Device, r: SignedRequest, capacity: nat, f: Foreign, k: nat)
    requires IdentityOk(d) && KeysOk(d) && k < |OnParsed(v, d, r, capacity, f).events|
    ensures SignedEventOk(v, r, OnParsed(v, d, r, capacity, f).events, k)
  {
    ReadiedSaves(d, f);
    EventsOfParsed(v, d, r, capacity, f);
    if Reaches(v, d, r, f) {
      ReachedProven(v, d, r, f);
    }
    EventCore(v, Readied(d, f).2, Reaches(v, d, r, f), Authenticated(v, Readied(d, f).0, r, f).0, r, capacity, f, k);
  }

  lemma RegisterEvents(v: Verifier, d: Device, input: seq<u8>, capacity: nat, f: Foreign, now: nat, k: nat)
    requires IdentityOk(d) && k < |OnRegister(d, input, capacity, f, now).events|
    ensures EventOk(v, d, input, now, OnRegister(d, input, capacity, f, now).events, k)
  {
    WithBundleKeeps(d, f);
    var d1 := WithBundle(d, f).0;
    var key := input[3..3 + ReadU16(input, 1)];
    SignaturesAnswer(d1, Registered(key, now, f.keySave), 0, key, f);
  }

  lemma RequestEvents(v: Verifier, d: Device, input: seq<u8>, capacity: nat, f: Foreign, now: nat, k: nat)
    requires IdentityOk(d) && KeysOk(d) && k < |Process(v, d, input, capacity, f, now).events|
    ensures EventOk(v, d, input, now, Process(v, d, input, capacity, f, now).events, k)
  {
    if Parses(input) {
      ParsedEvents(v, d, ParseSigned(input).value, capacity, f, k);
    } else if input[0] == TYPE_REGISTER_KEY {
      RegisterEvents(v, d, input, capacity, f, now, k);
    }
  }

  // ---- Properties of each event in its past ----

  /** The log as it was right after its `i`-th event. */
  function Upto(log: seq<Event>, i: nat): seq<Event>
    requires i < |log|
  {
    log[..i + 1]
  }

  /** `at` is read on a log that ends with the event in question. */
  ghost predicate Always(at: seq<Event> -> bool, log: seq<Event>) {
    forall i | 0 <= i < |log| :: at(Upto(log, i))
  }

  /** Every one of the new events `es` behind `log`. */
  ghost predicate AlwaysNew(at: seq<Event> -> bool, log: seq<Event>, es: seq<Event>) {
    forall i | |log| <= i < |log + es| :: at(Upto(log + es, i))
  }

  lemma AlwaysPrefix(at: seq<Event> -> bool, log: seq<Event>, log': seq<Event>)
    requires Always(at, log) && log' <= log
    ensures Always(at, log')
  {
    forall i | 0 <= i < |log'| ensures at(Upto(log', i)) {
      assert Upto(log', i) == Upto(log, i);
    }
  }

  lemma AlwaysExtended(at: seq<Event> -> bool, log: seq<Event>, es: seq<Event>)
    requires Always(at, log) && AlwaysNew(at, log, es)
    ensures Always(at, log + es)
  {
    forall i | 0 <= i < |log + es| ensures at(Upto(log + es, i)) {
      if i < |log| {
        assert Upto(log + es, i) == Upto(log, i);
      }
    }
  }

  lemma AlwaysAppended(at: seq<Event> -> bool, log: seq<Event>, e: Event)
    requires Always(at, log) && at(log + [e])
    ensures Always(at, log + [e])
  {
    assert Upto(log + [e], |log|) == log + [e];
    AlwaysExtended(at, log, [e]);
  }

  predicate Incidental(e: Event) {
    e.WindowOpened? || e.ClientSigned? || e.Restarted?
  }

  lemma CrashAlways(at: seq<Event> -> bool, log: seq<Event>, es: seq<Event>, k: nat)
    requires Always(at, log) && AlwaysNew(at, log, es)
    requires forall p, e :: Incidental(e) ==> at(p + [e])
    ensures Always(at, log + Cut(es, k) + [Restarted])
  {
    AlwaysExtended(at, log, es);
    AlwaysPrefix(at, log + es, log + Cut(es, k));
    AlwaysAppended(at, log + Cut(es, k), Restarted);
  }

  /** The events of one step; a reset inside a request keeps a prefix of its events. */
  lemma StepAlways(at: seq<Event> -> bool, v: Verifier, w: World, s: Step)
    requires Always(at, w.log)
    requires forall p, e :: Incidental(e) ==> at(p + [e])
    requires s.Request? || s.CrashIn? ==>
             AlwaysNew(at, w.log, Process(v, w.device, s.input, s.capacity, s.f, w.now).events)
    ensures Always(at, Exec(v, w, s).log)
  {
    match s
    case Request(input, capacity, f) =>
      AlwaysExtended(at, w.log, Process(v, w.device, input, capacity, f, w.now).events);
    case CrashIn(input, capacity, f, k) =>
      CrashAlways(at, w.log, Process(v, w.device, input, capacity, f, w.now).events, k);
    case Press => AlwaysAppended(at, w.log, WindowOpened(w.now));
    case OpenWindow => AlwaysAppended(at, w.log, WindowOpened(w.now));
    case Elapse(_) =>
    case Restart => AlwaysAppended(at, w.log, Restarted);
    case ClientSigns(key, message) => AlwaysAppended(at, w.log, ClientSigned(key, message));
  }

  function Last(p: seq<Event>): Event
    requires p != []
  {
    p[|p| - 1]
  }

  function Past(p: seq<Event>): seq<Event>
    requires p != []
  {
    p[..|p| - 1]
  }

  /** An accepted command was signed, before, by the holder of the client key it was checked under. */
  predicate Backed(p: seq<Event>) {
    p != [] && (Last(p).Accepted? ==>
      ClientSigned(Last(p).command.clientKey, RequestMessage(Last(p).command)) in Past(p))
  }

  /** A device signature answers the event right before it. */
  predicate Caused(p: seq<Event>) {
    p != [] && (Last(p).DeviceSigned? ==> |p| > 1 && Answers(p[|p| - 2], Last(p)))
  }

  predicate Untouched(p: seq<Event>, i: nat, j: nat) {
    forall m | i < m < j && m < |p| :: !p[m].Registered? && !p[m].Restarted?
  }

  /** A registration lies within 60 s of a window opening, with no other registration and no reset since. */
  predicate Present(p: seq<Event>) {
    p != [] && (Last(p).Registered? ==>
      exists i | 0 <= i < |p| - 1 ::
        p[i].WindowOpened? && p[i].at <= Last(p).at < p[i].at + WINDOW_MS && Untouched(p, i, |p| - 1))
  }

  /** A signature over the message was made under the key, by a client or by the device itself. */
  predicate Made(log: seq<Event>, key: seq<u8>, message: seq<u8>) {
    ClientSigned(key, message) in log || DeviceSigned(key, message) in log
  }

  /**
   * No signature in the input verifies that was not made: clients' signatures and the device's own may be sent
   * back.
   */
  ghost predicate NothingForged(v: Verifier, log: seq<Event>, input: seq<u8>) {
    Parses(input) ==>
      forall key, message :: v(key, message, ParseSigned(input).value.signature) ==> Made(log, key, message)
  }

  /** Signatures cannot be forged: what verifies in a request was signed under that key beforehand. */
  ghost predicate Unforged(v: Verifier, w: World, s: Step) {
    s.Request? || s.CrashIn? ==> NothingForged(v, w.log, s.input)
  }

  ghost predicate UnforgedLife(v: Verifier, steps: seq<Step>) {
    forall k | 0 <= k < |steps| :: Unforged(v, Lived(v, steps[..k]), steps[k])
  }

  lemma LastOf(log: seq<Event>, es: seq<Event>, i: nat)
    requires |log| <= i < |log + es|
    ensures var p, k := Upto(log + es, i), i - |log|;
            && p != [] && Last(p) == es[k] && log <= Past(p) && |p| == i + 1
            && (k > 0 ==> p[|p| - 2] == es[k - 1])
  {
  }

  ghost predicate EventsOk(v: Verifier, d: Device, input: seq<u8>, now: nat, es: seq<Event>) {
    forall k | 0 <= k < |es| :: EventOk(v, d, input, now, es, k)
  }

  lemma AllRequestEvents(v: Verifier, d: Device, input: seq<u8>, capacity: nat, f: Foreign, now: nat)
    requires IdentityOk(d) && KeysOk(d)
    ensures EventsOk(v, d, input, now, Process(v, d, input, capacity, f, now).events)
  {
    forall k | 0 <= k < |Process(v, d, input, capacity, f, now).events|
      ensures EventOk(v, d, input, now, Process(v, d, input, capacity, f, now).events, k)
    {
      RequestEvents(v, d, input, capacity, f, now, k);
    }
  }

  /** The direction byte: what the device signs is never a request, so sending its signatures back achieves nothing. */
  lemma NeverRequest(log: seq<Event>, key: seq<u8>, c: Command)
    requires Always(Caused, log)
    ensures DeviceSigned(key, RequestMessage(c)) !in log
  {
    if DeviceSigned(key, RequestMessage(c)) in log {
      var i :| 0 <= i < |log| && log[i] == DeviceSigned(key, RequestMessage(c));
      assert Caused(Upto(log, i));
      assert Upto(log, i)[i] == log[i];
      var cause := Upto(log, i)[i - 1];
      assert Answers(cause, log[i]);
      match cause
      case Accepted(d) =>
        PreimageCollision(DIR_REQUEST, c.counter, c.deviceKey, c.payload, DIR_RESPONSE, d.counter, key, d.payload);
      case Registered(stored, _, _) =>
        PreimageCollision(DIR_REQUEST, c.counter, c.deviceKey, c.payload, DIR_RESPONSE, 0, key, stored);
    }
  }

  lemma BackedNew(v: Verifier, d: Device, input: seq<u8>, now: nat, es: seq<Event>, log: seq<Event>)
    requires EventsOk(v, d, input, now, es) && NothingForged(v, log, input) && Always(Caused, log)
    ensures AlwaysNew(Backed, log, es)
  {
    forall i | |log| <= i < |log + es| ensures Backed(Upto(log + es, i)) {
      var k := i - |log|;
      assert EventOk(v, d, input, now, es, k);
      LastOf(log, es, i);
      if es[k].Accepted? {
        var c := es[k].command;
        assert Made(log, c.clientKey, RequestMessage(c));
        NeverRequest(log, c.clientKey, c);
      }
    }
  }

  lemma CausedNew(v: Verifier, d: Device, input: seq<u8>, now: nat, es: seq<Event>, log: seq<Event>)
    requires EventsOk(v, d, input, now, es)
    ensures AlwaysNew(Caused, log, es)
  {
    forall i | |log| <= i < |log + es| ensures Caused(Upto(log + es, i)) {
      assert EventOk(v, d, input, now, es, i - |log|);
      LastOf(log, es, i);
    }
  }

  /** The opening behind an open window. */
  predicate OpeningAt(log: seq<Event>, i: nat, until: nat, now: nat) {
    i < |log| && log[i].WindowOpened? && log[i].at + WINDOW_MS == until && log[i].at <= now && Untouched(log, i, |log|)
  }

  ghost predicate WindowOk(w: World) {
    w.device.keys.windowUntil != 0 ==> exists i :: OpeningAt(w.log, i, w.device.keys.windowUntil, w.now)
  }

  lemma PresentNew(v: Verifier, d: Device, input: seq<u8>, now: nat, es: seq<Event>, log: seq<Event>)
    requires EventsOk(v, d, input, now, es)
    requires d.keys.windowUntil != 0 ==> exists i :: OpeningAt(log, i, d.keys.windowUntil, now)
    ensures AlwaysNew(Present, log, es)
  {
    forall i | |log| <= i < |log + es| ensures Present(Upto(log + es, i)) {
      assert EventOk(v, d, input, now, es, i - |log|);
      LastOf(log, es, i);
      var p := Upto(log + es, i);
      if Last(p).Registered? {
        var j: nat :| OpeningAt(log, j, d.keys.windowUntil, now);
        assert p[j] == log[j] && |p| == |log| + 1;
        assert Untouched(p, j, |p| - 1);
      }
    }
  }

  lemma BackedStep(v: Verifier, w: World, s: Step)
    requires IdentityOk(w.device) && KeysOk(w.device) && Unforged(v, w, s) && Always(Caused, w.log) &&
             Always(Backed, w.log)
    ensures Always(Backed, Exec(v, w, s).log)
  {
    if s.Request? || s.CrashIn? {
      AllRequestEvents(v, w.device, s.input, s.capacity, s.f, w.now);
      BackedNew(v, w.device, s.input, w.now, Process(v, w.device, s.input, s.capacity, s.f, w.now).events, w.log);
    }
    StepAlways(Backed, v, w, s);
  }

  lemma CausedStep(v: Verifier, w: World, s: Step)
    requires IdentityOk(w.device) && KeysOk(w.device) && Always(Caused, w.log)
    ensures Always(Caused, Exec(v, w, s).log)
  {
    if s.Request? || s.CrashIn? {
      AllRequestEvents(v, w.device, s.input, s.capacity, s.f, w.now);
      CausedNew(v, w.device, s.input, w.now, Process(v, w.device, s.input, s.capacity, s.f, w.now).events, w.log);
    }
    StepAlways(Caused, v, w, s);
  }

  lemma PresentStep(v: Verifier, w: World, s: Step)
    requires IdentityOk(w.device) && KeysOk(w.device) && Always(Present, w.log) && WindowOk(w)
    ensures Always(Present, Exec(v, w, s).log)
  {
    if s.Request? || s.CrashIn? {
      AllRequestEvents(v, w.device, s.input, s.capacity, s.f, w.now);
      PresentNew(v, w.device, s.input, w.now, Process(v, w.device, s.input, s.capacity, s.f, w.now).events, w.log);
    }
    StepAlways(Present, v, w, s);
  }

  // ---- The registration window ----

  predicate Quiet(es: seq<Event>) {
    forall e | e in es :: !e.Registered? && !e.Restarted? && !e.WindowOpened?
  }

  lemma ParsedQuiet(v: Verifier, d: Device, r: SignedRequest, capacity: nat, f: Foreign)
    requires IdentityOk(d) && KeysOk(d)
    ensures Quiet(OnParsed(v, d, r, capacity, f).events)
  {
    forall e | e in OnParsed(v, d, r, capacity, f).events ensures !e.Registered? && !e.Restarted? && !e.WindowOpened? {
      var k :| 0 <= k < |OnParsed(v, d, r, capacity, f).events| && OnParsed(v, d, r, capacity, f).events[k] == e;
      ParsedEvents(v, d, r, capacity, f, k);
    }
  }

  /** The window left alone, or a key registered, which is the first event, and the window shut. */
  predicate WindowMove(d: Device, o: Outcome) {
    || (o.device.keys.windowUntil == d.keys.windowUntil && Quiet(o.events))
    || (&& o.device.keys.windowUntil == 0 && d.keys.windowUntil != 0
        && o.events != [] && o.events[0].Registered? && Quiet(o.events[1..]))
  }

  lemma SignedWindow(v: Verifier, d: Device, input: seq<u8>, capacity: nat, f: Foreign)
    requires IdentityOk(d) && KeysOk(d)
    ensures WindowMove(d, OnSigned(v, d, input, capacity, f))
  {
    if ParseSigned(input).Some? {
      ParsedQuiet(v, d, ParseSigned(input).value, capacity, f);
      ParsedKeeps(v, d, ParseSigned(input).value, capacity, f);
    }
  }

  lemma IdleWindow(d: Device, o: Outcome)
    requires o.events == [] && o.device.keys == d.keys
    ensures WindowMove(d, o)
  {
  }

  lemma RegistrationWindow(d: Device, input: seq<u8>, capacity: nat, f: Foreign, now: nat)
    ensures WindowMove(d, OnRegister(d, input, capacity, f, now))
  {
  }

  /** A request leaves the window alone, or registers a key, which is its first event, and shuts it. */
  lemma WindowOfRequest(v: Verifier, d: Device, input: seq<u8>, capacity: nat, f: Foreign, now: nat)
    requires IdentityOk(d) && KeysOk(d)
    ensures WindowMove(d, Process(v, d, input, capacity, f, now))
  {
    SignedWindow(v, d, input, capacity, f);
    RegistrationWindow(d, input, capacity, f, now);
    IdleWindow(d, OnEcho(d, input, capacity));
    IdleWindow(d, OnIdentity(d, input, capacity, f));
    IdleWindow(d, Outcome(d, Rejected(InvalidCommand), []));
  }

  lemma QuietWindow(log: seq<Event>, es: seq<Event>, until: nat, now: nat)
    requires until != 0 ==> exists i :: OpeningAt(log, i, until, now)
    requires Quiet(es)
    ensures until != 0 ==> exists i :: OpeningAt(log + es, i, until, now)
  {
    if until != 0 {
      var i: nat :| OpeningAt(log, i, until, now);
      assert OpeningAt(log + es, i, until, now);
    }
  }

  lemma WindowStep(v: Verifier, w: World, s: Step)
    requires IdentityOk(w.device) && KeysOk(w.device) && WindowOk(w)
    ensures WindowOk(Exec(v, w, s))
  {
    var until := w.device.keys.windowUntil;
    match s
    case Request(input, capacity, f) =>
      var o := Process(v, w.device, input, capacity, f, w.now);
      WindowOfRequest(v, w.device, input, capacity, f, w.now);
      if Quiet(o.events) {
        QuietWindow(w.log, o.events, until, w.now);
      }
    case CrashIn(_, _, _, _) =>
    case Press =>
      if w.device.keys.handler {
        assert OpeningAt(w.log + [WindowOpened(w.now)], |w.log|, w.now + WINDOW_MS, w.now);
      }
    case OpenWindow => assert OpeningAt(w.log + [WindowOpened(w.now)], |w.log|, w.now + WINDOW_MS, w.now);
    case Elapse(ms) =>
      if until != 0 {
        var i: nat :| OpeningAt(w.log, i, until, w.now);
        assert OpeningAt(w.log, i, until, w.now + ms);
      }
    case Restart =>
    case ClientSigns(key, message) => QuietWindow(w.log, [ClientSigned(key, message)], until, w.now);
  }

  function Registrations(log: seq<Event>): nat {
    if log == [] then 0 else Registrations(log[..|log| - 1]) + if log[|log| - 1].Registered? then 1 else 0
  }

  function Openings(log: seq<Event>): nat {
    if log == [] then 0 else Openings(log[..|log| - 1]) + if log[|log| - 1].WindowOpened? then 1 else 0
  }

  lemma {:induction false} CountConcat(s: seq<Event>, t: seq<Event>)
    ensures Registrations(s + t) == Registrations(s) + Registrations(t)
    ensures Openings(s + t) == Openings(s) + Openings(t)
  {
    if t == [] {
      assert s + t == s;
    } else {
      assert (s + t)[..|s + t| - 1] == s + t[..|t| - 1];
      CountConcat(s, t[..|t| - 1]);
    }
  }

  lemma CountOne(log: seq<Event>, e: Event)
    ensures Registrations(log + [e]) == Registrations(log) + if e.Registered? then 1 else 0
    ensures Openings(log + [e]) == Openings(log) + if e.WindowOpened? then 1 else 0
  {
    assert (log + [e])[..|log|] == log;
  }

  lemma {:induction false} CountQuiet(es: seq<Event>)
    requires Quiet(es)
    ensures Registrations(es) == 0 && Openings(es) == 0
  {
    if es == [] {
    } else {
      CountQuiet(es[..|es| - 1]);
    }
  }

  /** Any prefix of a request's events holds at most one registration, and none unless the window was open. */
  lemma CountOfRequest(es: seq<Event>, k: nat)
    requires es != [] && es[0].Registered? && Quiet(es[1..])
    ensures Registrations(Cut(es, k)) <= 1 && Openings(Cut(es, k)) == 0 && Registrations(es) <= 1 && Openings(es) == 0
  {
    assert Cut(es, k) == [] || (Cut(es, k) == [es[0]] + Cut(es, k)[1..] && Cut(es, k)[1..] <= es[1..]);
    CountOne([], es[0]);
    assert [] + [es[0]] == [es[0]];
    if Cut(es, k) != [] {
      assert Quiet(Cut(es, k)[1..]);
      CountConcat([es[0]], Cut(es, k)[1..]);
      CountQuiet(Cut(es, k)[1..]);
    }
    assert es == [es[0]] + es[1..];
    CountConcat([es[0]], es[1..]);
    CountQuiet(es[1..]);
  }

  /** One registration per opening, a window still open not yet counted. */
  predicate Balanced(w: World) {
    Registrations(w.log) + (if w.device.keys.windowUntil != 0 then 1 else 0) <= Openings(w.log)
  }

  lemma BalancedRequest(v: Verifier, w: World, input: seq<u8>, capacity: nat, f: Foreign, k: nat)
    requires IdentityOk(w.device) && KeysOk(w.device) && Balanced(w)
    ensures var o := Process(v, w.device, input, capacity, f, w.now);
            && Registrations(w.log + Cut(o.events, k)) <= Openings(w.log + Cut(o.events, k))
            && Registrations(w.log + o.events) + (if o.device.keys.windowUntil != 0 then 1 else 0)
               <= Openings(w.log + o.events)
  {
    var o := Process(v, w.device, input, capacity, f, w.now);
    WindowOfRequest(v, w.device, input, capacity, f, w.now);
    CountConcat(w.log, o.events);
    CountConcat(w.log, Cut(o.events, k));
    if Quiet(o.events) {
      assert Quiet(Cut(o.events, k));
      CountQuiet(o.events);
      CountQuiet(Cut(o.events, k));
    } else {
      CountOfRequest(o.events, k);
    }
  }

  lemma BalancedStep(v: Verifier, w: World, s: Step)
    requires IdentityOk(w.device) && KeysOk(w.device) && Balanced(w)
    ensures Balanced(Exec(v, w, s))
  {
    match s
    case Request(input, capacity, f) =>
      BalancedRequest(v, w, input, capacity, f, |Process(v, w.device, input, capacity, f, w.now).events|);
    case CrashIn(input, capacity, f, k) =>
      BalancedRequest(v, w, input, capacity, f, k);
      CountOne(w.log + Cut(Process(v, w.device, input, capacity, f, w.now).events, k), Restarted);
    case Press => CountOne(w.log, WindowOpened(w.now));
    case OpenWindow => CountOne(w.log, WindowOpened(w.now));
    case Elapse(_) =>
    case Restart => CountOne(w.log, Restarted);
    case ClientSigns(key, message) => CountOne(w.log, ClientSigned(key, message));
  }
}
