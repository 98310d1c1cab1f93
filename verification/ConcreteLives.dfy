/** Lives worked out step by step: one that goes as promised, and two in which a registered client key is lost. */
module ConcreteLives {
  import opened Bytes
  import opened Envelope
  import opened History
  import opened Replay
  import opened ClientKey
  import opened Identity
  import opened Device
  import opened DeviceRuns
  import opened DeviceTheorems
  import opened FreshLives
  import opened ActiveKey
  import opened Replies

  function Key(b: u8): (key: seq<u8>)
    ensures |key| == KEY_LENGTH && key[0] == b
  {
    seq(KEY_LENGTH, _ => b)
  }

  const OLD := Key(1)
  const NEW := Key(2)

  /** Every foreign call succeeds. */
  const WORKING := Foreign(Some([9]), Attestation(true, true, _ => Some([]), Some([]), Some([])), true,
                           Storage(true, true, true), true, true, true, Some([7]), true)

  /** All but the save of the client key. */
  const UNSAVED := WORKING.(keySave := false)

  function Registration(key: seq<u8>, f: Foreign): Step {
    Request([TYPE_REGISTER_KEY] + Be16(|key|) + key, 512, f)
  }

  const COMMAND := Request(Signed(TYPE_SIGNED_REQUEST, 1, [], []), 512, WORKING)

  /** A key is registered and saved; after a reset another is registered before any signed request, and not saved. */
  const STEPS := [OpenWindow, Registration(OLD, WORKING), Restart, OpenWindow, Registration(NEW, UNSAVED)]

  lemma Builds(d: Device, f: Foreign)
    requires f == WORKING || f == UNSAVED
    ensures WithBundle(d, f).1
  {
    BundleSize(Ed25519, if d.signer.Some? then d.signer.value else [9], [], [], []);
  }

  lemma Registers(v: Verifier, w: World, key: seq<u8>, f: Foreign)
    requires (f == WORKING || f == UNSAVED) && MayRegister(w.device.keys, key, w.now)
    ensures var w' := Exec(v, w, Registration(key, f));
            && w'.device.keys == Stored(w.device.keys, key) && w'.device.replayReady == w.device.replayReady
            && w'.device.flash == (if f.keySave then w.device.flash.(clientKey := Some(key)) else w.device.flash)
    ensures Process(v, w.device, Registration(key, f).input, 512, f, w.now).reply == Sent(RegisterAck(key, [7]))
  {
    var input := Registration(key, f).input;
    Builds(w.device, f);
    assert input == [TYPE_REGISTER_KEY] + Be16(|key|) + key + [];
    KeyParsed(input, key, []);
  }

  lemma LivedStep(v: Verifier, steps: seq<Step>, k: nat)
    requires k < |steps|
    ensures Lived(v, steps[..k + 1]) == Exec(v, Lived(v, steps[..k]), steps[k])
  {
    assert steps[..k + 1][..k] == steps[..k];
  }

  /** Up to the first reset: the old key is in flash. */
  lemma FirstBoot(v: Verifier)
    ensures Lived(v, STEPS[..3]).device == Rebooted(Flash(None, Some(OLD)))
  {
    assert STEPS[..0] == [];
    LivedStep(v, STEPS, 0);
    Registers(v, Lived(v, STEPS[..1]), OLD, WORKING);
    LivedStep(v, STEPS, 1);
    LivedStep(v, STEPS, 2);
  }

  /** Up to the acknowledgement: the new key in RAM, the old one in flash, nothing initialised yet. */
  lemma SecondBoot(v: Verifier)
    ensures var d := Lived(v, STEPS).device;
            d.keys.key == Some(NEW) && d.flash == Flash(None, Some(OLD)) && !d.replayReady
    ensures var w := Lived(v, STEPS[..4]);
            Process(v, w.device, STEPS[4].input, 512, UNSAVED, w.now).reply == Sent(RegisterAck(NEW, [7]))
  {
    FirstBoot(v);
    LivedStep(v, STEPS, 3);
    Registers(v, Lived(v, STEPS[..4]), NEW, UNSAVED);
    LivedStep(v, STEPS, 4);
    assert STEPS[..5] == STEPS;
  }

  lemma Initialises(v: Verifier, d: Device, r: SignedRequest)
    requires KeysOk(d) && IdentityOk(d) && d.flash.ceiling == None
    ensures OnParsed(v, d, r, 512, WORKING).device.replayReady && Readied(d, WORKING).1
  {
    Builds(d, WORKING);
    ReadiedKeeps(d, WORKING);
    JudgedKeeps(v, Readied(d, WORKING).0, r, 512, WORKING);
  }

  lemma CommandParses()
    ensures Parses(COMMAND.input)
  {
    SignedRoundTrip(TYPE_SIGNED_REQUEST, 1, [], [], []);
    assert COMMAND.input + [] == COMMAND.input;
  }

  lemma CommandInitialises(v: Verifier)
    ensures Lived(v, STEPS + [COMMAND]).device.replayReady && Readied(Lived(v, STEPS).device, WORKING).1
  {
    SecondBoot(v);
    StandingFacts(v, STEPS);
    CommandParses();
    assert (STEPS + [COMMAND])[..|STEPS|] == STEPS;
    Initialises(v, Lived(v, STEPS).device, ParseSigned(COMMAND.input).value);
  }

  /**
   * The registration of `NEW` is acknowledged and `NEW` is the key registered last; the next signed request makes the
   * device hold `OLD`, with no reset and no registration in between.
   */
  lemma SilentlyReplaced(v: Verifier)
    ensures var w := Lived(v, STEPS[..4]);
            var reply := Process(v, w.device, STEPS[4].input, 512, UNSAVED, w.now).reply;
            reply.Sent? && AckIn(reply.bytes) == Some((NEW, [7]))
    ensures var w, w' := Lived(v, STEPS), Lived(v, STEPS + [COMMAND]);
            && w.device.keys.key == Active(w.log) == LastRegistered(w.log) == Some(NEW)
            && w'.device.keys.key == Some(OLD) && Active(w'.log) == Some(NEW)
            && Replacing(w, COMMAND)
  {
    SecondBoot(v);
    AckRoundTrip(NEW, [7]);
    CommandParses();
    CommandInitialises(v);
    FlashKey(v, STEPS);
    assert NEW[0] != OLD[0];
    MislaidExactly(v, STEPS, COMMAND);
  }

  // ---- Locked out ----

  /** All but the load of the client key. */
  const UNREADABLE := WORKING.(keyReadable := false)

  const UNREAD := Request(Signed(TYPE_SIGNED_REQUEST, 1, [], []), 512, UNREADABLE)

  lemma BuildsAnyway(d: Device)
    ensures WithBundle(d, UNREADABLE) == WithBundle(d, WORKING) && WithBundle(d, UNREADABLE).1
  {
    Builds(d, WORKING);
  }

  lemma UnreadReadied()
    ensures var (d, ready, _) := Readied(Rebooted(Flash(None, Some(OLD))), UNREADABLE);
            ready && d.replayReady && d.keys.key == None && d.keys.windowUntil == 0 && d.flash.clientKey == Some(OLD)
  {
    BuildsAnyway(Rebooted(Flash(None, Some(OLD))));
  }

  /**
   * A key is registered and saved; after a reset, one failed read of the entry leaves the device without it. The
   * request is refused, and so is every other until a reset or another registration: see `LockOutLasts`.
   */
  lemma ClientLockedOut(v: Verifier)
    ensures var w, w' := Lived(v, STEPS[..3]), Exec(v, Lived(v, STEPS[..3]), UNREAD);
            && w.device.flash.clientKey == Some(OLD) && Mislaying(w, UNREAD) && !Replacing(w, UNREAD)
            && Process(v, w.device, UNREAD.input, 512, UNREADABLE, w.now).reply == Sent([TYPE_AUTH_REJECT])
            && w'.device.flash.clientKey == Some(OLD) && LockedOut(w'.device)
  {
    var w := Lived(v, STEPS[..3]);
    FirstBoot(v);
    CommandParses();
    BuildsAnyway(w.device);
    UnreadReadied();
    ReplyOfParsed(v, w.device, ParseSigned(UNREAD.input).value, 512, UNREADABLE);
  }

  // ---- A command carried out ----

  const MESSAGE := Preimage(DIR_REQUEST, 1, [9], [])

  /** One signature is valid: that of the holder of `OLD` over `MESSAGE`. */
  function Only(key: seq<u8>, message: seq<u8>, signature: seq<u8>): bool {
    key == OLD && message == MESSAGE && signature == [3]
  }

  const ORDER := Request(Signed(TYPE_SIGNED_REQUEST, 1, [], [3]), 512, WORKING)

  /** A key is registered and saved; after a reset its holder signs a command, and the command arrives. */
  const HONEST := [OpenWindow, Registration(OLD, WORKING), Restart, ClientSigns(OLD, MESSAGE), ORDER]

  lemma OrderParses()
    ensures Parses(ORDER.input) && ParseSigned(ORDER.input) == Some(SignedRequest(1, [], [3]))
  {
    SignedRoundTrip(TYPE_SIGNED_REQUEST, 1, [], [3], []);
    assert ORDER.input + [] == ORDER.input;
  }

  lemma WorkingReadied(d: Device)
    requires d == Rebooted(Flash(None, Some(OLD)))
    ensures var (d1, ready, _) := Readied(d, WORKING);
            && ready && d1.devicePub == [9] && d1.keys == Keys(Some(OLD), 0, None, true) &&
               d1.guard == Guard(0, 64, true)
  {
    Builds(d, WORKING);
  }

  lemma BeforeOrder()
    ensures var w := Lived(Only, HONEST[..4]);
            && w.device == Rebooted(Flash(None, Some(OLD))) && ClientSigned(OLD, MESSAGE) in w.log
  {
    FirstBoot(Only);
    assert HONEST[..3] == STEPS[..3];
    LivedStep(Only, HONEST, 3);
    var log := Lived(Only, HONEST[..3]).log;
    assert (log + [ClientSigned(OLD, MESSAGE)])[|log|] == ClientSigned(OLD, MESSAGE);
  }

  lemma RegistrationsDoNotParse(key: seq<u8>, f: Foreign)
    ensures !Parses(Registration(key, f).input)
  {
  }

  lemma OrderAccepted()
    ensures exists e | e in Lived(Only, HONEST).log :: e.Accepted? && e.command == Command(1, [], [9], OLD)
  {
    var w := Lived(Only, HONEST[..4]);
    BeforeOrder();
    OrderParses();
    WorkingReadied(w.device);
    LivedStep(Only, HONEST, 4);
    assert HONEST[..5] == HONEST;
    var r := SignedRequest(1, [], [3]);
    var es := OnParsed(Only, w.device, r, 512, WORKING).events;
    var (d1, _, saves) := Readied(w.device, WORKING);
    var d2 := Authenticated(Only, d1, r, WORKING).0;
    EventsOfParsed(Only, w.device, r, 512, WORKING);
    assert Answered(d2, r, 512, WORKING).events[0] == Accepted(CommandOf(d2, r));
    assert es[|saves|] == Accepted(CommandOf(d2, r));
    assert Accepted(CommandOf(d2, r)) in w.log + es;
  }

  lemma {:induction false} FaultlessLife(v: Verifier, steps: seq<Step>)
    requires forall k | 0 <= k < |steps| ::
               var w := Lived(v, steps[..k]); !Offends(v, w, steps[k]) && !Mislaying(w, steps[k])
    ensures NeverOffends(v, steps) && NeverMislaid(v, steps)
  {
    if steps == [] {
    } else {
      var n := |steps| - 1;
      var init := steps[..n];
      forall k | 0 <= k < n
        ensures var w := Lived(v, init[..k]); !Offends(v, w, init[k]) && !Mislaying(w, init[k])
      {
        assert init[..k] == steps[..k];
      }
      FaultlessLife(v, init);
    }
  }

  lemma FlashAfter(d: Device)
    requires d == Rebooted(Flash(None, Some(OLD)))
    ensures Readied(d, WORKING).0.flash.ceiling == Some(64)
  {
    Builds(d, WORKING);
  }

  lemma OrderFaultless()
    ensures var w := Lived(Only, HONEST[..4]); !Offends(Only, w, ORDER) && !Mislaying(w, ORDER)
  {
    BeforeOrder();
    WorkingReadied(Lived(Only, HONEST[..4]).device);
    FlashAfter(Lived(Only, HONEST[..4]).device);
  }

  /** What the agreement theorems ask of a life can all be met, and then a command is accepted. */
  lemma CommandAccepted()
    ensures UnforgedLife(Only, HONEST) && NeverOffends(Only, HONEST) && NeverMislaid(Only, HONEST)
    ensures exists e | e in Lived(Only, HONEST).log :: e.Accepted? && e.command == Command(1, [], [9], OLD)
  {
    BeforeOrder();
    OrderParses();
    RegistrationsDoNotParse(OLD, WORKING);
    OrderFaultless();
    forall k | 0 <= k < |HONEST|
      ensures Unforged(Only, Lived(Only, HONEST[..k]), HONEST[k])
      ensures !Offends(Only, Lived(Only, HONEST[..k]), HONEST[k]) && !Mislaying(Lived(Only, HONEST[..k]), HONEST[k])
    {
      assert k == 1 || k == 4 || !(HONEST[k].Request? || HONEST[k].CrashIn?);
    }
    FaultlessLife(Only, HONEST);
    OrderAccepted();
  }
}
