/** The promises of the tunnel, over every life of the device. */
module MainTheorems {
  import opened Bytes
  import opened Envelope
  import opened History
  import opened ClientKey
  import opened Device
  import opened DeviceRuns
  import opened DeviceTheorems
  import opened CrashSafety
  import opened FreshLives
  import GuardRuns

  // ---- Counters: once each, in order, covered by flash ----

  lemma {:induction false} CountersPrefix(log: seq<Event>, k: nat)
    requires k <= |log|
    ensures Counters(log[..k]) <= Counters(log)
  {
    if k == |log| {
      assert log[..k] == log;
    } else {
      assert log[..|log| - 1][..k] == log[..k];
      CountersPrefix(log[..|log| - 1], k);
    }
  }

  lemma {:induction false} CounterIn(log: seq<Event>, i: nat)
    requires i < |log| && log[i].Accepted?
    ensures log[i].command.counter in Counters(log)
  {
    if i < |log| - 1 {
      CounterIn(log[..|log| - 1], i);
    }
  }

  lemma CountersInOrder(log: seq<Event>, i: nat, j: nat)
    requires i < j < |log| && log[i].Accepted? && log[j].Accepted? && GuardRuns.Increasing(Counters(log))
    ensures log[i].command.counter < log[j].command.counter
  {
    CountersPrefix(log, j + 1);
    assert log[..j + 1][..j] == log[..j];
    CounterIn(log[..j], i);
    var s := Counters(log[..j]);
    assert Counters(log[..j + 1]) == s + [log[j].command.counter];
    var a :| 0 <= a < |s| && s[a] == log[i].command.counter;
    assert Counters(log)[a] == s[a] && Counters(log)[|s|] == log[j].command.counter;
  }

  ghost predicate InOrder(log: seq<Event>) {
    forall i, j | 0 <= i < j < |log| && log[i].Accepted? && log[j].Accepted? ::
      log[i].command.counter < log[j].command.counter
  }

  /** In every life in which no step offends, counters are accepted in strictly increasing order, across all resets. */
  lemma CountersIncrease(v: Verifier, steps: seq<Step>)
    requires NeverOffends(v, steps)
    ensures InOrder(Lived(v, steps).log)
  {
    FreshExactly(v, steps);
    var log := Lived(v, steps).log;
    forall i, j | 0 <= i < j < |log| && log[i].Accepted? && log[j].Accepted?
      ensures log[i].command.counter < log[j].command.counter
    {
      CountersInOrder(log, i, j);
    }
  }

  /**
   * Freshness over a whole life with reliable storage, resets striking anywhere: counters are accepted in strictly
   * increasing order, none is zero, each is covered by the ceiling in flash, and flash is written once per 64
   * counters at most.
   */
  lemma AcceptedInOrder(v: Verifier, steps: seq<Step>)
    requires Sound(v, steps)
    ensures var w := Lived(v, steps);
            && InOrder(w.log)
            && (forall c | c in Counters(w.log) :: 0 < c < w.device.flash.ceiling.GetOr(0))
            && 64 * CeilingWrites(w.log) <= w.device.flash.ceiling.GetOr(0)
  {
    CoveredExactly(v, steps);
    SoundIsFresh(v, steps);
    CountersIncrease(v, steps);
  }

  // ---- Flash wear ----

  lemma {:induction false} AllMovesLoad(v: Verifier, steps: seq<Step>)
    requires forall s | s in steps :: LoadsFine(s)
    ensures forall m | m in AllMoves(v, steps) :: GuardRuns.LoadsWork(m)
  {
    if steps == [] {
    } else {
      var init, s := steps[..|steps| - 1], steps[|steps| - 1];
      AllMovesLoad(v, init);
      MovesShape(v, Lived(v, init), s);
    }
  }

  /**
   * Over the whole life of a device whose loads work: 64 counters per ceiling write, and so at most 2^26 - 1
   * writes.
   */
  lemma WritesOfLife(v: Verifier, steps: seq<Step>)
    requires forall s | s in steps :: LoadsFine(s)
    ensures var w := Lived(v, steps);
            64 * CeilingWrites(w.log) <= w.device.flash.ceiling.GetOr(0) && CeilingWrites(w.log) < 0x400_0000
  {
    var ms := AllMoves(v, steps);
    AllMovesLoad(v, steps);
    LifeRefines(v, steps);
    GuardRuns.LifetimeWrites(ms);
    assert ms[..|ms|] == ms;
  }

  /** From its `m`-th step on, the life takes place within one boot. */
  predicate OneBoot(steps: seq<Step>, m: nat)
    requires m <= |steps|
  {
    forall k | m <= k < |steps| :: !steps[k].Restart? && !steps[k].CrashIn?
  }

  /** The guard's moves from the `m`-th step on. */
  function MovesFrom(v: Verifier, steps: seq<Step>, m: nat): seq<GuardRuns.Move>
    requires m <= |steps|
  {
    if m == |steps| then []
    else MovesFrom(v, steps[..|steps| - 1], m) + Moves(v, Lived(v, steps[..|steps| - 1]), steps[|steps| - 1])
  }

  lemma ReadyMoves(v: Verifier, w: World, s: Step)
    requires IdentityOk(w.device) && KeysOk(w.device) && w.device.replayReady && !s.Restart? && !s.CrashIn?
    ensures Exec(v, w, s).device.replayReady && forall m | m in Moves(v, w, s) :: m.Use?
  {
  }

  lemma {:induction false} OneBootRefines(v: Verifier, steps: seq<Step>, m: nat)
    requires m <= |steps| && OneBoot(steps, m) && Lived(v, steps[..m]).device.replayReady
    ensures var w, w', ms := Lived(v, steps[..m]), Lived(v, steps), MovesFrom(v, steps, m);
            && w'.device.replayReady && (forall x | x in ms :: x.Use?)
            && View(w'.device, w'.log) == GuardRuns.After(View(w.device, w.log), ms)
  {
    if m == |steps| {
      assert steps[..m] == steps;
    } else {
      var init, s := steps[..|steps| - 1], steps[|steps| - 1];
      assert init[..m] == steps[..m];
      OneBootRefines(v, init, m);
      StandingFacts(v, init);
      ReadyMoves(v, Lived(v, init), s);
      StepRefines(v, Lived(v, init), s);
      AfterConcat(View(Lived(v, steps[..m]).device, Lived(v, steps[..m]).log), MovesFrom(v, init, m),
                  Moves(v, Lived(v, init), s));
    }
  }

  /** Within one boot of the device, `n` consecutive accepted counters cost at most ceil(n / 64) ceiling writes. */
  lemma WritesOfBoot(v: Verifier, steps: seq<Step>, m: nat, n: nat)
    requires m <= |steps| && OneBoot(steps, m) && Lived(v, steps[..m]).device.replayReady
    requires var first, all := |Counters(Lived(v, steps[..m]).log)|, Counters(Lived(v, steps).log);
             |all| == first + n && forall i | first <= i < |all| :: all[i] == all[first] + i - first
    ensures CeilingWrites(Lived(v, steps).log) - CeilingWrites(Lived(v, steps[..m]).log) <= (n + 63) / 64
  {
    OneBootRefines(v, steps, m);
    GuardRuns.WritesPerBoot(View(Lived(v, steps[..m]).device, Lived(v, steps[..m]).log), MovesFrom(v, steps, m), n);
  }

  // ---- What device signatures are about ----

  lemma {:induction false} CausedLife(v: Verifier, steps: seq<Step>)
    ensures Always(Caused, Lived(v, steps).log)
  {
    if steps == [] {
    } else {
      CausedLife(v, steps[..|steps| - 1]);
      StandingFacts(v, steps[..|steps| - 1]);
      CausedStep(v, Lived(v, steps[..|steps| - 1]), steps[|steps| - 1]);
    }
  }

  // ---- Injective agreement ----

  lemma {:induction false} BackedLife(v: Verifier, steps: seq<Step>)
    requires UnforgedLife(v, steps)
    ensures Always(Backed, Lived(v, steps).log)
  {
    if steps == [] {
    } else {
      var init, s := steps[..|steps| - 1], steps[|steps| - 1];
      forall k | 0 <= k < |init| ensures Unforged(v, Lived(v, init[..k]), init[k]) {
        assert init[..k] == steps[..k];
        assert Unforged(v, Lived(v, steps[..k]), steps[k]);
      }
      BackedLife(v, init);
      StandingFacts(v, init);
      CausedLife(v, init);
      assert Unforged(v, Lived(v, steps[..|init|]), steps[|init|]);
      BackedStep(v, Lived(v, init), s);
    }
  }

  lemma RequestsDistinct(log: seq<Event>)
    requires InOrder(log)
    ensures forall i, j | 0 <= i < j < |log| && log[i].Accepted? && log[j].Accepted? ::
              RequestMessage(log[i].command) != RequestMessage(log[j].command)
  {
    forall i, j | 0 <= i < j < |log| && log[i].Accepted? && log[j].Accepted?
      ensures RequestMessage(log[i].command) != RequestMessage(log[j].command)
    {
      var a, b := log[i].command, log[j].command;
      PreimageCollision(DIR_REQUEST, a.counter, a.deviceKey, a.payload, DIR_REQUEST, b.counter, b.deviceKey, b.payload);
    }
  }

  lemma AllBacked(log: seq<Event>)
    requires Always(Backed, log)
    ensures forall i | 0 <= i < |log| && log[i].Accepted? ::
              ClientSigned(log[i].command.clientKey, RequestMessage(log[i].command)) in log[..i]
  {
    forall i | 0 <= i < |log| && log[i].Accepted?
      ensures ClientSigned(log[i].command.clientKey, RequestMessage(log[i].command)) in log[..i]
    {
      assert Backed(Upto(log, i));
      assert Past(Upto(log, i)) == log[..i];
    }
  }

  /**
   * If signatures cannot be forged, those of the device being at hand to send back: every command accepted, in any
   * life, is backed by an earlier signature of the client key's holder over exactly this counter, payload and
   * device, as a request. If moreover no step offends, no two acceptances share that signed message, so nothing a
   * client signed once is ever executed twice.
   */
  lemma InjectiveAgreement(v: Verifier, steps: seq<Step>)
    requires UnforgedLife(v, steps)
    ensures var log := Lived(v, steps).log;
            && (forall i | 0 <= i < |log| && log[i].Accepted? ::
                  ClientSigned(log[i].command.clientKey, RequestMessage(log[i].command)) in log[..i])
            && (NeverOffends(v, steps) ==>
                  forall i, j | 0 <= i < j < |log| && log[i].Accepted? && log[j].Accepted? ::
                    RequestMessage(log[i].command) != RequestMessage(log[j].command))
  {
    BackedLife(v, steps);
    AllBacked(Lived(v, steps).log);
    if NeverOffends(v, steps) {
      CountersIncrease(v, steps);
      RequestsDistinct(Lived(v, steps).log);
    }
  }

  // ---- Device signatures ----

  /** Each device signature follows its cause at once. */
  lemma SignatureCause(v: Verifier, steps: seq<Step>, i: nat)
    requires i < |Lived(v, steps).log| && Lived(v, steps).log[i].DeviceSigned?
    ensures 0 < i && Answers(Lived(v, steps).log[i - 1], Lived(v, steps).log[i])
  {
    CausedLife(v, steps);
    var log := Lived(v, steps).log;
    assert Caused(Upto(log, i));
    assert Upto(log, i)[i - 1] == log[i - 1] || i == 0;
  }

  /**
   * What a client may conclude from a device signature over a response preimage, in any life at all: at a counter
   * other than 0 exactly this counter and payload were accepted; at counter 0 exactly this byte string was
   * registered as a client key.
   */
  lemma ResponseMeaning(v: Verifier, steps: seq<Step>, i: nat, counter: u32, payload: seq<u8>)
    requires i < |Lived(v, steps).log| && Lived(v, steps).log[i].DeviceSigned?
    requires Lived(v, steps).log[i].message
             == Preimage(DIR_RESPONSE, counter, Lived(v, steps).log[i].deviceKey, payload)
    ensures var log := Lived(v, steps).log;
            && 0 < i
            && (counter != 0 <==> log[i - 1].Accepted?)
            && (log[i - 1].Accepted? ==> log[i - 1].command.counter == counter && log[i - 1].command.payload == payload
                                         && log[i - 1].command.deviceKey == log[i].deviceKey)
            && (counter == 0 <==> log[i - 1].Registered?)
            && (log[i - 1].Registered? ==> log[i - 1].key == payload)
  {
    SignatureCause(v, steps, i);
    var log := Lived(v, steps).log;
    var key := log[i].deviceKey;
    match log[i - 1]
    case Accepted(c) => PreimageInjective(DIR_RESPONSE, c.counter, key, c.payload, DIR_RESPONSE, counter, key, payload);
    case Registered(stored, _, _) =>
      PreimageInjective(DIR_RESPONSE, 0, key, stored, DIR_RESPONSE, counter, key, payload);
    case _ =>
  }

  function CauseOf(e: Event): (u32, seq<u8>) {
    match e
    case Accepted(c) => (c.counter, c.payload)
    case Registered(key, _, _) => (0, key)
    case _ => (0, [])
  }

  /**
   * Device signatures are kept apart, in every life at all: none is over a request preimage, and an answer to a command
   * is never over the bytes of an acknowledgement.
   */
  lemma DeviceSignaturesSeparated(v: Verifier, steps: seq<Step>, i: nat, j: nat)
    requires i < |Lived(v, steps).log| && Lived(v, steps).log[i].DeviceSigned?
    requires j < |Lived(v, steps).log| && Lived(v, steps).log[j].DeviceSigned?
    ensures var log := Lived(v, steps).log;
            && 0 < i && 0 < j
            && (log[i - 1].Accepted? && log[j - 1].Registered? ==> log[i].message != log[j].message)
            && forall counter, key, payload :: log[i].message != Preimage(DIR_REQUEST, counter, key, payload)
  {
    SignatureCause(v, steps, i);
    SignatureCause(v, steps, j);
    var log := Lived(v, steps).log;
    var (c, p) := CauseOf(log[i - 1]);
    var (c', p') := CauseOf(log[j - 1]);
    PreimageCollision(DIR_RESPONSE, c, log[i].deviceKey, p, DIR_RESPONSE, c', log[j].deviceKey, p');
    forall counter, key, payload ensures log[i].message != Preimage(DIR_REQUEST, counter, key, payload) {
      PreimageCollision(DIR_RESPONSE, c, log[i].deviceKey, p, DIR_REQUEST, counter, key, payload);
    }
  }

  /** In a life in which no step offends, no two answers to commands are over the same bytes. */
  lemma AnswersDistinct(v: Verifier, steps: seq<Step>, i: nat, j: nat)
    requires NeverOffends(v, steps) && i < j < |Lived(v, steps).log|
    requires Lived(v, steps).log[i].DeviceSigned? && Lived(v, steps).log[j].DeviceSigned?
    ensures var log := Lived(v, steps).log;
            && 0 < i
            && (log[i - 1].Accepted? && log[j - 1].Accepted? ==> log[i].message != log[j].message)
  {
    SignatureCause(v, steps, i);
    SignatureCause(v, steps, j);
    CountersIncrease(v, steps);
    var log := Lived(v, steps).log;
    var (c, p) := CauseOf(log[i - 1]);
    var (c', p') := CauseOf(log[j - 1]);
    PreimageCollision(DIR_RESPONSE, c, log[i].deviceKey, p, DIR_RESPONSE, c', log[j].deviceKey, p');
  }

  // ---- Physical presence ----

  lemma {:induction false} PresentLife(v: Verifier, steps: seq<Step>)
    ensures var w := Lived(v, steps); Always(Present, w.log) && WindowOk(w) && Balanced(w)
  {
    if steps == [] {
    } else {
      var init, s := steps[..|steps| - 1], steps[|steps| - 1];
      PresentLife(v, init);
      StandingFacts(v, init);
      PresentStep(v, Lived(v, init), s);
      WindowStep(v, Lived(v, init), s);
      BalancedStep(v, Lived(v, init), s);
    }
  }

  /** The opening behind the registration at `i`. */
  ghost predicate OpenedFor(log: seq<Event>, i: nat)
    requires i < |log| && log[i].Registered?
  {
    exists j | 0 <= j < i :: log[j].WindowOpened? && log[j].at <= log[i].at < log[j].at + 60000 &&
       Untouched(log, j, i)
  }

  lemma PresentAt(log: seq<Event>, i: nat)
    requires i < |log| && log[i].Registered? && Present(Upto(log, i))
    ensures OpenedFor(log, i)
  {
    var p := Upto(log, i);
    assert Last(p) == log[i];
    var j :| 0 <= j < |p| - 1 && p[j].WindowOpened? && p[j].at <= Last(p).at < p[j].at + WINDOW_MS &&
       Untouched(p, j, |p| - 1);
    assert log[j] == p[j];
    assert forall m | j < m < i :: log[m] == p[m];
    assert Untouched(log, j, i);
  }

  lemma AllPresent(log: seq<Event>)
    requires Always(Present, log)
    ensures forall i | 0 <= i < |log| && log[i].Registered? :: OpenedFor(log, i)
  {
    forall i | 0 <= i < |log| && log[i].Registered? ensures OpenedFor(log, i) {
      PresentAt(log, i);
    }
  }

  /**
   * One registration per press, in any life, with no hypothesis on storage or signatures: registrations never
   * outnumber window openings, and each falls within 60000 ms of an opening with neither another registration nor a
   * reset in between.
   */
  lemma OneRegistrationPerPress(v: Verifier, steps: seq<Step>)
    ensures Registrations(Lived(v, steps).log) <= Openings(Lived(v, steps).log)
    ensures forall i | 0 <= i < |Lived(v, steps).log| &&
            Lived(v, steps).log[i].Registered? :: OpenedFor(Lived(v, steps).log, i)
  {
    PresentLife(v, steps);
    AllPresent(Lived(v, steps).log);
  }

  /** The button works only once a signed request has initialised the store: before that a press opens nothing. */
  lemma PressNeedsInitialisation(v: Verifier, steps: seq<Step>)
    ensures var w := Lived(v, steps);
            Exec(v, w, Press).log == w.log + (if w.device.replayReady then [WindowOpened(w.now)] else [])
  {
    StandingFacts(v, steps);
    assert Lived(v, steps).log + [] == Lived(v, steps).log;
  }

  // ---- Flash ----

  lemma WritesCore(flash: Flash, saves: seq<Event>, d1: Device, reached: bool, d2: Device, r: SignedRequest,
                   capacity: nat, f: Foreign)
    requires WrittenAll(flash, saves) == d1.flash && (reached ==> d2.flash == d1.flash)
    ensures var d3 := if reached then Answered(d2, r, capacity, f).device else d1;
            d3.flash == WrittenAll(flash, EventsOf(saves, reached, d2, r, capacity, f))
  {
    var rest := if reached then Answered(d2, r, capacity, f).events else [];
    WrittenConcat(flash, saves, rest);
    if reached {
      AnsweredWrites(d2, r, capacity, f);
    }
  }

  lemma ParsedWrites(v: Verifier, d: Device, r: SignedRequest, capacity: nat, f: Foreign)
    ensures var o := OnParsed(v, d, r, capacity, f); o.device.flash == WrittenAll(d.flash, o.events)
  {
    var (d1, _, saves) := Readied(d, f);
    ReadiedView(d, f, []);
    EventsOfParsed(v, d, r, capacity, f);
    WritesCore(d.flash, saves, d1, Reaches(v, d, r, f), Authenticated(v, d1, r, f).0, r, capacity, f);
  }

  lemma RegisterWrites(d: Device, key: seq<u8>, capacity: nat, f: Foreign, now: nat)
    ensures var o := OnKey(d, key, capacity, f, now); o.device.flash == WrittenAll(d.flash, o.events)
  {
    var e := Registered(key, now, f.keySave);
    WrittenConcat(d.flash, [e], Signatures(d, 0, key, f));
    WrittenOne(d.flash, e);
    SignaturesWrite(Written(d.flash, e), d, 0, key, f);
  }

  lemma ProcessWrites(v: Verifier, d: Device, input: seq<u8>, capacity: nat, f: Foreign, now: nat)
    ensures var o := Process(v, d, input, capacity, f, now); o.device.flash == WrittenAll(d.flash, o.events)
  {
    if Parses(input) {
      ParsedWrites(v, d, ParseSigned(input).value, capacity, f);
    } else if input != [] && input[0] == TYPE_REGISTER_KEY && |input| >= 3 && |input| >= 3 + ReadU16(input, 1) {
      RegisterWrites(WithBundle(d, f).0, input[3..3 + ReadU16(input, 1)], capacity, f, now);
    }
  }

  lemma WrittenIncidental(flash: Flash, log: seq<Event>, e: Event)
    requires Incidental(e)
    ensures WrittenAll(flash, log + [e]) == WrittenAll(flash, log)
  {
    assert (log + [e])[..|log|] == log;
  }

  /** Flash holds exactly what the logged saves wrote, whatever the life and wherever resets struck. */
  lemma {:induction false} FlashOfLife(v: Verifier, steps: seq<Step>)
    ensures Lived(v, steps).device.flash == WrittenAll(Flash(None, None), Lived(v, steps).log)
  {
    if steps == [] {
    } else {
      var w, s, blank := Lived(v, steps[..|steps| - 1]), steps[|steps| - 1], Flash(None, None);
      FlashOfLife(v, steps[..|steps| - 1]);
      match s
      case Request(input, capacity, f) =>
        ProcessWrites(v, w.device, input, capacity, f, w.now);
        WrittenConcat(blank, w.log, Process(v, w.device, input, capacity, f, w.now).events);
      case CrashIn(input, capacity, f, k) =>
        var cut := Cut(Process(v, w.device, input, capacity, f, w.now).events, k);
        WrittenConcat(blank, w.log, cut);
        WrittenIncidental(blank, w.log + cut, Restarted);
      case Press => WrittenIncidental(blank, w.log, WindowOpened(w.now));
      case OpenWindow => WrittenIncidental(blank, w.log, WindowOpened(w.now));
      case Elapse(_) =>
      case Restart => WrittenIncidental(blank, w.log, Restarted);
      case ClientSigns(key, message) => WrittenIncidental(blank, w.log, ClientSigned(key, message));
    }
  }
}
