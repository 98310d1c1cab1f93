/** Which client key is in force, over every life of the device, with key saves failing in any pattern. */
module ActiveKey {
  import opened Bytes
  import opened History
  import opened ClientKey
  import opened Device
  import opened DeviceRuns
  import opened DeviceTheorems
  import opened FreshLives
  import opened MainTheorems

  function LastSaved(log: seq<Event>): Option<seq<u8>> {
    if log == [] then None
    else if Last(log).Registered? && Last(log).saved then Some(Last(log).key)
    else LastSaved(Past(log))
  }

  function LastRegistered(log: seq<Event>): Option<seq<u8>> {
    if log == [] then None
    else if Last(log).Registered? then Some(Last(log).key)
    else LastRegistered(Past(log))
  }

  /** The key registered last since the last reset; or else the key saved last before it. */
  function Active(log: seq<Event>): Option<seq<u8>> {
    if log == [] then None
    else if Last(log).Registered? then Some(Last(log).key)
    else if Last(log).Restarted? then LastSaved(Past(log))
    else Active(Past(log))
  }

  lemma {:induction false} FlashIsLogged(flash: Flash, log: seq<Event>)
    requires flash.clientKey == None
    ensures WrittenAll(flash, log).clientKey == LastSaved(log)
  {
    if log == [] {
    } else {
      FlashIsLogged(flash, Past(log));
    }
  }

  /** Flash holds the key saved last, wherever resets struck. */
  lemma FlashKey(v: Verifier, steps: seq<Step>)
    ensures Lived(v, steps).device.flash.clientKey == LastSaved(Lived(v, steps).log)
  {
    FlashOfLife(v, steps);
    FlashIsLogged(Flash(None, None), Lived(v, steps).log);
  }

  // ---- Registered keys have the one length there is ----

  predicate Sized(p: seq<Event>) {
    p != [] && (Last(p).Registered? ==> |Last(p).key| == KEY_LENGTH)
  }

  lemma SizedNew(v: Verifier, d: Device, input: seq<u8>, now: nat, es: seq<Event>, log: seq<Event>)
    requires EventsOk(v, d, input, now, es)
    ensures AlwaysNew(Sized, log, es)
  {
    forall i | |log| <= i < |log + es| ensures Sized(Upto(log + es, i)) {
      assert EventOk(v, d, input, now, es, i - |log|);
      LastOf(log, es, i);
    }
  }

  lemma {:induction false} SizedLife(v: Verifier, steps: seq<Step>)
    ensures Always(Sized, Lived(v, steps).log)
  {
    if steps == [] {
    } else {
      var init, s := steps[..|steps| - 1], steps[|steps| - 1];
      var w := Lived(v, init);
      SizedLife(v, init);
      StandingFacts(v, init);
      if s.Request? || s.CrashIn? {
        AllRequestEvents(v, w.device, s.input, s.capacity, s.f, w.now);
        SizedNew(v, w.device, s.input, w.now, Process(v, w.device, s.input, s.capacity, s.f, w.now).events, w.log);
      }
      StepAlways(Sized, v, w, s);
    }
  }

  lemma {:induction false} SavedSized(log: seq<Event>)
    requires Always(Sized, log)
    ensures LastSaved(log).Some? ==> |LastSaved(log).value| == KEY_LENGTH
  {
    if log == [] {
    } else {
      assert Upto(log, |log| - 1) == log;
      AlwaysPrefix(Sized, log, Past(log));
      SavedSized(Past(log));
    }
  }

  // ---- One request ----

  predicate Calm(es: seq<Event>) {
    forall e | e in es :: !e.Registered? && !e.Restarted?
  }

  lemma {:induction false} ActiveCalm(log: seq<Event>, es: seq<Event>)
    requires Calm(es)
    ensures Active(log + es) == Active(log) && LastSaved(log + es) == LastSaved(log)
  {
    if es == [] {
      assert log + es == log;
    } else {
      assert Past(log + es) == log + Past(es) && Last(log + es) == Last(es);
      ActiveCalm(log, Past(es));
    }
  }

  /** A key has been registered since the last reset. */
  predicate SinceReset(log: seq<Event>) {
    log != [] && (Last(log).Registered? || (!Last(log).Restarted? && SinceReset(Past(log))))
  }

  lemma {:induction false} SinceActive(log: seq<Event>)
    requires SinceReset(log)
    ensures Active(log) == LastRegistered(log)
  {
    if Last(log).Registered? {
    } else {
      SinceActive(Past(log));
    }
  }

  lemma {:induction false} SinceCalm(log: seq<Event>, es: seq<Event>)
    requires Calm(es) && SinceReset(log)
    ensures SinceReset(log + es)
  {
    if es == [] {
      assert log + es == log;
    } else {
      assert Past(log + es) == log + Past(es) && Last(log + es) == Last(es);
      SinceCalm(log, Past(es));
    }
  }

  lemma RegisteredSince(log: seq<Event>, e: Event, es: seq<Event>)
    requires e.Registered? && Calm(es)
    ensures SinceReset(log + ([e] + es))
  {
    assert log + ([e] + es) == log + [e] + es;
    SinceCalm(log + [e], es);
  }

  /**
   * The key in force is the one in RAM. Before lazy initialisation RAM has none unless one was registered since the
   * reset, and initialisation will take it from flash.
   */
  predicate Settled(d: Device, active: Option<seq<u8>>) {
    if d.replayReady || d.keys.key.Some? then d.keys.key == active else d.flash.clientKey == active
  }

  predicate EntrySized(d: Device) {
    d.flash.clientKey.Some? ==> |d.flash.clientKey.value| == KEY_LENGTH
  }

  /**
   * Lazy initialisation finds a key in RAM, registered since the reset, reads a different one in flash, and loads
   * it.
   */
  predicate Replaces(d: Device, f: Foreign) {
    && !d.replayReady && Readied(d, f).1 && f.keyReadable
    && d.keys.key.Some? && d.flash.clientKey.Some? && d.flash.clientKey != d.keys.key
  }

  /** Lazy initialisation finds no key in RAM, cannot read the one in flash, and goes on without. */
  predicate LocksOut(d: Device, f: Foreign) {
    && !d.replayReady && Readied(d, f).1 && !f.keyReadable
    && d.keys.key.None? && d.flash.clientKey.Some?
  }

  /** As settled, but once initialised the device may have no key at all. */
  predicate Held(d: Device, active: Option<seq<u8>>) {
    if d.replayReady then d.keys.key.Some? ==> d.keys.key == active else Settled(d, active)
  }

  lemma ReadiedSettled(d: Device, f: Foreign, active: Option<seq<u8>>)
    requires Settled(d, active) && EntrySized(d)
    ensures Readied(d, f).1 ==> (Readied(d, f).0.keys.key == active <==> !Replaces(d, f) && !LocksOut(d, f))
    ensures !Replaces(d, f) && !LocksOut(d, f) ==> Settled(Readied(d, f).0, active)
  {
  }

  lemma ReadiedHeld(d: Device, f: Foreign, active: Option<seq<u8>>)
    requires Held(d, active) && EntrySized(d)
    ensures var (d', ready, _) := Readied(d, f);
            ready ==> (d'.keys.key.None? || d'.keys.key == active <==> !Replaces(d, f))
    ensures !Replaces(d, f) ==> Held(Readied(d, f).0, active)
  {
  }

  lemma ParsedSettled(v: Verifier, d: Device, r: SignedRequest, capacity: nat, f: Foreign, active: Option<seq<u8>>)
    requires KeysOk(d) && IdentityOk(d)
    requires Settled(d, active) && EntrySized(d) && !Replaces(d, f) && !LocksOut(d, f)
    ensures Settled(OnParsed(v, d, r, capacity, f).device, active)
  {
    ReadiedSettled(d, f, active);
    ReadiedKeeps(d, f);
    JudgedKeeps(v, Readied(d, f).0, r, capacity, f);
  }

  lemma ParsedHeld(v: Verifier, d: Device, r: SignedRequest, capacity: nat, f: Foreign, active: Option<seq<u8>>)
    requires KeysOk(d) && IdentityOk(d)
    requires Held(d, active) && EntrySized(d) && !Replaces(d, f)
    ensures Held(OnParsed(v, d, r, capacity, f).device, active)
  {
    ReadiedHeld(d, f, active);
    ReadiedKeeps(d, f);
    JudgedKeeps(v, Readied(d, f).0, r, capacity, f);
  }

  lemma ActiveRegistered(log: seq<Event>, e: Event, es: seq<Event>)
    requires e.Registered? && Calm(es)
    ensures Active(log + ([e] + es)) == Some(e.key)
    ensures LastSaved(log + ([e] + es)) == if e.saved then Some(e.key) else LastSaved(log)
  {
    assert log + ([e] + es) == log + [e] + es;
    assert Past(log + [e]) == log;
    ActiveCalm(log + [e], es);
  }

  lemma RegisterSettled(d: Device, key: seq<u8>, capacity: nat, f: Foreign, now: nat, log: seq<Event>)
    ensures var o := OnKey(d, key, capacity, f, now);
            && (Settled(d, Active(log)) ==> Settled(o.device, Active(log + o.events)))
            && (Held(d, Active(log)) ==> Held(o.device, Active(log + o.events)))
  {
    assert log + [] == log;
    ActiveRegistered(log, Registered(key, now, f.keySave), Signatures(d, 0, key, f));
  }

  /** A request other than a signed one leaves the key in force as the log has it, whatever was the case before. */
  lemma OtherSettled(v: Verifier, d: Device, input: seq<u8>, capacity: nat, f: Foreign, now: nat, log: seq<Event>)
    requires !Parses(input)
    ensures var o := Process(v, d, input, capacity, f, now);
            && (Settled(d, Active(log)) ==> Settled(o.device, Active(log + o.events)))
            && (Held(d, Active(log)) ==> Held(o.device, Active(log + o.events)))
  {
    assert log + [] == log;
    if input != [] && input[0] == TYPE_REGISTER_KEY && |input| >= 3 && |input| >= 3 + ReadU16(input, 1) {
      RegisterSettled(WithBundle(d, f).0, input[3..3 + ReadU16(input, 1)], capacity, f, now, log);
    }
  }

  lemma RegisterSince(d: Device, key: seq<u8>, capacity: nat, f: Foreign, now: nat, log: seq<Event>)
    requires d.keys.key.Some? ==> SinceReset(log)
    ensures var o := OnKey(d, key, capacity, f, now); o.device.keys.key.Some? ==> SinceReset(log + o.events)
  {
    assert log + [] == log;
    RegisteredSince(log, Registered(key, now, f.keySave), Signatures(d, 0, key, f));
  }

  lemma OtherSince(v: Verifier, d: Device, input: seq<u8>, capacity: nat, f: Foreign, now: nat, log: seq<Event>)
    requires (d.keys.key.Some? ==> SinceReset(log)) && !Parses(input)
    ensures var o := Process(v, d, input, capacity, f, now); o.device.keys.key.Some? ==> SinceReset(log + o.events)
  {
    assert log + [] == log;
    if input != [] && input[0] == TYPE_REGISTER_KEY && |input| >= 3 && |input| >= 3 + ReadU16(input, 1) {
      RegisterSince(WithBundle(d, f).0, input[3..3 + ReadU16(input, 1)], capacity, f, now, log);
    }
  }

  lemma SignedActive(v: Verifier, d: Device, input: seq<u8>, capacity: nat, f: Foreign, now: nat, log: seq<Event>)
    requires KeysOk(d) && IdentityOk(d) && Parses(input)
    ensures Active(log + Process(v, d, input, capacity, f, now).events) == Active(log)
  {
    ParsedQuiet(v, d, ParseSigned(input).value, capacity, f);
    ActiveCalm(log, OnParsed(v, d, ParseSigned(input).value, capacity, f).events);
  }

  // ---- Whole lives ----

  lemma SizedFlash(v: Verifier, steps: seq<Step>)
    ensures EntrySized(Lived(v, steps).device)
  {
    FlashKey(v, steps);
    SizedLife(v, steps);
    SavedSized(Lived(v, steps).log);
  }

  lemma SettledOther(v: Verifier, w: World, s: Step)
    requires !s.Request? && !s.CrashIn? && !s.Restart?
    ensures var w' := Exec(v, w, s);
            && (Settled(w.device, Active(w.log)) ==> Settled(w'.device, Active(w'.log)))
            && (Held(w.device, Active(w.log)) ==> Held(w'.device, Active(w'.log)))
  {
    assert w.log + [] == w.log;
    match s
    case Press => ActiveCalm(w.log, [WindowOpened(w.now)]);
    case OpenWindow => ActiveCalm(w.log, [WindowOpened(w.now)]);
    case Elapse(_) =>
    case ClientSigns(key, message) => ActiveCalm(w.log, [ClientSigned(key, message)]);
  }

  lemma ResetLast(v: Verifier, w: World, s: Step)
    requires s.Restart? || s.CrashIn?
    ensures var w' := Exec(v, w, s);
            && w'.log != [] && Last(w'.log).Restarted?
            && !w'.device.replayReady && w'.device.keys == NO_KEYS
  {
  }

  /** Right after a reset: flash has the key saved last, RAM nothing. */
  lemma SettledReset(v: Verifier, steps: seq<Step>)
    requires steps != [] && (steps[|steps| - 1].Restart? || steps[|steps| - 1].CrashIn?)
    ensures var w := Lived(v, steps); Settled(w.device, Active(w.log))
  {
    var w := Lived(v, steps);
    FlashKey(v, steps);
    ResetLast(v, Lived(v, steps[..|steps| - 1]), steps[|steps| - 1]);
    assert Active(w.log) == LastSaved(Past(w.log)) == LastSaved(w.log);
  }

  /** The step lets lazy initialisation replace a registered key. */
  predicate Replacing(w: World, s: Step) {
    (s.Request? || s.CrashIn?) && Parses(s.input) && Replaces(w.device, s.f)
  }

  /** The step lets lazy initialisation replace a registered key, or leave behind one that it cannot read. */
  predicate Mislaying(w: World, s: Step) {
    (s.Request? || s.CrashIn?) && Parses(s.input) && (Replaces(w.device, s.f) || LocksOut(w.device, s.f))
  }

  predicate NeverReplaced(v: Verifier, steps: seq<Step>) {
    steps == [] ||
    (NeverReplaced(v, steps[..|steps| - 1]) && !Replacing(Lived(v, steps[..|steps| - 1]), steps[|steps| - 1]))
  }

  predicate NeverMislaid(v: Verifier, steps: seq<Step>) {
    steps == [] ||
    (NeverMislaid(v, steps[..|steps| - 1]) && !Mislaying(Lived(v, steps[..|steps| - 1]), steps[|steps| - 1]))
  }

  /** If the step is a signed request on a device that can be initialised, it is checked under the key in force. */
  predicate ChecksActive(w: World, s: Step) {
    (s.Request? || s.CrashIn?) && Parses(s.input) && Readied(w.device, s.f).1 ==>
      Readied(w.device, s.f).0.keys.key == Active(w.log)
  }

  /** It is checked under no key other than the one in force: under that, or under none at all. */
  predicate ChecksNoOther(w: World, s: Step) {
    (s.Request? || s.CrashIn?) && Parses(s.input) && Readied(w.device, s.f).1 ==>
      Readied(w.device, s.f).0.keys.key.None? || Readied(w.device, s.f).0.keys.key == Active(w.log)
  }

  predicate AlwaysChecksActive(v: Verifier, steps: seq<Step>) {
    steps == [] ||
    (AlwaysChecksActive(v, steps[..|steps| - 1]) && ChecksActive(Lived(v, steps[..|steps| - 1]), steps[|steps| - 1]))
  }

  predicate AlwaysChecksNoOther(v: Verifier, steps: seq<Step>) {
    steps != [] ==>
      && AlwaysChecksNoOther(v, steps[..|steps| - 1])
      && ChecksNoOther(Lived(v, steps[..|steps| - 1]), steps[|steps| - 1])
  }

  lemma RequestSettled(v: Verifier, w: World, s: Step)
    requires IdentityOk(w.device) && KeysOk(w.device) && EntrySized(w.device) && s.Request?
    requires Settled(w.device, Active(w.log)) && !Mislaying(w, s)
    ensures var w' := Exec(v, w, s); Settled(w'.device, Active(w'.log))
  {
    if Parses(s.input) {
      ParsedSettled(v, w.device, ParseSigned(s.input).value, s.capacity, s.f, Active(w.log));
      SignedActive(v, w.device, s.input, s.capacity, s.f, w.now, w.log);
    } else {
      OtherSettled(v, w.device, s.input, s.capacity, s.f, w.now, w.log);
    }
  }

  lemma RequestHeld(v: Verifier, w: World, s: Step)
    requires IdentityOk(w.device) && KeysOk(w.device) && EntrySized(w.device) && s.Request?
    requires Held(w.device, Active(w.log)) && !Replacing(w, s)
    ensures var w' := Exec(v, w, s); Held(w'.device, Active(w'.log))
  {
    if Parses(s.input) {
      ParsedHeld(v, w.device, ParseSigned(s.input).value, s.capacity, s.f, Active(w.log));
      SignedActive(v, w.device, s.input, s.capacity, s.f, w.now, w.log);
    } else {
      OtherSettled(v, w.device, s.input, s.capacity, s.f, w.now, w.log);
    }
  }

  lemma ChecksExactly(w: World, s: Step)
    requires EntrySized(w.device)
    ensures Settled(w.device, Active(w.log)) ==> (ChecksActive(w, s) <==> !Mislaying(w, s))
    ensures Held(w.device, Active(w.log)) ==> (ChecksNoOther(w, s) <==> !Replacing(w, s))
  {
    if s.Request? || s.CrashIn? {
      if Settled(w.device, Active(w.log)) {
        ReadiedSettled(w.device, s.f, Active(w.log));
      }
      if Held(w.device, Active(w.log)) {
        ReadiedHeld(w.device, s.f, Active(w.log));
      }
    }
  }

  lemma SettledStep(v: Verifier, steps: seq<Step>)
    requires steps != [] && var w := Lived(v, steps[..|steps| - 1]); Settled(w.device, Active(w.log))
    ensures var w, w', s := Lived(v, steps[..|steps| - 1]), Lived(v, steps), steps[|steps| - 1];
            && (ChecksActive(w, s) <==> !Mislaying(w, s))
            && (!Mislaying(w, s) ==> Settled(w'.device, Active(w'.log)))
  {
    var init, s := steps[..|steps| - 1], steps[|steps| - 1];
    var w := Lived(v, init);
    StandingFacts(v, init);
    SizedFlash(v, init);
    ChecksExactly(w, s);
    if s.Restart? || s.CrashIn? {
      SettledReset(v, steps);
    } else if !s.Request? {
      SettledOther(v, w, s);
    } else if !Mislaying(w, s) {
      RequestSettled(v, w, s);
    }
  }

  lemma HeldStep(v: Verifier, steps: seq<Step>)
    requires steps != [] && var w := Lived(v, steps[..|steps| - 1]); Held(w.device, Active(w.log))
    ensures var w, w', s := Lived(v, steps[..|steps| - 1]), Lived(v, steps), steps[|steps| - 1];
            && (ChecksNoOther(w, s) <==> !Replacing(w, s))
            && (!Replacing(w, s) ==> Held(w'.device, Active(w'.log)))
  {
    var init, s := steps[..|steps| - 1], steps[|steps| - 1];
    var w := Lived(v, init);
    StandingFacts(v, init);
    SizedFlash(v, init);
    ChecksExactly(w, s);
    if s.Restart? || s.CrashIn? {
      SettledReset(v, steps);
      ResetLast(v, w, s);
    } else if !s.Request? {
      SettledOther(v, w, s);
    } else if !Replacing(w, s) {
      RequestHeld(v, w, s);
    }
  }

  /**
   * The key in force, over every life at all, saves and reads of the entry failing in any pattern: signed requests are
   * always checked under the key registered last since the last reset, or else the key saved last before it, exactly
   * when no lazy initialisation replaces a registered key or leaves behind one that it cannot read.
   */
  lemma {:induction false} ActiveKeyExactly(v: Verifier, steps: seq<Step>)
    ensures AlwaysChecksActive(v, steps) <==> NeverMislaid(v, steps)
    ensures var w := Lived(v, steps); NeverMislaid(v, steps) ==> Settled(w.device, Active(w.log))
  {
    if steps == [] {
    } else {
      ActiveKeyExactly(v, steps[..|steps| - 1]);
      if NeverMislaid(v, steps[..|steps| - 1]) {
        SettledStep(v, steps);
      }
    }
  }

  /** And they are never checked under another key, exactly when no lazy initialisation replaces a registered key. */
  lemma {:induction false} NoOtherKeyExactly(v: Verifier, steps: seq<Step>)
    ensures AlwaysChecksNoOther(v, steps) <==> NeverReplaced(v, steps)
    ensures var w := Lived(v, steps); NeverReplaced(v, steps) ==> Held(w.device, Active(w.log))
  {
    if steps == [] {
    } else {
      NoOtherKeyExactly(v, steps[..|steps| - 1]);
      if NeverReplaced(v, steps[..|steps| - 1]) {
        HeldStep(v, steps);
      }
    }
  }

  lemma {:induction false} MislaidIsMore(v: Verifier, steps: seq<Step>)
    requires NeverMislaid(v, steps)
    ensures NeverReplaced(v, steps)
  {
    if steps == [] {
    } else {
      MislaidIsMore(v, steps[..|steps| - 1]);
    }
  }

  lemma StillUnready(v: Verifier, d: Device, r: SignedRequest, capacity: nat, f: Foreign)
    requires KeysOk(d) && IdentityOk(d) && !d.replayReady
    ensures var d' := OnParsed(v, d, r, capacity, f).device;
            !d'.replayReady ==> d'.keys.key == d.keys.key && d'.flash.clientKey == d.flash.clientKey
  {
    ReadiedKeeps(d, f);
    JudgedKeeps(v, Readied(d, f).0, r, capacity, f);
  }

  lemma StaysReady(v: Verifier, d: Device, input: seq<u8>, capacity: nat, f: Foreign, now: nat)
    requires d.replayReady
    ensures Process(v, d, input, capacity, f, now).device.replayReady
  {
  }

  /** Before initialisation: the key in force is in RAM and registered since the reset, or else it is in flash. */
  predicate BootOk(d: Device, log: seq<Event>) {
    !d.replayReady ==> Settled(d, Active(log)) && (d.keys.key.Some? ==> SinceReset(log))
  }

  lemma BootRequest(v: Verifier, d: Device, input: seq<u8>, capacity: nat, f: Foreign, now: nat, log: seq<Event>)
    requires KeysOk(d) && IdentityOk(d) && !d.replayReady && BootOk(d, log)
    ensures var o := Process(v, d, input, capacity, f, now); BootOk(o.device, log + o.events)
  {
    if !Parses(input) {
      OtherSettled(v, d, input, capacity, f, now, log);
      OtherSince(v, d, input, capacity, f, now, log);
    } else {
      var r := ParseSigned(input).value;
      var es := OnParsed(v, d, r, capacity, f).events;
      StillUnready(v, d, r, capacity, f);
      ParsedQuiet(v, d, r, capacity, f);
      ActiveCalm(log, es);
      if SinceReset(log) {
        SinceCalm(log, es);
      }
    }
  }

  lemma BootOther(v: Verifier, w: World, s: Step)
    requires !s.Request? && !s.CrashIn? && !s.Restart? && BootOk(w.device, w.log)
    ensures var w' := Exec(v, w, s); BootOk(w'.device, w'.log)
  {
    if !w.device.replayReady {
      SettledOther(v, w, s);
      if SinceReset(w.log) && Exec(v, w, s).log != w.log {
        SinceCalm(w.log, [Last(Exec(v, w, s).log)]);
      }
    }
  }

  lemma BootStep(v: Verifier, steps: seq<Step>)
    requires steps != [] && var w := Lived(v, steps[..|steps| - 1]); BootOk(w.device, w.log)
    ensures var w := Lived(v, steps); BootOk(w.device, w.log)
  {
    var init, s := steps[..|steps| - 1], steps[|steps| - 1];
    var w := Lived(v, init);
    StandingFacts(v, init);
    if s.Restart? || s.CrashIn? {
      SettledReset(v, steps);
      ResetLast(v, w, s);
    } else if !s.Request? {
      BootOther(v, w, s);
    } else if w.device.replayReady {
      StaysReady(v, w.device, s.input, s.capacity, s.f, w.now);
    } else {
      BootRequest(v, w.device, s.input, s.capacity, s.f, w.now, w.log);
    }
  }

  /**
   * Until it is initialised a device has, in every life at all, the key in force in RAM, or in flash if RAM has
   * none.
   */
  lemma {:induction false} BootKeyOfLife(v: Verifier, steps: seq<Step>)
    ensures var w := Lived(v, steps); BootOk(w.device, w.log)
  {
    if steps == [] {
    } else {
      BootKeyOfLife(v, steps[..|steps| - 1]);
      BootStep(v, steps);
    }
  }

  /**
   * Exactly when a lazy initialisation loses the key in force, in any life: if it can read the entry, when a key
   * has been registered since the reset and the key saved last is another one, which it then loads; if it cannot,
   * when one has been saved and none registered since the reset, and then it has none.
   */
  lemma MislaidExactly(v: Verifier, steps: seq<Step>, s: Step)
    requires s.Request? && Parses(s.input)
    requires !Lived(v, steps).device.replayReady && Lived(v, steps + [s]).device.replayReady
    ensures var w, w' := Lived(v, steps), Lived(v, steps + [s]);
            && (w'.device.keys.key != Active(w.log) <==>
                  LastSaved(w.log).Some? &&
                  if s.f.keyReadable then w.device.keys.key.Some? && LastSaved(w.log) != w.device.keys.key
                  else w.device.keys.key.None?)
            && (w.device.keys.key.Some? ==> w.device.keys.key == Active(w.log) == LastRegistered(w.log))
            && (w'.device.keys.key != Active(w.log) ==>
                  w'.device.keys.key == if s.f.keyReadable then LastSaved(w.log) else None)
            && Active(w'.log) == Active(w.log)
  {
    var w, r := Lived(v, steps), ParseSigned(s.input).value;
    assert (steps + [s])[..|steps|] == steps;
    StandingFacts(v, steps);
    BootKeyOfLife(v, steps);
    SizedFlash(v, steps);
    FlashKey(v, steps);
    ReadiedSettled(w.device, s.f, Active(w.log));
    ReadiedKeeps(w.device, s.f);
    JudgedKeeps(v, Readied(w.device, s.f).0, r, s.capacity, s.f);
    SignedActive(v, w.device, s.input, s.capacity, s.f, w.now, w.log);
    if SinceReset(w.log) {
      SinceActive(w.log);
    }
  }

  // ---- When it never happens ----

  /** No registration went unsaved. */
  predicate Kept(log: seq<Event>) {
    forall e | e in log :: e.Registered? ==> e.saved
  }

  lemma {:induction false} KeptActive(log: seq<Event>)
    requires Kept(log)
    ensures Active(log) == LastSaved(log) == LastRegistered(log)
  {
    if log == [] {
    } else {
      assert log == Past(log) + [Last(log)];
      KeptActive(Past(log));
    }
  }

  lemma LogGrows(v: Verifier, w: World, s: Step)
    ensures w.log <= Exec(v, w, s).log
  {
  }

  lemma {:induction false} KeptNeverReplaced(v: Verifier, steps: seq<Step>)
    requires Kept(Lived(v, steps).log)
    ensures NeverReplaced(v, steps)
  {
    if steps == [] {
    } else {
      var init := steps[..|steps| - 1];
      LogGrows(v, Lived(v, init), steps[|steps| - 1]);
      assert forall e | e in Lived(v, init).log :: e in Lived(v, steps).log;
      KeptNeverReplaced(v, init);
      BootKeyOfLife(v, init);
      KeptActive(Lived(v, init).log);
      FlashKey(v, init);
    }
  }

  lemma ShutStays(v: Verifier, d: Device, input: seq<u8>, capacity: nat, f: Foreign, now: nat)
    requires KeysOk(d) && IdentityOk(d) && (!d.replayReady ==> d.keys.key == None && d.keys.windowUntil == 0)
    ensures var d' := Process(v, d, input, capacity, f, now).device;
            !d'.replayReady ==> d'.keys.key == None && d'.keys.windowUntil == 0
  {
    if Parses(input) {
      ReadiedKeeps(d, f);
      JudgedKeeps(v, Readied(d, f).0, ParseSigned(input).value, capacity, f);
    }
  }

  /** Until the button works nobody but another caller of `OpenWindow` could have registered a key. */
  lemma {:induction false} ButtonNeverReplaces(v: Verifier, steps: seq<Step>)
    requires forall s | s in steps :: !s.OpenWindow?
    ensures NeverReplaced(v, steps)
    ensures var d := Lived(v, steps).device; !d.replayReady ==> d.keys.key == None && d.keys.windowUntil == 0
  {
    if steps == [] {
    } else {
      var init, s := steps[..|steps| - 1], steps[|steps| - 1];
      ButtonNeverReplaces(v, init);
      StandingFacts(v, init);
      if s.Request? {
        ShutStays(v, Lived(v, init).device, s.input, s.capacity, s.f, Lived(v, init).now);
      }
    }
  }

  /**
   * With successful key saves, whoever opens windows: flash has the last key ever registered, the device verifies
   * under no other, and under that one unless an initialisation could not read it.
   */
  lemma LastKeyInForce(v: Verifier, steps: seq<Step>)
    requires Kept(Lived(v, steps).log)
    ensures var w := Lived(v, steps);
            && w.device.flash.clientKey == LastRegistered(w.log)
            && (w.device.keys.key.Some? ==> w.device.keys.key == LastRegistered(w.log))
            && (w.device.replayReady && NeverMislaid(v, steps) ==> w.device.keys.key == LastRegistered(w.log))
  {
    KeptNeverReplaced(v, steps);
    NoOtherKeyExactly(v, steps);
    ActiveKeyExactly(v, steps);
    BootKeyOfLife(v, steps);
    KeptActive(Lived(v, steps).log);
    FlashKey(v, steps);
  }

  // ---- What a reset does to a registration ----

  lemma RequestLoads(v: Verifier, d: Device, input: seq<u8>, capacity: nat, f: Foreign, now: nat)
    requires KeysOk(d) && IdentityOk(d) && !d.replayReady && d.keys.key == None && d.keys.windowUntil == 0
    requires EntrySized(d) && Process(v, d, input, capacity, f, now).device.replayReady
    ensures Process(v, d, input, capacity, f, now).device.keys.key == if f.keyReadable then d.flash.clientKey else None
  {
    if Parses(input) {
      ReadiedKeeps(d, f);
      JudgedKeeps(v, Readied(d, f).0, ParseSigned(input).value, capacity, f);
    }
  }

  lemma Registering(v: Verifier, d: Device, input: seq<u8>, capacity: nat, f: Foreign, now: nat, log: seq<Event>,
                    key: seq<u8>, at: nat, saved: bool)
    requires IdentityOk(d) && KeysOk(d) && |Process(v, d, input, capacity, f, now).events| > 0
    requires Process(v, d, input, capacity, f, now).events[0] == Registered(key, at, saved)
    ensures var o := Process(v, d, input, capacity, f, now);
            && o.device.keys.key == Some(key)
            && LastSaved(log + o.events) == if saved then Some(key) else LastSaved(log)
  {
    if Parses(input) {
      ParsedQuiet(v, d, ParseSigned(input).value, capacity, f);
      assert false;
    }
    var d1 := WithBundle(d, f).0;
    ActiveRegistered(log, Registered(key, at, saved), Signatures(d1, 0, key, f));
  }

  /** The world one reset and one request later. */
  function Revived(v: Verifier, w: World, s: Step): World {
    Exec(v, Exec(v, w, Restart), s)
  }

  lemma RevivedKey(v: Verifier, w: World, s: Step)
    requires s.Request? && EntrySized(w.device) && Revived(v, w, s).device.replayReady
    ensures Revived(v, w, s).device.keys.key == if s.f.keyReadable then w.device.flash.clientKey else None
  {
    RequestLoads(v, Exec(v, w, Restart).device, s.input, s.capacity, s.f, 0);
  }

  /** After any life, a reset and a request that initialises the device: the key saved last, if it can be read. */
  lemma KeyAfterReset(v: Verifier, steps: seq<Step>, s: Step)
    requires s.Request? && Revived(v, Lived(v, steps), s).device.replayReady
    ensures Revived(v, Lived(v, steps), s).device.keys.key
            == if s.f.keyReadable then LastSaved(Lived(v, steps).log) else None
  {
    SizedFlash(v, steps);
    FlashKey(v, steps);
    RevivedKey(v, Lived(v, steps), s);
  }

  lemma RegisteringLife(v: Verifier, steps: seq<Step>, reg: Step, key: seq<u8>, at: nat, saved: bool)
    requires reg.Request?
    requires var w := Lived(v, steps);
             var es := Process(v, w.device, reg.input, reg.capacity, reg.f, w.now).events;
             es != [] && es[0] == Registered(key, at, saved)
    ensures var w, w' := Lived(v, steps), Lived(v, steps + [reg]);
            && w'.device.keys.key == Some(key)
            && LastSaved(w'.log) == if saved then Some(key) else LastSaved(w.log)
  {
    var w := Lived(v, steps);
    assert (steps + [reg])[..|steps|] == steps;
    StandingFacts(v, steps);
    Registering(v, w.device, reg.input, reg.capacity, reg.f, w.now, w.log, key, at, saved);
  }

  /**
   * A registration survives a reset exactly when the entry can then be read, and its save worked or the key was the one
   * saved last already: after any life, a request `reg` that registers `key`, then a reset, and a request that
   * initialises the device.
   */
  lemma ResetForgetsExactly(v: Verifier, steps: seq<Step>, reg: Step, key: seq<u8>, at: nat, saved: bool, s: Step)
    requires reg.Request? && s.Request?
    requires var w := Lived(v, steps);
             var es := Process(v, w.device, reg.input, reg.capacity, reg.f, w.now).events;
             es != [] && es[0] == Registered(key, at, saved)
    requires Revived(v, Lived(v, steps + [reg]), s).device.replayReady
    ensures Lived(v, steps + [reg]).device.keys.key == Some(key)
    ensures Revived(v, Lived(v, steps + [reg]), s).device.keys.key == Some(key) <==>
            s.f.keyReadable && (saved || LastSaved(Lived(v, steps).log) == Some(key))
  {
    KeyAfterReset(v, steps + [reg], s);
    RegisteringLife(v, steps, reg, key, at, saved);
  }

  /**
   * The cached handle never changes a verdict, and an old key is never used: what verifies is what verifies under
   * the key in force, if the device has it and an import does not fail. It has it unless it was mislaid.
   */
  lemma VerifyAgrees(v: Verifier, steps: seq<Step>, imports: bool, message: seq<u8>, signature: seq<u8>)
    requires NeverReplaced(v, steps) && Lived(v, steps).device.replayReady
    ensures var w := Lived(v, steps);
            && (Verified(w.device.keys, v, imports, message, signature).1 <==>
                  && w.device.keys.key.Some? && Active(w.log).Some? && (imports || w.device.keys.cached.Some?)
                  && v(Active(w.log).value, message, signature))
            && (NeverMislaid(v, steps) ==> (w.device.keys.key.Some? <==> Active(w.log).Some?))
  {
    StandingFacts(v, steps);
    NoOtherKeyExactly(v, steps);
    ActiveKeyExactly(v, steps);
  }

  // ---- A lock-out lasts ----

  /** Initialised, without a key, and without a window to register one. */
  predicate LockedOut(d: Device) {
    d.replayReady && d.keys.key == None && d.keys.windowUntil == 0
  }

  /** Every signed request is refused, whatever its signature, and no request changes that. */
  lemma LockedRequest(v: Verifier, d: Device, input: seq<u8>, capacity: nat, f: Foreign, now: nat)
    requires IdentityOk(d) && KeysOk(d) && LockedOut(d)
    ensures LockedOut(Process(v, d, input, capacity, f, now).device)
    ensures Parses(input) ==> Process(v, d, input, capacity, f, now) == Outcome(d, Sent([TYPE_AUTH_REJECT]), [])
  {
  }

  /** From its `m`-th step on, the life takes place within one boot, and nobody opens a window. */
  predicate Unattended(steps: seq<Step>, m: nat)
    requires m <= |steps|
  {
    OneBoot(steps, m) && forall k | m <= k < |steps| :: !steps[k].Press? && !steps[k].OpenWindow?
  }

  /** Neither does anything else short of a reset or another registration. */
  lemma {:induction false} LockOutLasts(v: Verifier, steps: seq<Step>, m: nat)
    requires m <= |steps| && Unattended(steps, m) && LockedOut(Lived(v, steps[..m]).device)
    ensures LockedOut(Lived(v, steps).device)
  {
    if m == |steps| {
      assert steps[..m] == steps;
    } else {
      var init, s := steps[..|steps| - 1], steps[|steps| - 1];
      assert init[..m] == steps[..m];
      LockOutLasts(v, init, m);
      StandingFacts(v, init);
      if s.Request? {
        LockedRequest(v, Lived(v, init).device, s.input, s.capacity, s.f, Lived(v, init).now);
      }
    }
  }

  // ---- Commands and the key in force ----

  /** A command was checked under the key in force when it was accepted. */
  predicate UnderKey(p: seq<Event>) {
    p != [] && (Last(p).Accepted? ==> Active(Past(p)) == Some(Last(p).command.clientKey))
  }

  lemma AnsweredKey(d: Device, r: SignedRequest, capacity: nat, f: Foreign, e: Event)
    requires e in Answered(d, r, capacity, f).events && e.Accepted?
    ensures e.command.clientKey == d.keys.key.GetOr([])
  {
  }

  lemma AcceptedKey(v: Verifier, d: Device, r: SignedRequest, capacity: nat, f: Foreign, e: Event,
                    active: Option<seq<u8>>)
    requires e in OnParsed(v, d, r, capacity, f).events && e.Accepted?
    requires KeysOk(d) && IdentityOk(d) &&
             (Readied(d, f).1 && Readied(d, f).0.keys.key.Some? ==> Readied(d, f).0.keys.key == active)
    ensures active == Some(e.command.clientKey)
  {
    ReadiedSaves(d, f);
    EventsOfParsed(v, d, r, capacity, f);
    AnsweredKey(Authenticated(v, Readied(d, f).0, r, f).0, r, capacity, f, e);
    ReachedProven(v, d, r, f);
    ReadiedKeeps(d, f);
  }

  lemma ParsedUnderKey(v: Verifier, d: Device, r: SignedRequest, capacity: nat, f: Foreign, log: seq<Event>, k: nat)
    requires KeysOk(d) && IdentityOk(d)
    requires Readied(d, f).1 && Readied(d, f).0.keys.key.Some? ==> Readied(d, f).0.keys.key == Active(log)
    requires k < |OnParsed(v, d, r, capacity, f).events| && OnParsed(v, d, r, capacity, f).events[k].Accepted?
    ensures var es := OnParsed(v, d, r, capacity, f).events; Active(log + es[..k]) == Some(es[k].command.clientKey)
  {
    var es := OnParsed(v, d, r, capacity, f).events;
    AcceptedKey(v, d, r, capacity, f, es[k], Active(log));
    ParsedQuiet(v, d, r, capacity, f);
    ActiveCalm(log, es[..k]);
  }

  lemma UnderKeyCore(log: seq<Event>, es: seq<Event>)
    requires forall k | 0 <= k < |es| && es[k].Accepted? :: Active(log + es[..k]) == Some(es[k].command.clientKey)
    ensures AlwaysNew(UnderKey, log, es)
  {
    forall i | |log| <= i < |log + es| ensures UnderKey(Upto(log + es, i)) {
      LastOf(log, es, i);
      assert Past(Upto(log + es, i)) == log + es[..i - |log|];
    }
  }

  lemma UnderKeyNew(v: Verifier, d: Device, input: seq<u8>, capacity: nat, f: Foreign, now: nat, log: seq<Event>)
    requires KeysOk(d) && IdentityOk(d)
    requires Parses(input) && Readied(d, f).1 && Readied(d, f).0.keys.key.Some? ==>
             Readied(d, f).0.keys.key == Active(log)
    ensures AlwaysNew(UnderKey, log, Process(v, d, input, capacity, f, now).events)
  {
    var es := Process(v, d, input, capacity, f, now).events;
    forall k | 0 <= k < |es| && es[k].Accepted? ensures Active(log + es[..k]) == Some(es[k].command.clientKey) {
      RequestEvents(v, d, input, capacity, f, now, k);
      ParsedUnderKey(v, d, ParseSigned(input).value, capacity, f, log, k);
    }
    UnderKeyCore(log, es);
  }

  /** If no signed request is checked under another key than the one in force, every command is accepted under that. */
  lemma {:induction false} UnderKeyLife(v: Verifier, steps: seq<Step>)
    requires AlwaysChecksNoOther(v, steps)
    ensures Always(UnderKey, Lived(v, steps).log)
  {
    if steps == [] {
    } else {
      var init, s := steps[..|steps| - 1], steps[|steps| - 1];
      var w := Lived(v, init);
      UnderKeyLife(v, init);
      if s.Request? || s.CrashIn? {
        StandingFacts(v, init);
        UnderKeyNew(v, w.device, s.input, s.capacity, s.f, w.now, w.log);
      }
      StepAlways(UnderKey, v, w, s);
    }
  }

  lemma AllUnderKey(log: seq<Event>)
    requires Always(UnderKey, log)
    ensures forall i | 0 <= i < |log| && log[i].Accepted? :: Active(log[..i]) == Some(log[i].command.clientKey)
  {
    forall i | 0 <= i < |log| && log[i].Accepted? ensures Active(log[..i]) == Some(log[i].command.clientKey) {
      assert UnderKey(Upto(log, i)) && Past(Upto(log, i)) == log[..i];
    }
  }

  /**
   * Agreement with the registered client: if signatures cannot be forged and no lazy initialisation replaces a
   * registered key, each accepted command was signed, beforehand and as a request to this device, by the holder of
   * the key in force at that moment. If moreover no step offends, no two acceptances share a signed message.
   */
  lemma RegisteredClientAgreement(v: Verifier, steps: seq<Step>)
    requires UnforgedLife(v, steps) && NeverReplaced(v, steps)
    ensures var log := Lived(v, steps).log;
            && (forall i | 0 <= i < |log| && log[i].Accepted? ::
                  && Active(log[..i]).Some?
                  && ClientSigned(Active(log[..i]).value, RequestMessage(log[i].command)) in log[..i])
            && (NeverOffends(v, steps) ==>
                  forall i, j | 0 <= i < j < |log| && log[i].Accepted? && log[j].Accepted? ::
                    RequestMessage(log[i].command) != RequestMessage(log[j].command))
  {
    InjectiveAgreement(v, steps);
    NoOtherKeyExactly(v, steps);
    UnderKeyLife(v, steps);
    AllUnderKey(Lived(v, steps).log);
  }
}
