/** Exactly which lives of the device keep every accepted counter stale, whatever fails. */
module FreshLives {
  import opened Bytes
  import opened History
  import opened ClientKey
  import opened Device
  import opened DeviceRuns
  import Freshness
  import GuardRuns

  // ---- The steps that offend ----

  /**
   * The request initialises the guard from 0 although counters have been accepted before: no settings subsystem, or
   * an entry that cannot be read and is written over. A reset must not strike before that write.
   */
  predicate Forgets(w: World, s: Step)
    requires s.Request? || s.CrashIn?
  {
    && WithBundle(w.device, s.f).1 && !w.device.replayReady && Counters(w.log) != []
    && (!s.f.replayInit.subsys || (!s.f.replayInit.load && s.f.replayInit.save))
    && (s.CrashIn? ==> |Readied(w.device, s.f).2| <= s.k)
  }

  /** The guard is about to accept `counter`, above the ceiling in flash, without a write. */
  predicate Uncovered(d: Device, counter: u32) {
    && d.guard.floor < counter && d.flash.ceiling.GetOr(0) < counter
    && (counter < d.guard.ceiling || (!d.guard.persistent && counter <= 0xFFFF_FFFF - 64))
  }

  /**
   * The request accepts, without a write, a counter above the ceiling in flash: below the ceiling in RAM, or with no
   * storage at all. A reset inside the request must strike late enough for the acceptance.
   */
  predicate Overreaches(v: Verifier, w: World, s: Step)
    requires (s.Request? || s.CrashIn?) && Parses(s.input)
  {
    var r, (d, _, saves) := ParseSigned(s.input).value, Readied(w.device, s.f);
    Reaches(v, w.device, r, s.f) && Uncovered(d, r.counter) && (s.CrashIn? ==> |saves| < s.k)
  }

  predicate Offends(v: Verifier, w: World, s: Step) {
    (s.Request? || s.CrashIn?) && Parses(s.input) && (Forgets(w, s) || Overreaches(v, w, s))
  }

  /** A list of at most one initialisation and one more move is blameless when neither offends. */
  lemma BlamelessTwo(g: GuardRuns.World, boot: seq<GuardRuns.Move>, m: GuardRuns.Move)
    requires |boot| <= 1
    ensures Freshness.Blameless(g, boot) <==> (boot == [] || !Freshness.Offends(g, boot[0]))
    ensures Freshness.Blameless(g, boot + [m]) <==>
            (boot == [] || !Freshness.Offends(g, boot[0])) && !Freshness.Offends(GuardRuns.After(g, boot), m)
  {
    var ms := boot + [m];
    assert ms[..|boot|] == boot && ms[|boot|] == m;
    assert boot[..0] == [] && ms[..0] == [];
  }

  lemma UseOffends(g: GuardRuns.World, d: Device, counter: u32, save: bool)
    requires g.live == Some(d.guard) && g.stored == d.flash.ceiling
    ensures Freshness.Offends(g, GuardRuns.Use(counter, save)) <==> Uncovered(d, counter)
  {
  }

  lemma CrashOffends(g: GuardRuns.World, d: Device, d2: Device, r: SignedRequest, f: Foreign, j: nat)
    requires g.live == Some(d.guard) && g.stored == d.flash.ceiling && d2.guard == d.guard
    ensures Freshness.Offends(g, GuardRuns.CrashInUse(r.counter, f.ceilingSave, PointOf(d2, r, f, j))) <==>
            Uncovered(d, r.counter) && 0 < j
  {
  }

  lemma RequestOffends(g: GuardRuns.World, boot: seq<GuardRuns.Move>, d: Device, reached: bool, counter: u32,
                       save: bool)
    requires |boot| <= 1 && (forall m | m in boot :: m.Boot?)
    requires reached ==>
               var g1 := GuardRuns.After(g, boot);
               g1.live == Some(d.guard) && g1.stored == d.flash.ceiling
    ensures Freshness.Blameless(g, boot + if reached then [GuardRuns.Use(counter, save)] else []) <==>
            (boot == [] || !Freshness.Forgets(g, boot[0])) && !(reached && Uncovered(d, counter))
  {
    BlamelessTwo(g, boot, GuardRuns.Use(counter, save));
    if reached {
      UseOffends(GuardRuns.After(g, boot), d, counter, save);
    } else {
      assert boot + [] == boot;
    }
  }

  lemma CrashInOffends(g: GuardRuns.World, boot: seq<GuardRuns.Move>, saves: nat, d: Device, reached: bool, d2: Device,
                       r: SignedRequest, f: Foreign, k: nat)
    requires |boot| <= 1 && (forall m | m in boot :: m.Boot?)
    requires reached ==>
               var g1 := GuardRuns.After(g, boot);
               g1.live == Some(d.guard) && g1.stored == d.flash.ceiling && d2.guard == d.guard
    ensures Freshness.Blameless(g, CrashMovesOf(boot, saves, reached, d2, r, f, k)) <==>
            && !(saves <= k && boot != [] && Freshness.Forgets(g, boot[0]))
            && !(reached && Uncovered(d, r.counter) && saves < k)
  {
    if k < saves {
      BlamelessTwo(g, [], GuardRuns.Restart);
      assert [] + [GuardRuns.Restart] == [GuardRuns.Restart];
    } else if reached {
      BlamelessTwo(g, boot, GuardRuns.CrashInUse(r.counter, f.ceilingSave, PointOf(d2, r, f, k - saves)));
      CrashOffends(GuardRuns.After(g, boot), d, d2, r, f, k - saves);
    } else {
      BlamelessTwo(g, boot, GuardRuns.Restart);
    }
  }

  lemma ParsedOffends(v: Verifier, d: Device, s: Step, log: seq<Event>)
    requires (s.Request? || s.CrashIn?) && Parses(s.input)
    ensures var r := ParseSigned(s.input).value;
            var ms := if s.CrashIn? then CrashMoves(v, d, r, s.f, s.k) else BootMoves(d, s.f) + UseMoves(v, d, r, s.f);
            var (d1, _, saves) := Readied(d, s.f);
            Freshness.Blameless(View(d, log), ms) <==>
            && !(&& (s.CrashIn? ==> |saves| <= s.k)
                 && BootMoves(d, s.f) != [] && Freshness.Forgets(View(d, log), BootMoves(d, s.f)[0]))
            && !(Reaches(v, d, r, s.f) && Uncovered(d1, r.counter) && (s.CrashIn? ==> |saves| < s.k))
  {
    var r := ParseSigned(s.input).value;
    var (d1, _, saves) := Readied(d, s.f);
    var g, boot, reached := View(d, log), BootMoves(d, s.f), Reaches(v, d, r, s.f);
    ReadiedView(d, s.f, log);
    if s.CrashIn? {
      CrashInOffends(g, boot, |saves|, d1, reached, Authenticated(v, d1, r, s.f).0, r, s.f, s.k);
    } else {
      RequestOffends(g, boot, d1, reached, r.counter, s.f.ceilingSave);
    }
  }

  lemma ForgetsExactly(w: World, s: Step)
    requires s.Request? || s.CrashIn?
    ensures Forgets(w, s) <==>
            && (s.CrashIn? ==> |Readied(w.device, s.f).2| <= s.k) && BootMoves(w.device, s.f) != []
            && Freshness.Forgets(View(w.device, w.log), GuardRuns.Boot(s.f.replayInit))
  {
  }

  lemma SignedOffends(v: Verifier, w: World, s: Step)
    requires (s.Request? || s.CrashIn?) && Parses(s.input)
    ensures var r := ParseSigned(s.input).value;
            var ms := if s.CrashIn? then CrashMoves(v, w.device, r, s.f, s.k)
                      else BootMoves(w.device, s.f) + UseMoves(v, w.device, r, s.f);
            Freshness.Blameless(View(w.device, w.log), ms) <==> !Forgets(w, s) && !Overreaches(v, w, s)
  {
    ParsedOffends(v, w.device, s, w.log);
    ForgetsExactly(w, s);
  }

  lemma ParsedMoves(v: Verifier, w: World, s: Step)
    requires (s.Request? || s.CrashIn?) && Parses(s.input)
    ensures var r := ParseSigned(s.input).value;
            Moves(v, w, s) == if s.CrashIn? then CrashMoves(v, w.device, r, s.f, s.k)
                              else BootMoves(w.device, s.f) + UseMoves(v, w.device, r, s.f)
  {
  }

  lemma UnparsedBlameless(v: Verifier, w: World, s: Step)
    requires !((s.Request? || s.CrashIn?) && Parses(s.input))
    ensures Freshness.Blameless(View(w.device, w.log), Moves(v, w, s))
  {
    BlamelessTwo(View(w.device, w.log), [], GuardRuns.Restart);
    assert [] + [GuardRuns.Restart] == [GuardRuns.Restart];
  }

  lemma OffendsExactly(v: Verifier, w: World, s: Step)
    ensures Offends(v, w, s) <==> !Freshness.Blameless(View(w.device, w.log), Moves(v, w, s))
  {
    if (s.Request? || s.CrashIn?) && Parses(s.input) {
      ParsedMoves(v, w, s);
      SignedOffends(v, w, s);
    } else {
      UnparsedBlameless(v, w, s);
    }
  }

  // ---- Whole lives ----

  /** At no instant of the life is an accepted counter fresh, or fresh after a reset and a reload. */
  ghost predicate AlwaysStale(v: Verifier, steps: seq<Step>) {
    steps != [] ==>
      var init, s := steps[..|steps| - 1], steps[|steps| - 1];
      var w := Lived(v, init);
      AlwaysStale(v, init) && Freshness.StaleThroughout(View(w.device, w.log), Moves(v, w, s))
  }

  predicate NeverOffends(v: Verifier, steps: seq<Step>) {
    steps == [] ||
    (NeverOffends(v, steps[..|steps| - 1]) && !Offends(v, Lived(v, steps[..|steps| - 1]), steps[|steps| - 1]))
  }

  lemma FreshStep(v: Verifier, w: World, s: Step)
    requires Freshness.Stale(View(w.device, w.log)) && Freshness.Positive(View(w.device, w.log))
    requires GuardRuns.Increasing(Counters(w.log))
    ensures var g, g' := View(w.device, w.log), View(Exec(v, w, s).device, Exec(v, w, s).log);
            && (Offends(v, w, s) <==> !Freshness.StaleThroughout(g, Moves(v, w, s)))
            && (!Offends(v, w, s) ==> Freshness.Stale(g') && GuardRuns.Increasing(g'.accepted))
            && Freshness.Positive(g')
  {
    StepRefines(v, w, s);
    OffendsExactly(v, w, s);
    Freshness.FreshnessFrom(View(w.device, w.log), Moves(v, w, s));
    Freshness.PositiveRun(View(w.device, w.log), Moves(v, w, s));
  }

  /**
   * Over every life of the device, everything allowed to fail and resets striking anywhere: no accepted counter is ever
   * fresh again, now or after a reload, exactly when no step offends. Then counters are accepted in strictly
   * increasing order.
   */
  lemma {:induction false} FreshExactly(v: Verifier, steps: seq<Step>)
    ensures AlwaysStale(v, steps) <==> NeverOffends(v, steps)
    ensures var g := View(Lived(v, steps).device, Lived(v, steps).log);
            NeverOffends(v, steps) ==> Freshness.Stale(g) && Freshness.Positive(g) && GuardRuns.Increasing(g.accepted)
  {
    if steps == [] {
    } else {
      var init := steps[..|steps| - 1];
      FreshExactly(v, init);
      if NeverOffends(v, init) {
        FreshStep(v, Lived(v, init), steps[|steps| - 1]);
      }
    }
  }
}
