/** Exactly which lives of the device keep every accepted counter covered by the ceiling in flash. */
module CrashSafety {
  import opened History
  import opened ClientKey
  import opened Device
  import opened DeviceRuns
  import opened FreshLives
  import Freshness
  import GuardRuns

  predicate LoadsFine(s: Step) {
    s.Request? || s.CrashIn? ==> s.f.replayInit.subsys && s.f.replayInit.load
  }

  /**
   * The step accepts a counter without writing, on a reservation that flash does not hold: fresh, below the ceiling in
   * RAM, and not below the one in flash. A reset inside the request must strike late enough for the acceptance.
   */
  predicate Overdraws(v: Verifier, w: World, s: Step) {
    (s.Request? || s.CrashIn?) && Parses(s.input) &&
    var r, (d, _, saves) := ParseSigned(s.input).value, Readied(w.device, s.f);
    && Reaches(v, w.device, r, s.f)
    && d.guard.floor < r.counter && d.flash.ceiling.GetOr(0) <= r.counter < d.guard.ceiling
    && (s.CrashIn? ==> |saves| < s.k)
  }

  /** The last of the moves draws on a reservation that flash does not hold. */
  predicate EndsUnsaved(g: GuardRuns.World, ms: seq<GuardRuns.Move>) {
    ms != [] && GuardRuns.Unsaved(GuardRuns.After(g, ms[..|ms| - 1]), ms[|ms| - 1])
  }

  lemma EndOf(g: GuardRuns.World, boot: seq<GuardRuns.Move>, m: GuardRuns.Move)
    ensures EndsUnsaved(g, boot + [m]) <==> GuardRuns.Unsaved(GuardRuns.After(g, boot), m)
  {
    assert (boot + [m])[..|boot|] == boot;
  }

  lemma BootsNever(g: GuardRuns.World, boot: seq<GuardRuns.Move>)
    requires forall m | m in boot :: m.Boot?
    ensures !EndsUnsaved(g, boot) && !EndsUnsaved(g, boot + [GuardRuns.Restart]) && !EndsUnsaved(g, [GuardRuns.Restart])
  {
    EndOf(g, boot, GuardRuns.Restart);
    EndOf(g, [], GuardRuns.Restart);
    assert [] + [GuardRuns.Restart] == [GuardRuns.Restart];
  }

  lemma UnsavedCore(g: GuardRuns.World, boot: seq<GuardRuns.Move>, d: Device, saves: seq<Event>, log: seq<Event>,
                    reached: bool, d2: Device, r: SignedRequest, s: Step)
    requires s.Request? || s.CrashIn?
    requires View(d, log + saves) == GuardRuns.After(g, boot) && |saves| <= 1
    requires (forall m | m in boot :: m.Boot?) && (reached ==> d.replayReady && d2.guard == d.guard)
    ensures var ms := if s.CrashIn? then CrashMovesOf(boot, |saves|, reached, d2, r, s.f, s.k)
                      else boot + if reached then [GuardRuns.Use(r.counter, s.f.ceilingSave)] else [];
            (&& reached
             && d.guard.floor < r.counter && d.flash.ceiling.GetOr(0) <= r.counter < d.guard.ceiling
             && (s.CrashIn? ==> |saves| < s.k)) <==> EndsUnsaved(g, ms)
  {
    BootsNever(g, boot);
    if !reached {
      assert boot + [] == boot;
    } else if s.Request? {
      EndOf(g, boot, GuardRuns.Use(r.counter, s.f.ceilingSave));
    } else if |saves| <= s.k {
      EndOf(g, boot, GuardRuns.CrashInUse(r.counter, s.f.ceilingSave, PointOf(d2, r, s.f, s.k - |saves|)));
    }
  }

  lemma UnsavedExactly(v: Verifier, w: World, s: Step)
    ensures Overdraws(v, w, s) <==> EndsUnsaved(View(w.device, w.log), Moves(v, w, s))
  {
    if (s.Request? || s.CrashIn?) && Parses(s.input) {
      var r := ParseSigned(s.input).value;
      var (d, ready, saves) := Readied(w.device, s.f);
      ReadiedView(w.device, s.f, w.log);
      UnsavedCore(View(w.device, w.log), BootMoves(w.device, s.f), d, saves, w.log, Reaches(v, w.device, r, s.f),
                  Authenticated(v, d, r, s.f).0, r, s);
    }
  }

  // ---- Coverage, exactly ----

  /** Every accepted counter lies below the ceiling in flash: a reset now cannot reopen it. */
  ghost predicate Covered(w: World) {
    forall c | c in Counters(w.log) :: c < w.device.flash.ceiling.GetOr(0)
  }

  ghost predicate AlwaysCovered(v: Verifier, steps: seq<Step>) {
    Covered(Lived(v, steps)) && (steps == [] || AlwaysCovered(v, steps[..|steps| - 1]))
  }

  predicate NeverOverdrawn(v: Verifier, steps: seq<Step>) {
    steps == [] ||
    (NeverOverdrawn(v, steps[..|steps| - 1]) && !Overdraws(v, Lived(v, steps[..|steps| - 1]), steps[|steps| - 1]))
  }

  /** The ceiling can be read back, and no reservation is drawn on that flash does not hold. */
  ghost predicate Sound(v: Verifier, steps: seq<Step>) {
    (forall s | s in steps :: LoadsFine(s)) && NeverOverdrawn(v, steps)
  }

  lemma SafeMoves(g: GuardRuns.World, ms: seq<GuardRuns.Move>)
    requires GuardRuns.Worn(g) && |ms| <= 2 && forall m | m in ms :: GuardRuns.LoadsWork(m)
    requires |ms| == 2 ==> ms[0].Boot?
    ensures var g' := GuardRuns.After(g, ms);
            var unsaved := ms != [] && GuardRuns.Unsaved(GuardRuns.After(g, ms[..|ms| - 1]), ms[|ms| - 1]);
            && GuardRuns.Worn(g')
            && (GuardRuns.Ordered(g) && !unsaved ==> GuardRuns.Ordered(g'))
            && (unsaved ==> !GuardRuns.CrashSafe(g'))
  {
    GuardRuns.WornRun(g, ms);
    if ms != [] {
      var init, m := ms[..|ms| - 1], ms[|ms| - 1];
      var mid := GuardRuns.After(g, init);
      GuardRuns.WornRun(g, init);
      if init != [] {
        assert init == [ms[0]];
        AfterOne(g, ms[0]);
        if GuardRuns.Ordered(g) {
          GuardRuns.OrderedStep(g, ms[0]);
        }
      }
      if GuardRuns.Unsaved(mid, m) {
        GuardRuns.UnsavedStep(mid, m);
      } else if GuardRuns.Ordered(g) {
        GuardRuns.OrderedStep(mid, m);
      }
    }
  }

  /** A request during which the ceiling could not be saved. */
  predicate SaveFails(s: Step) {
    s.Request? && !s.f.ceilingSave
  }

  lemma MovesShape(v: Verifier, w: World, s: Step)
    requires LoadsFine(s)
    ensures var ms := Moves(v, w, s);
            && (forall m | m in ms :: GuardRuns.LoadsWork(m))
            && (forall i | 0 <= i < |ms| - 1 :: !ms[i].Use?)
            && (forall m | m in ms :: m.Use? && !m.save ==> SaveFails(s))
            && (s.Restart? ==> ms == [GuardRuns.Restart])
            && |ms| <= 2 && (|ms| == 2 ==> ms[0].Boot?)
  {
  }

  lemma SafeStep(v: Verifier, w: World, s: Step)
    requires GuardRuns.Worn(View(w.device, w.log)) && LoadsFine(s)
    ensures var g, g' := View(w.device, w.log), View(Exec(v, w, s).device, Exec(v, w, s).log);
            && GuardRuns.Worn(g')
            && (GuardRuns.Ordered(g) && !Overdraws(v, w, s) ==> GuardRuns.Ordered(g'))
            && (Overdraws(v, w, s) ==> !GuardRuns.CrashSafe(g'))
  {
    StepRefines(v, w, s);
    UnsavedExactly(v, w, s);
    MovesShape(v, w, s);
    SafeMoves(View(w.device, w.log), Moves(v, w, s));
  }

  /**
   * Over every life whose loads work, saves failing in any pattern and resets striking anywhere: the accepted
   * counters are covered by flash at every step exactly when no step overdraws. Then they are also in strictly
   * increasing order.
   */
  lemma {:induction false} CoveredExactly(v: Verifier, steps: seq<Step>)
    requires forall s | s in steps :: LoadsFine(s)
    ensures AlwaysCovered(v, steps) <==> NeverOverdrawn(v, steps)
    ensures var g := View(Lived(v, steps).device, Lived(v, steps).log);
            GuardRuns.Worn(g) && (NeverOverdrawn(v, steps) ==> GuardRuns.Ordered(g))
  {
    if steps == [] {
    } else {
      CoveredExactly(v, steps[..|steps| - 1]);
      SafeStep(v, Lived(v, steps[..|steps| - 1]), steps[|steps| - 1]);
    }
  }

  // ---- Freshness, exactly, when loads work ----

  /** No accepted counter is above the ceiling in flash, which a reload makes the floor. */
  ghost predicate Retained(w: World) {
    forall c | c in Counters(w.log) :: c <= w.device.flash.ceiling.GetOr(0)
  }

  ghost predicate AlwaysRetained(v: Verifier, steps: seq<Step>) {
    Retained(Lived(v, steps)) && (steps == [] || AlwaysRetained(v, steps[..|steps| - 1]))
  }

  /** The step overdraws, on a counter strictly above the ceiling in flash. */
  predicate Reopens(v: Verifier, w: World, s: Step) {
    Overdraws(v, w, s) && Readied(w.device, s.f).0.flash.ceiling.GetOr(0) < ParseSigned(s.input).value.counter
  }

  predicate NeverReopens(v: Verifier, steps: seq<Step>) {
    steps == [] ||
    (NeverReopens(v, steps[..|steps| - 1]) && !Reopens(v, Lived(v, steps[..|steps| - 1]), steps[|steps| - 1]))
  }

  lemma ReadiedPersistent(d: Device, f: Foreign, log: seq<Event>)
    requires GuardRuns.Worn(View(d, log)) && f.replayInit.subsys && f.replayInit.load
    ensures Readied(d, f).0.replayReady ==> Readied(d, f).0.guard.persistent
  {
    ReadiedView(d, f, log);
    GuardRuns.WornRun(View(d, log), BootMoves(d, f));
  }

  lemma OffendsWithLoads(v: Verifier, w: World, s: Step)
    requires GuardRuns.Worn(View(w.device, w.log)) && LoadsFine(s)
    ensures Offends(v, w, s) <==> Reopens(v, w, s)
  {
    if s.Request? || s.CrashIn? {
      ReadiedPersistent(w.device, s.f, w.log);
    }
  }

  /** The last of the guard's moves carries the request's counter, and finds the ceiling that initialisation left. */
  lemma LastCounter(v: Verifier, w: World, s: Step)
    requires Overdraws(v, w, s)
    ensures var ms := Moves(v, w, s);
            && ms != [] && (ms[|ms| - 1].Use? || ms[|ms| - 1].CrashInUse?)
            && ms[|ms| - 1].counter == ParseSigned(s.input).value.counter
            && GuardRuns.After(View(w.device, w.log), ms[..|ms| - 1]).stored == Readied(w.device, s.f).0.flash.ceiling
  {
    var boot, ms := BootMoves(w.device, s.f), Moves(v, w, s);
    ReadiedView(w.device, s.f, w.log);
    assert ms == boot + [ms[|ms| - 1]];
    assert ms[..|ms| - 1] == boot;
  }

  lemma ReopensStep(v: Verifier, w: World, s: Step)
    requires GuardRuns.Worn(View(w.device, w.log)) && LoadsFine(s) && Reopens(v, w, s)
    ensures !Retained(Exec(v, w, s))
  {
    var g, ms := View(w.device, w.log), Moves(v, w, s);
    var mid := GuardRuns.After(g, ms[..|ms| - 1]);
    StepRefines(v, w, s);
    UnsavedExactly(v, w, s);
    MovesShape(v, w, s);
    GuardRuns.WornRun(g, ms[..|ms| - 1]);
    LastCounter(v, w, s);
    Freshness.OffendsWithLoads(mid, ms[|ms| - 1]);
  }

  /**
   * Over every life whose loads work: the accepted counters stay at or below the ceiling in flash exactly when no step
   * reopens. These are also exactly the lives in which nothing accepted is ever fresh again.
   */
  lemma {:induction false} RetainedExactly(v: Verifier, steps: seq<Step>)
    requires forall s | s in steps :: LoadsFine(s)
    ensures AlwaysRetained(v, steps) <==> NeverReopens(v, steps)
    ensures NeverReopens(v, steps) <==> NeverOffends(v, steps)
  {
    FreshExactly(v, steps);
    if steps == [] {
    } else {
      var init, s := steps[..|steps| - 1], steps[|steps| - 1];
      RetainedExactly(v, init);
      CoveredExactly(v, init);
      OffendsWithLoads(v, Lived(v, init), s);
      if Reopens(v, Lived(v, init), s) {
        ReopensStep(v, Lived(v, init), s);
      }
    }
  }

  /** Lives in which no step overdraws are among them. */
  lemma {:induction false} SoundIsFresh(v: Verifier, steps: seq<Step>)
    requires Sound(v, steps)
    ensures NeverOffends(v, steps)
  {
    if steps == [] {
    } else {
      var init, s := steps[..|steps| - 1], steps[|steps| - 1];
      SoundIsFresh(v, init);
      CoveredExactly(v, init);
      OffendsWithLoads(v, Lived(v, init), s);
    }
  }

  // ---- A sufficient discipline ----

  /** The ceiling can be read back, and a failed write is followed by a reset before the next request. */
  ghost predicate Reliable(steps: seq<Step>) {
    && (forall s | s in steps :: LoadsFine(s))
    && (forall k | 0 <= k < |steps| - 1 :: SaveFails(steps[k]) ==> steps[k + 1].Restart?)
  }

  ghost predicate Intact(g: GuardRuns.World) {
    GuardRuns.Worn(g) && GuardRuns.Ordered(g)
  }

  lemma IntactMove(g: GuardRuns.World, m: GuardRuns.Move)
    requires Intact(g) && GuardRuns.LoadsWork(m) && (GuardRuns.Synced(g) || m.Restart?)
    ensures Intact(GuardRuns.Do(g, m))
    ensures !GuardRuns.Unsaved(g, m) && ((m.Use? && !m.save) || GuardRuns.Synced(GuardRuns.Do(g, m)))
  {
    GuardRuns.WornStep(g, m);
    GuardRuns.OrderedStep(g, m);
  }

  lemma {:induction false} IntactMoves(g: GuardRuns.World, ms: seq<GuardRuns.Move>)
    requires Intact(g) && (forall m | m in ms :: GuardRuns.LoadsWork(m))
    requires GuardRuns.Synced(g) || ms == [GuardRuns.Restart]
    requires forall i | 0 <= i < |ms| - 1 :: !ms[i].Use?
    ensures Intact(GuardRuns.After(g, ms))
    ensures (ms != [] && ms[|ms| - 1].Use? && !ms[|ms| - 1].save) || GuardRuns.Synced(GuardRuns.After(g, ms))
    ensures ms != [] ==> !GuardRuns.Unsaved(GuardRuns.After(g, ms[..|ms| - 1]), ms[|ms| - 1])
  {
    if ms == [] {
    } else {
      var init, m := ms[..|ms| - 1], ms[|ms| - 1];
      if init == [] {
        assert GuardRuns.After(g, init) == g;
      } else {
        assert init[|init| - 1] == ms[|ms| - 2];
        IntactMoves(g, init);
      }
      IntactMove(GuardRuns.After(g, init), m);
    }
  }

  /** A reset right after every failed write is enough. */
  lemma {:induction false} ReliableSuffices(v: Verifier, steps: seq<Step>)
    requires Reliable(steps)
    ensures Sound(v, steps)
    ensures var g := View(Lived(v, steps).device, Lived(v, steps).log);
            Intact(g) && ((steps != [] && SaveFails(steps[|steps| - 1])) || GuardRuns.Synced(g))
  {
    if steps == [] {
    } else {
      var init, s := steps[..|steps| - 1], steps[|steps| - 1];
      var w := Lived(v, init);
      forall k | 0 <= k < |init| - 1 ensures SaveFails(init[k]) ==> init[k + 1].Restart? {
        assert SaveFails(steps[k]) ==> steps[k + 1].Restart?;
      }
      ReliableSuffices(v, init);
      if init != [] && SaveFails(init[|init| - 1]) {
        assert SaveFails(steps[|init| - 1]) && steps[|init|].Restart?;
      }
      StepRefines(v, w, s);
      MovesShape(v, w, s);
      UnsavedExactly(v, w, s);
      IntactMoves(View(w.device, w.log), Moves(v, w, s));
    }
  }
}
