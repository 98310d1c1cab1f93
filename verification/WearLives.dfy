/** Flash wear and the span of a reservation: exactly which lives of the device keep their bounds, whatever fails. */
module WearLives {
  import opened Bytes
  import opened ClientKey
  import opened Device
  import opened DeviceRuns
  import GuardRuns
  import Wear

  // ---- Bounds over lives ----

  /** `holds` for the guard's part of the device at every instant of the life. */
  ghost predicate AlwaysIn(holds: GuardRuns.World -> bool, v: Verifier, steps: seq<Step>) {
    steps != [] ==>
      var init, s := steps[..|steps| - 1], steps[|steps| - 1];
      var w := Lived(v, init);
      AlwaysIn(holds, v, init) && Wear.Throughout(holds, View(w.device, w.log), Moves(v, w, s))
  }

  ghost predicate NeverIn(bad: (World, Step) -> bool, v: Verifier, steps: seq<Step>) {
    steps != [] ==>
      var init, s := steps[..|steps| - 1], steps[|steps| - 1];
      NeverIn(bad, v, init) && !bad(Lived(v, init), s)
  }

  lemma {:induction false} BoundOfLife(standing: GuardRuns.World -> bool, holds: GuardRuns.World -> bool,
                                       bad: (GuardRuns.World, GuardRuns.Move) -> bool,
                                       step: (World, Step) -> bool, v: Verifier, steps: seq<Step>)
    requires Wear.Breaks(standing, holds, bad) && standing(GuardRuns.BLANK) && holds(GuardRuns.BLANK)
    requires forall w, s :: step(w, s) <==> !Wear.Never(bad, View(w.device, w.log), Moves(v, w, s))
    ensures AlwaysIn(holds, v, steps) <==> NeverIn(step, v, steps)
    ensures var g := View(Lived(v, steps).device, Lived(v, steps).log);
            standing(g) && (NeverIn(step, v, steps) ==> holds(g))
  {
    if steps == [] {
    } else {
      var init, s := steps[..|steps| - 1], steps[|steps| - 1];
      var w := Lived(v, init);
      BoundOfLife(standing, holds, bad, step, v, init);
      StepRefines(v, w, s);
      if holds(View(w.device, w.log)) {
        Wear.BoundExactly(standing, holds, bad, View(w.device, w.log), Moves(v, w, s));
      } else {
        Wear.StandingRun(standing, holds, bad, View(w.device, w.log), Moves(v, w, s), |Moves(v, w, s)|);
        assert Moves(v, w, s)[..|Moves(v, w, s)|] == Moves(v, w, s);
      }
    }
  }

  // ---- Flash wear ----

  /**
   * The request initialises the guard although it could not read the ceiling entry that is there, and writes over it. A
   * reset must not strike before that write.
   */
  predicate OverwritesEntry(w: World, s: Step) {
    && (s.Request? || s.CrashIn?) && Parses(s.input)
    && WithBundle(w.device, s.f).1 && !w.device.replayReady && w.device.flash.ceiling.Some?
    && s.f.replayInit.subsys && !s.f.replayInit.load && s.f.replayInit.save
    && (s.CrashIn? ==> 0 < s.k)
  }

  /** A list that has an initialisation at its head only. */
  lemma NeverOverwrites(g: GuardRuns.World, ms: seq<GuardRuns.Move>)
    requires forall i | 0 < i < |ms| :: !ms[i].Boot?
    ensures Wear.Never(Wear.Overwrites, g, ms) <==> (ms == [] || !Wear.Overwrites(g, ms[0]))
  {
    if ms != [] {
      assert ms[..0] == [];
      assert forall k | 0 <= k < |ms| :: k == 0 || !Wear.Overwrites(GuardRuns.After(g, ms[..k]), ms[k]);
    }
  }

  lemma OverwritesExactly(v: Verifier, w: World, s: Step)
    ensures OverwritesEntry(w, s) <==> !Wear.Never(Wear.Overwrites, View(w.device, w.log), Moves(v, w, s))
  {
    NeverOverwrites(View(w.device, w.log), Moves(v, w, s));
  }

  /**
   * Over every life of the device, everything allowed to fail: 64 times the ceiling writes is at most the ceiling
   * in flash at every instant, exactly when no initialisation writes over an entry it could not read.
   */
  lemma ThriftyExactly(v: Verifier, steps: seq<Step>)
    ensures AlwaysIn(Wear.Thrifty, v, steps) <==> NeverIn(OverwritesEntry, v, steps)
    ensures var w := Lived(v, steps);
            NeverIn(OverwritesEntry, v, steps) ==> 64 * CeilingWrites(w.log) <= w.device.flash.ceiling.GetOr(0)
  {
    Wear.ThriftyBreaks();
    forall w, s ensures OverwritesEntry(w, s) <==> !Wear.Never(Wear.Overwrites, View(w.device, w.log), Moves(v, w, s)) {
      OverwritesExactly(v, w, s);
    }
    BoundOfLife(Wear.Tracked, Wear.Thrifty, Wear.Overwrites, OverwritesEntry, v, steps);
  }

  // ---- The span of a reservation ----

  /** The request extends the reservation of a persistent guard, and the write of the new ceiling fails. */
  predicate StretchesReservation(v: Verifier, w: World, s: Step) {
    s.Request? && Parses(s.input) &&
    var r, d := ParseSigned(s.input).value, Readied(w.device, s.f).0;
    && Reaches(v, w.device, r, s.f) && d.guard.persistent && !s.f.ceilingSave
    && d.guard.floor < r.counter && d.guard.ceiling <= r.counter <= 0xFFFF_FFFF - 64
  }

  /** A list in which only the last move is a use. */
  lemma NeverStretches(g: GuardRuns.World, init: seq<GuardRuns.Move>, m: GuardRuns.Move)
    requires forall x | x in init :: !x.Use?
    ensures Wear.Never(Wear.Stretches, g, init)
    ensures Wear.Never(Wear.Stretches, g, init + [m]) <==> !Wear.Stretches(GuardRuns.After(g, init), m)
  {
    var ms := init + [m];
    assert ms[..|init|] == init && ms[|init|] == m;
    assert forall k | 0 <= k < |init| :: ms[k] == init[k] && init[k] in init;
  }

  lemma StretchesCore(g: GuardRuns.World, boot: seq<GuardRuns.Move>, d: Device, reached: bool, counter: u32, save: bool)
    requires forall m | m in boot :: m.Boot?
    requires reached ==> GuardRuns.After(g, boot).live == Some(d.guard)
    ensures Wear.Never(Wear.Stretches, g, boot + if reached then [GuardRuns.Use(counter, save)] else []) <==>
            !(&& reached && d.guard.persistent && !save
              && d.guard.floor < counter && d.guard.ceiling <= counter <= 0xFFFF_FFFF - 64)
  {
    NeverStretches(g, boot, GuardRuns.Use(counter, save));
    if !reached {
      assert boot + [] == boot;
    }
  }

  lemma OtherMoves(v: Verifier, w: World, s: Step)
    requires !(s.Request? && Parses(s.input))
    ensures Wear.Never(Wear.Stretches, View(w.device, w.log), Moves(v, w, s))
  {
  }

  lemma StretchesExactly(v: Verifier, w: World, s: Step)
    ensures StretchesReservation(v, w, s) <==> !Wear.Never(Wear.Stretches, View(w.device, w.log), Moves(v, w, s))
  {
    if s.Request? && Parses(s.input) {
      var r := ParseSigned(s.input).value;
      ReadiedView(w.device, s.f, w.log);
      StretchesCore(View(w.device, w.log), BootMoves(w.device, s.f), Readied(w.device, s.f).0,
                    Reaches(v, w.device, r, s.f), r.counter, s.f.ceilingSave);
    } else {
      OtherMoves(v, w, s);
    }
  }

  /**
   * Over every life of the device, everything allowed to fail: an initialised guard's ceiling lies between its
   * floor and 64 above it at every instant, exactly when no request extends the reservation and fails to write it.
   */
  lemma SpannedExactly(v: Verifier, steps: seq<Step>)
    ensures AlwaysIn(Wear.Spanned, v, steps) <==> NeverIn((w, s) => StretchesReservation(v, w, s), v, steps)
    ensures var d := Lived(v, steps).device;
            NeverIn((w, s) => StretchesReservation(v, w, s), v, steps) && d.replayReady ==>
              d.guard.floor <= d.guard.ceiling <= d.guard.floor as int + 64
  {
    var stretches := (w, s) => StretchesReservation(v, w, s);
    Wear.SpannedBreaks();
    forall w, s ensures stretches(w, s) <==> !Wear.Never(Wear.Stretches, View(w.device, w.log), Moves(v, w, s)) {
      StretchesExactly(v, w, s);
    }
    BoundOfLife(Wear.Any, Wear.Spanned, Wear.Stretches, stretches, v, steps);
  }
}
