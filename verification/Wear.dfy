/**
 * Flash wear and the span of a reservation: exactly which runs of the replay guard keep their bounds, whatever
 * fails.
 */
module Wear {
  import opened Bytes
  import opened Replay
  import opened GuardRuns

  // ---- A bound and the moves that break it ----

  /** `holds` at every instant of a run. */
  ghost predicate Throughout(holds: World -> bool, g: World, ms: seq<Move>) {
    forall k | 0 <= k <= |ms| :: holds(After(g, ms[..k]))
  }

  /** No move of the run is `bad`. */
  ghost predicate Never(bad: (World, Move) -> bool, g: World, ms: seq<Move>) {
    forall k | 0 <= k < |ms| :: !bad(After(g, ms[..k]), ms[k])
  }

  /** Every move keeps `standing`, and keeps `holds` exactly when it is not bad. */
  ghost predicate Breaks(standing: World -> bool, holds: World -> bool,
                         bad: (World, Move) -> bool) {
    forall w, m | standing(w) ::
      standing(Do(w, m)) && (holds(w) ==> (holds(Do(w, m)) <==> !bad(w, m)))
  }

  lemma AfterNext(g: World, ms: seq<Move>, k: nat)
    requires k < |ms|
    ensures After(g, ms[..k + 1]) == Do(After(g, ms[..k]), ms[k])
  {
    assert ms[..k + 1][..k] == ms[..k];
  }

  lemma {:induction false} StandingRun(standing: World -> bool, holds: World -> bool,
                                       bad: (World, Move) -> bool, g: World, ms: seq<Move>, k: nat)
    requires Breaks(standing, holds, bad) && standing(g) && k <= |ms|
    ensures standing(After(g, ms[..k]))
    ensures holds(g) && (forall i | 0 <= i < k :: !bad(After(g, ms[..i]), ms[i])) ==> holds(After(g, ms[..k]))
  {
    if k == 0 {
      assert ms[..0] == [];
    } else {
      StandingRun(standing, holds, bad, g, ms, k - 1);
      AfterNext(g, ms, k - 1);
    }
  }

  lemma BoundExactly(standing: World -> bool, holds: World -> bool,
                     bad: (World, Move) -> bool, g: World, ms: seq<Move>)
    requires Breaks(standing, holds, bad) && standing(g) && holds(g)
    ensures Throughout(holds, g, ms) <==> Never(bad, g, ms)
    ensures standing(After(g, ms)) && (Never(bad, g, ms) ==> holds(After(g, ms)))
  {
    assert ms[..|ms|] == ms;
    StandingRun(standing, holds, bad, g, ms, |ms|);
    if Never(bad, g, ms) {
      forall k | 0 <= k <= |ms| ensures holds(After(g, ms[..k])) {
        StandingRun(standing, holds, bad, g, ms, k);
      }
    } else {
      var k :| 0 <= k < |ms| && bad(After(g, ms[..k]), ms[k]);
      StandingRun(standing, holds, bad, g, ms, k);
      AfterNext(g, ms, k);
      assert holds(After(g, ms[..k])) ==> !holds(After(g, ms[..k + 1]));
    }
  }

  // ---- Flash wear ----

  /** One write for every 64 counters below the stored ceiling, at most. */
  predicate Thrifty(w: World) {
    64 * w.writes <= Stored(w)
  }

  /** An initialisation writes over an entry that it could not read. */
  predicate Overwrites(w: World, m: Move) {
    m.Boot? && m.io.subsys && !m.io.load && m.io.save && w.stored.Some?
  }

  predicate Tracked(w: World) {
    && (w.stored.Some? <==> w.writes > 0)
    && (w.live.Some? && w.live.value.persistent ==> Stored(w) <= w.live.value.ceiling)
  }

  lemma ThriftyStep(w: World, m: Move)
    requires Tracked(w)
    ensures Tracked(Do(w, m))
    ensures Thrifty(w) ==> (Thrifty(Do(w, m)) <==> !Overwrites(w, m))
  {
  }

  lemma ThriftyBreaks()
    ensures Breaks(Tracked, Thrifty, Overwrites)
  {
    forall w, m | Tracked(w)
      ensures Tracked(Do(w, m)) && (Thrifty(w) ==> (Thrifty(Do(w, m)) <==> !Overwrites(w, m)))
    {
      ThriftyStep(w, m);
    }
  }

  /**
   * Over every run from blank storage, everything allowed to fail: 64 times the ceiling writes is at most the stored
   * ceiling at every instant, exactly when no initialisation writes over an entry it could not read.
   */
  lemma ThriftyExactly(ms: seq<Move>)
    ensures Throughout(Thrifty, BLANK, ms) <==> Never(Overwrites, BLANK, ms)
  {
    ThriftyBreaks();
    BoundExactly(Tracked, Thrifty, Overwrites, BLANK, ms);
  }

  /** Two boots that cannot read the entry: two more writes, and the stored ceiling stays where it was. */
  lemma UnreadableBootsWear()
    ensures var bad := Boot(Storage(true, false, true));
            var ms := [Boot(Storage(true, true, true)), Restart, bad, Restart, bad];
            At(ms, 5).writes == 3 && At(ms, 5).stored == Some(64)
  {
    var bad := Boot(Storage(true, false, true));
    var ms := [Boot(Storage(true, true, true)), Restart, bad, Restart, bad];
    StepAt(ms, 0);
    StepAt(ms, 1);
    StepAt(ms, 2);
    assert At(ms, 3) == World(Some(64), Some(Guard(0, 64, true)), [], 2);
    StepAt(ms, 3);
    StepAt(ms, 4);
  }

  // ---- The span of a reservation ----

  /** The ceiling in RAM lies between the floor and 64 above it. */
  predicate Spanned(w: World) {
    w.live.Some? ==> w.live.value.floor <= w.live.value.ceiling <= w.live.value.floor as int + 64
  }

  /** A use extends the reservation, and the write of the new ceiling fails. */
  predicate Stretches(w: World, m: Move) {
    && m.Use? && w.live.Some? && w.live.value.persistent && !m.save
    && w.live.value.floor < m.counter && w.live.value.ceiling <= m.counter <= 0xFFFF_FFFF - 64
  }

  predicate Any(w: World) {
    true
  }

  lemma SpannedStep(w: World, m: Move)
    requires Spanned(w)
    ensures Spanned(Do(w, m)) <==> !Stretches(w, m)
  {
  }

  lemma SpannedBreaks()
    ensures Breaks(Any, Spanned, Stretches)
  {
    forall w, m ensures Spanned(w) ==> (Spanned(Do(w, m)) <==> !Stretches(w, m)) {
      if Spanned(w) {
        SpannedStep(w, m);
      }
    }
  }

  /**
   * Over every run from blank storage, everything allowed to fail: the ceiling in RAM lies between the floor and 64
   * above it at every instant, exactly when no use extends the reservation of a persistent guard and fails to write
   * it.
   */
  lemma SpannedExactly(ms: seq<Move>)
    ensures Throughout(Spanned, BLANK, ms) <==> Never(Stretches, BLANK, ms)
  {
    SpannedBreaks();
    BoundExactly(Any, Spanned, Stretches, BLANK, ms);
  }
}
