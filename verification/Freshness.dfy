/** Exactly which runs of the replay guard keep every accepted counter stale, whatever fails. */
module Freshness {
  import opened Bytes
  import opened Replay
  import opened GuardRuns

  /** No accepted counter is above the stored ceiling, and so none is fresh again after a reset and a reload. */
  ghost predicate Retained(w: World) {
    forall c | c in w.accepted :: c <= Stored(w)
  }

  /** Nor is any fresh now. */
  ghost predicate Stale(w: World) {
    Retained(w) && (w.live.Some? ==> forall c | c in w.accepted :: !Fresh(w.live.value, c))
  }

  /**
   * The guard accepts, without a write, a counter above the stored ceiling: on a reservation in RAM, or with no
   * storage.
   */
  predicate Overreaches(w: World, m: Move) {
    && (m.Use? || (m.CrashInUse? && m.point == AfterFloor)) && w.live.Some?
    && w.live.value.floor < m.counter && Stored(w) < m.counter
    && (m.counter < w.live.value.ceiling || (!w.live.value.persistent && m.counter <= 0xFFFF_FFFF - 64))
  }

  /** The guard starts from 0 although it has accepted before: no storage, or an unreadable entry written over. */
  predicate Forgets(w: World, m: Move) {
    m.Boot? && w.accepted != [] && (!m.io.subsys || (!m.io.load && m.io.save))
  }

  predicate Offends(w: World, m: Move) {
    Overreaches(w, m) || Forgets(w, m)
  }

  // ---- One move ----

  ghost predicate Positive(w: World) {
    forall c | c in w.accepted :: 0 < c
  }

  lemma PositiveStep(w: World, m: Move)
    requires Positive(w)
    ensures Positive(Do(w, m))
  {
  }

  lemma OverreachesStep(w: World, m: Move)
    requires Overreaches(w, m)
    ensures !Retained(Do(w, m))
  {
    assert m.counter in Do(w, m).accepted && Stored(Do(w, m)) == Stored(w);
  }

  lemma ForgetsStep(w: World, m: Move)
    requires Positive(w) && Forgets(w, m)
    ensures !Stale(Do(w, m))
  {
    assert w.accepted[0] in Do(w, m).accepted;
  }

  lemma HarmlessStep(w: World, m: Move)
    requires Stale(w) && Positive(w) && Increasing(w.accepted) && !Offends(w, m)
    ensures Stale(Do(w, m)) && Increasing(Do(w, m).accepted)
  {
    var w' := Do(w, m);
    if w'.accepted != w.accepted {
      IncreasingAppend(w.accepted, m.counter);
      assert w'.accepted == w.accepted + [m.counter];
    }
  }

  // ---- Runs ----

  lemma {:induction false} PositiveRun(g: World, ms: seq<Move>)
    requires Positive(g)
    ensures Positive(After(g, ms))
  {
    if ms == [] {
    } else {
      PositiveRun(g, ms[..|ms| - 1]);
      PositiveStep(After(g, ms[..|ms| - 1]), ms[|ms| - 1]);
    }
  }

  lemma Advance(g: World, ms: seq<Move>, k: nat)
    requires k < |ms|
    ensures After(g, ms[..k + 1]) == Do(After(g, ms[..k]), ms[k])
  {
    assert ms[..k + 1][..k] == ms[..k];
  }

  lemma {:induction false} HarmlessRun(g: World, ms: seq<Move>, k: nat)
    requires k <= |ms| && Stale(g) && Positive(g) && Increasing(g.accepted)
    requires forall i | 0 <= i < k :: !Offends(After(g, ms[..i]), ms[i])
    ensures Stale(After(g, ms[..k])) && Increasing(After(g, ms[..k]).accepted)
  {
    if k == 0 {
      assert ms[..0] == [];
    } else {
      HarmlessRun(g, ms, k - 1);
      PositiveRun(g, ms[..k - 1]);
      Advance(g, ms, k - 1);
      HarmlessStep(After(g, ms[..k - 1]), ms[k - 1]);
    }
  }

  ghost predicate StaleThroughout(g: World, ms: seq<Move>) {
    forall k | 0 <= k <= |ms| :: Stale(After(g, ms[..k]))
  }

  predicate Blameless(g: World, ms: seq<Move>) {
    forall k | 0 <= k < |ms| :: !Offends(After(g, ms[..k]), ms[k])
  }

  lemma OffendsStep(w: World, m: Move)
    requires Positive(w) && Offends(w, m)
    ensures !Stale(Do(w, m))
  {
    if Overreaches(w, m) {
      OverreachesStep(w, m);
    } else {
      ForgetsStep(w, m);
    }
  }

  /**
   * From any world in which nothing accepted is fresh, and whatever fails on the way: that stays so at every instant
   * exactly when no move offends. Then counters are accepted in strictly increasing order.
   */
  lemma FreshnessFrom(g: World, ms: seq<Move>)
    requires Stale(g) && Positive(g) && Increasing(g.accepted)
    ensures StaleThroughout(g, ms) <==> Blameless(g, ms)
    ensures Blameless(g, ms) ==> Stale(After(g, ms)) && Increasing(After(g, ms).accepted)
  {
    assert ms[..|ms|] == ms;
    if Blameless(g, ms) {
      forall k | 0 <= k <= |ms| ensures Stale(After(g, ms[..k])) {
        HarmlessRun(g, ms, k);
      }
      HarmlessRun(g, ms, |ms|);
    } else {
      var k :| 0 <= k < |ms| && Offends(After(g, ms[..k]), ms[k]);
      PositiveRun(g, ms[..k]);
      Advance(g, ms, k);
      OffendsStep(After(g, ms[..k]), ms[k]);
      assert !Stale(After(g, ms[..k + 1]));
    }
  }

  // ---- Main results ----

  /**
   * Over every run from blank storage, with the settings subsystem, loads and saves failing in any pattern: no accepted
   * counter is ever fresh again, now or after a reload, exactly when no move offends. Then they strictly increase.
   */
  lemma FreshnessExactly(ms: seq<Move>)
    ensures StaleThroughout(BLANK, ms) <==> Blameless(BLANK, ms)
    ensures Blameless(BLANK, ms) ==> Increasing(After(BLANK, ms).accepted)
  {
    FreshnessFrom(BLANK, ms);
  }

  lemma OffendsWithLoads(w: World, m: Move)
    requires Worn(w) && LoadsWork(m)
    ensures Offends(w, m) <==> Unsaved(w, m) && Stored(w) < m.counter
    ensures Offends(w, m) ==> !Retained(Do(w, m))
  {
    if Overreaches(w, m) {
      OverreachesStep(w, m);
    }
  }

  ghost predicate RetainedThroughout(ms: seq<Move>) {
    forall k | 0 <= k <= |ms| :: Retained(After(BLANK, ms[..k]))
  }

  /**
   * With working loads: every accepted counter stays at or below the stored ceiling, which a reload makes the floor,
   * exactly when none is accepted without a write above it. A counter equal to the stored ceiling does no harm.
   */
  lemma RetainedExactly(ms: seq<Move>)
    requires forall m | m in ms :: LoadsWork(m)
    ensures RetainedThroughout(ms) <==>
            forall k | 0 <= k < |ms| :: !(Unsaved(At(ms, k), ms[k]) && Stored(At(ms, k)) < ms[k].counter)
    ensures RetainedThroughout(ms) ==> Increasing(After(BLANK, ms).accepted)
  {
    forall k | 0 <= k < |ms|
      ensures Offends(After(BLANK, ms[..k]), ms[k]) <==>
              Unsaved(At(ms, k), ms[k]) && Stored(At(ms, k)) < ms[k].counter
      ensures Offends(After(BLANK, ms[..k]), ms[k]) ==> !RetainedThroughout(ms)
    {
      WornRun(BLANK, ms[..k]);
      Advance(BLANK, ms, k);
      OffendsWithLoads(After(BLANK, ms[..k]), ms[k]);
      assert RetainedThroughout(ms) ==> Retained(After(BLANK, ms[..k + 1]));
    }
    FreshnessExactly(ms);
    assert StaleThroughout(BLANK, ms) ==> RetainedThroughout(ms) by {
      assert forall k :: 0 <= k <= |ms| && Stale(After(BLANK, ms[..k])) ==> Retained(After(BLANK, ms[..k]));
    }
  }

  /** One boot without storage, one reset and one boot with it: the same counter is accepted twice. */
  lemma LostStorageReopens()
    ensures var ok := Storage(true, true, true);
            var ms := [Boot(Storage(false, true, true)), Use(100, true), Restart, Boot(ok), Use(100, true)];
            Overreaches(At(ms, 1), ms[1]) && At(ms, 5).accepted == [100, 100]
  {
    var ok := Storage(true, true, true);
    var ms := [Boot(Storage(false, true, true)), Use(100, true), Restart, Boot(ok), Use(100, true)];
    StepAt(ms, 0);
    assert At(ms, 1) == World(None, Some(Guard(0, 64, false)), [], 0);
    StepAt(ms, 1);
    assert At(ms, 2) == World(None, Some(Guard(100, 164, false)), [100], 0);
    StepAt(ms, 2);
    StepAt(ms, 3);
    assert At(ms, 4) == World(Some(64), Some(Guard(0, 64, true)), [100], 1);
    StepAt(ms, 4);
  }

  /** One unreadable entry, and the write over it: a counter accepted on a sound reservation is accepted again. */
  lemma LostEntryReopens()
    ensures var ok := Storage(true, true, true);
            var ms := [Boot(ok), Use(50, true), Restart, Boot(Storage(true, false, true)), Use(50, true)];
            Forgets(At(ms, 3), ms[3]) && At(ms, 5).accepted == [50, 50]
  {
    var ok := Storage(true, true, true);
    var ms := [Boot(ok), Use(50, true), Restart, Boot(Storage(true, false, true)), Use(50, true)];
    StepAt(ms, 0);
    StepAt(ms, 1);
    assert At(ms, 2) == World(Some(64), Some(Guard(50, 64, true)), [50], 1);
    StepAt(ms, 2);
    StepAt(ms, 3);
    assert At(ms, 4) == World(Some(64), Some(Guard(0, 64, true)), [50], 2);
    StepAt(ms, 4);
  }
}
