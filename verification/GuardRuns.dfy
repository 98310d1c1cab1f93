/**
 * The replay guard over whole lifetimes: any interleaving of initialisations, uses, resets
 * and crashes inside a use, with any outcome of the settings calls.
 */
module GuardRuns {
  import opened Bytes
  import opened Replay

  /** The instants inside `Accept` at which a reset can strike. */
  datatype CrashPoint = BeforeSave | AfterSave | AfterFloor

  datatype Move =
    | Boot(io: Storage)
    | Use(counter: u32, save: bool)
    | Restart
    | CrashInUse(counter: u32, save: bool, point: CrashPoint)

  /** Flash entry, guard in RAM (absent until initialised), counters accepted so far, writes so far. */
  datatype World = World(stored: Option<u32>, live: Option<Guard>, accepted: seq<u32>, writes: nat)

  const BLANK := World(None, None, [], 0)

  function Flashed(w: World, saved: Option<u32>): World {
    if saved.Some? then w.(stored := saved, writes := w.writes + 1) else w
  }

  function Do(w: World, m: Move): World {
    match m
    case Boot(io) =>
      var e := Initialised(w.stored, io);
      Flashed(w, e.saved).(live := if e.ok then Some(e.guard) else None)
    case Restart => w.(live := None)
    case Use(counter, save) =>
      if w.live.None? then w
      else
        var e := Consumed(w.live.value, counter, save);
        Flashed(w, e.saved).(live := Some(e.guard),
                             accepted := if e.ok then w.accepted + [counter] else w.accepted)
    case CrashInUse(counter, save, point) =>
      if w.live.None? || point == BeforeSave then w.(live := None)
      else
        var e := Consumed(w.live.value, counter, save);
        var w' := Flashed(w, e.saved).(live := None);
        if point == AfterFloor && e.ok then w'.(accepted := w.accepted + [counter]) else w'
  }

  function After(w: World, ms: seq<Move>): World {
    if ms == [] then w else Do(After(w, ms[..|ms| - 1]), ms[|ms| - 1])
  }

  /** The run from blank storage, cut off after `k` moves. */
  function At(ms: seq<Move>, k: nat): World
    requires k <= |ms|
  {
    After(BLANK, ms[..k])
  }

  /** The stored ceiling as `Init` would load it. */
  function Stored(w: World): u32 {
    w.stored.GetOr(0)
  }

  ghost predicate Increasing(s: seq<u32>) {
    forall i, j | 0 <= i < j < |s| :: s[i] < s[j]
  }

  /** Every accepted counter is strictly below the ceiling in flash: a reset here cannot reopen it. */
  ghost predicate CrashSafe(w: World) {
    forall c | c in w.accepted :: c < Stored(w)
  }

  /** Initialisation finds the settings subsystem working and the entry readable. */
  predicate LoadsWork(m: Move) {
    m.Boot? ==> m.io.subsys && m.io.load
  }

  /** The move takes `Accept`'s no-write branch on a counter the ceiling in flash does not cover. */
  predicate Unsaved(w: World, m: Move) {
    && (m.Use? || (m.CrashInUse? && m.point == AfterFloor))
    && w.live.Some?
    && w.live.value.floor < m.counter
    && Stored(w) <= m.counter < w.live.value.ceiling
  }

  // ---- What every move keeps ----

  ghost predicate Worn(w: World) {
    && 64 * w.writes <= Stored(w)
    && (w.live.Some? ==>
          var g := w.live.value;
          g.persistent && 0 < Stored(w) <= g.ceiling && Stored(w) <= g.floor + 64 && g.floor <= g.ceiling)
  }

  ghost predicate Ordered(w: World) {
    && CrashSafe(w)
    && Increasing(w.accepted)
    && (forall c | c in w.accepted :: 0 < c)
    && (w.live.Some? ==>
          && w.live.value.floor <= Stored(w)
          && forall c | c in w.accepted :: c <= w.live.value.floor)
  }

  lemma WornStep(w: World, m: Move)
    requires Worn(w) && LoadsWork(m)
    ensures Worn(Do(w, m)) && Stored(w) <= Stored(Do(w, m))
  {
  }

  lemma IncreasingAppend(s: seq<u32>, c: u32)
    requires Increasing(s) && forall x | x in s :: x < c
    ensures Increasing(s + [c])
  {
    forall i, j | 0 <= i < j < |s| + 1 ensures (s + [c])[i] < (s + [c])[j] {
      if j == |s| {
        assert s[i] in s;
      }
    }
  }

  lemma OrderedStep(w: World, m: Move)
    requires Worn(w) && Ordered(w) && LoadsWork(m) && !Unsaved(w, m)
    ensures Ordered(Do(w, m))
  {
    var w' := Do(w, m);
    if w'.accepted != w.accepted {
      assert w.live.value.floor < m.counter < Stored(w');
      IncreasingAppend(w.accepted, m.counter);
      assert w'.accepted == w.accepted + [m.counter];
    }
  }

  lemma UnsavedStep(w: World, m: Move)
    requires Worn(w) && Unsaved(w, m)
    ensures !CrashSafe(Do(w, m))
  {
    assert m.counter in Do(w, m).accepted && Stored(Do(w, m)) == Stored(w);
  }

  lemma {:induction false} WornRun(w: World, ms: seq<Move>)
    requires Worn(w) && forall m | m in ms :: LoadsWork(m)
    ensures Worn(After(w, ms)) && Stored(w) <= Stored(After(w, ms))
  {
    if ms == [] {
    } else {
      WornRun(w, ms[..|ms| - 1]);
      WornStep(After(w, ms[..|ms| - 1]), ms[|ms| - 1]);
    }
  }

  lemma {:induction false} OrderedRun(ms: seq<Move>)
    requires forall m | m in ms :: LoadsWork(m)
    requires forall k | 0 <= k < |ms| :: !Unsaved(At(ms, k), ms[k])
    ensures Ordered(At(ms, |ms|))
  {
    assert ms[..|ms|] == ms;
    if ms == [] {
    } else {
      var n := |ms| - 1;
      var init := ms[..n];
      forall k | 0 <= k < n ensures !Unsaved(At(init, k), init[k]) {
        assert init[..k] == ms[..k];
        assert !Unsaved(At(ms, k), ms[k]);
      }
      OrderedRun(init);
      assert init[..n] == init;
      WornRun(BLANK, init);
      assert !Unsaved(At(ms, n), ms[n]);
      OrderedStep(At(ms, n), ms[n]);
    }
  }

  // ---- Main results ----

  /**
   * With working loads, and saves failing in any pattern: accepted counters stay covered by flash at
   * every instant of the run exactly when no counter is accepted on a reservation that was never written.
   */
  lemma CrashSafeExactly(ms: seq<Move>)
    requires forall m | m in ms :: LoadsWork(m)
    ensures (forall k | 0 <= k <= |ms| :: CrashSafe(At(ms, k))) <==>
            (forall k | 0 <= k < |ms| :: !Unsaved(At(ms, k), ms[k]))
  {
    if forall k | 0 <= k < |ms| :: !Unsaved(At(ms, k), ms[k]) {
      forall k | 0 <= k <= |ms| ensures CrashSafe(At(ms, k)) {
        var init := ms[..k];
        forall i | 0 <= i < k ensures !Unsaved(At(init, i), init[i]) {
          assert init[..i] == ms[..i];
          assert !Unsaved(At(ms, i), ms[i]);
        }
        OrderedRun(init);
        assert init[..k] == ms[..k];
      }
    } else {
      var k :| 0 <= k < |ms| && Unsaved(At(ms, k), ms[k]);
      WornRun(BLANK, ms[..k]);
      UnsavedStep(At(ms, k), ms[k]);
      assert ms[..k + 1][..k] == ms[..k];
      assert !CrashSafe(At(ms, k + 1));
    }
  }

  /** A failing save is harmless when the very next move reloads the guard from flash. */
  ghost predicate Disciplined(ms: seq<Move>) {
    && (forall m | m in ms :: LoadsWork(m))
    && (forall k | 0 <= k < |ms| :: ms[k].Use? && !ms[k].save && k + 1 < |ms| ==> ms[k + 1].Boot? || ms[k + 1].Restart?)
  }

  /** RAM and flash hold the same ceiling, no more than one reservation above the floor. */
  ghost predicate Synced(w: World) {
    w.live.Some? ==>
      && w.live.value.ceiling == Stored(w)
      && w.live.value.floor <= w.live.value.ceiling <= w.live.value.floor + 64
  }

  /** One move of a disciplined run, the guard in step with flash or about to be reloaded. */
  lemma DisciplinedStep(w: World, m: Move)
    requires Worn(w) && LoadsWork(m) && (Synced(w) || m.Boot? || m.Restart?)
    ensures !Unsaved(w, m) && ((m.Use? && !m.save) || Synced(Do(w, m)))
  {
  }

  lemma StepAt(ms: seq<Move>, k: nat)
    requires k < |ms|
    ensures At(ms, 0) == BLANK && At(ms, k + 1) == Do(At(ms, k), ms[k])
  {
    assert ms[..k + 1][..k] == ms[..k];
  }

  lemma {:induction false} DisciplinedRun(ms: seq<Move>, k: nat)
    requires Disciplined(ms) && k <= |ms|
    ensures Worn(At(ms, k)) && ((k > 0 && ms[k - 1].Use? && !ms[k - 1].save) || Synced(At(ms, k)))
    ensures k < |ms| ==> !Unsaved(At(ms, k), ms[k])
  {
    if k == 0 {
      assert ms[..0] == [];
    } else {
      DisciplinedRun(ms, k - 1);
      StepAt(ms, k - 1);
      WornStep(At(ms, k - 1), ms[k - 1]);
      DisciplinedStep(At(ms, k - 1), ms[k - 1]);
    }
    if k < |ms| {
      DisciplinedStep(At(ms, k), ms[k]);
    }
  }

  /**
   * The order and the coverage of accepted counters, over every interleaving of initialisation, use,
   * reset and crash from blank storage in which a failed save is followed by a reload.
   */
  lemma AcceptedOnce(ms: seq<Move>)
    requires Disciplined(ms)
    ensures Increasing(At(ms, |ms|).accepted)
    ensures forall k | 0 <= k <= |ms| :: CrashSafe(At(ms, k))
  {
    forall k | 0 <= k < |ms| ensures !Unsaved(At(ms, k), ms[k]) {
      DisciplinedRun(ms, k);
    }
    OrderedRun(ms);
    CrashSafeExactly(ms);
  }

  /** After a reset, exactly the accepted counters above the ceiling in flash could be accepted again. */
  lemma ReopenedExactly(w: World, io: Storage, c: u32)
    requires 0 < Stored(w) && io.subsys && io.load && c in w.accepted
    ensures var w' := Do(Do(w, Restart), Boot(io)); w'.live.Some? && (Fresh(w'.live.value, c) <==> Stored(w) < c)
  {
  }

  /** One failed save, one retry and one reset: the same counter is accepted twice. */
  lemma FailedSaveReopens()
    ensures var ok := Storage(true, true, true);
            var ms := [Boot(ok), Use(65, false), Use(65, true), Restart, Boot(ok), Use(65, true)];
            Unsaved(At(ms, 2), ms[2]) && At(ms, 6).accepted == [65, 65]
  {
    var ok := Storage(true, true, true);
    var ms := [Boot(ok), Use(65, false), Use(65, true), Restart, Boot(ok), Use(65, true)];
    var w1 := World(Some(64), Some(Guard(0, 64, true)), [], 1);
    var w2 := w1.(live := Some(Guard(0, 129, true)));
    var w3 := w2.(live := Some(Guard(65, 129, true)), accepted := [65]);
    StepAt(ms, 0);
    StepAt(ms, 1);
    assert At(ms, 2) == w2;
    StepAt(ms, 2);
    assert At(ms, 3) == w3;
    StepAt(ms, 3);
    StepAt(ms, 4);
    assert At(ms, 5) == w3.(live := Some(Guard(64, 64, true)));
    StepAt(ms, 5);
  }

  /**
   * An initialisation leaves every accepted counter stale exactly when it could read the ceiling, or nothing was at
   * stake.
   */
  lemma BootSafeExactly(w: World, io: Storage)
    requires Worn(w) && Ordered(w) && w.live.None?
    ensures var w' := Do(w, Boot(io));
            (w'.live.Some? ==> forall c | c in w.accepted :: !Fresh(w'.live.value, c)) <==>
            ((io.subsys && io.load) || (io.subsys && !io.save) || w.accepted == [])
  {
    if w.accepted != [] {
      assert w.accepted[0] in w.accepted;
    }
  }

  /** Flash wear: 64 counters per write over the whole life of the device, and so at most 2^26 - 1 writes. */
  lemma LifetimeWrites(ms: seq<Move>)
    requires forall m | m in ms :: LoadsWork(m)
    ensures 64 * At(ms, |ms|).writes <= Stored(At(ms, |ms|))
    ensures At(ms, |ms|).writes < 0x400_0000
  {
    assert ms[..|ms|] == ms;
    WornRun(BLANK, ms);
  }

  /** Where a sequence of uses within one boot stands: the first counter newly accepted, floor, ceiling and writes. */
  ghost predicate Spread(w: World, w': World) {
    && w'.live.Some? && w.writes <= w'.writes && w.accepted <= w'.accepted
    && var g := w'.live.value;
       if w'.accepted == w.accepted then g.floor == w.live.GetOr(g).floor && w'.writes == w.writes
       else
         var first := w'.accepted[|w.accepted|];
         && g.floor == w'.accepted[|w'.accepted| - 1]
         && first <= g.floor
         && (w'.writes > w.writes ==>
               first + 64 * (w'.writes - w.writes - 1) <= g.floor && first + 64 * (w'.writes - w.writes) <= g.ceiling)
  }

  lemma SpreadStep(w: World, v: World, m: Move)
    requires Spread(w, v) && m.Use?
    ensures Spread(w, Do(v, m))
  {
    var v' := Do(v, m);
    if v'.accepted != v.accepted {
      assert v'.accepted == v.accepted + [m.counter];
      assert v'.live.value.floor == m.counter;
      assert v'.accepted[|v'.accepted| - 1] == m.counter;
    }
  }

  lemma {:induction false} SpreadOfWrites(w: World, ms: seq<Move>)
    requires w.live.Some? && forall m | m in ms :: m.Use?
    ensures Spread(w, After(w, ms))
  {
    if ms == [] {
    } else {
      SpreadOfWrites(w, ms[..|ms| - 1]);
      SpreadStep(w, After(w, ms[..|ms| - 1]), ms[|ms| - 1]);
    }
  }

  /** Within one boot, `n` consecutive accepted counters cost at most ceil(n / 64) writes, failed ones not counted. */
  lemma WritesPerBoot(w: World, ms: seq<Move>, n: nat)
    requires w.live.Some? && forall m | m in ms :: m.Use?
    requires |After(w, ms).accepted| == |w.accepted| + n
    requires forall i | |w.accepted| <= i < |After(w, ms).accepted| ::
               After(w, ms).accepted[i] == After(w, ms).accepted[|w.accepted|] + i - |w.accepted|
    ensures After(w, ms).writes - w.writes <= (n + 63) / 64
  {
    SpreadOfWrites(w, ms);
    var w' := After(w, ms);
    if w'.writes > w.writes {
      assert w'.accepted[|w'.accepted| - 1] == w'.accepted[|w.accepted|] + n - 1;
    }
  }

  /**
   * Reaching flash, a reservation is never a wrapped sum, and a reset costs at most 64 counters above the last one
   * attempted.
   */
  lemma BurnBounded(w: World, m: Move, io: Storage)
    requires Worn(w) && Ordered(w) && !Unsaved(w, m)
    requires w.live.Some? && (m.Use? || m.CrashInUse?) && io.subsys && io.load
    ensures Stored(Do(w, m)) == Stored(w) || Stored(Do(w, m)) == m.counter as int + 64
    ensures var w' := Do(Do(Do(w, m), Restart), Boot(io));
            var floor := w.live.value.floor;
            && w'.live.Some?
            && floor <= w'.live.value.floor <= (if m.counter > floor then m.counter else floor) as int + 64
  {
  }

  /**
   * In a disciplined run the reservation in RAM is the one in flash and spans at most 64 counters, and that is what
   * a reset costs.
   */
  lemma ReservationBounded(ms: seq<Move>, k: nat, io: Storage)
    requires Disciplined(ms) && k <= |ms|
    requires k > 0 && ms[k - 1].Use? ==> ms[k - 1].save
    ensures Synced(At(ms, k))
    ensures var w := At(ms, k);
            var w' := Do(Do(w, Restart), Boot(io));
            w.live.Some? && io.subsys && io.load ==>
               w'.live.Some? && w.live.value.floor <= w'.live.value.floor <= w.live.value.floor as int + 64
  {
    DisciplinedRun(ms, k);
  }

  /**
   * One use keeps the reservation within 64 counters of the floor, unless it extends the ceiling and the write
   * fails.
   */
  lemma ReservationExactly(g: Guard, counter: u32, save: bool)
    requires g.floor <= g.ceiling <= g.floor as int + 64
    ensures var g' := Consumed(g, counter, save).guard;
            g'.floor <= g'.ceiling <= g'.floor as int + 64 <==>
            !(g.persistent && !save && g.floor < counter && g.ceiling <= counter <= 0xFFFF_FFFF - 64)
  {
  }

  /** A client that answers a rejection naming floor `f` with `f + 1`: exactly when it gets through. */
  lemma ResyncExactly(g: Guard, save: bool)
    requires g.floor < 0xFFFF_FFFF
    ensures var c: u32 := g.floor + 1;
            Consumed(g, c, save).ok <==> c < g.ceiling || (c <= 0xFFFF_FFFF - 64 && (save || !g.persistent))
  {
  }
}
