/**
 * The device over whole lifetimes: requests, button presses, elapsing time, client signatures, resets
 * between requests and resets inside one, with every outcome of every foreign call.
 */
module DeviceRuns {
  import opened Bytes
  import opened History
  import opened Replay
  import opened ClientKey
  import opened Device
  import GuardRuns

  datatype Step =
    | Request(input: seq<u8>, capacity: nat, f: Foreign)
    | CrashIn(input: seq<u8>, capacity: nat, f: Foreign, k: nat)
    | Press
    | OpenWindow
    | Elapse(ms: nat)
    | Restart
    | ClientSigns(clientKey: seq<u8>, message: seq<u8>)

  /** The device, its uptime, and everything that has happened since it was made. */
  datatype World = World(device: Device, now: nat, log: seq<Event>)

  const FACTORY := World(BLANK_DEVICE, 0, [])

  function Written(flash: Flash, e: Event): Flash {
    match e
    case CeilingSaved(value) => flash.(ceiling := Some(value))
    case Registered(key, _, saved) => if saved then flash.(clientKey := Some(key)) else flash
    case _ => flash
  }

  function WrittenAll(flash: Flash, es: seq<Event>): Flash {
    if es == [] then flash else Written(WrittenAll(flash, es[..|es| - 1]), es[|es| - 1])
  }

  function Opened(w: World): World {
    w.(device := w.device.(keys := w.device.keys.(windowUntil := w.now + WINDOW_MS)),
       log := w.log + [WindowOpened(w.now)])
  }

  /** Events of a request, up to the reset that strikes after the first `k` of them. */
  function Cut(es: seq<Event>, k: nat): seq<Event> {
    if k < |es| then es[..k] else es
  }

  function Exec(v: Verifier, w: World, s: Step): World {
    match s
    case Request(input, capacity, f) =>
      var o := Process(v, w.device, input, capacity, f, w.now);
      World(o.device, w.now, w.log + o.events)
    case CrashIn(input, capacity, f, k) =>
      var es := Cut(Process(v, w.device, input, capacity, f, w.now).events, k);
      World(Rebooted(WrittenAll(w.device.flash, es)), 0, w.log + es + [Restarted])
    case Press => if w.device.keys.handler then Opened(w) else w
    case OpenWindow => Opened(w)
    case Elapse(ms) => w.(now := w.now + ms)
    case Restart => World(Rebooted(w.device.flash), 0, w.log + [Restarted])
    case ClientSigns(key, message) => w.(log := w.log + [ClientSigned(key, message)])
  }

  function Lived(v: Verifier, steps: seq<Step>): World {
    if steps == [] then FACTORY else Exec(v, Lived(v, steps[..|steps| - 1]), steps[|steps| - 1])
  }

  function Counters(log: seq<Event>): seq<u32> {
    if log == [] then []
    else
      var e := log[|log| - 1];
      Counters(log[..|log| - 1]) + if e.Accepted? then [e.command.counter] else []
  }

  function CeilingWrites(log: seq<Event>): nat {
    if log == [] then 0 else CeilingWrites(log[..|log| - 1]) + if log[|log| - 1].CeilingSaved? then 1 else 0
  }

  // ---- Flash changes only by logged saves ----

  lemma {:induction false} WrittenConcat(flash: Flash, s: seq<Event>, t: seq<Event>)
    ensures WrittenAll(flash, s + t) == WrittenAll(WrittenAll(flash, s), t)
  {
    if t == [] {
      assert s + t == s;
    } else {
      assert (s + t)[..|s + t| - 1] == s + t[..|t| - 1];
      WrittenConcat(flash, s, t[..|t| - 1]);
    }
  }

  lemma WrittenOne(flash: Flash, e: Event)
    ensures WrittenAll(flash, [e]) == Written(flash, e)
  {
    assert [e][..0] == [];
    assert WrittenAll(flash, [e][..0]) == flash;
  }

  lemma WrittenTwo(flash: Flash, e: Event, e': Event)
    ensures WrittenAll(flash, [e, e']) == Written(Written(flash, e), e')
  {
    assert [e] + [e'] == [e, e'];
    WrittenConcat(flash, [e], [e']);
    WrittenOne(flash, e);
    WrittenOne(WrittenAll(flash, [e]), e');
  }

  lemma WrittenSaves(flash: Flash, saved: Option<u32>)
    ensures WrittenAll(flash, Saves(saved)) == if saved.Some? then flash.(ceiling := saved) else flash
  {
    if saved.Some? {
      WrittenOne(flash, CeilingSaved(saved.value));
    }
  }

  lemma SignaturesWrite(flash: Flash, d: Device, counter: u32, payload: seq<u8>, f: Foreign)
    ensures WrittenAll(flash, Signatures(d, counter, payload, f)) == flash
  {
    if f.signature.Some? {
      WrittenOne(flash, Signatures(d, counter, payload, f)[0]);
    }
  }

  lemma AnsweredWrites(d: Device, r: SignedRequest, capacity: nat, f: Foreign)
    ensures var o := Answered(d, r, capacity, f); o.device.flash == WrittenAll(d.flash, o.events)
  {
    if Fresh(d.guard, r.counter) {
      var e := Consumed(d.guard, r.counter, f.ceilingSave);
      var spent := [Accepted(CommandOf(d, r))];
      var signed := Signatures(d, r.counter, r.payload, f);
      var flash := WrittenAll(d.flash, Saves(e.saved));
      WrittenSaves(d.flash, e.saved);
      WrittenConcat(d.flash, Saves(e.saved), if e.ok then spent + signed else []);
      WrittenConcat(flash, spent, signed);
      WrittenOne(flash, spent[0]);
      SignaturesWrite(flash, d, r.counter, r.payload, f);
    }
  }

  // ---- The replay guard inside the device ----

  /** What a device and its log look like to the replay guard's own model. */
  function View(d: Device, log: seq<Event>): GuardRuns.World {
    GuardRuns.World(d.flash.ceiling, if d.replayReady then Some(d.guard) else None, Counters(log), CeilingWrites(log))
  }

  lemma {:induction false} ViewConcat(log: seq<Event>, es: seq<Event>)
    ensures Counters(log + es) == Counters(log) + Counters(es)
    ensures CeilingWrites(log + es) == CeilingWrites(log) + CeilingWrites(es)
  {
    if es == [] {
      assert log + es == log;
    } else {
      assert (log + es)[..|log + es| - 1] == log + es[..|es| - 1];
      ViewConcat(log, es[..|es| - 1]);
    }
  }

  lemma ViewOne(log: seq<Event>, e: Event)
    ensures Counters(log + [e]) == Counters(log) + if e.Accepted? then [e.command.counter] else []
    ensures CeilingWrites(log + [e]) == CeilingWrites(log) + if e.CeilingSaved? then 1 else 0
  {
    assert (log + [e])[..|log|] == log;
  }

  lemma ViewSaves(log: seq<Event>, saved: Option<u32>)
    ensures Counters(log + Saves(saved)) == Counters(log)
    ensures CeilingWrites(log + Saves(saved)) == CeilingWrites(log) + if saved.Some? then 1 else 0
  {
    if saved.Some? {
      ViewOne(log, CeilingSaved(saved.value));
    } else {
      assert log + [] == log;
    }
  }

  lemma BootRefines(d: Device, f: Foreign, log: seq<Event>)
    requires !d.replayReady
    ensures var (d', _, saves) := WithReplay(d, f);
            View(d', log + saves) == GuardRuns.Do(View(d, log), GuardRuns.Boot(f.replayInit))
  {
    ViewSaves(log, Initialised(d.flash.ceiling, f.replayInit).saved);
  }

  lemma ViewSpent(log: seq<Event>, d: Device, r: SignedRequest, f: Foreign)
    ensures var log' := log + ([Accepted(CommandOf(d, r))] + Signatures(d, r.counter, r.payload, f));
            Counters(log') == Counters(log) + [r.counter] && CeilingWrites(log') == CeilingWrites(log)
  {
    var a, s := Accepted(CommandOf(d, r)), Signatures(d, r.counter, r.payload, f);
    assert log + ([a] + s) == log + [a] + s;
    ViewOne(log, a);
    if s != [] {
      ViewOne(log + [a], s[0]);
    } else {
      assert log + [a] + s == log + [a];
    }
  }

  lemma AnsweredRefines(d: Device, r: SignedRequest, capacity: nat, f: Foreign, log: seq<Event>)
    requires d.replayReady
    ensures var o := Answered(d, r, capacity, f);
            View(o.device, log + o.events) == GuardRuns.Do(View(d, log), GuardRuns.Use(r.counter, f.ceilingSave))
  {
    if Fresh(d.guard, r.counter) {
      var e := Consumed(d.guard, r.counter, f.ceilingSave);
      var rest := if e.ok then [Accepted(CommandOf(d, r))] + Signatures(d, r.counter, r.payload, f) else [];
      assert log + (Saves(e.saved) + rest) == log + Saves(e.saved) + rest;
      ViewSaves(log, e.saved);
      if e.ok {
        ViewSpent(log + Saves(e.saved), d, r, f);
      } else {
        assert log + Saves(e.saved) + [] == log + Saves(e.saved);
      }
    } else {
      assert log + [] == log;
    }
  }

  /** How far a reset after the first `j` events of an answer lets the guard's own operation get. */
  function PointOf(d: Device, r: SignedRequest, f: Foreign, j: nat): GuardRuns.CrashPoint {
    var saves := |Saves(Consumed(d.guard, r.counter, f.ceilingSave).saved)|;
    if j < saves then GuardRuns.BeforeSave else if j == saves then GuardRuns.AfterSave else GuardRuns.AfterFloor
  }

  /** What survives of an answer's events behind its flash write when a reset strikes after `j` of them. */
  function RestOf(d: Device, r: SignedRequest, f: Foreign, j: nat): (rest: seq<Event>)
    ensures rest <= [Accepted(CommandOf(d, r))] + Signatures(d, r.counter, r.payload, f)
    ensures rest != [] <==>
            Consumed(d.guard, r.counter, f.ceilingSave).ok && PointOf(d, r, f, j) == GuardRuns.AfterFloor
  {
    var e := Consumed(d.guard, r.counter, f.ceilingSave);
    if !e.ok || j < |Saves(e.saved)| then []
    else Cut([Accepted(CommandOf(d, r))] + Signatures(d, r.counter, r.payload, f), j - |Saves(e.saved)|)
  }

  function SavedOf(d: Device, r: SignedRequest, f: Foreign, j: nat): Option<u32> {
    if PointOf(d, r, f, j) == GuardRuns.BeforeSave then None else Consumed(d.guard, r.counter, f.ceilingSave).saved
  }

  lemma CutAnswer(d: Device, r: SignedRequest, capacity: nat, f: Foreign, j: nat)
    ensures Cut(Answered(d, r, capacity, f).events, j) == Saves(SavedOf(d, r, f, j)) + RestOf(d, r, f, j)
  {
    var e := Consumed(d.guard, r.counter, f.ceilingSave);
    if Fresh(d.guard, r.counter) && e.ok && j >= |Saves(e.saved)| {
      var s, t := Saves(e.saved), [Accepted(CommandOf(d, r))] + Signatures(d, r.counter, r.payload, f);
      assert Answered(d, r, capacity, f).events == s + t;
      if j < |s + t| {
        assert (s + t)[..j] == s + t[..j - |s|];
      }
    }
  }

  lemma SpentPrefix(log: seq<Event>, flash: Flash, d: Device, r: SignedRequest, f: Foreign, es: seq<Event>)
    requires es <= [Accepted(CommandOf(d, r))] + Signatures(d, r.counter, r.payload, f)
    ensures WrittenAll(flash, es) == flash && CeilingWrites(log + es) == CeilingWrites(log)
    ensures Counters(log + es) == Counters(log) + if es == [] then [] else [r.counter]
  {
    if es == [] {
      assert log + es == log;
    } else {
      var a := Accepted(CommandOf(d, r));
      assert es[0] == a;
      ViewOne(log, a);
      WrittenOne(flash, a);
      if |es| == 1 {
        assert es == [a];
      } else {
        assert es == [a, es[1]] && es[1].DeviceSigned?;
        assert log + es == log + [a] + [es[1]];
        ViewOne(log + [a], es[1]);
        WrittenTwo(flash, a, es[1]);
      }
    }
  }

  /** The view after a reset that left the ceiling write `saved` and the first `rest` of the events behind it. */
  lemma CrashView(d: Device, r: SignedRequest, f: Foreign, saved: Option<u32>, rest: seq<Event>, log: seq<Event>)
    requires rest <= [Accepted(CommandOf(d, r))] + Signatures(d, r.counter, r.payload, f)
    ensures var es := Saves(saved) + rest;
            View(Rebooted(WrittenAll(d.flash, es)), log + es + [Restarted])
            == GuardRuns.World(if saved.Some? then saved else d.flash.ceiling, None,
                               Counters(log) + (if rest == [] then [] else [r.counter]),
                               CeilingWrites(log) + if saved.Some? then 1 else 0)
  {
    var es := Saves(saved) + rest;
    assert log + es == log + Saves(saved) + rest;
    ViewOne(log + es, Restarted);
    WrittenSaves(d.flash, saved);
    ViewSaves(log, saved);
    WrittenConcat(d.flash, Saves(saved), rest);
    SpentPrefix(log + Saves(saved), WrittenAll(d.flash, Saves(saved)), d, r, f, rest);
  }

  /** What a reset leaves of the guard's world, by how far the answer got. */
  lemma CrashMatches(g: GuardRuns.World, d: Device, r: SignedRequest, f: Foreign, j: nat, rest: seq<Event>)
    requires g.live == Some(d.guard)
    requires rest != [] <==>
             Consumed(d.guard, r.counter, f.ceilingSave).ok && PointOf(d, r, f, j) == GuardRuns.AfterFloor
    ensures var saved := SavedOf(d, r, f, j);
            GuardRuns.World(if saved.Some? then saved else g.stored, None,
                            g.accepted + (if rest == [] then [] else [r.counter]),
                            g.writes + if saved.Some? then 1 else 0)
            == GuardRuns.Do(g, GuardRuns.CrashInUse(r.counter, f.ceilingSave, PointOf(d, r, f, j)))
  {
    assert g.accepted + [] == g.accepted;
  }

  lemma CrashRefines(d: Device, r: SignedRequest, capacity: nat, f: Foreign, j: nat, log: seq<Event>)
    requires d.replayReady
    ensures var es := Cut(Answered(d, r, capacity, f).events, j);
            View(Rebooted(WrittenAll(d.flash, es)), log + es + [Restarted])
            == GuardRuns.Do(View(d, log), GuardRuns.CrashInUse(r.counter, f.ceilingSave, PointOf(d, r, f, j)))
  {
    CutAnswer(d, r, capacity, f, j);
    CrashView(d, r, f, SavedOf(d, r, f, j), RestOf(d, r, f, j), log);
    CrashMatches(View(d, log), d, r, f, j, RestOf(d, r, f, j));
  }

  /** A well-formed signed request. */
  predicate Parses(input: seq<u8>) {
    input != [] && input[0] == TYPE_SIGNED_REQUEST && ParseSigned(input).Some?
  }

  function BootMoves(d: Device, f: Foreign): seq<GuardRuns.Move> {
    if WithBundle(d, f).1 && !d.replayReady then [GuardRuns.Boot(f.replayInit)] else []
  }

  /** The device when a request reaches the counter: bundle and guard ready, signature good. */
  predicate Reaches(v: Verifier, d: Device, r: SignedRequest, f: Foreign) {
    Readied(d, f).1 && Authenticated(v, Readied(d, f).0, r, f).1.None?
  }

  function UseMoves(v: Verifier, d: Device, r: SignedRequest, f: Foreign): seq<GuardRuns.Move> {
    if Reaches(v, d, r, f) then [GuardRuns.Use(r.counter, f.ceilingSave)] else []
  }

  /** A reset after `k` events: within the first write, before any use of the guard, or inside that use. */
  function CrashMovesOf(boot: seq<GuardRuns.Move>, saves: nat, reached: bool, d: Device, r: SignedRequest,
                        f: Foreign, k: nat): seq<GuardRuns.Move> {
    if k < saves then [GuardRuns.Restart]
    else if reached then boot + [GuardRuns.CrashInUse(r.counter, f.ceilingSave, PointOf(d, r, f, k - saves))]
    else boot + [GuardRuns.Restart]
  }

  function CrashMoves(v: Verifier, d: Device, r: SignedRequest, f: Foreign, k: nat): seq<GuardRuns.Move> {
    var (d1, _, saves) := Readied(d, f);
    CrashMovesOf(BootMoves(d, f), |saves|, Reaches(v, d, r, f), Authenticated(v, d1, r, f).0, r, f, k)
  }

  /** What one step of the device's life is to its replay guard. */
  function Moves(v: Verifier, w: World, s: Step): seq<GuardRuns.Move> {
    match s
    case Request(input, _, f) =>
      if Parses(input) then BootMoves(w.device, f) + UseMoves(v, w.device, ParseSigned(input).value, f) else []
    case CrashIn(input, _, f, k) =>
      if Parses(input) then CrashMoves(v, w.device, ParseSigned(input).value, f, k) else [GuardRuns.Restart]
    case Restart => [GuardRuns.Restart]
    case _ => []
  }

  lemma AfterOne(g: GuardRuns.World, m: GuardRuns.Move)
    ensures GuardRuns.After(g, [m]) == GuardRuns.Do(g, m)
  {
    assert [m][..0] == [];
    assert GuardRuns.After(g, [m][..0]) == g;
  }

  lemma AfterMore(g: GuardRuns.World, ms: seq<GuardRuns.Move>, m: GuardRuns.Move)
    ensures GuardRuns.After(g, ms + [m]) == GuardRuns.Do(GuardRuns.After(g, ms), m)
  {
    assert (ms + [m])[..|ms|] == ms;
  }

  lemma ReadiedView(d: Device, f: Foreign, log: seq<Event>)
    ensures var (d', ok, saves) := Readied(d, f);
            && View(d', log + saves) == GuardRuns.After(View(d, log), BootMoves(d, f))
            && (ok ==> d'.replayReady)
            && WrittenAll(d.flash, saves) == d'.flash && d'.flash.clientKey == d.flash.clientKey
  {
    var (d1, built) := WithBundle(d, f);
    assert log + [] == log;
    if built && !d.replayReady {
      BootRefines(d1, f, log);
      AfterOne(View(d, log), GuardRuns.Boot(f.replayInit));
      WrittenSaves(d.flash, Initialised(d.flash.ceiling, f.replayInit).saved);
    }
  }

  lemma RestartView(d: Device, flash: Flash, log: seq<Event>)
    ensures View(Rebooted(flash), log + [Restarted])
            == GuardRuns.Do(View(d, log), GuardRuns.Restart).(stored := flash.ceiling)
  {
    ViewOne(log, Restarted);
  }

  /** The view after a reset that let `saves` through and then the first `j` events of an answer. */
  lemma AnswerCrash(flash: Flash, d: Device, r: SignedRequest, capacity: nat, f: Foreign, saves: seq<Event>, j: nat,
                    log: seq<Event>, g: GuardRuns.World)
    requires d.replayReady && WrittenAll(flash, saves) == d.flash && g == View(d, log + saves)
    ensures var es := saves + Cut(Answered(d, r, capacity, f).events, j);
            View(Rebooted(WrittenAll(flash, es)), log + es + [Restarted])
            == GuardRuns.Do(g, GuardRuns.CrashInUse(r.counter, f.ceilingSave, PointOf(d, r, f, j)))
  {
    var cut := Cut(Answered(d, r, capacity, f).events, j);
    assert log + (saves + cut) == log + saves + cut;
    WrittenConcat(flash, saves, cut);
    CrashRefines(d, r, capacity, f, j, log + saves);
  }

  lemma CutBehind(s: seq<Event>, t: seq<Event>, k: nat)
    ensures Cut(s + t, k) == if k < |s| then s[..k] else s + Cut(t, k - |s|)
  {
  }

  function EventsOf(saves: seq<Event>, reached: bool, d: Device, r: SignedRequest, capacity: nat,
                    f: Foreign): seq<Event> {
    saves + if reached then Answered(d, r, capacity, f).events else []
  }

  lemma CrashCore(flash: Flash, g: GuardRuns.World, boot: seq<GuardRuns.Move>, saves: seq<Event>, d1: Device,
                  reached: bool, d2: Device, r: SignedRequest, capacity: nat, f: Foreign, k: nat, log: seq<Event>)
    requires |saves| <= 1 && g.stored == flash.ceiling && g.accepted == Counters(log) && g.writes == CeilingWrites(log)
    requires WrittenAll(flash, saves) == d1.flash && View(d1, log + saves) == GuardRuns.After(g, boot)
    requires reached ==> d2.replayReady && d2.flash == d1.flash && View(d2, log + saves) == View(d1, log + saves)
    ensures var es := Cut(EventsOf(saves, reached, d2, r, capacity, f), k);
            View(Rebooted(WrittenAll(flash, es)), log + es + [Restarted])
            == GuardRuns.After(g, CrashMovesOf(boot, |saves|, reached, d2, r, f, k))
  {
    var rest := if reached then Answered(d2, r, capacity, f).events else [];
    CutBehind(saves, rest, k);
    if k < |saves| {
      assert log + [] == log;
      ViewOne(log, Restarted);
      AfterOne(g, GuardRuns.Restart);
    } else if reached {
      AnswerCrash(flash, d2, r, capacity, f, saves, k - |saves|, log, View(d2, log + saves));
      AfterMore(g, boot, GuardRuns.CrashInUse(r.counter, f.ceilingSave, PointOf(d2, r, f, k - |saves|)));
    } else {
      assert saves + [] == saves;
      RestartView(d1, d1.flash, log + saves);
      AfterMore(g, boot, GuardRuns.Restart);
    }
  }

  lemma EventsOfParsed(v: Verifier, d: Device, r: SignedRequest, capacity: nat, f: Foreign)
    ensures OnParsed(v, d, r, capacity, f).events
            == EventsOf(Readied(d, f).2, Reaches(v, d, r, f), Authenticated(v, Readied(d, f).0, r, f).0, r, capacity, f)
    ensures |Readied(d, f).2| <= 1
  {
    var saves := Readied(d, f).2;
    assert saves + [] == saves;
  }

  lemma UseCore(g: GuardRuns.World, boot: seq<GuardRuns.Move>, saves: seq<Event>, d1: Device, reached: bool, d2: Device,
                r: SignedRequest, capacity: nat, f: Foreign, log: seq<Event>)
    requires View(d1, log + saves) == GuardRuns.After(g, boot)
    requires reached ==> d2.replayReady && View(d2, log + saves) == View(d1, log + saves)
    ensures var d3 := if reached then Answered(d2, r, capacity, f).device else d1;
            View(d3, log + EventsOf(saves, reached, d2, r, capacity, f))
            == GuardRuns.After(g, boot + if reached then [GuardRuns.Use(r.counter, f.ceilingSave)] else [])
  {
    if reached {
      var es := Answered(d2, r, capacity, f).events;
      AnsweredRefines(d2, r, capacity, f, log + saves);
      assert log + saves + es == log + (saves + es);
      AfterMore(g, boot, GuardRuns.Use(r.counter, f.ceilingSave));
    } else {
      assert saves + [] == saves;
      assert boot + [] == boot;
    }
  }

  lemma ParsedView(v: Verifier, d: Device, r: SignedRequest, capacity: nat, f: Foreign, log: seq<Event>)
    ensures var o := OnParsed(v, d, r, capacity, f);
            View(o.device, log + o.events) == GuardRuns.After(View(d, log), BootMoves(d, f) + UseMoves(v, d, r, f))
  {
    var (d1, ready, saves) := Readied(d, f);
    ReadiedView(d, f, log);
    EventsOfParsed(v, d, r, capacity, f);
    var d2 := Authenticated(v, d1, r, f).0;
    UseCore(View(d, log), BootMoves(d, f), saves, d1, Reaches(v, d, r, f), d2, r, capacity, f, log);
  }

  lemma ParsedCrash(v: Verifier, d: Device, r: SignedRequest, capacity: nat, f: Foreign, k: nat, log: seq<Event>)
    ensures var es := Cut(OnParsed(v, d, r, capacity, f).events, k);
            View(Rebooted(WrittenAll(d.flash, es)), log + es + [Restarted])
            == GuardRuns.After(View(d, log), CrashMoves(v, d, r, f, k))
  {
    var (d1, ready, saves) := Readied(d, f);
    ReadiedView(d, f, log);
    EventsOfParsed(v, d, r, capacity, f);
    var d2 := Authenticated(v, d1, r, f).0;
    CrashCore(d.flash, View(d, log), BootMoves(d, f), saves, d1, Reaches(v, d, r, f), d2, r, capacity, f, k, log);
  }

  predicate Unguarded(es: seq<Event>) {
    forall e | e in es :: !e.Accepted? && !e.CeilingSaved?
  }

  lemma {:induction false} UnguardedView(flash: Flash, log: seq<Event>, es: seq<Event>)
    requires Unguarded(es)
    ensures Counters(log + es) == Counters(log) && CeilingWrites(log + es) == CeilingWrites(log)
    ensures WrittenAll(flash, es).ceiling == flash.ceiling
  {
    if es == [] {
      assert log + es == log;
    } else {
      var init, e := es[..|es| - 1], es[|es| - 1];
      UnguardedView(flash, log, init);
      assert log + es == log + init + [e];
      ViewOne(log + init, e);
    }
  }

  lemma OtherRequests(v: Verifier, d: Device, input: seq<u8>, capacity: nat, f: Foreign, now: nat)
    requires !Parses(input)
    ensures var o := Process(v, d, input, capacity, f, now);
            && o.device.guard == d.guard && o.device.replayReady == d.replayReady
            && o.device.flash.ceiling == d.flash.ceiling && Unguarded(o.events)
  {
  }

  lemma CrashInRefines(v: Verifier, w: World, input: seq<u8>, capacity: nat, f: Foreign, k: nat)
    ensures var s := CrashIn(input, capacity, f, k);
            View(Exec(v, w, s).device, Exec(v, w, s).log) == GuardRuns.After(View(w.device, w.log), Moves(v, w, s))
  {
    if Parses(input) {
      ParsedCrash(v, w.device, ParseSigned(input).value, capacity, f, k, w.log);
    } else {
      var cut := Cut(Process(v, w.device, input, capacity, f, w.now).events, k);
      OtherRequests(v, w.device, input, capacity, f, w.now);
      assert Unguarded(cut);
      UnguardedView(w.device.flash, w.log, cut);
      RestartView(w.device, WrittenAll(w.device.flash, cut), w.log + cut);
      AfterOne(View(w.device, w.log), GuardRuns.Restart);
    }
  }

  lemma RequestRefines(v: Verifier, w: World, input: seq<u8>, capacity: nat, f: Foreign)
    ensures var s := Request(input, capacity, f);
            View(Exec(v, w, s).device, Exec(v, w, s).log) == GuardRuns.After(View(w.device, w.log), Moves(v, w, s))
  {
    if Parses(input) {
      ParsedView(v, w.device, ParseSigned(input).value, capacity, f, w.log);
    } else {
      OtherRequests(v, w.device, input, capacity, f, w.now);
      UnguardedView(w.device.flash, w.log, Process(v, w.device, input, capacity, f, w.now).events);
    }
  }

  lemma RestartRefines(v: Verifier, w: World)
    ensures View(Exec(v, w, Restart).device, Exec(v, w, Restart).log)
            == GuardRuns.After(View(w.device, w.log), [GuardRuns.Restart])
  {
    RestartView(w.device, w.device.flash, w.log);
    AfterOne(View(w.device, w.log), GuardRuns.Restart);
  }

  /** Each step of the device's life is, for the replay guard, the moves listed for it. */
  lemma StepRefines(v: Verifier, w: World, s: Step)
    ensures View(Exec(v, w, s).device, Exec(v, w, s).log) == GuardRuns.After(View(w.device, w.log), Moves(v, w, s))
  {
    match s
    case Request(input, capacity, f) => RequestRefines(v, w, input, capacity, f);
    case CrashIn(input, capacity, f, k) => CrashInRefines(v, w, input, capacity, f, k);
    case Restart => RestartRefines(v, w);
    case Press => ViewOne(w.log, WindowOpened(w.now));
    case OpenWindow => ViewOne(w.log, WindowOpened(w.now));
    case Elapse(_) =>
    case ClientSigns(key, message) => ViewOne(w.log, ClientSigned(key, message));
  }

  function AllMoves(v: Verifier, steps: seq<Step>): seq<GuardRuns.Move> {
    if steps == [] then []
    else AllMoves(v, steps[..|steps| - 1]) + Moves(v, Lived(v, steps[..|steps| - 1]), steps[|steps| - 1])
  }

  lemma {:induction false} AfterConcat(g: GuardRuns.World, s: seq<GuardRuns.Move>, t: seq<GuardRuns.Move>)
    ensures GuardRuns.After(g, s + t) == GuardRuns.After(GuardRuns.After(g, s), t)
  {
    if t == [] {
      assert s + t == s;
    } else {
      assert (s + t)[..|s + t| - 1] == s + t[..|t| - 1];
      AfterConcat(g, s, t[..|t| - 1]);
    }
  }

  /** Over a whole life the device's counters, ceiling writes and guard are those of a run of the replay guard. */
  lemma {:induction false} LifeRefines(v: Verifier, steps: seq<Step>)
    ensures View(Lived(v, steps).device, Lived(v, steps).log) == GuardRuns.After(GuardRuns.BLANK, AllMoves(v, steps))
  {
    if steps == [] {
    } else {
      var init, s := steps[..|steps| - 1], steps[|steps| - 1];
      LifeRefines(v, init);
      StepRefines(v, Lived(v, init), s);
      AfterConcat(GuardRuns.BLANK, AllMoves(v, init), Moves(v, Lived(v, init), s));
    }
  }
}
