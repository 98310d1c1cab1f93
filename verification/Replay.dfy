/** The reserved-ceiling replay guard: lib/tunnel/tunnel_replay.cpp and tunnel_replay.h. */
module Replay {
  import opened Bytes
  import opened History

  const RESERVE: u32 := 64

  /** The guard's three fields. */
  datatype Guard = Guard(floor: u32, ceiling: u32, persistent: bool)

  /** How the settings calls go: subsystem initialised, entry found intact, save written. */
  datatype Storage = Storage(subsys: bool, load: bool, save: bool)

  /** The guard afterwards, whether the call reports success, and the ceiling written to flash. */
  datatype Effect = Effect(guard: Guard, ok: bool, saved: Option<u32>)

  function Persisted(g: Guard, ceiling: u32, save: bool): Effect {
    Effect(g.(ceiling := ceiling), !g.persistent || save, if g.persistent && save then Some(ceiling) else None)
  }

  function Initialised(stored: Option<u32>, io: Storage): Effect {
    if !io.subsys then
      Effect(Guard(0, RESERVE, false), true, None)
    else
      var loaded := if io.load then stored.GetOr(0) else 0;
      if loaded == 0 then Persisted(Guard(0, 0, true), RESERVE, io.save)
      else Effect(Guard(loaded, loaded, true), true, None)
  }

  predicate Fresh(g: Guard, counter: u32) {
    counter > g.floor
  }

  /** `counter + kReserve` in 32 bits. */
  function Next(counter: u32): u32 {
    (counter + RESERVE) % 0x1_0000_0000
  }

  function Consumed(g: Guard, counter: u32, save: bool): Effect {
    if !Fresh(g, counter) then
      Effect(g, false, None)
    else if counter < g.ceiling then
      Effect(g.(floor := counter), true, None)
    else if Next(counter) < counter then
      Effect(g, false, None)
    else
      var e := Persisted(g, Next(counter), save);
      if e.ok then e.(guard := e.guard.(floor := counter)) else e
  }

  function Saves(saved: Option<u32>): seq<Event> {
    if saved.Some? then [CeilingSaved(saved.value)] else []
  }

  class ReplayGuard {
    const settings: Settings
    var floor: u32
    var ceiling: u32
    var persistent: bool

    function Value(): Guard
      reads this
    {
      Guard(floor, ceiling, persistent)
    }

    constructor (settings: Settings)
      ensures this.settings == settings && Value() == Guard(0, 0, false)
    {
      this.settings := settings;
      floor, ceiling, persistent := 0, 0, false;
    }

    /** Both the guard and the flash entry are as `e` says; the key entry is untouched. */
    twostate predicate Did(e: Effect)
      reads this, settings
    {
      && Value() == e.guard
      && settings.ceiling == (if e.saved.Some? then e.saved else old(settings.ceiling))
      && settings.clientKey == old(settings.clientKey)
      && settings.log == old(settings.log) + Saves(e.saved)
    }

    predicate IsFresh(counter: u32)
      reads this
    {
      counter > floor
    }

    method PersistCeiling(value: u32, save: bool) returns (ok: bool)
      modifies this`ceiling, settings
      ensures ok == Persisted(old(Value()), value, save).ok
      ensures Did(Persisted(old(Value()), value, save))
    {
      ceiling := value;
      if !persistent {
        return true;
      }
      settings.SaveCeiling(value, save);
      return save;
    }

    method Init(io: Storage) returns (ok: bool)
      modifies this, settings
      ensures ok == Initialised(old(settings.ceiling), io).ok
      ensures Did(Initialised(old(settings.ceiling), io))
    {
      if !io.subsys {
        floor, ceiling, persistent := 0, RESERVE, false;
        return true;
      }
      persistent := true;
      ceiling := if io.load then settings.ceiling.GetOr(0) else 0;
      floor := ceiling;
      if ceiling == 0 {
        ok := PersistCeiling(RESERVE, io.save);
        return ok;
      }
      return true;
    }

    method Accept(counter: u32, save: bool) returns (ok: bool)
      modifies this, settings
      ensures ok == Consumed(old(Value()), counter, save).ok
      ensures Did(Consumed(old(Value()), counter, save))
    {
      if !IsFresh(counter) {
        return false;
      }
      if counter >= ceiling {
        var next := (counter + RESERVE) % 0x1_0000_0000;
        if next < counter {
          return false;
        }
        ok := PersistCeiling(next, save);
        if !ok {
          return false;
        }
      }
      floor := counter;
      return true;
    }
  }
}
