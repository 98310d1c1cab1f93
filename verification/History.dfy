/** What a device did, as a log of indivisible events, and the settings storage that outlives a reset. */
module History {
  import opened Bytes

  /** An authenticated request at the instant its counter is consumed. */
  datatype Command = Command(counter: u32, payload: seq<u8>, deviceKey: seq<u8>, clientKey: seq<u8>)

  datatype Event =
    | CeilingSaved(value: u32)
    | Accepted(command: Command)
    | WindowOpened(at: nat)
    | Registered(key: seq<u8>, at: nat, saved: bool)
    | DeviceSigned(deviceKey: seq<u8>, message: seq<u8>)
    | ClientSigned(clientKey: seq<u8>, message: seq<u8>)
    | Restarted

  /** The two settings entries, and the instant-by-instant record of what was done. */
  class Settings {
    var ceiling: Option<u32>
    var clientKey: Option<seq<u8>>
    ghost var log: seq<Event>

    constructor ()
      ensures ceiling == None && clientKey == None && log == []
    {
      ceiling, clientKey, log := None, None, [];
    }

    /** `settings_save_one("tunnel/ceiling", ...)`; `works` is its outcome. */
    method SaveCeiling(value: u32, works: bool)
      modifies this
      ensures ceiling == (if works then Some(value) else old(ceiling)) && clientKey == old(clientKey)
      ensures log == old(log) + if works then [CeilingSaved(value)] else []
    {
      if works {
        ceiling, log := Some(value), log + [CeilingSaved(value)];
      }
    }

    /** `settings_save_one("tunnel/clientkey", ...)`, the step that makes a registration last. */
    method SaveClientKey(key: seq<u8>, ghost at: nat, works: bool)
      modifies this
      ensures clientKey == (if works then Some(key) else old(clientKey)) && ceiling == old(ceiling)
      ensures log == old(log) + [Registered(key, at, works)]
    {
      if works {
        clientKey := Some(key);
      }
      log := log + [Registered(key, at, works)];
    }

    ghost method Record(e: Event)
      modifies this`log
      ensures log == old(log) + [e]
    {
      log := log + [e];
    }
  }
}
