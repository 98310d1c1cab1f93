/** Client key registration under physical presence: lib/tunnel/tunnel_client_key.cpp. */
module ClientKey {
  import opened Bytes
  import opened History

  const KEY_LENGTH := 32
  const WINDOW_MS := 60000

  /** Whether a signature verifies under a public key. Foreign code: any function at all. */
  type Verifier = (seq<u8>, seq<u8>, seq<u8>) -> bool

  /** The store's fields; `cached` is the key material behind the imported handle. */
  datatype Keys = Keys(key: Option<seq<u8>>, windowUntil: nat, cached: Option<seq<u8>>, handler: bool)

  const NO_KEYS := Keys(None, 0, None, false)

  /** `Init`: the settings entry replaces the key in RAM only when it can be read and has the right length. */
  function Loaded(k: Keys, stored: Option<seq<u8>>, readable: bool): Keys {
    k.(key := if readable && stored.Some? && |stored.value| == KEY_LENGTH then stored else k.key, handler := true)
  }

  predicate Open(k: Keys, now: nat) {
    k.windowUntil != 0 && now < k.windowUntil
  }

  predicate MayRegister(k: Keys, key: seq<u8>, now: nat) {
    Open(k, now) && |key| == KEY_LENGTH
  }

  function Stored(k: Keys, key: seq<u8>): Keys {
    k.(key := Some(key), cached := None, windowUntil := 0)
  }

  /** The handle cache after a verification, and whether the signature was found good. */
  function Verified(k: Keys, verifier: Verifier, imports: bool, message: seq<u8>, signature: seq<u8>): (Keys, bool) {
    if k.key.None? then (k, false)
    else
      var cached := if k.cached.Some? then k.cached else if imports then k.key else None;
      (k.(cached := cached), cached.Some? && verifier(cached.value, message, signature))
  }

  /** The handle is kept: the verdict under a key that can be had, and that key held for every later verification. */
  lemma VerifiedExactly(k: Keys, verifier: Verifier, imports: bool, message: seq<u8>, signature: seq<u8>)
    requires k.cached.Some? ==> k.cached == k.key
    ensures var (k', good) := Verified(k, verifier, imports, message, signature);
            && (good <==> && k.key.Some? && (imports || k.cached.Some?)
                          && verifier(k.key.value, message, signature))
            && (k'.cached == k.key <==> imports || k.cached == k.key)
            && k' == k.(cached := k'.cached)
            && forall imports', message', signature' :: k'.cached == k.key ==>
                 (Verified(k', verifier, imports', message', signature').1 <==>
                    k.key.Some? && verifier(k.key.value, message', signature'))
  {
  }

  /** The crypto library's volatile key slots; handle 0 is `PSA_KEY_ID_NULL`. */
  class KeyRing {
    var slots: map<nat, seq<u8>>
    var next: nat

    ghost predicate Valid()
      reads this
    {
      0 < next && forall id | id in slots :: 0 < id < next
    }

    constructor ()
      ensures Valid() && slots == map[]
    {
      slots, next := map[], 1;
    }

    method Import(key: seq<u8>, works: bool) returns (id: nat)
      requires Valid()
      modifies this
      ensures Valid()
      ensures works <==> id != 0
      ensures slots == if works then old(slots)[id := key] else old(slots)
    {
      if !works {
        return 0;
      }
      id, next := next, next + 1;
      slots := slots[id := key];
    }

    method Destroy(id: nat)
      requires Valid()
      modifies this
      ensures Valid() && slots == old(slots) - {id}
    {
      slots := slots - {id};
    }
  }

  class ClientKeyStore {
    const settings: Settings
    const ring: KeyRing
    const mKey: array<u8>
    var keyLen: nat
    var windowUntil: nat
    var imported: nat
    var handler: bool

    ghost predicate Valid()
      reads this, mKey, ring
    {
      && mKey.Length == KEY_LENGTH && (keyLen == 0 || keyLen == KEY_LENGTH)
      && ring.Valid() && (imported != 0 ==> imported in ring.slots)
    }

    ghost function Value(): Keys
      requires Valid()
      reads this, mKey, ring
    {
      Keys(if keyLen == 0 then None else Some(mKey[..]), windowUntil,
           if imported == 0 then None else Some(ring.slots[imported]), handler)
    }

    constructor (settings: Settings)
      ensures this.settings == settings && fresh(mKey) && fresh(ring)
      ensures Valid() && Value() == NO_KEYS
    {
      this.settings := settings;
      ring := new KeyRing();
      mKey := new u8[KEY_LENGTH](_ => 0);
      keyLen, windowUntil, imported, handler := 0, 0, 0, false;
    }

    method Init(readable: bool)
      requires Valid()
      modifies this, mKey
      ensures Valid() && Value() == Loaded(old(Value()), settings.clientKey, readable)
    {
      if readable && settings.clientKey.Some? && |settings.clientKey.value| == KEY_LENGTH {
        CopyBytes(mKey, 0, settings.clientKey.value);
        assert mKey[..] == mKey[..KEY_LENGTH] == settings.clientKey.value;
        keyLen := KEY_LENGTH;
      }
      handler := true;
    }

    predicate WindowOpen(now: nat)
      reads this
    {
      windowUntil != 0 && now < windowUntil
    }

    method OpenWindow(now: nat)
      requires Valid()
      modifies this`windowUntil, settings`log
      ensures Valid() && Value() == old(Value()).(windowUntil := now + WINDOW_MS)
      ensures settings.log == old(settings.log) + [WindowOpened(now)]
    {
      windowUntil := now + WINDOW_MS;
      settings.Record(WindowOpened(now));
    }

    method Register(key: seq<u8>, now: nat, save: bool) returns (ok: bool)
      requires Valid()
      modifies this, mKey, ring, settings
      ensures Valid()
      ensures ok <==> old(MayRegister(Value(), key, now))
      ensures Value() == if ok then Stored(old(Value()), key) else old(Value())
      ensures settings.log == old(settings.log) + if ok then [Registered(key, now, save)] else []
      ensures settings.clientKey == (if ok && save then Some(key) else old(settings.clientKey))
      ensures settings.ceiling == old(settings.ceiling)
    {
      if !WindowOpen(now) || |key| != KEY_LENGTH {
        return false;
      }
      CopyBytes(mKey, 0, key);
      assert mKey[..] == mKey[..KEY_LENGTH] == key;
      keyLen := KEY_LENGTH;
      if imported != 0 {
        ring.Destroy(imported);
        imported := 0;
      }
      settings.SaveClientKey(mKey[..], now, save);
      windowUntil := 0;
      return true;
    }

    method Verify(verifier: Verifier, imports: bool, message: seq<u8>, signature: seq<u8>) returns (good: bool)
      requires Valid()
      modifies this`imported, ring
      ensures Valid()
      ensures (Value(), good) == Verified(old(Value()), verifier, imports, message, signature)
    {
      if keyLen == 0 {
        return false;
      }
      if imported == 0 {
        imported := ring.Import(mKey[..], imports);
        if imported == 0 {
          return false;
        }
      }
      return verifier(ring.slots[imported], message, signature);
    }
  }
}
