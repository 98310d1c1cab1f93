# A model of the signed vendor tunnel

Dafny model and proofs for a command tunnel through an untrusted hub: a door-lock device that verifies its
client's requests, keeps a replay counter across resets, signs its answers with an attested key, and the client and
probe tools beside it. The full configuration is modelled, with `CONFIG_TUNNEL_SECURITY` and
`CONFIG_TUNNEL_CLIENT_AUTH` on.

`dafny verify dfyconfig.toml` checks everything.

## How it is built

Code that changes state is modelled by classes and methods over arrays (`Server`, `Replay`, `ClientKey`, `Identity`,
`Envelope`) or by loops (`Crc`, `Framer`, `PackedUint`, `Harness`). Each method is proved against a specification
function on values, `Device.Process` for a whole request, and the theorems are about those functions and about all runs of them.

- `Bytes`, `History`: integers and their wire form; the settings storage and the event log.
- `Envelope`, `Identity`: signed bytes, identity bundle, chunked transfer.
- `Replay`, `GuardRuns`: the replay guard, and every run of it with resets at any point inside `Accept`.
- `ClientKey`: registration window and key-handle cache.
- `Device`, `Server`: one request, as a function and over the static buffers.
- `Freshness`: exactly which runs of the guard keep accepted counters stale, whatever fails.
- `DeviceRuns`, `DeviceTheorems`, `FreshLives`, `CrashSafety`, `MainTheorems`, `ActiveKey`, `Replies`: whole lives of a
  device. `ConcreteLives`: three of them, step by step.
- `Exchanges`: each kind of request and its replies, in literal bytes, sizes and outcomes of the foreign calls.
- `Wear`, `WearLives`: exactly which runs and lives keep flash wear and the reservation within bounds.
- `Harness`: the client's encoder and measurement loop. `Crc`, `TwoBits`, `Framer`, `PackedUint`: the Spinel probe.

A life is any sequence of requests, button presses, elapsing time, client signatures and resets. A reset may strike inside a request
after any prefix of its recorded instants (flash write, acceptance, registration, signature); RAM is wiped, flash and log stay.
The results of the crypto library, the attestation provider and the settings calls are parameters, one record per request,
and may go any way. `Verify` is an arbitrary predicate; theorems that need signatures to be unforgeable say so.

## What turned out false

The code is modelled as it is; each of these is stated with the exact condition under which the promise does hold.

- A failed ceiling write leaves the new ceiling in RAM, and a retry is then accepted without a write. After a reset the same
  counter is accepted again: `GuardRuns.FailedSaveReopens`. The 64-counter reservation bound fails with it, and
  in no other way: `Wear.SpannedExactly`, `WearLives.SpannedExactly`.
- A boot without the settings subsystem accepts counters that a later boot does not know of, and an unreadable ceiling entry is
  written over and starts again from 0: `Freshness.LostStorageReopens`, `Freshness.LostEntryReopens`. The exact condition for
  all three is `Freshness.FreshnessExactly` and, for the whole device, `FreshLives.FreshExactly`; with working loads
  it becomes `Freshness.RetainedExactly` and `CrashSafety.RetainedExactly`. Strictly-below coverage, as the repository's comments
  have it, is `GuardRuns.CrashSafeExactly` and `CrashSafety.CoveredExactly`.
- Each boot that cannot read the ceiling entry costs a flash write without moving the stored ceiling, so wear is then not bounded by
  the counters used: `Wear.UnreadableBootsWear`, exact condition in `Wear.ThriftyExactly` and `WearLives.ThriftyExactly`.
- Not only an authenticated request writes flash (lib/tunnel/tunnel_server.cpp:265-267): the first signed request of a boot, whatever
  its signature, reserves a ceiling where none can be loaded. Exactly when: `Replies.UnauthenticatedWriteExactly`.
- The size of the answer is checked after the counter is spent and the answer signed: `Replies.OversizedIsSpent`,
  exact statement in `Replies.SignedResponseExactly`.
- A button press does nothing before the first signed request of a boot: `MainTheorems.PressNeedsInitialisation`.
- A key whose save failed works until the next reset only: `ActiveKey.ResetForgetsExactly`.
- A key registered before lazy initialisation, acknowledged but not saved, is replaced by an older saved one at the next signed
  request, with no reset in between: `ConcreteLives.SilentlyReplaced`. It takes a caller of `OpenWindow` other than the button
  (SECURITY.md:49-53).
- One failed read of the key entry locks the registered client out until the next reset or a new registration: the key store ignores
  the failure and initialisation is not tried again (lib/tunnel/tunnel_client_key.cpp:72-87, lib/tunnel/tunnel_server.cpp:132-136).
  `ConcreteLives.ClientLockedOut`, `ActiveKey.LockOutLasts`. The exact condition for both is `ActiveKey.MislaidExactly` for one
  initialisation and `ActiveKey.ActiveKeyExactly` for whole lives; `ActiveKey.NoOtherKeyExactly` is the part that agreement needs.
- The bytes signed in a registration acknowledgement are those of a response with counter 0; no command can have that counter,
  but a client must not read such a signature as the answer to one: `MainTheorems.ResponseMeaning`.
- Keys of 65536 bytes and more can share a preimage with shorter ones: `Envelope.PreimageCollision`. The device's has at most 65.
- A frame with an empty payload is encoded but never decoded: `Framer.RoundTripExactly`.

Two comments disagree with the code, which is followed: lib/tunnel/tunnel_replay.h:30 extends the reservation to `ceiling + kReserve`
where the code stores `counter + kReserve` (lib/tunnel/tunnel_replay.cpp:105), and the repository's README.md:130-131 speaks of four
chunks where 1060 bytes take three at `kMaxChunk` (lib/tunnel/tunnel_server.cpp:82).

## Model

| member | source | states |
|---|---|---|
| `Envelope.BuildPreimage` | lib/tunnel/tunnel_envelope.cpp:30-65 | succeeds exactly when `21 + key + payload` bytes fit; then the first bytes of the buffer are the string the client's expression denotes and nothing behind them changes; otherwise nothing changes at all |
| `Envelope.PutU32` | lib/tunnel/tunnel_envelope.cpp:20-26 | the four big-endian bytes land at the pointer, which moves past them; everything else stays |
| `Bytes.BigEndian` | lib/tunnel/tunnel_envelope.cpp:20-26 | 16-bit and 32-bit fields carry their most significant byte first; a 16-bit one carries its number modulo 2^16 |
| `Envelope.PreimageBytes` | lib/tunnel/tunnel_envelope.cpp:40-61 | the signed bytes one by one: `MTUNv1`, direction (2 for requests, 3 for responses), counter, cluster 0xFFF1FC02, command 0xFFF10000, key length, key, payload |
| `Envelope.PreimageCollision` | lib/tunnel/tunnel_envelope.cpp:52-58 | for keys and payloads of any length: two argument tuples share a preimage if and only if direction and counter agree, the key lengths agree modulo 2^16 and key followed by payload is the same string |
| `Envelope.PreimageInjective` | lib/tunnel/tunnel_envelope.cpp:52-58 | for keys of up to 65535 bytes and all payloads the preimage determines direction, counter, key and payload |
| `Replay.ReplayGuard.Init` | lib/tunnel/tunnel_replay.cpp:37-77 | fields, flash entry, log and result for every outcome of the settings calls: unusable subsystem, unreadable entry, first boot, reload |
| `Replay.ReplayGuard.PersistCeiling` | lib/tunnel/tunnel_replay.cpp:79-93 | the ceiling in RAM moves whether or not the write succeeds; flash moves only if it does |
| `Replay.ReplayGuard.Accept` | lib/tunnel/tunnel_replay.cpp:95-118 | stale counters, the branch without a write, the wrap check and the extension, with a failed write leaving the floor where it was |
| `GuardRuns.WornStep` | lib/tunnel/tunnel_replay.cpp:37-118 | initialisation with a working load, use, reset and crash inside a use, with writes failing at will, keep: 64 times the writes so far is at most the stored ceiling, which never goes down, and it is at most 64 above the floor |
| `GuardRuns.OrderedStep` | lib/tunnel/tunnel_replay.cpp:95-118 | given that, and a working load, each such move keeps the accepted counters increasing, positive and below the stored ceiling unless it draws on an unwritten reservation |
| `GuardRuns.CrashSafeExactly` | lib/tunnel/tunnel_replay.cpp:81-91 | over every run from blank storage with working loads, writes failing in any pattern: accepted counters lie strictly below the stored ceiling at every instant if and only if no counter is accepted, without a write, at or above that ceiling |
| `GuardRuns.AcceptedOnce` | lib/tunnel/tunnel_replay.cpp:101-117 | runs in which a failed write is followed by a reload accept counters in strictly increasing order and keep them covered at every crash point |
| `GuardRuns.FailedSaveReopens` | lib/tunnel/tunnel_replay.cpp:81-91 | the concrete run that breaks the promise: a failed write, a retry in RAM, a reset, and counter 65 is accepted a second time |
| `GuardRuns.ReopenedExactly` | lib/tunnel/tunnel_replay.cpp:61-65 | after a reset and a reload exactly the accepted counters above the stored ceiling are fresh again |
| `GuardRuns.BootSafeExactly` | lib/tunnel/tunnel_replay.cpp:45-71 | one initialisation, from a state in which accepted counters are covered: it leaves them all stale if and only if it could read the entry, or the subsystem works and the write fails, or nothing had been accepted |
| `GuardRuns.LifetimeWrites` | lib/tunnel/tunnel_replay.cpp:67-71 | from blank storage, whatever the resets and with working loads: 64 times the ceiling writes is at most the stored ceiling, so fewer than 2^26 writes ever |
| `Wear.ThriftyExactly` | lib/tunnel/tunnel_replay.cpp:45-71 | over every run from blank storage, everything allowed to fail: 64 times the writes is at most the stored ceiling at every instant, if and only if no initialisation writes over an entry it could not read |
| `Wear.UnreadableBootsWear` | lib/tunnel/tunnel_replay.cpp:45-71 | the concrete run: every boot that cannot read the entry costs a write, and the stored ceiling stays at 64 |
| `GuardRuns.WritesPerBoot` | lib/tunnel/tunnel_replay.cpp:104-116 | within one boot n accepted consecutive counters cost at most ceil(n / 64) writes |
| `GuardRuns.BurnBounded` | lib/tunnel/tunnel_replay.cpp:61-65 | with accepted counters covered, a working load and no draw on an unwritten reservation: a use stores either nothing or counter + 64 unwrapped, and a reset after it raises the floor by at most 64 over the larger of the old floor and the counter tried |
| `GuardRuns.ReservationBounded` | lib/tunnel/tunnel_replay.h:63-65 | in disciplined runs, at every instant but the one right after a failed write, RAM and flash hold the same ceiling, between the floor and 64 above it, and a reset raises the floor by no more than that |
| `GuardRuns.ReservationExactly` | lib/tunnel/tunnel_replay.cpp:104-113 | one use keeps the ceiling within 64 of the floor if and only if it is not an extension whose write fails |
| `Wear.SpannedExactly` | lib/tunnel/tunnel_replay.cpp:79-113 | over every run from blank storage, everything allowed to fail: the ceiling lies between the floor and 64 above it at every instant, if and only if no use extends the reservation of a persistent guard and fails to write it |
| `GuardRuns.ResyncExactly` | lib/tunnel/tunnel_replay.h:38-44 | a client that answers a rejection naming floor f with f + 1 gets through if and only if f + 1 is below the ceiling, or f + 1 is at most 2^32 - 65 and the write works |
| `Freshness.FreshnessExactly` | lib/tunnel/tunnel_replay.cpp:37-118 | over every run from blank storage, with subsystem, loads and writes failing in any pattern: at every instant no accepted counter is fresh, nor would be after a reload, if and only if no move accepts without a write a counter above the stored ceiling (on a reservation in RAM, or without storage) or initialises from 0 after something was accepted; then counters strictly increase |
| `Freshness.RetainedExactly` | lib/tunnel/tunnel_replay.cpp:61-65 | with working loads: accepted counters stay at or below the stored ceiling, which a reload makes the floor, if and only if none is accepted without a write strictly above it |
| `Freshness.LostStorageReopens` | lib/tunnel/tunnel_replay.cpp:45-53 | the concrete run: a boot without settings subsystem accepts 100, a reset and a boot with it accept 100 again |
| `Freshness.LostEntryReopens` | lib/tunnel/tunnel_replay.cpp:56-71 | the concrete run: an unreadable entry is written over, and counter 50 is accepted a second time |
| `ClientKey.ClientKeyStore.Init` | lib/tunnel/tunnel_client_key.cpp:68-88 | the stored key replaces the one in RAM only if it can be read and has 32 bytes; the button works afterwards |
| `ClientKey.ClientKeyStore.OpenWindow` | lib/tunnel/tunnel_client_key.cpp:95-100 | the window ends 60000 ms from now; key and handle stay |
| `ClientKey.ClientKeyStore.Register` | lib/tunnel/tunnel_client_key.cpp:102-129 | succeeds exactly inside the window with a 32-byte key; then key replaced, old handle destroyed, window shut, flash written if the save works; otherwise nothing changes |
| `ClientKey.ClientKeyStore.Verify` | lib/tunnel/tunnel_client_key.cpp:131-148 | verdict and handle cache, including a missing key and a failing import |
| `ClientKey.VerifiedExactly` | lib/tunnel/tunnel_client_key.cpp:131-148 | a verification under a key whose handle is held or can be imported gives the verdict and leaves the handle for every later one, whose imports then no longer matter; nothing else changes |
| `Identity.Writer.PutField` | lib/tunnel/tunnel_identity.cpp:36-46 | writes length and bytes if both fit, and changes nothing if they do not |
| `Identity.BuildIdentityBundle` | lib/tunnel/tunnel_identity.cpp:58-107 | succeeds exactly when a bundle can be built that fits, and then the buffer begins with it; which bundle, and when, is `Identity.BuiltExactly` |
| `Identity.BuiltExactly` | lib/tunnel/tunnel_identity.cpp:58-107 | a bundle is built if and only if provider, key export, attestation signature over version, algorithm and key, and both certificates are there, no field exceeds 65535 bytes and the whole fits; it is then version 1, algorithm, public key, signature, device certificate, intermediate certificate, in this order, each field behind its length |
| `Identity.ReadBundle` | lib/tunnel/tunnel_identity.cpp:128-142 | the re-reader recovers version, algorithm and all four fields, in place, from whatever the writer produced, and ends at the end |
| `Identity.BundleInjective` | lib/tunnel/tunnel_identity.cpp:96-103 | a bundle determines its algorithm and its fields |
| `Identity.TransferComplete` | lib/tunnel/tunnel_server.cpp:202-225 | chunks in any order, repeated or not, rebuild the bundle if and only if they cover the announced total |
| `Identity.SequentialPlan` | lib/tunnel/tunnel_server.cpp:80-82 | asking at 0, 400, 800, ... completes in ceil(L / 400) requests for every length, and no plan needs fewer |
| `Server.TunnelServer.EnsureBundle` | lib/tunnel/tunnel_server.cpp:97-122 | builds and caches bundle and public key once, or fails leaving both as they were |
| `Server.TunnelServer.EnsureReplay` | lib/tunnel/tunnel_server.cpp:124-139 | initialises guard and key store once, including the first-boot write |
| `Server.TunnelServer.SendIdentity` | lib/tunnel/tunnel_server.cpp:189-226 | the identity branch over the real buffers: reply bytes, untouched rest of the output buffer, new state |
| `Server.TunnelServer.Authenticate` | lib/tunnel/tunnel_server.cpp:265-291 | missing key, oversized preimage and bad signature, without touching guard or flash |
| `Server.TunnelServer.Commit` | lib/tunnel/tunnel_server.cpp:313-334 | spends the counter, then signs: the order in which flash write, acceptance and signature are recorded |
| `Server.TunnelServer.Answer` | lib/tunnel/tunnel_server.cpp:300-357 | stale, spent, signed, and only then checked for size |
| `Server.TunnelServer.ServeSigned` | lib/tunnel/tunnel_server.cpp:228-358 | the whole signed-request branch, parse errors included |
| `Server.TunnelServer.ServeRegister` | lib/tunnel/tunnel_server.cpp:361-431 | the whole registration branch: refusal, storage and signed acknowledgement |
| `Server.TunnelServer.ProcessRequest` | lib/tunnel/tunnel_server.cpp:159-440 | for every input and every output buffer of 5 bytes or more: state, flash, reply, error and event log are those of the specification on which all theorems below are proved, all accesses are in bounds, and no byte behind the reply is touched |
| `DeviceRuns.StepRefines` | lib/tunnel/tunnel_server.cpp:159-440 | each step of a device's life, a reset after any of a request's recorded instants included, is for the replay guard a listed sequence of its own moves |
| `DeviceRuns.LifeRefines` | lib/tunnel/tunnel_server.cpp:159-440 | counters, writes and guard of every whole life are those of a run of the guard |
| `DeviceTheorems.StandingFacts` | lib/tunnel/tunnel_server.cpp:84-122 | in every reachable state: a cached bundle carries, as its first field, the key bound into every preimage, the signer holds that key, and an imported handle holds the registered key |
| `DeviceTheorems.RequestEvents` | lib/tunnel/tunnel_server.cpp:260-334 | every recorded event of a request is justified: acceptances by a signature good under the key in RAM, device signatures by the event right before them, registrations by an open window |
| `DeviceTheorems.WindowOfRequest` | lib/tunnel/tunnel_client_key.cpp:102-126 | a request leaves the window alone, or registers once as its first event and shuts it |
| `CrashSafety.UnsavedExactly` | lib/tunnel/tunnel_replay.cpp:97-116 | the device-level guard condition picks out exactly the steps that draw on an unwritten reservation |
| `FreshLives.OffendsExactly` | lib/tunnel/tunnel_server.cpp:260-316 | the device-level conditions pick out exactly the steps in which a move of the replay guard offends |
| `FreshLives.FreshExactly` | lib/tunnel/tunnel_server.cpp:228-316 | over every life of the device, everything allowed to fail and resets striking anywhere: at no instant is an accepted counter fresh, or fresh after a reload, if and only if no step offends; then counters strictly increase |
| `CrashSafety.RetainedExactly` | lib/tunnel/tunnel_replay.cpp:61-65 | over every life with working loads: accepted counters stay at or below the ceiling in flash if and only if no step accepts without a write strictly above it, and these are the lives in which no step offends |
| `CrashSafety.CoveredExactly` | lib/tunnel/tunnel_replay.cpp:101-117 | over every life with working loads, resets striking between and inside requests and writes failing in any pattern: accepted counters lie strictly below the ceiling in flash at every step if and only if no step accepts without a write at or above it; then they also strictly increase |
| `CrashSafety.ReliableSuffices` | lib/tunnel/tunnel_replay.cpp:81-91 | a reset right after every failed write is enough for that |
| `MainTheorems.AcceptedInOrder` | lib/tunnel/tunnel_replay.h:33-36 | over such lives accepted counters strictly increase across resets, none is 0, each is strictly below the ceiling in flash, and 64 times the ceiling writes is at most that ceiling |
| `MainTheorems.CountersIncrease` | lib/tunnel/tunnel_replay.h:33-36 | in every life in which no step offends, accepted counters strictly increase across all resets |
| `MainTheorems.WritesOfLife` | lib/tunnel/tunnel_replay.cpp:67-71 | over the whole life of a device whose loads work: 64 counters per ceiling write, and fewer than 2^26 writes |
| `WearLives.ThriftyExactly` | lib/tunnel/tunnel_replay.cpp:45-71 | over every life of the device, everything allowed to fail and resets striking inside requests: 64 times the ceiling writes is at most the ceiling in flash at every instant, if and only if no initialisation writes over an entry it could not read |
| `WearLives.SpannedExactly` | lib/tunnel/tunnel_replay.cpp:79-113 | over every such life: an initialised guard's ceiling lies between its floor and 64 above it at every instant, if and only if no request extends the reservation and fails to write it |
| `MainTheorems.WritesOfBoot` | lib/tunnel/tunnel_replay.cpp:104-116 | within one boot of the device n consecutive accepted counters cost at most ceil(n / 64) ceiling writes |
| `DeviceTheorems.NeverRequest` | lib/tunnel/tunnel_envelope.cpp:43 | whatever the device has signed, it is not the preimage of a request |
| `MainTheorems.InjectiveAgreement` | lib/tunnel/tunnel_server.cpp:228-316 | if nothing verifies that neither a client nor the device signed: every accepted command was signed before, as a request to this device, by the client holding the key it was checked under, though the device's own signatures may be sent back; and in lives in which no step offends no two acceptances share a signed message |
| `ActiveKey.RegisteredClientAgreement` | lib/tunnel/tunnel_server.cpp:228-316 | the same with the key in force at that moment, in every life in which no initialisation replaces a registered key |
| `ConcreteLives.CommandAccepted` | lib/tunnel/tunnel_server.cpp:228-316 | the hypotheses of these theorems can be met together: a life without forgery, offence or mislaid key in which a command is accepted |
| `MainTheorems.SignatureCause` | lib/tunnel/tunnel_server.cpp:318-334 | each device signature follows immediately the acceptance or registration it is about, and covers exactly that |
| `MainTheorems.ResponseMeaning` | lib/tunnel/tunnel_server.cpp:318-334 | a device signature over a response preimage means, at a counter other than 0, that exactly this counter and payload were accepted, and at counter 0 that exactly these bytes were registered as a key |
| `MainTheorems.DeviceSignaturesSeparated` | lib/tunnel/tunnel_server.cpp:394-411 | in every life no device signature is over a request preimage, and none of an answer is over the bytes of an acknowledgement |
| `MainTheorems.AnswersDistinct` | lib/tunnel/tunnel_server.cpp:318-334 | in lives in which no step offends no two answers are over the same bytes |
| `MainTheorems.OneRegistrationPerPress` | lib/tunnel/tunnel_client_key.cpp:90-129 | in every life: registrations never outnumber window openings, and each falls within 60000 ms of an opening with neither another registration nor a reset in between |
| `MainTheorems.PressNeedsInitialisation` | lib/tunnel/tunnel_server.cpp:133-137 | a button press opens a window if and only if a signed request has already initialised the store in this boot |
| `MainTheorems.FlashOfLife` | lib/tunnel/tunnel_client_key.cpp:118-121 | flash holds exactly what the recorded saves wrote, wherever resets struck |
| `ActiveKey.FlashKey` | lib/tunnel/tunnel_client_key.cpp:118-121 | the key entry is the key saved last, in every life |
| `ActiveKey.ActiveKeyExactly` | lib/tunnel/tunnel_client_key.cpp:68-129 | over every life, key saves and reads of the key entry failing at will, windows opened by whomever: signed requests are always checked under the key registered last since the last reset, or else the key saved last before it, if and only if no lazy initialisation replaces a registered key or leaves behind one that it cannot read |
| `ActiveKey.NoOtherKeyExactly` | lib/tunnel/tunnel_client_key.cpp:68-129 | over every life: they are never checked under another key than that one, if and only if no lazy initialisation replaces a registered key |
| `ActiveKey.MislaidExactly` | lib/tunnel/tunnel_client_key.cpp:68-87 | in every life, a lazy initialisation loses the key in force if and only if it can read the entry, a key was registered since the reset and the key saved last is another one, which it then loads; or it cannot read it, one has been saved and none registered since the reset, and it then has none |
| `ActiveKey.BootKeyOfLife` | lib/tunnel/tunnel_client_key.cpp:68-81 | until it is initialised a device has, in every life, the key in force in RAM, registered since the reset, or in flash if RAM has none |
| `ActiveKey.KeptNeverReplaced` | lib/tunnel/tunnel_client_key.cpp:118-121 | in every life with successful key saves no initialisation replaces a key, whoever opens windows and whatever can be read |
| `ActiveKey.ButtonNeverReplaces` | lib/tunnel/tunnel_server.cpp:133-137 | nor does any if only the button opens windows, saves failing at will |
| `ConcreteLives.SilentlyReplaced` | lib/tunnel/tunnel_client_key.cpp:76-79 | the concrete life: a key is acknowledged before initialisation, its save fails, and the next signed request makes the device hold the older saved key, with no reset and no registration in between |
| `ConcreteLives.ClientLockedOut` | lib/tunnel/tunnel_client_key.cpp:72-87 | the concrete life: a key is registered and saved; after a reset one failed read of the entry, which initialisation does not report, and the device is initialised without a key and refuses the request |
| `ActiveKey.LockedRequest` | lib/tunnel/tunnel_server.cpp:271-275 | a device initialised without a key and with no window open refuses every signed request, and no request of any kind changes that |
| `ActiveKey.LockOutLasts` | lib/tunnel/tunnel_server.cpp:132-136 | nor does anything else in the rest of the boot but opening a window again: the initialisation is never repeated |
| `ActiveKey.LastKeyInForce` | lib/tunnel/tunnel_client_key.cpp:102-129 | with successful key saves, whoever opens windows: flash has the last key ever registered and the device never verifies under another; once initialised it has that key, unless an initialisation could not read it |
| `ActiveKey.ResetForgetsExactly` | lib/tunnel/tunnel_client_key.cpp:118-121 | after any life, a request registering a key, a reset and a request that initialises the device: that key is in force if and only if its entry could then be read, and its save worked or it was the key saved last already |
| `ActiveKey.VerifyAgrees` | lib/tunnel/tunnel_client_key.cpp:131-148 | in every life in which no initialisation replaces a key: verification through the cached handle says what verifying directly under the key in force says, if the device has that key and an import works; it has it unless it was mislaid |
| `Exchanges.EchoExactly` | lib/tunnel/tunnel_server.cpp:175-186 | an echo request is answered with itself if and only if it fits the reply buffer; the device stays as it is |
| `Exchanges.BuildExactly` | lib/tunnel/tunnel_server.cpp:97-122 | the identity can be built if and only if it is cached, or a signer is held or fetched, its key exported again, all attestation calls work and the bundle has at most 1200 bytes; a failed attempt leaves no bundle, a successful one binds the signer's key and caches its bundle |
| `Exchanges.IdentityExactly` | lib/tunnel/tunnel_server.cpp:189-226 | an identity request to any device, fresh ones included: `Failure`, `ConstraintError` or a response, each exactly when; the response is 0x01, the offset asked for, the total, and up to 400 bytes of the bundle behind the offset |
| `Exchanges.FirstContact` | lib/tunnel/tunnel_server.cpp:189-226 | a client that asks a fresh device at 0 and then at 400, 800, ... holds exactly the bundle which the first request built |
| `Exchanges.BundleOfLife` | lib/tunnel/tunnel_server.cpp:84-122 | in every life the cached bundle is that of one request since the last reset, with what the attestation gave then in its proper place and the bound key as its first field |
| `Exchanges.ReadyExactly` | lib/tunnel/tunnel_server.cpp:124-137 | lazy initialisation succeeds if and only if a ceiling can be read, or a first one of 64 written, or there is no settings subsystem; and what guard, flash and key store then hold |
| `Exchanges.RefusalExactly` | lib/tunnel/tunnel_server.cpp:260-291 | which refusal a well-formed signed request gets, whatever the device's state: `Failure` if identity or guard are not to be had, 0x07 without a key or, if the signed bytes fit 700, without a good signature, `ConstraintError` if they do not fit; nothing is accepted or signed then |
| `Exchanges.AuthenticExactly` | lib/tunnel/tunnel_server.cpp:300-357 | what any other well-formed signed request gets: reply byte by byte or error, each exactly when, guard, events in order, and the key's handle kept |
| `Exchanges.EnrolmentExactly` | lib/tunnel/tunnel_server.cpp:361-431 | a registration request to any device: which of `Failure`, 0x07, `ConstraintError` and acknowledgement it gets, each exactly when, the acknowledgement's bytes, and the events, key store and flash entry afterwards |
| `Exchanges.SignedFirst` | lib/tunnel/tunnel_server.cpp:318-357 | in every standing state: behind a reply of type 0x03 the last two events are the acceptance of that request and the device's signature over its response preimage; behind one of type 0x06 the events are the registration and the signature over its acknowledgement, and nothing else |
| `Exchanges.SignsExactly` | lib/tunnel/tunnel_server.cpp:318-334 | a request makes the device sign if and only if it made it accept or register something and the signer delivers, whether or not the reply fits |
| `Exchanges.RepliesSigned` | lib/tunnel/tunnel_server.cpp:394-430 | the same over every life: no signed response and no acknowledgement is sent before the device's log has the signature |
| `Exchanges.WindowExactly` | lib/tunnel/tunnel_client_key.cpp:95-116 | a window lets a 32-byte key in until 60000 ms after its opening and not afterwards; a press opens one on initialised devices and does nothing on others |
| `Replies.ReplyShape` | lib/tunnel/tunnel_server.cpp:159-440 | for every input and every buffer of 5 bytes or more: a non-empty reply that fits, or an error, never both and never neither |
| `Replies.ReplyTypes` | lib/tunnel/tunnel_server.cpp:174-440 | the first byte of a reply tells the branch: an echo can never be read as another kind of response |
| `Replies.SignedRoundTrip` | lib/tunnel/tunnel_server.cpp:228-258 | the parser recovers counter, payload and signature from the common layout, whatever bytes follow, for every length the u16 fields can hold |
| `Replies.ParsedExactly` | lib/tunnel/tunnel_server.cpp:238-258 | the parser yields a request if and only if the input is that request laid out, with anything behind it |
| `Replies.InvalidExactly` | lib/tunnel/tunnel_server.cpp:166-170 | `InvalidCommand` is the answer to exactly the inputs outside the four request layouts |
| `Replies.AckRoundTrip` | lib/tunnel/tunnel_server.cpp:417-430 | an acknowledgement parses back to the key and the device's signature |
| `Replies.RegistrationExactly` | lib/tunnel/tunnel_server.cpp:361-431 | a registration: an error if the identity cannot be built; otherwise stored exactly inside the window and for 32 bytes, and refused without any further effect else; an acknowledgement names the key the device now holds |
| `Replies.AcceptedExactly` | lib/tunnel/tunnel_server.cpp:260-316 | exactly which signed requests are accepted, initialised or not: it can be initialised, signature good, preimage fits, key importable, and the counter above the floor and below the ceiling, or at most 2^32 - 65 with a working write or no storage |
| `Replies.AnswerExactly` | lib/tunnel/tunnel_server.cpp:300-357 | exactly when the answer to an authentic request is a signed response, a replay rejection naming the floor, or an error, in terms of floor, ceiling, wrap bound, write outcome and sizes |
| `Replies.SignedResponseExactly` | lib/tunnel/tunnel_server.cpp:313-357 | a signed response is sent if and only if the request was accepted in this exchange and its answer can be signed and fits; it parses back to the same counter and payload; accepted requests without one get an error |
| `Replies.OversizedIsSpent` | lib/tunnel/tunnel_server.cpp:336-339 | an authentic request of more than 256 payload bytes, sent to an initialised device, spends its counter and is recorded as accepted although the reply is an error |
| `Replies.Undriven` | lib/tunnel/tunnel_server.cpp:265-291 | on an initialised device one request without a signature good under the registered key moves neither guard nor ceiling |
| `Replies.OnlyAuthenticatedMove` | lib/tunnel/tunnel_server.cpp:159-311 | nor does any run of such requests, presses and other harmless steps, whatever the mix |
| `Replies.UnauthenticatedWriteExactly` | lib/tunnel/tunnel_server.cpp:260-291 | a request without a good signature, initialised device or not, writes a ceiling if and only if it is a well-formed signed request, the device is not initialised, its identity can be built, the settings work and no ceiling is loaded; it then writes 64, and it never accepts anything |
| `Replies.IdentityReplies` | lib/tunnel/tunnel_server.cpp:202-225 | every identity response is a chunk of the cached bundle, names its offset and total truly, and that bundle carries the bound key |
| `Replies.TransferFromDevice` | lib/tunnel/tunnel_server.cpp:189-226 | a client that asks at 0, 400, 800, ... holds exactly the cached bundle after ceil(L / 400) answers, and the device has not changed |
| `Harness.RequestRoundTrip` | measure/harness.py:206-208 | the device parses exactly what the client encoded, whatever follows |
| `Harness.EnvelopeBytes` | measure/harness.py:196-208 | the client's envelopes byte by byte, signature over the request preimage included |
| `Harness.EchoExchange` | measure/harness.py:195-203 | the unsigned control comes back as it was sent, from any device, if and only if it fits |
| `Harness.SignedExchange` | measure/harness.py:205-210 | one exchange of a client with its own device, every foreign call working, for every counter: type 0x03 if and only if the counter is above the floor and below the ceiling or at most 2^32 - 65; the floor is then that counter |
| `Harness.Resynchronises` | lib/tunnel/tunnel_replay.h:38-44 | a client behind the floor reads the floor from the rejection, and its next request, at the floor plus one, is accepted and answered if and only if a counter is left |
| `Harness.Measure` | measure/harness.py:179-224 | the measurement loop: every sample is recorded or counted as an error, and for a client at its own device the recorded signed rows and the final floor are those computed from start, floor and lost replies alone |
| `Harness.SamplesLost` | measure/harness.py:205-218 | with no reply lost, exactly the samples whose counters start at or below the floor are lost, and how many those are |
| `Crc.Fcs` | tools/spinel_probe.py:19-25 | the two nested loops compute the check sequence |
| `Crc.ChecksExactly` | tools/spinel_probe.py:44 | a body longer than two bytes is accepted if and only if the register run over all of it ends at 0xF0B8 (RFC 1662, Appendix C.2) |
| `Crc.MissedExactly` | tools/spinel_probe.py:44 | of all corruptions of an accepted body, exactly those pass whose error pattern leaves a zero register zero |
| `Crc.RunBits` | tools/spinel_probe.py:22-24 | the byte-wise register and the bit-serial one agree on every body |
| `Crc.BurstDetected` | tools/spinel_probe.py:44 | any change confined to 16 consecutive bits of an accepted body of any length is rejected |
| `Crc.TwoBytesDetected` | tools/spinel_probe.py:44 | so is replacing any two adjacent bytes, or one of them |
| `Crc.AcceptedBitsEven` | tools/spinel_probe.py:44 | an accepted body always has an even number of set bits |
| `Crc.OddFlipsDetected` | tools/spinel_probe.py:44 | so an odd number of flipped bits in an accepted body of any length is always rejected |
| `TwoBits.OrderExactly` | tools/spinel_probe.py:19-25 | the register, run on its own from a single one, is back at it exactly after the multiples of 32767 steps |
| `TwoBits.TwoFlipsExactly` | tools/spinel_probe.py:44 | two flipped bits in an accepted body of any length are missed if and only if they lie a multiple of 32767 positions apart, so never in a body of up to 4095 bytes |
| `Framer.Encode` | tools/spinel_probe.py:28-37 | the loop produces flag, stuffed body and check sequence, flag |
| `Framer.Decode` | tools/spinel_probe.py:40-52 | the loop is the fold of the decoder's step over the input |
| `Framer.EncodedExactly` | tools/spinel_probe.py:28-37 | a frame on the line in literal bytes: 0x7E, then payload and check sequence, low byte first, with 7D 5E, 7D 5D, 7D 31, 7D 33 for 0x7E, 0x7D, 0x11, 0x13 and every other byte as itself, then 0x7E (RFC 1662, section 4.2) |
| `Framer.UnescapedExactly` | tools/spinel_probe.py:47-51 | 0x7D flips bit 5 of the byte behind it and disappears; behind any other byte a byte stands for itself |
| `Framer.EscapesUndone` | tools/spinel_probe.py:47-51 | so each of the four pairs gives its byte back |
| `Framer.Resynchronises` | tools/spinel_probe.py:40-52 | after any line noise, whatever escape state it leaves, the decoder returns what the noise closed by a flag gives and then every non-empty payload in order |
| `Framer.RoundTripExactly` | tools/spinel_probe.py:43-46 | a frame alone comes back if and only if its payload is not empty |
| `Framer.Transparent` | tools/spinel_probe.py:31-35 | a stuffed body holds no flag and no flow-control character, and every escape hides a special byte (RFC 1662, section 4.2) |
| `Framer.DecodedExactly` | tools/spinel_probe.py:40-52 | on any input the decoder returns, in order, exactly the payloads of the segments between flags whose unescaped bytes are longer than two and end with the check sequence of the rest |
| `Framer.SegmentsExactly` | tools/spinel_probe.py:43-46 | those segments and what follows the last flag are the input, cut at its flags and nowhere else |
| `Framer.UnescapesStuffed` | tools/spinel_probe.py:31-35 | the unescaping used there inverts byte stuffing (RFC 1662, section 4.2) |
| `Framer.FramesChecked` | tools/spinel_probe.py:44-45 | every frame returned stood between flags in the input, followed there by the check sequence of its own bytes |
| `PackedUint.UnpackUint` | tools/spinel_probe.py:55-62 | the loop computes the base-128 value and moves past it, at least one byte unless at the end |
| `PackedUint.UnpackedExactly` | tools/spinel_probe.py:55-62 | what is read: all bytes up to and including the first below 0x80, or to the end if there is none, and the value of their low seven bits to base 128, least significant first |
| `PackedUint.Caps` | tools/spinel_probe.py:91-93 | the capability loop ends and returns the numbers one after the other |
| `PackedUint.CapsExactly` | tools/spinel_probe.py:91-93 | on any bytes at all the list holds, in order, the values of the numbers that the bytes are cut into, of which only the last may be cut short |
| `PackedUint.CapsRoundTrip` | tools/spinel_probe.py:55-62 | on the concatenated encodings of any list of naturals it returns that list |
| `PackedUint.CapsCount` | tools/spinel_probe.py:91-93 | on any bytes at all it returns one number per terminating byte, and one more if and only if the last byte announces another |

## Left out

- lib/tunnel/tunnel_ble.cpp, the Matter callback adapter and the init callback: transport plumbing over libraries that are not part of this model.
- lib/tunnel/tunnel_crypto.cpp: signing, verification, export and import are outcomes; export is constant for a key, and a signer once ready stays ready.
- X.509 content of the bundle: certificates are arbitrary byte strings or absent, and what the attestation key returns for the bytes it is given is an arbitrary function.
- lib/tunnel/tunnel_bench.cpp, measure/analyse.py, timing, latency and footprint: measurement, not behaviour.
- Log-scraping in `Session.invoke`, the hexadecimal text encoding and the CSV file of measure/harness.py: a request is its bytes, a reply its first byte or silence; round-trip times are not recorded, sample numbers are.
- measure/harness_ble.py: repeats the encoder of measure/harness.py.
- Serial port and printing in tools/spinel_probe.py: only framing, check sequence and integer reading are modelled.
- zap/ data model, shell tools, Kconfig, overlays: configuration.
- The reduced configurations, several clients, and exchanging one genuine unit for another: the repository puts the last two out of scope.
- Log output, the unused `Floor`/`Ceiling` accessors beyond the fields they return, and the button mask test: a press is a press of the right button.
- Uptime is an unbounded natural number of milliseconds; a window deadline of 0 means none, as in the code.
- A settings write that fails leaves the old entry; a write that succeeds is indivisible.
- Error paths that cannot be taken: the second preimage failure of a signed request (the first had the same size and capacity) and that of the acknowledgement (21 + 65 + 32 bytes always fit in 256).
- Output buffers below 5 bytes: rejections are written without a look at the capacity, so callers must provide 5; the ones there are provide 512.
- PackedUint.UnpackUint: the bitwise or of digits that do not overlap is written as their sum, the masks of a byte as remainder and comparison.
- Harness.Measure: the closed form covers counters up to 2^32 - 65, beyond which acceptance also depends on the ceiling; the loop itself is covered for all counters that can be packed.
