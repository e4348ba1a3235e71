# A verified model of the BLUETTI to NUT and Proxmox bridge

The bridge is ESP32 firmware that reads a BLUETTI power station over Bluetooth, publishes it
as a UPS and, in an outage, shuts down Proxmox hosts and guests. This project models the parts
that decide: the shutdown engine and its hand-off to the worker, the Bluetooth session layer,
polling and control writes, register decoding, and three smaller pieces of streaming code.
It proves what they guarantee over every input and every run.

| file | what it holds |
|---|---|
| `PveEngine.dfy` | the shutdown engine: one evaluation in closed form, and class `Engine`, which does it in place |
| `PveRuns.dfy`, `PveLaws.dfy`, `PveExact.dfy` | the engine over whole runs of observations and rule edits; when exactly it fires, releases and counts down |
| `PveWorker.dfy`, `PveWakeUp.dfy`, `PveWait.dfy`, `PveWorkerCode.dfy` | the queue between engine and worker: every interleaving, when work has a worker, how long it waits, and class `ShutdownRuntime` |
| `Bits.dfy`, `Crc.dfy`, `CrcValue.dfy` | exclusive-or on binary digits; CRC-16 of section 2.5.1.2 of the MODBUS over Serial Line guide V1.02, and a check value |
| `Framing.dfy` | cutting a byte stream into frames by a length rule, for any rule |
| `Session.dfy`, `SessionCode.dfy` | the session as functions, and class `BtSession` with its 512-byte buffer |
| `SessionStreams.dfy`, `SessionHandshake.dfy`, `SessionKeys.dfy`, `SessionWire.dfy` | byte streams in each mode and whose answer a response is taken for, reassembly while keys are agreed, whole conversations, every message byte by byte |
| `Regs.dfy`, `RegsPlan.dfy`, `RegsMeaning.dfy`, `Allowed.dfy` | register map and decoding, the polling plan, what the decoded state means, the text form of allowed values |
| `Poller.dfy`, `PollerCode.dfy` | the poll loop, the write queue and the sweep gate as steps, and class `BleLink` |
| `PollerLaws.dfy`, `PollerWrites.dfy`, `PollerExact.dfy`, `PollerWitnesses.dfy` | what the power state rests on, the life of a control write, what exactly is accepted, told and polled, runs that fall short of the documentation |
| `Scanner.dfy`, `LogRing.dfy`, `Notify.dfy`, `Publish.dfy` | release scanner, log ring, alerts, the status string |

The pattern throughout: a class has the fields and loops of the C code, each of its methods is
proved to be one step of a pure model, and the laws are proved of that model over whole runs.
Locks become atomicity: each locked section is one step, and runs interleave steps freely. Clocks,
random numbers, link state and transmission results are parameters of the steps. AES, MD5, ECDH
and ECDSA are uninterpreted functions; the laws used are that decryption undoes encryption and
that the two sides of a Diffie-Hellman exchange compute the same secret (`Session.LawsCanHold`: they ask
nothing impossible).

## Where code and documentation differ

- `components/bluetti_ble/include/bluetti_ble.h:33` says `sweep_done` means every field has been
  read. The code counts requests, not answers. In `PollerWitnesses.LostRepliesLookLikeAnOutage` all
  replies but the charge are lost and BATTERY is reported although AC input power was never read. In
  `PollerWitnesses.IdleUnitLooksLikeAnOutage` a full unit idling on the mains has answered with 0 W,
  only the answer with its line voltage is lost, and BATTERY is reported again.
  `PollerLaws.BackedByReadingIff` gives the exact condition: everything the inference rests on, for
  the model as identified, has been read iff none of the snapshot's own figures for it is unknown;
  and so for every register of the plan whose field can show it. The name, the serial number and the
  runtime cannot: a reading of zeros leaves them as they were (`PollerLaws.ZerosDoNotShow`).
- `components/bluetti_ble/bluetti_ble.c:403-404` says there is never more than one request
  outstanding. After six seconds without an answer the next one is sent all the same, and an answer
  that comes after that is taken for the answer to the newer request
  (`SessionStreams.LateAnswerIsMislabelled`). `SessionStreams.LabelledIff` says exactly when an answer
  is reported under its own address; the readings the laws of `PollerLaws` speak of are the labelled ones.
- `docs/CONFIGURING.md:262` says repeats of an event within a minute are suppressed. The guard
  compares with the state still in force, so it never blocks (`Notify.GuardNeverBlocks`), and a
  flapping supply raises an alert at every flip (`Notify.FlappingIsNotSuppressed`), be it every second
  (`Notify.AlertEverySecond`).
- `components/pve_shutdown/pve_engine.c:176-190` makes a fired node take all its guests along.
  A guest added to an already fired host is not latched (`PveLaws.LateGuestIsLeftBehind`);
  `PveLaws.EditKeepsSweepIff` gives the exact condition on the edit.
- `components/ota_github/ota_github.c:64-67` describes a rolling match that behaves like a search
  of the whole text. On a key doubled without a break a value is missed
  (`Scanner.DoubledKeyIsMissed`); `Scanner.SamePlacesIff` states exactly for which texts the two
  stop at the same places.
- `components/bluetti_ble/include/bluetti_ble.h:129` says one control write is queued at a time;
  the code queues one per control (`PollerWitnesses.TwoWritesWait`). The queue also outlives its
  link: after a reconnect a write can go out before the unit is identified
  (`PollerWitnesses.WriteOutlivesItsLink`), or to a unit of another model without that control
  (`PollerWitnesses.WriteMeetsAnotherUnit`). `PollerWrites.SentBelongsIff` says exactly when.
- `components/bluetti_ble/bt_session.c:581-585` says a frame cannot be mistaken for a plaintext
  key-exchange message. That is true of a frame's beginning, not of a later piece of one: during the
  handshake a piece that begins 2A 2A never reaches the buffer (`SessionHandshake.PieceIsLost`), and
  `SessionHandshake.HandshakeFrameIff` shows the frame is handled iff there is no such piece.
- A stream survives being cut into notifications exactly when none of them meets a tail it does not
  fit behind (`SessionStreams.PlainFragmentationIff`, `SessionStreams.SecureFragmentationIff`).
  Notifications of up to 253 bytes always do; at 254 a frame can be lost
  (`SessionStreams.LongChunkIsDropped`).
- If creating the worker fails, queued work is left without one
  (`PveWakeUp.FailedSpawnStrandsWork`), exactly until the next fire (`PveWakeUp.StrandedIff`).

## Model

| member | source | states |
|---|---|---|
| `PveEngine.LatchedAfterStep` | components/pve_shutdown/pve_engine.c:123-192 | after one evaluation an id is latched iff it was and the mains are not back, or its host was active and the host's trigger or one of the id's own rules is met; duplicates and order of entries do not matter |
| `PveEngine.LatchedAfterSync` | components/pve_shutdown/pve_engine.c:27-61 | after a rule edit an id is latched iff it is still configured and was latched; new ids start unfired |
| `PveEngine.Engine.EvalStep` | components/pve_shutdown/pve_engine.c:86-193 | the in-place evaluation of edges, latches and guests equals the closed form, and the returned set is exactly the hosts whose latch closed |
| `PveEngine.Engine.EvalHost` | components/pve_shutdown/pve_engine.c:126-191 | one host: release, own triggers of guests, host trigger, sweep; nothing of other hosts changes |
| `PveEngine.Engine.SyncGuests` | components/pve_shutdown/pve_engine.c:27-51 | one host's guest states are rebuilt from the new rules, the others stay |
| `PveRuns.OutageIsHistory` | components/pve_shutdown/pve_engine.c:97-120 | in every run the battery edge is set iff a BATTERY reading has had no LINE (and no disabling) since, and its time is that of the first such reading |
| `PveRuns.MainsIsHistory` | components/pve_shutdown/pve_engine.c:105-123 | the mains edge is set iff LINE readings are going on unbroken, and its time is that of the first of them |
| `PveRuns.HostFireJustified` | components/pve_shutdown/pve_engine.c:66-84 | every host fire is on an enabled host, never on LINE, and is justified by time since the outage began or by a live BATTERY reading at or below the limit |
| `PveRuns.GuestFireJustified` | components/pve_shutdown/pve_engine.c:155-190 | the same for guests, by their own rule or their node's trigger, and only configured guests fire |
| `PveExact.HostFiresIff` | components/pve_shutdown/pve_engine.c:66-168 | in every run a host fires exactly when, with feature and host enabled and its latch open, the minutes set have passed since the outage's first BATTERY reading or a BATTERY reading shows a charge from 0 to its limit |
| `PveExact.GuestFiresIff` | components/pve_shutdown/pve_engine.c:123-192 | a guest fires exactly when, on an enabled host not yet fired, one of its rules is so met or the node's own trigger is |
| `PveExact.HostReleasedIff` | components/pve_shutdown/pve_engine.c:122-149 | a host's latch opens exactly when LINE readings have gone on for the minutes set, counted from the first of them |
| `PveExact.GuestReleasedIff` | components/pve_shutdown/pve_engine.c:122-142 | and so does a configured guest's |
| `PveExact.EditReleasesIff` | components/pve_shutdown/pve_engine.c:27-61 | apart from that only taking a guest out of the rules opens its latch |
| `PveRuns.NoReadingNoFire` | components/pve_shutdown/pve_engine.c:112-120 | a run without BATTERY readings fires nothing |
| `PveRuns.HostFiresOnce` | components/pve_shutdown/pve_engine.c:122-149 | between two fires of a host lies an unbroken stretch of LINE readings at least as long as the re-arm time |
| `PveRuns.GuestFiresOnce` | components/pve_shutdown/pve_engine.c:133-190 | the same for a guest that stays configured |
| `PveRuns.NoRearmFiresAtMostOnce` | components/pve_shutdown/pve_engine.c:122-149 | with a re-arm time of zero a host fires at most once in a whole run |
| `PveRuns.NoRearmGuestFiresAtMostOnce` | components/pve_shutdown/pve_engine.c:133-142 | and so does a guest that stays configured |
| `PveLaws.AlwaysInSync` | components/pve_shutdown/pve_engine.c:27-51 | in every reachable state the guest entries are those of the configured rules |
| `PveLaws.ObserveKeepsSweep` | components/pve_shutdown/pve_engine.c:170-190 | no observation leaves a latched host with an unlatched guest where there was none before |
| `PveLaws.EditKeepsSweepIff` | components/pve_shutdown/pve_engine.c:27-51 | a rule edit keeps that iff it adds no guest to a latched host |
| `PveLaws.LateGuestIsLeftBehind` | components/pve_shutdown/pve_engine.c:27-51 | from any start with a host set to go on charge, a run of one observation and one edit that ends with the host fired and a configured guest of it not latched |
| `PveLaws.AlwaysSweptUp` | components/pve_shutdown/pve_engine.c:135-190 | over whole runs with such edits, a latched host has all its guests latched |
| `PveLaws.HostCountdownNotEarly` | components/pve_shutdown/pve_engine.c:195-209 | with n seconds showing, a host fires earlier only by its charge limit |
| `PveLaws.HostCountdownCertain` | components/pve_shutdown/pve_engine.c:195-209 | and has fired at any evaluation n+1 seconds later if no LINE came |
| `PveLaws.GuestCountdownNotEarly` | components/pve_shutdown/pve_engine.c:211-237 | with n seconds showing, a guest fires earlier only by charge or with its node |
| `PveLaws.GuestCountdownCertain` | components/pve_shutdown/pve_engine.c:211-237 | and is latched n+1 seconds later, alone or with its node |
| `PveExact.HostCountdownIff` | components/pve_shutdown/pve_engine.c:195-209 | a countdown shows exactly while a timer of the host's own is running, and is the whole seconds from now to the outage's first reading plus the minutes set |
| `PveExact.GuestCountdownIff` | components/pve_shutdown/pve_engine.c:211-237 | the same for a guest, by the first rule it has |
| `PveLaws.HostsDoNotInterfere` | components/pve_shutdown/pve_engine.c:126-192 | two runs that differ only in other hosts' settings and guests agree on this host at every step |
| `PveLaws.DominantGoesFirst` | components/pve_shutdown/pve_engine.c:122-192 | if one host's triggers dominate another's, the second is never latched without the first |
| `PveLaws.OrderDoesNotMatter` | components/pve_shutdown/pve_engine.c:27-61 | two runs whose rule lists hold the same rules in different order latch the same ids for ever |
| `PveWorker.ActKeepsInv` | components/pve_shutdown/pve_shutdown.c:537-596 | every locked step keeps the books: fired = handed + queued, per host and in order; a node pending iff owed; at most one worker |
| `PveWorker.HandedExactlyOnce` | components/pve_shutdown/pve_shutdown.c:745-804 | over every interleaving each guest fire is handed over exactly once and in order, or is still queued; a node is pending iff its last fire awaits a hand-off |
| `PveWakeUp.NoLostWakeUp` | components/pve_shutdown/pve_shutdown.c:782-804 | never two workers; as long as creating one succeeds, all pending work has one |
| `PveWakeUp.StrandedIff` | components/pve_shutdown/pve_shutdown.c:782-804 | in every interleaving, pending work has no worker iff creating one failed and nothing has fired since |
| `PveWakeUp.FiringRecovers` | components/pve_shutdown/pve_shutdown.c:783-789 | the next fire brings a worker again |
| `PveWakeUp.FailedSpawnStrandsWork` | components/pve_shutdown/pve_shutdown.c:798-803 | from any start with a host set to go on charge, a run that ends with its node, and its guests if any, pending and no worker |
| `PveWakeUp.NodeGoesWithItsGuests` | components/pve_shutdown/pve_shutdown.c:498-531 | whatever comes in between, the first time a fired host is served its node is handed over with every guest the same fire swept, and the node is asked to go after each of them |
| `PveWait.NodeIsServed` | components/pve_shutdown/pve_shutdown.c:551-590 | in every interleaving a pending node is handed over once the worker has made more passes than there were nodes pending below it and fires of those since |
| `PveWait.GuestsAreServed` | components/pve_shutdown/pve_shutdown.c:551-590 | a host with queued guests is served once the worker has made more passes than there were pending nodes and queue entries ahead, and node fires since; guests that fire later never delay it |
| `PveWorker.NodeNeverBeforeItsGuests` | components/pve_shutdown/pve_shutdown.c:551-590 | at each hand-off every guest its host had fired has been handed over, and the node goes along iff it was owed |
| `PveWorkerCode.RunHost` | components/pve_shutdown/pve_shutdown.c:461-531 | the loops issue the requests of one hand-off in order: any real request implies armed, enabled, with address and certificate, any report a dry run; all guests of the batch, then the node if due (and, when armed, wanted) |
| `PveWorker.RequestsAre` | components/pve_shutdown/pve_shutdown.c:461-531 | really shut down are, if armed and trusted, exactly the batch in order and then the node if due and wanted; a dry run only reports exactly the batch and the node if due |
| `PveWorkerCode.ShutdownRuntime.Observe` | components/pve_shutdown/pve_shutdown.c:745-804 | evaluation, queueing and the wake-up decision are the model's observe step |
| `PveWorkerCode.ShutdownRuntime.Reconfigure` | components/pve_shutdown/pve_shutdown.c:726-743 | settings and guest states change as the model's reconfigure step |
| `PveWorkerCode.ShutdownRuntime.TakeWork` | components/pve_shutdown/pve_shutdown.c:547-590 | one locked pass takes the next host, its node flag and all its guests |
| `PveWorkerCode.ShutdownRuntime.Compact` | components/pve_shutdown/pve_shutdown.c:572-589 | one host's entries leave the queue in order, the others keep theirs |
| `PveWorkerCode.ShutdownRuntime.WorkerTask` | components/pve_shutdown/pve_shutdown.c:537-596 | left alone the worker ends with nothing pending and everything fired handed over, and asks each host that can be asked about exactly the guests that were queued for it, in order |
| `Crc.ComputeCrc` | components/bluetti_ble/bt_crypto.c:54-64 | the nested loop computes the fold the laws below are about |
| `Crc.AcceptedIffZero` | components/bluetti_ble/bt_session.c:406-415 | a frame passes iff the CRC over data and trailer is zero |
| `Crc.BuiltIsAccepted` | components/bluetti_ble/bt_session.c:471-480 | whatever is sent with its CRC appended passes |
| `Crc.BurstsAreCaught` | components/bluetti_ble/bt_crypto.c:54-64 | no two accepted frames of one length differ only within sixteen consecutive bits, at any offset |
| `Crc.AcceptedIsEven` | components/bluetti_ble/bt_crypto.c:54-64 | an accepted frame has even parity, so an odd number of flipped bits is caught |
| `CrcValue.ShiftIs` | components/bluetti_ble/bt_crypto.c:54-64 | one shift of the register as arithmetic: an odd one turns over digits 0, 13 and 15 |
| `CrcValue.CheckValue` | components/bluetti_ble/bt_crypto.c:54-64 | 02 07 has the CRC 1241, the example of section 6.2.2 of that guide |
| `Framing.ParseResumes` | components/bluetti_ble/bt_session.c:548-574 | parsing a part, then its residue with the rest, gives the frames of the whole |
| `Framing.ParseConserves` | components/bluetti_ble/bt_session.c:548-574 | frames and residue together are the input |
| `Framing.FragmentationIff` | components/bluetti_ble/bt_session.c:548-574 | for any stable length rule, the chunks give the frames and tail of the whole stream iff the buffer never overflows |
| `Framing.WholeFrames` | components/bluetti_ble/bt_session.c:588-631 | a concatenation of whole frames parses back into exactly them |
| `SessionStreams.PlainFragmentationIff` | components/bluetti_ble/bt_session.c:548-574 | between two requests, the frames dispatched and the bytes kept are those of the whole stream iff no notification meets a tail it does not fit behind |
| `SessionStreams.PlainFragmentation` | components/bluetti_ble/bt_session.c:548-574 | between two requests, chunks of up to 253 bytes dispatch exactly the frames of the whole stream, leave its tail, at most 259 bytes, and nothing is dropped |
| `SessionStreams.LongChunkIsDropped` | components/bluetti_ble/bt_session.c:549-552 | at 254 bytes a frame can be lost |
| `SessionStreams.UnwrapUndoesWrap` | components/bluetti_ble/bt_session.c:141-224 | unwrapping a wrapped frame gives the plaintext, its length is found, and it does not look like a key-exchange frame |
| `SessionStreams.SecureFragmentationIff` | components/bluetti_ble/bt_session.c:588-631 | over the encrypted link, exactly the plaintexts of the stream's frames are dispatched, in order, and its tail kept, iff the buffer never overflows |
| `SessionStreams.SecureRoundTrip` | components/bluetti_ble/bt_session.c:588-631 | frames wrapped under the session key arrive as sent iff the buffer never overflows |
| `SessionStreams.ShortFramesFit` | components/bluetti_ble/bt_session.c:598-604 | with frames and notifications of at most 256 bytes it never does |
| `SessionStreams.ReadAnswered` | components/bluetti_ble/bt_session.c:417-500 | a register request and its answer, however cut, end in one callback with the address asked for and the data |
| `SessionStreams.SecureReadAnswered` | components/bluetti_ble/bt_session.c:417-500 | the same through encryption |
| `SessionStreams.LabelledIff` | components/bluetti_ble/bluetti_ble.c:403-433 | over any run of requests and answers, late, repeated or missing, in plain or encrypted mode, an answer is reported under its own address iff the request last sent has that address; with other addresses in between, iff no request has been sent since its own |
| `SessionStreams.LateAnswerIsMislabelled` | components/bluetti_ble/bluetti_ble.c:406-433 | two requests in a row, then the answer to the first: its data come out under the second address |
| `SessionStreams.ResponseIsHeard` | components/bluetti_ble/bt_session.c:417-464 | a well-formed read response frames to its own length and dispatches its data |
| `SessionStreams.EchoIsHeard` | components/bluetti_ble/bt_session.c:417-464 | the echo of a write dispatches as its acknowledgement |
| `SessionWire.ValuesIff` | components/bluetti_ble/bt_session.c:417-464 | for any frame, data are called back exactly if it is a read response, complete, with a CRC that holds; then under the pending address, and exactly its data |
| `SessionWire.AckIff` | components/bluetti_ble/bt_session.c:417-447 | a write is confirmed exactly by an echo of eight bytes whose CRC holds, with the echo's own address and value; a broken echo or a refusal says it failed; never more than one callback |
| `SessionWire.ExceptionIsHeard` | components/bluetti_ble/bt_session.c:417-464 | an exception is framed to five bytes, and only that of a write is called back, as a failure |
| `SessionWire.AlteredIsNotHeard` | components/bluetti_ble/bt_session.c:406-464 | a response altered within sixteen consecutive bits behind its byte count calls nothing back, in either mode and however cut |
| `SessionWire.RequestGoesOut` | components/bluetti_ble/bt_session.c:466-538 | a ready session sends exactly one frame, which the unit reads as address 1, the function asked for, register and value high byte first, CRC zero; an unready one does nothing |
| `SessionWire.WriteIsConfirmed` | components/bluetti_ble/bt_session.c:417-538 | the unit's echo of the write just sent, however cut and in either mode, ends in one acknowledgement of that register and value |
| `SessionWire.WrappedIs` | components/bluetti_ble/bt_session.c:141-190 | a frame under the session key is two bytes of length, the four bytes the IV is the digest of, and the text, filled up with zeros to sixteens, encrypted |
| `SessionKeys.AlwaysOneMode` | components/bluetti_ble/bt_session.c:540-686 | in no run of calls from a new session, with any bytes, is it both plain and secured, or the buffer filled beyond its size |
| `SessionKeys.KeyIsKept` | components/bluetti_ble/bt_session.c:264-350 | in every run the ephemeral key, once chosen, stays until the next reset |
| `SessionKeys.UnitReadsOurKey` | components/bluetti_ble/bt_session.c:290-350 | a reply, read as the unit reads it, yields our public key |
| `SessionKeys.KeyAgreement` | components/bluetti_ble/bt_session.c:264-367 | in every run of calls, every key reply since the last reset tells the unit the same key, and the secret it derives from any of them is our session key |
| `SessionWire.KeyIsVouchedFor` | components/bluetti_ble/bt_session.c:264-368 | in every run, whatever arrives, a session key is the secret shared with the holder of a key whose signature has been found good |
| `SessionWire.ChallengeIsAnswered` | components/bluetti_ble/bt_session.c:232-262 | what a challenge makes of the session, byte by byte: the handshake key, and a reply of four bytes of the digest with their sum |
| `SessionWire.KeyIsTakenIff` | components/bluetti_ble/bt_session.c:264-350 | a key is taken iff its signature together with the digest holds; one already answered is answered from the cache; otherwise the session fails |
| `SessionWire.ReplyIs` | components/bluetti_ble/bt_session.c:290-350 | the reply decrypts to our public key and our signature of it with the digest |
| `SessionWire.AcceptanceIs` | components/bluetti_ble/bt_session.c:352-368 | acceptance with code 0 gives the shared secret as session key; anything else fails the session |
| `SessionWire.WrongLengthFails` | components/bluetti_ble/bt_session.c:232-404 | messages of a wrong length fail the session |
| `SessionWire.OthersAreIgnored` | components/bluetti_ble/bt_session.c:370-404 | messages with a wrong sum or of another kind change nothing |
| `SessionWire.OutOfPlace` | components/bluetti_ble/bt_session.c:540-604 | before a challenge other bytes are ignored; what does not fit empties the buffer |
| `SessionWire.ResetForgets` | components/bluetti_ble/bt_session.c:660-675 | a reset session is a new one but for the pending address, the last digest and the last peer key |
| `SessionHandshake.StreamIsWhole` | components/bluetti_ble/bt_session.c:575-632 | in any phase, through the switch to the session key, a stream whose notifications all enter the buffer is handled as one whole |
| `SessionHandshake.HandshakeFrameIff` | components/bluetti_ble/bt_session.c:576-604 | a handshake frame, cut anywhere, is handled if no later piece begins 2A 2A, and only then; the one exception are malformed messages, which lead nowhere, behind a first piece of one byte |
| `SessionHandshake.PieceIsLost` | components/bluetti_ble/bt_session.c:581-585 | a frame of 18 bytes that is handled in one piece and not when its two length bytes come first |
| `SessionHandshake.HandshakeReachesTheSecret` | components/bluetti_ble/bt_session.c:232-368 | from a new session, the unit's challenge, signed key and acceptance, cut up, leave the session ready under the secret the unit derives |
| `SessionCode.BtSession.constructor` | components/bluetti_ble/bt_session.c:636-649 | a new session is the model's initial one |
| `SessionCode.BtSession.ResetSession` | components/bluetti_ble/bt_session.c:660-675 | reset clears keys, mode and buffer as the model does |
| `SessionCode.BtSession.UsePlainModbus` | components/bluetti_ble/bt_session.c:677-686 | the fallback to plain happens only from idle |
| `SessionCode.BtSession.HandleChallenge` | components/bluetti_ble/bt_session.c:232-262 | the challenge derives the handshake key and is answered |
| `SessionCode.BtSession.HandlePeerPubkey` | components/bluetti_ble/bt_session.c:264-350 | a repeated request is answered from the cached reply, a first one with a fresh key |
| `SessionCode.BtSession.HandlePubkeyAccepted` | components/bluetti_ble/bt_session.c:352-368 | acceptance derives the session key or fails the session |
| `SessionCode.BtSession.HandleKexFrame` | components/bluetti_ble/bt_session.c:370-404 | dispatch of key-exchange messages with their checksum and length checks |
| `SessionCode.BtSession.SendCommand` | components/bluetti_ble/bt_session.c:466-538 | a request starts from an empty buffer, remembers its address, and goes out plain or wrapped |
| `SessionCode.BtSession.Respond` | components/bluetti_ble/bt_session.c:417-464 | which callback a frame leads to |
| `SessionCode.BtSession.FeedData` | components/bluetti_ble/bt_session.c:540-632 | feeding bytes into the 512-byte buffer, cutting frames and moving the rest down is the model's feed step, and the callbacks made are those of the frames seen |
| `Regs.Lookup` | components/bluetti_ble/bt_regs.c:66-88 | finds a model iff some name plus digits matches |
| `Regs.OneModelAtMost` | components/bluetti_ble/bt_regs.c:77-79 | no name matches two models |
| `RegsMeaning.IdentifyIff` | components/bluetti_ble/bt_regs.c:66-88 | a unit is of a model iff its name is the model's with digits or nothing behind, and of no known model iff that holds for none |
| `Regs.Plan` | components/bluetti_ble/bt_regs.c:90-145 | the plan built in loops, never cut short by the array |
| `RegsPlan.PlanIsExact` | components/bluetti_ble/bt_regs.c:90-145 | a register is polled iff decoding for the model depends on it (two responses differing there alone can lead to different states) and, with controls off, it is no control's other than the charge range's |
| `RegsPlan.UnpolledHasNoUse` | components/bluetti_ble/bt_regs.c:309-448 | a response without any polled register changes no reading |
| `Regs.Recompute` | components/bluetti_ble/bt_regs.c:273-307 | recomputing in place gives the one function of all readings |
| `Regs.Apply` | components/bluetti_ble/bt_regs.c:309-455 | decoding one response keeps the derived state equal to that function, and counts a match iff something usable was in it |
| `Regs.SwapString` | components/bluetti_ble/bt_regs.c:252-270 | text words low byte first, up to the first missing register, trimmed |
| `Regs.IncrementalIsBatch` | components/bluetti_ble/bt_regs.c:273-455 | after any responses from reset, derived state is the function of readings and power readings are the latest reports |
| `RegsMeaning.DerivedIsLatest` | components/bluetti_ble/bt_regs.c:273-307 | from reset, totals are the sums of the last reports, battery flow is what goes out beyond what comes in, and charging is below full charge and gaining, or some input while a total is unknown |
| `Regs.TelemetryIsLatest` | components/bluetti_ble/bt_regs.c:323-404 | every other reading, name and serial number included, is the latest report of its own registers, scaled as the model has it |
| `RegsMeaning.RuntimeIs` | components/bluetti_ble/bt_regs.c:353-362 | the runtime is the last report in minutes, times six on some models, unknown if that is none |
| `RegsMeaning.VoltageIs` | components/bluetti_ble/bt_regs.c:382-403 | volts and amperes are tenths of the last report, the line voltage whole volts on some models |
| `RegsMeaning.SerialIs` | components/bluetti_ble/bt_regs.c:363-381 | the serial number is four words, least significant first; zero is none |
| `RegsMeaning.TrimIs` | components/bluetti_ble/bt_regs.c:267-269 | trimming takes off the spaces at the end and nothing else |
| `RegsMeaning.NameReadsBack` | components/bluetti_ble/bt_regs.c:249-270 | any name of up to twelve characters, in the unit's own encoding, is read back less the spaces at its end |
| `RegsMeaning.HitsIff` | components/bluetti_ble/bt_regs.c:309-455 | a response counts iff it holds a value the model takes, a name, a runtime or a serial number |
| `RegsMeaning.ValidIff` | components/bluetti_ble/bt_regs.c:309-455 | the state is valid iff some response counted, and the capacity is the model's after the first |
| `Regs.MainsPresentIff` | components/bluetti_ble/bt_regs.c:288-291 | mains present iff the last word on input power or on line voltage was above zero |
| `Regs.ResponsesCommute` | components/bluetti_ble/bt_regs.c:309-455 | responses about different registers commute |
| `Regs.ControlIsLatest` | components/bluetti_ble/bt_regs.c:406-448 | a control shows the latest value it can take, or stays unknown |
| `RegsMeaning.SettingsAreLatest` | components/bluetti_ble/bt_regs.c:406-448 | each of the eleven fields is the latest acceptable report of its own register |
| `Regs.ShownIsWriteable` | components/bluetti_ble/bt_regs.c:193-234 | a control's current value is unknown or valid for it |
| `Allowed.ParseInts` | components/bluetti_ble/bt_regs.c:167-178 | the first n runs of digits of the text, as numbers |
| `Allowed.ListReadsBack` | components/bluetti_ble/bt_regs.c:167-178 | any list of numbers written with commas parses back to itself |
| `Allowed.TableReadsAsListed` | components/bluetti_ble/bt_regs.c:151-163 | the texts of the table list the values the model uses |
| `Allowed.Validate` | components/bluetti_ble/bt_regs.c:193-212 | a value is valid iff it is a switch position, within the range, or listed |
| `Poller.QueueFits` | components/bluetti_ble/bluetti_ble.c:109-115 | distinct registers from the table fill at most eleven of sixteen slots |
| `Poller.StepKeepsInv` | components/bluetti_ble/bluetti_ble.c:349-477 | every step keeps cursor and counter together, derived state consistent, and the queue distinct and valid |
| `Poller.SweepDoneIff` | components/bluetti_ble/bluetti_ble.c:380-381 | in every snapshot, for any interleaving, the flag holds iff there is a plan and each entry was selected since the last rebuild |
| `PollerExact.RoundRobin` | components/bluetti_ble/bluetti_ble.c:464-486 | while a plan stands, each tick that finds no write goes on to its next read, round and round |
| `PollerExact.SweepTakes` | components/bluetti_ble/bluetti_ble.c:349-486 | a sweep is over with the first reply after as many such ticks as the plan has reads |
| `PollerExact.FirstPlan` | components/bluetti_ble/bluetti_ble.c:511-517 | on subscription exactly what decoding depends on for a unit of no known model is polled |
| `PollerLaws.SweepAsksEverything` | components/bluetti_ble/bluetti_ble.c:357-380 | a finished sweep has asked for a register iff decoding for the identified model depends on it, the settings excepted when controls are off |
| `PollerLaws.MainsIsReported` | components/bluetti_ble/bluetti_ble.c:349-390 | across reconnects and identification, mains present iff the last reports since connecting say so |
| `PollerLaws.BatteryIff` | main/main.c:216-224 | the engine is told BATTERY iff the sweep is complete and the last reports of input power and line voltage were not positive |
| `PollerExact.ToldIs` | main/main.c:216-224 | the engine is told nothing before the sweep is complete, after it LINE or BATTERY by the last reports, and the last charge reported that is a percentage |
| `PollerLaws.BatteryMeansInputAsked` | main/main.c:216-224 | AC input power has been asked for before any BATTERY |
| `PollerWitnesses.LostRepliesLookLikeAnOutage` | components/bluetti_ble/include/bluetti_ble.h:32-41 | a run where BATTERY is reported though input power was never read |
| `PollerWitnesses.IdleUnitLooksLikeAnOutage` | main/main.c:207-215 | a run where input power was read as zero, the line voltage never, and BATTERY is reported |
| `PollerLaws.BackedByReadingIff` | components/bluetti_ble/include/bluetti_ble.h:32-41 | in every reachable state, all registers of the plan whose field can show it have been read on this link, with a value the model takes, iff none of those fields is unknown; and in particular those mains presence is inferred from |
| `PollerLaws.KnownIffRead` | components/bluetti_ble/bt_regs.c:309-448 | register by register, over reconnects and identification: a field is known iff some reply since connecting held a value the model then known takes |
| `PollerLaws.ZerosDoNotShow` | components/bluetti_ble/bt_regs.c:323-404 | name, serial number and runtime read as zeros look the same as never read, on any model |
| `PollerLaws.BackedBatteryIsReported` | main/main.c:207-224 | with those known, BATTERY is told iff the sweep is complete and the last labelled reports were no input power and, on a model that has it, no line voltage |
| `PollerWrites.QueueIsHistory` | components/bluetti_ble/bluetti_ble.c:1039-1057 | a register holds a slot iff an accepted write is neither sent nor dropped, and the slot has the newest value |
| `PollerExact.AdmittedIff` | components/bluetti_ble/bluetti_ble.c:1015-1060 | a write is accepted iff the link is ready, controls were last switched on, and the control is one of the identified unit's, takes the value and has been read back since connecting |
| `PollerExact.QueuedAsAsked` | components/bluetti_ble/bluetti_ble.c:1039-1057 | and what is then queued is the value asked for, for that control's register |
| `PollerWrites.SentIsNewestAndValid` | components/bluetti_ble/bluetti_ble.c:437-462 | every write sent is the newest accepted, valid for its control, and sent only with controls on |
| `PollerWrites.NoOvertaking` | components/bluetti_ble/bluetti_ble.c:437-462 | a register queued later is never sent first |
| `PollerWrites.NeverFull` | components/bluetti_ble/bluetti_ble.c:1047-1052 | the queue-full refusal is unreachable |
| `PollerWrites.BoundedWait` | components/bluetti_ble/bluetti_ble.c:437-462 | a write at place k has gone out, or was dropped, once k + 1 writes have been sent |
| `PollerExact.GoneByThen` | components/bluetti_ble/bluetti_ble.c:409-462 | counted in ticks on a ready link: the write at place k is gone by the k + 1-th |
| `PollerWrites.SentBelongsIff` | components/bluetti_ble/bluetti_ble.c:683-697 | a write goes out to a unit not identified iff the link went or came since it was accepted and nothing has named the unit; it is to a control of the unit as identified iff still on its own link, or the model named on the present one has that control too |
| `PollerWitnesses.TwoWritesWait` | components/bluetti_ble/include/bluetti_ble.h:125-131 | a run with two writes waiting at once |
| `PollerWitnesses.WriteOutlivesItsLink` | components/bluetti_ble/bluetti_ble.c:683-697 | a run where a write goes out before the unit of a new link is identified |
| `PollerWitnesses.WriteMeetsAnotherUnit` | components/bluetti_ble/bluetti_ble.c:683-697 | a run where it goes out to a unit that has named itself and lacks the control |
| `PollerLaws.NoShutdownWithoutSweep` | main/main.c:216-224 | behind any host or guest fire is a BATTERY reading, taken after a full sweep of requests with no mains reported, which is the one acted on or the one that began the outage still going on |
| `PollerCode.BleLink.PollTick` | components/bluetti_ble/bluetti_ble.c:409-486 | one tick sends the oldest write, else the next read, and moves the cursor as the model does |
| `PollerCode.BleLink.SessionRegs` | components/bluetti_ble/bluetti_ble.c:349-390 | a reply is decoded, identifies the unit once, rebuilds the plan and calls back iff usable |
| `PollerCode.BleLink.SwitchControls` | components/bluetti_ble/bluetti_ble.c:951-965 | toggling controls rebuilds the plan and drops queued writes when off |
| `PollerCode.BleLink.WriteField` | components/bluetti_ble/bluetti_ble.c:1015-1060 | a write is accepted iff known, valid, enabled, ready, on this model and read back before; it replaces or appends |
| `PollerCode.BleLink.Shift` | components/bluetti_ble/bluetti_ble.c:444-451 | the oldest write is taken and the others move up |
| `PollerCode.BleLink.OnConnect` | components/bluetti_ble/bluetti_ble.c:683-697 | connecting forgets plan, state and model |
| `PollerCode.BleLink.OnSubscribe` | components/bluetti_ble/bluetti_ble.c:511-517 | subscribing polls what every unit has |
| `Scanner.DoneIffSeen` | components/ota_github/ota_github.c:102-112 | the rolling match completes iff an occurrence preceded by an even chain of nine-character blocks has ended |
| `Scanner.ScanIsExtract` | components/ota_github/ota_github.c:79-113 | the scanner gathers the first values of the extraction by those occurrences |
| `Scanner.ValuesAreReal` | components/ota_github/ota_github.c:79-113 | every value is what stands between an occurrence of the literal and the next quote, cut to 15 characters and without a leading v |
| `Scanner.FirstTagThenRest` | components/ota_github/ota_github.c:79-113 | the scanner takes the value behind the first occurrence in sight, as long as there is room, and goes on behind its closing quote as on a text of its own |
| `Scanner.SamePlacesIff` | components/ota_github/ota_github.c:102-112 | scanner and plain search stop at the same places iff all those chains are even |
| `Scanner.EvenChainsSuffice` | components/ota_github/ota_github.c:79-113 | then the scanner gathers exactly the first values of the plain search |
| `Scanner.ScannerIsPlainSearch` | components/ota_github/ota_github.c:79-113 | on text where the quoted key is never followed by `t` the scanner is a plain search |
| `Scanner.DoubledKeyIsMissed` | components/ota_github/ota_github.c:109-112 | a text from which the plain search extracts a value and the scanner none |
| `Scanner.ScanState.ScanByte` | components/ota_github/ota_github.c:79-113 | one character moves matcher, capture buffer and results as the model does |
| `Scanner.Check` | components/ota_github/ota_github.c:156-168 | the result does not depend on how the response is cut, nor on stopping early |
| `LogRing.Ring.Write` | components/provisioning/log_ring.c:20-41 | the two copies append the line, or its tail, to the history |
| `LogRing.Ring.Read` | components/provisioning/log_ring.c:91-119 | a read returns exactly the last bytes of the history up to the head, across the wrap |
| `LogRing.LastOnes` | components/provisioning/log_ring.c:91-119 | a read gives the newest bytes: all since the position asked for, or as many as there is room for or the ring holds |
| `LogRing.ExactIffAllFit` | components/provisioning/log_ring.c:91-119 | a reader's pieces join to the exact history iff every poll found no more than the ring and its buffer hold |
| `Notify.StateIsHistory` | components/notify/notify.c:239-248 | the state is the last observation taken, and the last event is still in force |
| `Notify.GuardNeverBlocks` | components/notify/notify.c:239-248 | the one-minute guard lets every change through |
| `Notify.MainsAlertsAreEdges` | components/notify/notify.c:285-324 | mains alerts are exactly the LINE/BATTERY changes between observations taken, under any settings |
| `Notify.LinkAlertsAreEdges` | components/notify/notify.c:285-324 | contact alerts are exactly the changes to and from OFF |
| `Notify.LowAlertIsEdge` | components/notify/notify.c:326-341 | the low-battery alert is the rising edge of LB |
| `Notify.FineIsEdge` | components/notify/notify.c:339-341 | the all-clear comes with the mains, on the first observation without LB after one with it |
| `Notify.FlappingIsNotSuppressed` | docs/CONFIGURING.md:262-264 | each flip of a flapping supply raises its alert, whatever the clock |
| `Notify.AlertEverySecond` | docs/CONFIGURING.md:262-264 | mains that come and go every second raise an alert every second |
| `Notify.AtMostTenReminders` | components/notify/notify.c:352-373 | within a stretch on battery the reminders' deciles strictly fall, at most ten |
| `Notify.RemindedIff` | components/notify/notify.c:349-373 | a reminder is raised iff the tens of the charge are below those of every earlier observation of the stretch on battery that counts, and there has been one |
| `Notify.Notifier.UpsStatus` | components/notify/notify.c:250-374 | one call changes the state and raises messages as the model does |
| `Notify.Compose` | main/main.c:226-248 | the status is one of six texts, reads back as the power state it was made from, and has LB iff low on battery |
| `Notify.OtherWords` | components/notify/notify.c:262-279 | waiting is no observation, and OFF is the loss of contact |
| `Publish.Publish` | main/main.c:216-254 | engine and alerts are told the same about the mains; before the sweep both are told nothing; LB iff off the mains and the charge, or the runtime in seconds, is at or below its limit; the charge goes along |

## Left out

- TLS, HTTP, Telegram and Proxmox requests, certificates, JSON, retries: network clients over libraries.
- AES, MD5, SHA-256, ECDH and ECDSA: uninterpreted, with the laws named above; a call that fails for reasons other than a bad signature or ECDH is not modelled, and acceptance before any key was made counts as a failed ECDH.
- Allocation failure: a dropped guest after a failed `realloc` is not modelled; sequences grow without limit.
- Reason, log and message texts; the timestamp of a snapshot.
- 64-bit overflow of clocks and of the log ring's head, and 32-bit overflow in `parse_ints`; numbers are unbounded.
- NimBLE discovery, GATT callbacks, scan lists, timers, request timeouts and the unlocked flags around them: a tick either passes or does not.
- A read or write that fails to be sent after it was selected: the code counts it as selected, and so does the model.
- SessionKeys.KeyAgreement: takes the unit's key after its challenge, as units send it; key exchanges out of that order are not covered.
- SessionHandshake.HandshakeFrameIff: behind a first piece of one byte, a key-exchange message of 42 or 298 bytes may lose its second piece unnoticed; no unit sends one, and it leads nowhere (`MalformedLeadsNowhere`).
- SessionStreams.LabelledIff: takes each answer as coming in whole between two requests; a request empties the buffer.
- SessionHandshake.StreamIsWhole: takes the same random draws and transmission results for every notification of the stream.
- PollerLaws.SweepAsksEverything: takes subscription before identification, as the connection events do.
- PveLaws.GuestCountdownNotEarly: takes distinct guest ids within a host, since the countdown shows only the first rule of an id.
- PveWorkerCode.ShutdownRuntime.TakeWork: the hand-off is logged at the locked take; the requests made outside the lock follow it in `RunHost`'s order.
- PveWorkerCode.ShutdownRuntime.WorkerTask: the worker is shown draining alone; interleaved runs are covered by the step laws.
- Allowed.ParseInts: takes digits and commas only, the texts of the table; on another character the C loop would not advance.
- LogRing.Ring.Read: returns the bytes as a sequence instead of filling the caller's buffer; the two copies stay.
- Regs.Apply: watts are integers and volts and amperes exact reals, not floats; records are returned instead of filled in place.
- Scanner.Check: takes text without NUL characters, which would end a C string early; version comparison and the `newer` flag are not modelled.
- ANSI stripping before a log line reaches the ring.
- The NUT server, stored configuration, provisioning pages, LED, Wi-Fi and flashing of updates: string tables, I/O and small retry logic.
- The periodic self-test and the status pages of the Proxmox integration.
