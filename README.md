# p2p-share-files: a verified model of the signalling and transfer core

p2p-share-files lets people send a file directly from one browser (or the command-line
client) to others over WebRTC. A Cloudflare Worker serves the pages and creates rooms. A
Durable Object per room relays signalling messages between the sender (the *offerer*) and
the receivers (the *answerers*). The file itself travels over a WebRTC data channel: first
a JSON `meta` frame, then binary chunks, then `done`. An encrypted room carries an AES-GCM
key in the link's fragment (`#k=`, URL-safe base64), and each chunk frame is prefixed with
its 12-byte IV.

This project models that core in Dafny and proves what it promises. Modules follow the
program:

- `RoomQueue`, `RoomRules`, `DurableRoom` (room.dfy): the multi-receiver room Durable
  Object of the current server.
  - It normalises and stores the room config.
  - It picks roles and supersedes duplicate client ids.
  - It promotes waiting answerers oldest-first up to `maxConcurrent`.
  - It handles `transfer-done` and relays `offer`/`answer`/`candidate` by `to`.
  - It resets answerers when the offerer leaves.

  `RoomRules` states each transition as a function on the connection records and proves
  the room's guarantees (`WellFormed`, `Settled`) survive it. `DurableRoom.Room` performs
  the same transitions in place and is proved to match.
- `LegacyRoom`: the earlier two-party room (at most two sockets, verbatim relay).
- `Worker`: room-id generation, `POST /api/rooms` and the `/ws/:roomId` upgrade gate.
- `CliSignal`, `CliTransfer`, `CliEndpoint`: the Rust command-line client's
  - per-peer session ids and the pending-candidate queue;
  - `send_file` framing and receive-progress bookkeeping;
  - endpoint URL mapping.
- `BrowserSignal`, `BrowserTransfer`, `Framing`: the browser page's
  - signalling state (offer gating, the candidate queue and its interleaving with the flush);
  - chunked sending with back-pressure;
  - the `iv || ciphertext` frame layout;
  - the receive path, including decryptions still outstanding when later frames arrive.
- `Base64`, `Home`: base64 and base64url per sections 4 and 5 of RFC 4648, and the home page
  (join-code normalisation, room links carrying the key, the busy state).

Randomness (`getRandomValues`, `randomUUID`) and clocks (`Date.now`) become parameters.
AES-GCM is an abstract key, `seal`/`open`, together with the one property the framing
relies on: opening with the same IV gives the plaintext back. WebSocket sends are appended
to an outbox, and data-channel sends to a frame list.

Where the design notes and the code disagree, the model follows the code:

- A `/config` POST overwrites the room's config at any time; it is not first-writer-wins.
- When the offerer closes, every answerer goes back to `waiting`, including those already
  `done`.
- The browser pages shown speak the two-party protocol (no `to`/`sid`).

## Model

| member | source | states |
|---|---|---|
| RoomRules.NormalizeMax | dist-worker/share_files/index.js:3617-3618 | the stored cap is at least 1. A missing or non-finite value gives 3. A finite value at least 1 is floored; anything below 1 gives 1 |
| RoomRules.NormalizeConfig | dist-worker/share_files/index.js:3617-3620 | the stored config has a cap of at least 1 that re-normalising leaves unchanged, and the creator as posted |
| RoomRules.NormalizeMaxIdempotent | dist-worker/share_files/index.js:3963-3974 | re-posting an already normalised cap (as `/api/rooms` does to `/config`) stores the same cap |
| RoomRules.EnsuredConfig | dist-worker/share_files/index.js:3703-3712 | a loaded config is kept. Otherwise the stored one is taken if its cap is truthy. Otherwise the default `{maxConcurrent: 3}` |
| RoomRules.Creator | dist-worker/share_files/index.js:3719-3720 | a creator is only taken into account when it is a non-empty string |
| RoomRules.RoleFor | dist-worker/share_files/index.js:3718-3726 | with a creator configured, offerer iff the cid is the creator's. Without one, offerer iff no live connection holds the offerer role |
| RoomRules.Joiner | dist-worker/share_files/index.js:3640-3645 | the new record carries the cid, role and join time. It is `waiting` exactly when it is an answerer |
| RoomRules.Admitted | dist-worker/share_files/index.js:3632-3647 | the joiner is last, with its cid and join time. Before it are exactly the earlier sockets with other cids. Unique cids stay unique |
| RoomRules.Greeting | dist-worker/share_files/index.js:3648-3651 | the joiner first gets `role`. An answerer, and only an answerer, then gets `wait` |
| RoomRules.PeersMessages | dist-worker/share_files/index.js:3713-3717 | every live socket gets `peers` with the live count |
| RoomRules.FindCid | dist-worker/share_files/index.js:3742-3748 | the first live socket carrying the cid. None exactly when the cid is missing or no socket carries it |
| RoomRules.WithoutCid | dist-worker/share_files/index.js:3782-3790 | after superseding, the live set is the old one minus exactly the sockets carrying the cid |
| RoomRules.WithoutCidUnique | dist-worker/share_files/index.js:3634 | superseding keeps client ids unique |
| RoomRules.WithoutCidActive | dist-worker/share_files/index.js:3634 | superseding never adds an active transfer |
| RoomRules.JoinerStays | dist-worker/share_files/index.js:3632-3653 | after admission and `fillSlots`, the joiner is live with its join time |
| RoomRules.AdmitWellFormed | dist-worker/share_files/index.js:3631-3653 | admission keeps a config of cap ≥ 1 and unique client ids, before and after `fillSlots` |
| RoomRules.AdmitSettled | dist-worker/share_files/index.js:3631-3653 | admission followed by `fillSlots` keeps the room `Settled`: one offerer (the creator when configured); active ≤ cap; nobody active without an offerer; nobody waiting while a slot is free |
| RoomRules.MarkDone | dist-worker/share_files/index.js:3749-3754 | `setAnswererState(done)` changes that one record's state and nothing else |
| RoomRules.TransferDoneSettled | dist-worker/share_files/index.js:3666-3673 | `transfer-done` from the offerer keeps the room `WellFormed` and `Settled` |
| RoomRules.AfterTransferDone | dist-worker/share_files/index.js:3666-3673 | a `transfer-done` changes states only: the same sockets, with the same cids and roles |
| RoomRules.RemoveAt | dist-worker/share_files/index.js:3682 | the closing socket leaves the live set, which is one shorter |
| RoomRules.RemoveAtMembers | dist-worker/share_files/index.js:3682 | the live set after a close is the others, in order |
| RoomRules.RemoveAtFacts | dist-worker/share_files/index.js:3682 | after a close, client ids stay unique and there are no more active transfers than before |
| RoomRules.ResetAnswerers | dist-worker/share_files/index.js:3692-3697 | after the offerer leaves, every answerer is `waiting` and every other record is kept |
| RoomRules.LeftNotice | dist-worker/share_files/index.js:3685-3689 | `peer-left` with the cid goes to the first offerer. Nothing is sent when there is no offerer or the cid is empty |
| RoomRules.CloseWellFormed | dist-worker/share_files/index.js:3682-3699 | any close keeps the room `WellFormed` |
| RoomRules.AfterClose | dist-worker/share_files/index.js:3682-3699 | the closing socket is gone, the others keep their cids and roles in order, and after the offerer leaves every answerer is waiting |
| RoomRules.CloseSettled | dist-worker/share_files/index.js:3682-3699 | any close keeps the room `Settled` |
| RoomRules.AnswererCloseSettled | dist-worker/share_files/index.js:3685-3691 | an answerer leaving, with the refill by `fillSlots`, keeps the room `Settled` |
| RoomRules.OffererCloseSettled | dist-worker/share_files/index.js:3692-3697 | after the offerer leaves, every remaining connection is a waiting answerer and the room is `Settled` |
| RoomRules.FillSettles | dist-worker/share_files/index.js:3755-3781 | from one offerer and active ≤ cap, `fillSlots` reaches `Settled` |
| RoomRules.FillLeavesNoIdleSlot | dist-worker/share_files/index.js:3771-3773 | with an offerer, after `fillSlots` nobody waits while a slot is free |
| RoomRules.FillKeepsIdentity | dist-worker/share_files/index.js:3774-3780 | `fillSlots` changes no cid or role |
| RoomRules.FillKeepsUnique | dist-worker/share_files/index.js:3774-3780 | `fillSlots` keeps client ids unique |
| RoomRules.ActiveCountIsCard | dist-worker/share_files/index.js:3759-3762 | the count of active answerers is the size of the filtered `active` list |
| RoomRules.ActiveCountUpdate | dist-worker/share_files/index.js:3749-3754 | rewriting one attachment changes the active count by at most that one record |
| RoomRules.SameIdentity | dist-worker/share_files/index.js:3749-3754 | state rewrites that keep every cid and role keep who may offer |
| RoomQueue.FirstOfferer | dist-worker/share_files/index.js:3727-3733 | the first socket with the offerer role; None exactly when there is none |
| RoomQueue.WaitingList | dist-worker/share_files/index.js:3763-3766 | exactly the waiting answerers, in socket order |
| RoomQueue.SortByJoin | dist-worker/share_files/index.js:3766-3770 | the same sockets, each once, in ascending `joinedAt` with ties in socket order (a stable sort) |
| RoomQueue.Insert | dist-worker/share_files/index.js:3766-3770 | inserting one socket keeps the list sorted and adds exactly that socket |
| RoomQueue.WaitingOrder | dist-worker/share_files/index.js:3763-3770 | every waiting answerer, and only those, in join order |
| RoomQueue.ToActivate | dist-worker/share_files/index.js:3755-3773 | the chosen sockets are a prefix of the waiting order. Nobody is chosen without an offerer. The choice never takes active past the cap, and stops short of the whole queue only when the cap is reached |
| RoomQueue.Promote | dist-worker/share_files/index.js:3774-3777 | the chosen records become active; the rest are unchanged; no cid, role or join time changes |
| RoomQueue.StartMessages | dist-worker/share_files/index.js:3774-3780 | two messages per promotion |
| RoomQueue.StartMessagesEach | dist-worker/share_files/index.js:3777-3779 | message 2j is `{start}` to the j-th promoted answerer and message 2j+1 is `{start, peerId}` naming it to the offerer |
| RoomQueue.Filled | dist-worker/share_files/index.js:3755-3781 | `fillSlots` keeps every socket's cid, role and join time, changes a record only from waiting to active, and changes nothing without an offerer |
| RoomQueue.NoFreeSlot | dist-worker/share_files/index.js:3771-3772 | with active ≥ cap, `fillSlots` chooses no one and changes nothing |
| RoomQueue.FillSlotsNeedsOfferer | dist-worker/share_files/index.js:3756-3757 | without an offerer, `fillSlots` chooses no one and changes nothing |
| RoomQueue.ToActivateShape | dist-worker/share_files/index.js:3759-3773 | only waiting answerers are chosen, each once, in join order, and no more than the free slots |
| RoomQueue.PromoteSets | dist-worker/share_files/index.js:3774-3780 | promotion moves exactly the chosen sockets from waiting to active |
| RoomQueue.FillSlotsBound | dist-worker/share_files/index.js:3771-3780 | active afterwards = active before + promoted. Never above the cap unless it already was |
| RoomQueue.FillSlotsChangesOnlyWaiting | dist-worker/share_files/index.js:3763-3780 | only waiting records change, and only to active. `done`, active and offerer records are untouched, so `done` is never re-promoted |
| RoomQueue.FillSlotsFifo | dist-worker/share_files/index.js:3766-3773 | every promoted answerer joined before every answerer left waiting |
| RoomQueue.PromotedBefore | dist-worker/share_files/index.js:3766-3773 | one promoted answerer precedes one that stays waiting in the join order |
| RoomQueue.FillSlotsSaturates | dist-worker/share_files/index.js:3771-3780 | with an offerer, afterwards either every slot is taken or nobody waits |
| RoomQueue.StartMessagesStep | dist-worker/share_files/index.js:3777-3779 | each promotion sends `{start}` to the answerer, then `{start, peerId}` to the offerer |
| RoomQueue.PromoteStep | dist-worker/share_files/index.js:3777 | each loop turn marks one more chosen socket active |
| DurableRoom.Dispatch | dist-worker/share_files/index.js:3610-3630 | `/config` is handled iff it is a POST. Any other `/config` request is 400. Other paths are 426 iff the Upgrade header is not a case-insensitive "websocket". A socket is accepted iff it is also a GET; otherwise 400 |
| DurableRoom.Relay | dist-worker/share_files/index.js:3675-3680 | one message to the socket whose cid is `to`, naming the sender and copying `sid` and the body. Nothing when no live socket has that cid |
| DurableRoom.Room.constructor | dist-worker/share_files/index.js:3604-3609 | a fresh instance has no config loaded, no sockets, and the stored config |
| DurableRoom.Room.Fetch | dist-worker/share_files/index.js:3610-3655 | configure (200 "OK", config normalised and persisted), refuse with the gate's status and no change, or accept (101, the joiner live). `Settled` is preserved except by a config re-POST |
| DurableRoom.Room.Configure | dist-worker/share_files/index.js:3612-3623 | the config becomes the normalised body and is persisted. Sockets are untouched |
| DurableRoom.Room.EnsureConfig | dist-worker/share_files/index.js:3703-3712 | the config becomes `EnsuredConfig` of the loaded and stored ones, with cap ≥ 1 |
| DurableRoom.Room.Admit | dist-worker/share_files/index.js:3631-3653 | in order: the duplicates' closes, the greeting, the peers broadcast, the start messages. The records become the admitted, filled list. `Settled` is preserved |
| DurableRoom.Room.Join | dist-worker/share_files/index.js:3634-3651 | supersede, pick the role on the remaining sockets, accept, greet |
| DurableRoom.Room.OnMessage | dist-worker/share_files/index.js:3656-3681 | unparsable or unknown messages change nothing. `transfer-done` from a non-offerer changes nothing. From the offerer, it marks the peer done and refills. Signals are relayed by `to`. `Settled` is preserved |
| DurableRoom.Room.OnTransferDone | dist-worker/share_files/index.js:3667-3673 | the named answerer becomes done, then `fillSlots` runs. `Settled` is preserved |
| DurableRoom.Room.OnSignal | dist-worker/share_files/index.js:3676-3679 | the outbox grows by exactly the relayed message, or by nothing |
| DurableRoom.Room.OnClose | dist-worker/share_files/index.js:3682-3699 | the records become `AfterClose` and the close messages go out, then the peers broadcast. `WellFormed` and `Settled` are preserved |
| DurableRoom.Room.Drop | dist-worker/share_files/index.js:3682 | the closed socket leaves the live set; config, storage and outbox are untouched |
| DurableRoom.Room.Depart | dist-worker/share_files/index.js:3682-3697 | the role-specific part of a close, without the broadcast |
| DurableRoom.Room.AnswererLeft | dist-worker/share_files/index.js:3685-3691 | `peer-left` to the offerer, then `fillSlots` |
| DurableRoom.Room.NotifyOffererLeft | dist-worker/share_files/index.js:3686-3689 | exactly `LeftNotice` is sent; nothing else changes |
| DurableRoom.Room.ResetAllAnswerers | dist-worker/share_files/index.js:3693-3696 | every answerer is reset to waiting and sent `wait`, in socket order |
| DurableRoom.Room.OnError | dist-worker/share_files/index.js:3700-3702 | only the peers count is re-broadcast |
| DurableRoom.Room.BroadcastPeers | dist-worker/share_files/index.js:3713-3717 | `peers` with the live count to each live socket |
| DurableRoom.Room.CloseDuplicateClient | dist-worker/share_files/index.js:3782-3790 | each socket carrying the cid is closed with 1000 "replaced" and leaves the live set |
| DurableRoom.Room.PickRole | dist-worker/share_files/index.js:3718-3726 | the role is `RoleFor`: the creator rule, else first-come offerer |
| DurableRoom.Room.OffererSocket | dist-worker/share_files/index.js:3727-3733 | the loop finds the first offerer |
| DurableRoom.Room.SocketByCid | dist-worker/share_files/index.js:3742-3748 | the loop finds the first socket carrying the cid |
| DurableRoom.Room.FillSlots | dist-worker/share_files/index.js:3755-3781 | the records become `Filled` and the start messages go out |
| DurableRoom.Room.StartAll | dist-worker/share_files/index.js:3774-3780 | the loop promotes the chosen sockets and announces each |
| DurableRoom.Room.StartOne | dist-worker/share_files/index.js:3777-3779 | one loop turn: one more socket promoted and its two messages appended |
| DurableRoom.FillPlan | dist-worker/share_files/index.js:3771-3780 | with an offerer and a free slot, the head of the waiting order is what `fillSlots` promotes and announces |
| LegacyRoom.Others | src/room.ts:65-66 | every live socket but the sender, in order |
| LegacyRoom.OthersMembers | src/room.ts:65-66 | a socket is listed iff it is live and not the sender |
| LegacyRoom.OthersCount | src/room.ts:65-66 | with the sender live, exactly one fewer than the live sockets |
| LegacyRoom.OthersAbsent | src/room.ts:70-75 | a socket that has already left excludes no one |
| LegacyRoom.Fanout | src/room.ts:65-66 | the same payload to each target, in order |
| LegacyRoom.PeersBroadcast | src/room.ts:83-87 | every live socket, in order, is told the number of live sockets |
| LegacyRoom.Room.constructor | src/room.ts:29-32 | a fresh room has no sockets and has sent nothing |
| LegacyRoom.Room.Fetch | src/room.ts:34-61 | 426 without a websocket upgrade, 400 for a non-GET, 409 with 2 or more sockets; nothing changes in those cases. Otherwise 101 and a new socket. It is told offerer iff the room was empty, then all get the count |
| LegacyRoom.Room.OnMessage | src/room.ts:63-68 | the text goes unchanged to every other live socket |
| LegacyRoom.Room.OnClose | src/room.ts:70-77 | the closing socket leaves. Every other gets `peer-left`, then all get `peers` |
| LegacyRoom.Room.LeftNotices | src/room.ts:71-75 | the loop sends `peer-left` to each socket other than the closing one |
| LegacyRoom.Room.OnError | src/room.ts:79-81 | only the count is re-broadcast |
| LegacyRoom.Room.BroadcastPeers | src/room.ts:83-87 | `peers` with the live count to each live socket |
| LegacyRoom.RelayReachesOthers | src/room.ts:63-68 | a forwarded message reaches every other live socket exactly once and never the sender |
| LegacyRoom.PeersCountIsLive | src/room.ts:83-87 | every live socket receives the count, which equals the number of live sockets |
| Worker.RoomIdOf | src/index.ts:46-53 | a room id has one symbol per random byte |
| Worker.GenerateRoomId | src/index.ts:46-53 | exactly `len` symbols, each from the 32-symbol alphabet and none of I, O, 0, 1. Symbol i is `alphabet[bytes[i] mod 32]` |
| Worker.RoomIdSymbols | src/index.ts:47-51 | every symbol of an id is in the alphabet and not confusable |
| Worker.AlphabetDistinct | src/index.ts:47 | the alphabet has 32 pairwise distinct symbols |
| Worker.RoomIdResidues | src/index.ts:51 | two byte strings give the same id iff they agree modulo 32 everywhere |
| Worker.CreateRoomLegacy | src/index.ts:22-25 | `/api/rooms` returns a 10-symbol id |
| Worker.CreateRoom | dist-worker/share_files/index.js:3963-3976 | 500 "Internal Server Error" exactly when the body is missing, not JSON or `null`. Otherwise a 10-symbol id, and a `/config` body whose cap is the normalised one (≥ 1) and whose creator is passed through |
| Worker.BodylessCreateFails | src/client/home.ts:40-44 | the home page's body-less `POST /api/rooms` gets 500 and no room |
| Worker.CreateRoomLenient | dist-worker/share_files/index.js:3963-3976 | reading an unparsable body as `{}`, every request makes a room, and a body-less one gets cap 3 and no creator |
| Worker.WsGate | src/index.ts:27-37 | 426 iff the Upgrade header is missing or not a case-insensitive "websocket". Otherwise forwarded to the room named by `roomId` |
| CliSignal.Matching | cli/src/main.rs:491-511 | the queued candidates of one session, in order |
| CliSignal.Remaining | cli/src/main.rs:491-511 | the queued candidates of other sessions, in order |
| CliSignal.SplitPartitions | cli/src/main.rs:491-511 | a flush sends every queued candidate to exactly one side: applied iff its sid is the active one |
| CliSignal.SplitMultisets | cli/src/main.rs:491-511 | applied and kept together are the queue as a multiset |
| CliSignal.FlushIdempotent | cli/src/main.rs:491-511 | a second flush for the same sid applies nothing and keeps the queue |
| CliSignal.SplitAppend | cli/src/main.rs:480-489 | a candidate queued later is applied or kept after the earlier ones, so order is kept on both sides |
| CliSignal.SplitQueue | cli/src/main.rs:496-509 | the loop collects exactly the matching candidates in order and keeps the rest in order |
| CliSignal.OfferSidsAppend | cli/src/main.rs:446-466 | an offer appends its sid to the offer sids; any other message appends nothing |
| CliSignal.OffererPeer.constructor | cli/src/main.rs:360-388 | sid counter 0, no active sid, empty queue, not sending |
| CliSignal.OffererPeer.SendOffer | cli/src/main.rs:446-466 | no-op while an attempt is active. Otherwise the counter increments, becomes the active sid, and that sid is offered. The sids offered strictly increase |
| CliSignal.OffererPeer.HandleAnswer | cli/src/main.rs:468-478 | an answer with another sid changes nothing. The active sid sets the remote description and flushes |
| CliSignal.OffererPeer.HandleCandidate | cli/src/main.rs:480-489 | queued with its sid before the remote description; applied at once after |
| CliSignal.OffererPeer.FlushCandidates | cli/src/main.rs:491-511 | with an active sid, its candidates are applied in order and the rest kept in order. With none, nothing happens |
| CliSignal.OffererPeer.LocalCandidate | cli/src/main.rs:390-405 | a local candidate is sent only when a session is active, under that sid |
| CliSignal.OffererPeer.OnOpen | cli/src/main.rs:417-440 | the first opening starts the send and later ones do nothing. `TransferDone` follows only a started, successful send |
| CliSignal.Receiver.constructor | cli/src/main.rs:263 | no receiver state before `start` |
| CliSignal.Receiver.OnStart | cli/src/main.rs:294-328 | a fresh state: no peer, no sid, empty queue |
| CliSignal.Receiver.OnOffer | cli/src/main.rs:330-344 | before `start` it fails with no change. Otherwise it adopts the peer and sid, flushes, and answers under that sid |
| CliSignal.Receiver.HandleCandidate | cli/src/main.rs:513-520 | ignored before `start`; queued before the remote description; applied after |
| CliSignal.Receiver.FlushCandidates | cli/src/main.rs:522-539 | the same split as the offerer's flush |
| CliSignal.Receiver.LocalCandidate | cli/src/main.rs:298-310 | sent only when both the peer and the sid are known |
| CliTransfer.SendFile | cli/src/main.rs:592-615 | meta (not encrypted), then one frame per read until a read returns 0, then done |
| CliTransfer.SenderFrames | cli/src/main.rs:592-615 | an unencrypted meta first, done last, and between them non-empty reads of at most 64 KiB |
| CliTransfer.SenderFramesCover | cli/src/main.rs:592-615 | meta first and done last. Every data frame is a non-empty read of at most 64 KiB, and the reads joined are the file |
| CliTransfer.ProgressStep | cli/src/main.rs:541-590 | an encrypted meta is rejected. A meta with a created file sets the expected size and resets the counter. A binary frame counts only into an open file and a successful write. Done closes the file |
| CliTransfer.ProgressCounts | cli/src/main.rs:579-586 | the counter always equals the bytes written since the last meta |
| CliTransfer.ProgressRunBinary | cli/src/main.rs:579-586 | data frames into an open file append their bytes in order |
| CliTransfer.CliTransferDelivers | cli/src/main.rs:541-615 | a full transfer leaves exactly the file written, the counter equal to its length, the file closed |
| CliTransfer.ReceiveProgress.constructor | cli/src/main.rs:541-590 | no file open and a zero counter |
| CliTransfer.ReceiveProgress.OnMessage | cli/src/main.rs:541-590 | the handler performs `ProgressStep` in place |
| CliEndpoint.ChooseEndpoint | cli/src/main.rs:683-689 | the `--endpoint` argument, else `SHARE_FILES_ENDPOINT`, else the public server |
| CliEndpoint.SetScheme | cli/src/main.rs:691-697 | the scheme changes; host, path, query and fragment are kept; a port equal to the new default is dropped |
| CliEndpoint.BaseEndpointUrl | cli/src/main.rs:683-703 | wss→https and ws→http, https and http kept, any other scheme rejected. Path, query and fragment are cleared. An unparsable URL is an error |
| CliEndpoint.BuildWsUrl | cli/src/main.rs:661-674 | defined exactly when the base is. https→wss and http→ws, path `/ws/{room}`, query `cid={client}`, same host |
| CliEndpoint.BuildRoomUrl | cli/src/main.rs:676-681 | the base URL with path `/r/{room}` and no query |
| CliEndpoint.CreateRoomUrl | cli/src/main.rs:705-727 | the base URL with path `/api/rooms` |
| CliEndpoint.SchemeSpellingsAgree | cli/src/main.rs:661-703 | consistency check, close to the definitions: naming a server by wss or https (ws or http) gives the same signalling URL |
| CliEndpoint.BaseIdempotent | cli/src/main.rs:683-703 | consistency check, close to the definitions: the base URL is a fixed point of `base_endpoint_url` |
| CliEndpoint.WsUrlSameServer | cli/src/main.rs:661-703 | consistency check, close to the definitions: reading the signalling URL back through `base_endpoint_url` gives the same origin |
| BrowserSignal.Peer.constructor | src/client/room.ts:101-110 | no role, no peers, nothing in flight, no descriptions, empty queue |
| BrowserSignal.Peer.BeginOffer | src/client/room.ts:150-156 | proceeds iff offerer, peers ≥ 2, no offer in flight, signalling state stable, no local description. It then marks an offer in flight |
| BrowserSignal.Peer.FinishOffer | src/client/room.ts:157-163 | sets the local description, sends the offer, clears the in-flight flag |
| BrowserSignal.Peer.EnsureOffer | src/client/room.ts:150-164 | offers iff the five guards hold; once offered, no later call can offer again |
| BrowserSignal.Peer.OnRole | src/client/room.ts:171-187 | the role is remembered |
| BrowserSignal.Peer.OnPeers | src/client/room.ts:189-199 | the count is stored, then `ensureOffer` reads that count |
| BrowserSignal.Peer.OnPeersHooks | src/client/room.tsx:347-353 | the count is stored for the next render, while `ensureOffer` reads the previous `peersRef` |
| BrowserSignal.Peer.SyncPeersRef | src/client/room.tsx:92-94 | after a render, `peersRef` catches up with `peers` |
| BrowserSignal.Peer.AcceptRemoteDescription | src/client/room.ts:208-209 | `remoteDescSet` is set and the queue is kept; no candidate is lost or duplicated |
| BrowserSignal.Peer.OnOffer | src/client/room.ts:207-216 | with no message in between: sets the remote description, applies the whole queue in order, answers. Every candidate received is then applied, each as often as it arrived |
| BrowserSignal.Peer.OnAnswer | src/client/room.ts:218-223 | with no message in between: sets the remote description and applies the whole queue in order. Every candidate received is then applied |
| BrowserSignal.Peer.OnCandidate | src/client/room.ts:225-228 | queued until the remote description, applied directly after, even while a flush is suspended. Applied and queued together are the arrivals as a multiset; before the remote description the queue is the arrivals in order |
| BrowserSignal.Peer.OnLocalCandidate | src/client/room.ts:120-122 | a local candidate goes straight to the other side |
| BrowserSignal.Peer.FlushStep | src/client/room.ts:288-290 | one turn of the flush up to its `await`: the head of the queue is applied, and no candidate is lost or duplicated |
| BrowserSignal.Peer.FlushCandidates | src/client/room.ts:287-292 | with no message in between, the queue is drained front to back into the applied list |
| BrowserSignal.CandidateOvertakesQueue | src/client/room.ts:225-228 | a candidate arriving during the flush's `await` is applied before the one still queued: a, c, b for arrivals a, b, c, the same candidates in another order |
| BrowserSignal.MissedOfferHooks | src/client/room.tsx:347-353 | as written: an offerer told 1 then 2 peers sends no offer |
| BrowserSignal.OfferOnSecondPeer | src/client/room.ts:189-199 | an offerer told 1 then 2 peers sends exactly one offer |
| BrowserTransfer.EncryptChunk | src/client/room.tsx:623-631 | without a key the chunk itself. With one, the IV followed by the ciphertext, of length \|iv\| + \|ct\| |
| BrowserTransfer.DecryptChunk | src/client/room.tsx:633-640 | without a key the frame itself. With one, bytes [0, 12) are the IV and the rest the ciphertext |
| BrowserTransfer.DecryptEncrypt | src/client/room.tsx:623-640 | decrypting an encrypted chunk with a 12-byte IV gives the chunk back; both are the identity without a key |
| BrowserTransfer.Payloads | src/client/room.tsx:172-179 | each slice is encrypted with its own IV, in order |
| BrowserTransfer.SenderFrames | src/client/room.tsx:147-195 | meta first, done last, one binary frame per 16 KiB slice between. Without a key each is a non-empty slice of at most 16 KiB. With one, each starts with its own IV |
| BrowserTransfer.Channel.Send | src/client/room.tsx:176 | a frame is appended, and binary bytes add to `bufferedAmount` |
| BrowserTransfer.Channel.WaitDrain | src/client/room.tsx:162-170 | returns at once at or below 4 MiB; otherwise resumes once the channel is at or below 4 MiB |
| BrowserTransfer.SendChunk | src/client/room.tsx:172-180 | one (possibly encrypted) frame goes out. Afterwards `bufferedAmount` ≤ 8 MiB |
| BrowserTransfer.SendFile | src/client/room.tsx:147-195 | meta (encrypted iff a key, mime defaulted), then the 16 KiB slices, then done. `sent` equals the file size |
| BrowserTransfer.SendSlices | src/client/room.tsx:182-191 | the loop sends exactly the 16 KiB slices of the file, in order, each with the next IV |
| BrowserTransfer.SendNext | src/client/room.tsx:184-190 | one loop turn sends the next slice as the next frame |
| BrowserTransfer.SliceAdvance | src/client/room.tsx:184-190 | the slice read at `offset` is the next slice of the file |
| BrowserTransfer.SlicesDone | src/client/room.tsx:183 | when `offset` reaches the size, every slice has been sent |
| BrowserTransfer.ReceiveStep | src/client/room.tsx:299-330 | a meta resets the chunks and counter. Binary frames before any meta are ignored. Done builds the blob from the chunks in arrival order |
| BrowserTransfer.ReceiveCounts | src/client/room.tsx:320-329 | the byte counter always equals the total length of the stored chunks |
| BrowserTransfer.ReceiveRunChunks | src/client/room.tsx:320-329 | after a matching meta, the sender's frames are stored decrypted and in order |
| BrowserTransfer.ReceiveChunk | src/client/room.tsx:320-329 | one sender frame stores its plaintext and adds its length |
| BrowserTransfer.TransferDelivers | src/client/room.tsx:147-195 | when every frame is handled to the end before the next, a receiver with the sender's key (or neither has one) ends with exactly the file, its name, size and announced mime, whatever it held before |
| BrowserTransfer.DoneOutrunsDecrypt | src/client/room.tsx:314-329 | with a key, when the whole transfer arrives before any `decryptChunk` settles, `done` offers an empty download in place of a non-empty file |
| BrowserTransfer.AsyncRunPending | src/client/room.tsx:322-326 | after an encrypted meta, chunk frames only add outstanding decryptions and store nothing |
| BrowserTransfer.SerialRunAgrees | src/client/room.tsx:299-330 | handlers run one at a time do exactly what `ReceiveStep` says, frame by frame, with nothing left outstanding |
| BrowserTransfer.SerialisedDelivers | src/client/room.tsx:299-330 | with the handlers serialised, a receiver with the sender's key offers exactly the file |
| BrowserTransfer.Receiver.constructor | src/client/room.ts:102-110 | no meta, no chunks, zero bytes, no download |
| BrowserTransfer.Receiver.OnMessage | src/client/room.ts:250-283 | the handler up to its first suspension: an encrypted chunk becomes an outstanding decryption, and any other frame is handled as `ReceiveStep` says |
| BrowserTransfer.Receiver.OnDecrypted | src/client/room.ts:279-282 | a suspended handler resumes: its plaintext joins the chunks held at that moment, and a rejected decryption stores nothing |
| BrowserTransfer.Receiver.FinalizeDownload | src/client/room.ts:375-389 | nothing without a meta. Otherwise the blob of the chunks under the meta's name and mime |
| Framing.MimeOrDefault | src/client/room.tsx:152 | the file's type, or `application/octet-stream` when it is empty |
| Framing.SlicesConcat | src/client/room.tsx:182-191 | the slices joined in order are the file |
| Framing.SlicesSizes | src/client/room.tsx:182-191 | each slice is non-empty and at most the chunk size, and every slice but the last is full |
| Framing.BinaryFrames | src/client/room.tsx:176 | one binary frame per payload, in order |
| Base64.SymbolValue | src/client/home.tsx:135 | each base64 symbol maps back to its value |
| Base64.BinaryString | src/client/home.tsx:133-134 | one code unit per octet, with the octet's value |
| Base64.EncodeGroup | src/client/home.tsx:135 | 1, 2 or 3 octets become 2, 3 or 4 symbols of the alphabet |
| Base64.DecodeGroup | src/client/room.tsx:645 | 2, 3 or 4 symbols become 1, 2 or 3 octets |
| Base64.GroupRoundTrip | src/client/room.tsx:642-649 | decoding an encoded group gives back its octets |
| Base64.EncodeBodyShape | src/client/home.tsx:135 | the unpadded length mod 4 is 0, 2 or 3 as the input length mod 3 is 0, 1 or 2. The text is empty iff the input is, and only symbols are used |
| Base64.BodyLengthMod | src/client/home.tsx:135 | the arithmetic of the unpadded length |
| Base64.BodyRoundTrip | src/client/room.tsx:642-649 | decoding the unpadded text gives the input back |
| Base64.AtobOfEncoding | src/client/room.tsx:645 | `atob` accepts the padded encoding and returns the original binary string |
| Base64.Atob | src/client/room.tsx:645 | a decoded text is always a binary string |
| Base64.RemoveWhitespace | src/client/room.tsx:645 | removing whitespace never lengthens the text |
| Base64.ReplaceAll | src/client/home.tsx:135 | every occurrence of the character is replaced and nothing else changes |
| Base64.Repeat | src/client/room.tsx:643 | n copies of the character |
| Base64.Uint8 | src/client/room.tsx:646-647 | one octet per code unit, truncated to 8 bits |
| Base64.Uint8OfBinary | src/client/room.tsx:646-647 | the octets of a binary string are the original bytes |
| Base64.StripTrailingPadding | src/client/home.tsx:135 | the trailing '=' are removed and nothing before them |
| Base64.UrlAlphabet | src/client/home.tsx:132-136 | the URL-safe encoding contains no '+', '/' or '=', only URL-safe symbols. It is empty iff the input is |
| Base64.UrlEncodingOfBody | src/client/home.tsx:132-136 | the URL-safe encoding is the unpadded encoding with '+' and '/' mapped |
| Base64.RestoreStandard | src/client/room.tsx:644 | mapping '-' and '_' back undoes the URL-safe mapping |
| Base64.PadCountsAgree | src/client/room.tsx:643 | the padding `b64urlDecode` appends, `(4 − len mod 4) mod 4`, is the padding `btoa` produced |
| Base64.UrlToStandardOfEncoding | src/client/room.tsx:643-644 | `b64urlDecode` rebuilds exactly the padded standard text |
| Base64.UrlRoundTrip | src/client/room.tsx:642-649 | `b64urlDecode(b64urlEncode(bytes)) == bytes` |
| Base64.B64urlEncode | src/client/home.ts:46-50 | the loop builds the binary string. The result has no '+', '/' or '=' and decodes back to the input |
| Base64.B64urlDecode | src/client/room.ts:501-508 | fails exactly where `atob` throws. Otherwise the loop fills the array with the decoded octets |
| Home.TrimStart | src/client/home.tsx:47 | a suffix, not starting with whitespace, after whitespace only |
| Home.TrimEnd | src/client/home.tsx:47 | a prefix, not ending with whitespace, before whitespace only |
| Home.Trim | src/client/home.tsx:47 | the result has no whitespace at either end |
| Home.TrimNoop | src/client/home.tsx:47 | trimming a trimmed string changes nothing |
| Home.TrimAround | src/client/home.tsx:47 | trimming whitespace-padded text gives the text |
| Home.UpperKeepsSpace | src/client/home.tsx:47 | upper-casing keeps whitespace and non-whitespace apart |
| Home.JoinTarget | src/client/home.tsx:46-50 | no navigation for an empty code. Otherwise `/r/{code}` plus the current hash, the code trimmed and upper-cased |
| Home.JoinCodeIdempotent | src/client/home.tsx:47 | a normalised code is trimmed and normalising it again changes nothing |
| Home.UpperIdempotent | src/client/home.tsx:47 | upper-casing twice is upper-casing once |
| Home.TypedIdJoins | src/client/home.tsx:46-50 | a generated id typed in lower case with surrounding whitespace normalises to the id |
| Home.IndexOf | src/client/room.tsx:209 | the first index of the character, or the length |
| Home.HashOf | src/client/room.tsx:209 | a URL's hash starts with '#' and has content, or is empty |
| Home.CreateTarget | src/client/home.ts:12-20 | the link is the room's path; its fragment is `#k=` and the URL-safe key when encryption is on, and there is none otherwise |
| Home.Split | src/client/room.tsx:209 | splitting yields at least one field |
| Home.KeyOf | src/client/room.tsx:209-210 | no key exactly when `k` is absent or empty. A present, non-empty and decodable value gives the key it decodes to; an undecodable one is malformed |
| Home.LinkCarriesKey | src/client/home.tsx:33-40 | a link created with a key gives the room page exactly that key back |
| Home.LinkWithoutKey | src/client/home.tsx:38-40 | a link created without a key gives the room page none |
| Home.ParamOfKey | src/client/room.tsx:209 | `new URLSearchParams("k=" + v).get("k")` is `v` |
| Home.JoinKeepsKey | src/client/home.tsx:49 | joining keeps the current fragment, so the room reached sees the same key |
| Home.HomePage.constructor | src/client/home.tsx:15-17 | a fresh page has encryption on, is not busy, has an empty join field and has navigated nowhere |
| Home.HomePage.SetHomeBusy | src/client/home.ts:33-38 | the create button, join button and toggle are disabled iff busy |
| Home.HomePage.OnEncryptToggle | src/client/home.tsx:19-22 | the toggle sets the encryption flag |
| Home.HomePage.OnJoinInput | src/client/home.tsx:24-27 | the join field holds the typed value |
| Home.HomePage.BeginCreate | src/client/home.tsx:29-31 | refused while busy; otherwise the page becomes busy |
| Home.HomePage.FinishCreate | src/client/home.tsx:32-43 | navigates to `/r/{room}#k={b64url key}` iff encryption is on, else `/r/{room}`. Busy is cleared in every case |
| Home.HomePage.Join | src/client/home.ts:26-30 | navigates iff the normalised code is non-empty, to `/r/{code}` plus the hash |
| Common.ToUpper | src/client/home.tsx:47 | each character is upper-cased (ASCII), length kept |
| Common.ToLower | dist-worker/share_files/index.js:3625 | each character is lower-cased (ASCII), length kept |
| Common.ConcatLength | src/client/room.tsx:135 | the blob's size is the sum of the chunk lengths |

## Left out

- Network and platform I/O are not modelled as such. WebSocket, WebRTC, `fetch`, `reqwest`, tokio channels and locks, file reads and writes, `Blob`/object URLs are all outside the model. Their effects appear as outboxes, frame lists and success flags.
- AES-GCM, `importKey`, `getRandomValues` and `randomUUID`: the key is abstract, with one assumed property (opening with the same IV returns the plaintext). IVs and ids are parameters.
- JSON parsing and serialisation: unparsable messages are a `None` case, and the message bodies (SDP, candidates) are opaque. Malformed JSON from an unattached socket is not distinguished.
- The Durable Object's hibernation is not modelled. When `config` is null while sockets are live, `fillSlots` uses the default cap; the model always loads a config before accepting.
- Socket close is asynchronous in the source. The model removes a closing or superseded socket from the live set before the next step, and the superseded socket's own close handler is not run.
- `DurableRoom.Room.Fetch`: `Settled` is not promised across a `/config` POST to a room with live sockets. The code overwrites the config then, and a new creator or a lower cap can break it.
- `bufferedAmount` counts only binary frames, not the text frames; the drain level is a parameter.
- Short reads: a browser slice read returns the full slice, and a CLI read returns as much as fits the buffer.
- u64 counters are unbounded naturals: `signal_sid` and `received` do not wrap.
- `BrowserTransfer.ReceiveStep`: a failed decryption drops the frame, whereas in the source the rejected promise ends the handler. An encrypted meta without a key is accepted, matching the code, which only reports it.
- The CLI receiver's output path join, and `write_all` partial failures (a failed write counts nothing).
- `handle_offer_candidate` applies a candidate after the remote description whatever its sid; this is modelled as written.
- URL parsing, userinfo and percent-encoding are out of scope. `URLSearchParams` percent-decoding and '+' handling are left out; a key value is taken literally.
- `Home.KeyOf`: an undecodable key is `Malformed`; the source throws during boot.
- `BrowserSignal.Peer.OnOffer`, `BrowserSignal.Peer.OnAnswer`: other messages are let in only at the flush's `await`s (`AcceptRemoteDescription`, `FlushStep`, then `OnCandidate`). The model does not interleave them during `setRemoteDescription`, `createAnswer` or `setLocalDescription`.
- `BrowserTransfer.TransferDelivers`, `BrowserTransfer.ReceiveStep`: each frame is handled to the end before the next. The asynchronous schedule is `Deliver`, `Settle` and `Receiver.OnDecrypted`. Decryptions that settle out of start order are expressible there, but no lemma is stated about them.
- Outgoing room messages are addressed by client id. A superseded socket's `close(1000, "replaced")` and the new socket's greeting carry the same id. The model tells them apart only by order: the close is queued before the new socket's messages, and that socket has already left the live set.
- `toUpperCase`, `toLowerCase` and `trim` are modelled on ASCII letters and the ECMAScript whitespace set; full Unicode case mapping is left out.
- `formatBytes`, progress percentages and status strings use floating point or are UI only; the JSX pages and the bundled Hono framework are UI and third-party code.
- `BrowserSignal.Peer.OnPeersHooks`: when React-style state updates render is not modelled. The lag of `peersRef` is represented by an explicit `SyncPeersRef` step, and the same lag of `roleRef` is not modelled.
- The service worker, `localStorage` client ids and the build configuration.

## Findings

| source | as written | input that shows it | evidently intended | confidence | as-written member | corrected member |
|---|---|---|---|---|---|---|
| src/client/room.tsx:347-353 | on `peers`, the hook-based page calls `ensureOffer` right after `setPeers`. `ensureOffer` reads `peersRef`, which an effect (room.tsx:92-94) updates only after the next render | the offerer receives `peers` 1 and then `peers` 2; no further `peers` message arrives | the offer goes out when the second peer arrives, as on the plain page (room.ts:189-194) | medium, not executed | BrowserSignal.MissedOfferHooks | BrowserSignal.OfferOnSecondPeer |
| src/client/room.tsx:314-329 | a chunk's handler awaits `decryptChunk` before pushing the plaintext; a `done` handled meanwhile builds the blob from the chunks pushed so far (room.tsx:135; room.ts:268-282 likewise) | an encrypted room; meta, the chunks and done arrive before the decryptions settle | the download is built after every chunk before `done` has been stored | medium, not executed | BrowserTransfer.DoneOutrunsDecrypt | BrowserTransfer.SerialisedDelivers |
| dist-worker/share_files/index.js:3963-3965 | `POST /api/rooms` parses the body unconditionally, and the home pages post none (src/client/home.ts:41, src/client/home.tsx:127) | `fetch("/api/rooms", { method: "POST" })` from the home page | a body-less request creates a room with the default cap | plausible, not executed; the bundled server may be paired with a newer client | Worker.BodylessCreateFails | Worker.CreateRoomLenient |
