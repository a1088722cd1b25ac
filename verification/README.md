# Messenger backend and client: a verified model

This project models the parts of a room messenger (a Go server and a TypeScript client) where several
parties act at once or where two computations must agree, and proves what they promise each other.

The server fans broker messages out to WebSocket clients through a hub with bounded queues, keeps login
sessions with rotating refresh tokens, stores rooms, messages, read records and reactions, serves message
pages, and limits requests by address. The client merges fetched pages with live events, keeps a cache of
decoded messages, shows a bubble for a message before the server has answered, and plays call audio. Some
codecs go with it: URL-safe Base64 (section 5 of RFC 4648), invite tokens, and one-time codes (RFC 6238,
with the truncation of section 5.3 of RFC 4226).

Each part has a model on values: functions for its atomic sections, a `Step` over events and a `Run` over
any sequence of them, with an invariant and theorems over all runs. Where the source updates objects in
place, a class or an in-place method beside it does the same with loops and fields, and its `ensures`
equate the new state with the model's function of the old one.

| file | part |
|---|---|
| `HubModel.dfy`, `HubRuns.dfy`, `HubHistory.dfy`, `HubProgress.dfy`, `Hub.dfy` | hub, client queues, in-memory broker; the deliverer in micro-steps, interleaved with everything else; what a client's own calls say of it, and that messages can always arrive |
| `Sessions.dfy`, `RefreshRuns.dfy`, `SessionHistory.dfy` | session store, refresh and access tokens; any number of refresh calls, each with its own program counter; what the calls say of one session |
| `MessageStore.dfy`, `StoreRuns.dfy`, `StoreCalls.dfy`, `Reactions.dfy`, `MemoryStore.dfy` | rooms, message log, read records, unread count, reactions; what the calls for one message, room or reader make of it |
| `Paging.dfy`, `PagingRuns.dfy`, `ClientPaging.dfy` | pages served, paging while the store goes on running, and what a client that loads all pages holds |
| `ClientMerge.dfy`, `History.dfy`, `Convergence.dfy`, `EndToEnd.dfy` | last writer wins by version, the contents of a message over a run, and the end-to-end result from the store to the list shown |
| `Shortfalls.dfy` | runs that show where a plain promise fails |
| `Decoded.dfy`, `DecryptCache.dfy`, `OptimisticSend.dfy`, `SendHistory.dfy`, `PlainMessage.dfy` | decoded messages, their cache, optimistic sending, what a sender sees of one draft, the wire forms |
| `RateLimiter.dfy` | sliding window with in-place compaction |
| `CallAudio.dfy` | PCM frames, fade, playout schedule |
| `Base64Url.dfy`, `InviteToken.dfy`, `Totp.dfy` | codecs |
| `Common.dfy`, `Text.dfy`, `Ordering.dfy`, `Keyed.dfy` | shared datatypes, numbers in text, string order and a stable sort, a JavaScript `Map` by key |

`dafny verify dfyconfig.toml` checks all of it.

## Conventions and conditions

- Times are integers: nanoseconds on the server, of which the client sees whole milliseconds (`Date.parse`),
  and reals for audio. The server's clocks do not go back. Ids are opaque and already normalised.
- Fresh ids and secrets do not repeat; the hash of a refresh secret is injective; a MAC has 20 bytes. JSON,
  UTF-8, ciphers, MACs and base32 are parameters, of which at most that they can be undone is required, and
  that what is encrypted does not bear the name of the plain form.
- An event that cannot happen in a state changes nothing there, so theorems over runs range over every
  sequence of events.
- The hub has one deliverer, as the server starts it (`cmd/server/main.go:111-116`). `Hub.Close` leaves the
  connection gauge as it is, so the gauge is claimed only until then.
- Refresh lifetimes and the limiter's window are positive, as configured.
- User ids hold no colon and are not the text `undefined`, as the store draws them in hex
  (`internal/auth/store.go:151-157`). Keys of the cache of decoded messages then tell users apart
  (`DecryptCache.KeyTells`); with a colon two of them could be one text (`DecryptCache.KeysCanMix`).
- For the bubbles: times of sending differ from draft to draft, a decoded message of the user's own carries the
  time it was sent with, and the decoded ids only grow.

## Where the code falls short of a plain promise

Each of these is kept as the code has it. What is proved is the exact condition, or, where that is said, a condition
that is enough and a case that fails without it:

- A message's read flag means that all others have read only while its sender is a member
  (`StoreRuns.ReadFlagIsExact`, `Shortfalls.ReadFlagWithoutSender`).
- Creation times along a log may be equal, and they may fall: an append reads the clock before it takes the lock, so
  two appends can cross. On any log the next page ends where this one begins exactly if the message before this page
  is strictly older than its first and none behind that one is older than it (`Paging.NextPageFits`). The pages are
  the room, each message once and in order, exactly if that is so at each fetch
  (`Paging.PagingIsCompleteExactlyIfItFits`, `PagingRuns.PagingThroughARun`), as it is if times grow strictly
  (`Paging.PagingIsComplete`); fifty-one messages whose first two crossed, or whose times are all equal, lose the
  first (`Paging.OneInFiftyOneIsLost`). The client computes its cursor from all it holds. The same condition is enough
  for it (`ClientPaging.ClientEndsWithTheRoom`), and needed where times never fall
  (`ClientPaging.ClientEndsWithTheRoomExactlyIfItFits`).
- `hasMore` says that something is left in the log before a message that the cursor admits. If times never fall,
  that is an older message not on the page; otherwise what is left may be younger than the cursor
  (`Paging.HasMoreIsExact`, `Paging.OlderIfNeverFalling`).
- A context page goes past its target exactly when a message behind it was created before the end of the microsecond
  that follows it (`Paging.ContextEndsAtTarget`): two appends that cross are enough, even with whole microseconds
  (`Shortfalls.ContextGoesPastItsTarget`).
- Two contents of a message that differ but come from one millisecond have one version. Then a copy whose
  reactions differ, or that has the read flag the other lacks, takes the place of the one there, whichever content
  it holds, and an older content can replace a newer one (`Shortfalls.OldReplacesNew`,
  `Convergence.LastOfOneVersionStays`). The newest wins for all copies exactly if every change that alters something
  comes in a later millisecond than the one before it: the changes are then called spaced
  (`Convergence.NewestWinsExactlyIfSpaced`, `Convergence.EditArrivesExactlyIfLater`,
  `Convergence.DeletionArrivesExactlyIfLater`).
- The client's list is ordered by the millisecond of creation, and within one by first arrival. It is the room's
  log exactly if the log is in that order, so not if two messages of one millisecond arrived the other way round,
  nor if the log itself holds them out of order (`Convergence.ClientShowsTheLog`).
- The cache of decoded messages shows an old content for a new one exactly if two copies of one id, version, reaction
  signature and read flag are decoded differently (`DecryptCache.ShownIsDecodedAfresh`); copies of a run whose
  changes are spaced never are (`DecryptCache.CopiesOfARunAreConsistent`).
- The reaction signature tells two lists of reactions apart unless an emoji in them reads as an entry, a bar and another
  emoji; the store takes such emojis (`ClientMerge.SignatureTells`, `ClientMerge.SplittingMixes`).
- Toggling an emoji twice is not the identity for a user who began with another one (`Reactions.ToggleTwice`).
- An invite with an empty part is created but does not parse (`InviteToken.CreateThenParse`); an empty audio
  frame is sent but ignored (`CallAudio.FrameRoundTrip`).
- Unread counts include deleted messages (`StoreRuns.UnreadCountsOmissions`).

## Model

| member | source | states |
|---|---|---|
| `HubRuns.NoClientSeesAGap` | `internal/ws/hub.go:87-104` | In every interleaving with the one deliverer, the topic messages that reached a client's socket, and those that wait in its channel, are a prefix of the messages whose `Deliver` snapshot held it, in publish order and without repetition; an open client outside a delivery has been sent all of them |
| `HubRuns.EarlierArrivesFirst` | `internal/ws/hub.go:93-103` | A client that was sent a message was sent every earlier published message whose snapshot held it, and before it |
| `HubRuns.FirstFailureIsTheLast` | `internal/ws/hub.go:93-103` | From the first failed send to a client on, the topic messages enqueued to it are the same after any further run, whatever happens |
| `HubRuns.VictimIsClosed` | `internal/ws/hub.go:95-103` | And the client is closed and unregistered at the deliverer's next move |
| `HubRuns.ClosedIsFinal` | `internal/ws/client.go:89-97` | Over any further run a closed client's channel is not sent to and not closed again, and a closed hub stays closed with both maps empty |
| `HubRuns.RunKeepsClosed` | `internal/ws/client.go:53-65` | From a state on, only the write pump moves the frames of a client closed there |
| `HubRuns.SnapshotFindsTheSubscribers` | `internal/ws/hub.go:88-92` | The snapshot is exactly the registered clients that hold the topic at that moment |
| `HubRuns.FanOutIsConserved` | `internal/ws/hub.go:93-103` | Whenever no delivery is in progress, delivered plus dropped is the sum of all snapshot sizes; the broker has lost and reordered nothing; until `Close` the gauge is the number of registered clients |
| `HubProgress.PublishedIsAccepted` | `internal/broker/memory.go:20-33` | A message is accepted exactly while the broker is open and has room, as it was given and behind all before it |
| `HubProgress.SendReachesTheOpen` | `internal/ws/hub.go:93-103` | The deliverer's send reaches an open client with room, behind all that waits; any other client becomes its victim |
| `HubProgress.DelivererFinishes` | `internal/ws/hub.go:87-104` | From every state the deliverer can go on until every message published has found its clients, and nobody who is open and has a buffer need be dropped |
| `HubProgress.EverythingCanArrive` | `internal/ws/hub.go:87-104` | From every state deliverer and pumps can bring an open client with a buffer exactly the messages whose snapshot holds it, in order, onto its socket |
| `HubProgress.PumpsEmpty` | `internal/ws/client.go:53-65` | The write pump empties a channel first in, first out |
| `HubProgress.ErrorIsQueued` | `internal/ws/client.go:45-65` | An error frame waits behind all that waits, if the client is open and has room |
| `HubRuns.IndexHoldsInEveryRun` | `internal/ws/hub.go:39-85` | After any run a client stands under a topic exactly if it is registered and holds the topic; no topic is empty, no registered client is closed, no queue exceeds its buffer |
| `HubHistory.HubFollowsTheCalls` | `internal/ws/hub.go:39-85` | In every run the hub knows of each client exactly what its own calls say: registered, with its user and buffer, from its first connection to an open hub until it disconnects, is dropped or the hub closes, and found under exactly the topics it came with or added and has not dropped since |
| `HubHistory.SubscriberIsInEverySnapshot` | `internal/ws/hub.go:66-92` | After a registered client has subscribed, every snapshot for the topic holds it until it drops the topic, disconnects, is dropped, or the hub closes |
| `HubHistory.SubscribeSubscribes` | `internal/ws/hub.go:66-75` | A registered client holds the topic and is found under it; all else is as before |
| `HubHistory.UnsubscribeUnsubscribes` | `internal/ws/hub.go:77-85` | A registered client no longer holds the topic and is not found under it; all else is as before |
| `HubHistory.RegisterRegisters` | `internal/ws/hub.go:39-51` | A new client is found under exactly its topics, or closed if the hub is; all else is as before |
| `HubHistory.UnregisterUnregisters` | `internal/ws/hub.go:53-64` | A registered client is closed and found nowhere; all else is as before |
| `HubHistory.CloseCloses` | `internal/ws/hub.go:140-149` | Everybody registered is closed, with what waits for him, and nobody is found any more |
| `HubRuns.RunKeepsInv` | `internal/ws/hub.go:39-162` | The invariant behind these: index, queues, broker order, known clients, conservation, and the prefix relation for every client |
| `HubRuns.IncludedIsAscending` | `internal/broker/memory.go:20-33` | What a client should get is in the broker's accept order, each message once |
| `HubModel.IndexIsExact` | `internal/ws/hub.go:151-162` | Both directions of the index agree |
| `HubModel.RegisterKeepsInv` | `internal/ws/hub.go:39-51` | Registering keeps the hub's invariant; on a closed hub the client is closed and not entered |
| `HubModel.UnregisterKeepsInv` | `internal/ws/hub.go:53-65` | Unregistering keeps it, and closes the channel once |
| `HubModel.SubscribeKeepsInv` | `internal/ws/hub.go:67-75` | Subscribing keeps it |
| `HubModel.UnsubscribeKeepsInv` | `internal/ws/hub.go:77-85` | Unsubscribing keeps it and drops a topic that has become empty |
| `HubModel.CloseKeepsInv` | `internal/ws/hub.go:140-149` | Closing keeps it: every registered client is closed and both maps are emptied |
| `HubModel.SendKeepsInv` | `internal/ws/client.go:53-65` | A send keeps it: nothing is sent on a closed or full channel |
| `HubModel.UnsubscribeUndoesSubscribe` | `internal/ws/hub.go:67-85` | Unsubscribing takes back a subscription the client did not have before, to the same maps |
| `HubModel.DeliverToOneMore` | `internal/ws/hub.go:93-103` | Serving the subscribers one by one adds up to serving them as a set: those with room get the message, the others are closed and removed |
| `Hub.Client.SendPayload` | `internal/ws/client.go:53-65` | Appends to the queue exactly if the client is open and has room, and reports that |
| `Hub.Client.Close` | `internal/ws/client.go:89-97` | Closes once, and a second call changes nothing |
| `Hub.Client.Topics` | `internal/ws/client.go:79-87` | Copies the client's own topics, nothing else |
| `Hub.Hub.Register` | `internal/ws/hub.go:39-51` | The hub's and the client's state afterwards are the model's registration, its loop over initial topics included |
| `Hub.Hub.Unregister` | `internal/ws/hub.go:53-65` | Likewise for unregistering, with its loop over the client's topics |
| `Hub.Hub.Subscribe` | `internal/ws/hub.go:67-75` | Likewise; an unregistered client is left alone |
| `Hub.Hub.Unsubscribe` | `internal/ws/hub.go:77-85` | Likewise |
| `Hub.Hub.SubscribeLocked` | `internal/ws/hub.go:151-156` | Enters a client under a topic, which it creates if need be |
| `Hub.Hub.UnsubscribeLocked` | `internal/ws/hub.go:158-167` | Takes a client from under a topic and deletes the topic with its last client |
| `Hub.Hub.Close` | `internal/ws/hub.go:140-149` | The state afterwards is the model's closed hub; the gauge is left as it is |
| `Hub.Hub.Snapshot` | `internal/ws/hub.go:88-92` | Lists each subscriber of the topic once |
| `Hub.Hub.Deliver` | `internal/ws/hub.go:87-104` | Uninterrupted, a delivery serves exactly the subscribers: room means delivered, no room means dropped and unregistered, with the metrics to match |
| `Hub.Hub.HasUserSubscription` | `internal/ws/hub.go:126-138` | True exactly if some client under the topic belongs to the user |
| `Hub.Memory.Publish` | `internal/broker/memory.go:20-33` | Appends to the channel, or reports closed, cancelled or full without changing anything |
| `Hub.Memory.Take` | `internal/broker/memory.go:35-47` | Takes the oldest message; a closed broker still hands out what it holds |
| `RefreshRuns.TokenRefreshesOnce` | `internal/auth/service.go:311-346` | However any number of calls interleave, a refresh token is consumed by at most one successful refresh |
| `RefreshRuns.RotationsFormOneChain` | `internal/auth/store.go:246-257` | A session's rotations form one chain: each consumed exactly the secret issued by the one before, the first that of the login, and the store holds the hash of the last |
| `RefreshRuns.RevocationIsFinal` | `internal/auth/store.go:219-244` | After a revocation, in any further run, the session keeps its revocation time, is rotated no more, and none of its access tokens verifies, not even one a refresh in flight still hands out |
| `RefreshRuns.RunKeepsRevoked` | `internal/auth/store.go:219-257` | A revoked session stays as it was, over every further run |
| `RefreshRuns.TokenVerifiesExactly` | `internal/auth/service.go:452-499` | In any run a token is accepted exactly until its own life ends, or that of its session as it was when the token was made, and while the session is not revoked |
| `SessionHistory.SessionFollowsTheCalls` | `internal/auth/store.go:168-246` | In every run the store knows a session exactly if a login opened it, with that login's owner and time, and as revoked exactly since the first call of its owner, or of a refresh that found a used token, that revoked it |
| `SessionHistory.TokenFollowsTheCalls` | `internal/auth/service.go:452-513` | A token handed out is its login's owner's and verifies exactly while it lasts and no call has revoked the session |
| `SessionHistory.AcceptedNamesALiveSession` | `internal/auth/service.go:452-513` | Whatever claims are presented, accepted ones with a user name a session that their subject opened, that no call revoked and that has not expired |
| `SessionHistory.OthersAreLoggedOut` | `internal/auth/store.go:233-244` | After a user ends his other sessions none of their tokens verifies, in any further run |
| `SessionHistory.KeptStaysLoggedIn` | `internal/auth/store.go:233-244` | At that moment claims for the session kept and for other users are judged as before |
| `SessionHistory.RevokeOthersRevokes` | `internal/auth/store.go:233-244` | Exactly the user's sessions but the one kept are revoked, now unless they were before; nothing else changes |
| `SessionHistory.RevokeRevokes` | `internal/auth/store.go:219-231` | Only the owner can revoke a session, which keeps an earlier time of revocation; no other session changes |
| `SessionHistory.CreateStores` | `internal/auth/store.go:168-179` | What a complete draft becomes, created now unless it says otherwise; no other session changes |
| `SessionHistory.CurrentTokenRefreshes` | `internal/auth/service.go:311-346` | A refresh with the current token of a live session that nothing stops ends with the new secret, a new life, one more rotation, and an access token of the owner |
| `SessionHistory.OnlyLiveSessionsRefresh` | `internal/auth/service.go:311-346` | In every run a refresh that rotated had read its session from the store and found it, at a later check, neither revoked nor expired and its token the current one |
| `SessionHistory.FailureIsTold` | `internal/auth/service.go:311-346` | What each way to fail is reported as: a missing, revoked or overtaken session, an expired one, and a missing user |
| `SessionHistory.LoginIsCurrent` | `internal/auth/service.go:552-575` | A login stores a live session with the secret drawn and hands out its owner's access token |
| `RefreshRuns.SupersededTokenIsCaught` | `internal/auth/service.go:311-346` | A call that arrives with a rotated-away token can never succeed, and once it reports reuse the session is revoked |
| `RefreshRuns.MismatchRevokes` | `internal/auth/service.go:324-327` | A call that read a live session with a token that does not match revokes it, whatever happened since |
| `RefreshRuns.RunKeepsInv` | `internal/auth/service.go:311-346` | The invariant behind these: chain, freshness, rotation log, what each call has seen, expiry |
| `RefreshRuns.LoginCreates` | `internal/auth/service.go:552-568` | What a login stores is what the session store makes of a complete draft |
| `Sessions.MemorySessionStore.CreateSession` | `internal/auth/store.go:168-179` | Stores the session under its id, over any that was there, with the creation time filled in; a draft without id, user, hash or expiry is refused and changes nothing |
| `Sessions.MemorySessionStore.GetSession` | `internal/auth/store.go:196-204` | Hands out the session as stored |
| `Sessions.MemorySessionStore.RevokeSession` | `internal/auth/store.go:219-231` | Sets the revocation time of the owner's session once |
| `Sessions.MemorySessionStore.RevokeOtherSessions` | `internal/auth/store.go:233-244` | Revokes all live sessions of the user but one, and no one else's |
| `Sessions.MemorySessionStore.RotateRefreshToken` | `internal/auth/store.go:246-257` | Compare and swap: only a live session with the old hash gets the new hash and expiry |
| `Sessions.Service.Refresh` | `internal/auth/service.go:311-346` | A refresh nobody interferes with: which of its failures it reports, in which order, and the new store and token when it succeeds |
| `Sessions.RefreshTokenRoundTrip` | `internal/auth/service.go:663-672` | A refresh token parses back to its halves exactly when the id has no dot and neither half is empty |
| `Sessions.CutAtFirstDot` | `internal/auth/service.go:667-672` | The cut is at the first dot |
| `StoreRuns.ReadByIsTheWatermark` | `internal/zk/store.go:592-625` | In every reachable state a member has read a message of another exactly when the member's room watermark is at or after its creation, although the message's own record is looked up first |
| `StoreRuns.UnreadCountsOmissions` | `internal/zk/store.go:797-809` | A member's unread count is the number of others' messages, deleted ones included, whose ReadBy omits the member |
| `StoreRuns.ReadFlagIsExact` | `internal/zk/store.go:621-624` | The read flag is up exactly if at most none, or once the sender has left at most one, of the other members is missing; while the sender is a member it means all others have read |
| `Shortfalls.ReadFlagWithoutSender` | `internal/zk/store.go:621-624` | A run after which the sender has left, one member has not read, and the flag is up |
| `StoreRuns.NormalizeMembersIsGood` | `internal/zk/store.go:815-831` | Members become sorted and duplicate-free, and exactly the non-empty ids stay |
| `StoreCalls.MessageFollowsItsCalls` | `internal/zk/store.go:360-454` | In every run a room's log holds exactly the messages that the calls for them have left there: each as its one append and its own later edits and deletions made it |
| `StoreCalls.RoomFollowsItsCalls` | `internal/zk/store.go:215-358` | In every run a room has the name, secret and time of the call that created it, and as members those who came and have not left since, once each and sorted |
| `StoreCalls.ReaderFollowsHisCalls` | `internal/zk/store.go:456-530` | In every run a reader's records are the times of his own last calls, and his reaction is what his own toggles on an undeleted message left |
| `StoreCalls.ReceiptsFollowTheCalls` | `internal/zk/store.go:592-625` | With each reader shown stands the time of his last call that marked this message, or else of his last call for the room |
| `StoreCalls.EditStores` | `internal/zk/store.go:386-427` | An edit succeeds exactly for the sender's own undeleted message and an acceptable payload, gives it exactly that payload and the time, and leaves the rest of it and all else alone |
| `StoreCalls.AppendStores` | `internal/zk/store.go:360-384` | A message is stored behind all others of its room exactly as it was sent, if its payload is acceptable and the room exists |
| `StoreCalls.DeletionMarks` | `internal/zk/store.go:429-454` | A deletion marks the sender's own message and changes nothing else |
| `StoreCalls.StoredIsReturned` | `internal/zk/store.go:215-257` | What is handed back is the room, or the message, as it is stored |
| `StoreRuns.RunKeepsInv` | `internal/zk/store.go:215-530` | After any run members are duplicate-free, each message knows its room and place, and its own read records lie between its creation and the room's record |
| `StoreRuns.ShownReadByMeansHasRead` | `internal/zk/store.go:592-625` | A member is in the ReadBy shown exactly if he is a member and has read |
| `StoreRuns.EveryMemberCounts` | `internal/zk/store.go:595-624` | Readers, members still missing and the sender add up to the members |
| `MemoryStore.MemoryStore.CreateRoom` | `internal/zk/store.go:215-257` | Creates a room, or joins new members to one whose secret fits; otherwise a bad request |
| `MemoryStore.MemoryStore.AddRoomMember` | `internal/zk/store.go:290-308` | Adds a member once, in order |
| `MemoryStore.MemoryStore.LeaveRoom` | `internal/zk/store.go:337-358` | Takes the member out and keeps the others in order |
| `MemoryStore.MemoryStore.AppendMessage` | `internal/zk/store.go:360-384` | Appends to the room's log, or reports a bad payload or missing room |
| `MemoryStore.MemoryStore.UpdateMessage` | `internal/zk/store.go:386-427` | Replaces payload and edit time of the sender's own, undeleted message, and hands out the decorated copy |
| `MemoryStore.MemoryStore.DeleteMessageForAll` | `internal/zk/store.go:429-454` | Sets the deletion time of the sender's own message |
| `MemoryStore.MemoryStore.ToggleMessageReaction` | `internal/zk/store.go:456-488` | Toggles the user's reaction on an undeleted message |
| `MemoryStore.MemoryStore.MarkRoomRead` | `internal/zk/store.go:504-530` | Sets the room's watermark and a record on each of the others' undeleted messages |
| `MemoryStore.MemoryStore.ListMessages` | `internal/zk/store.go:532-557` | Hands out the decorated page before the cursor, of at most the limit |
| `MemoryStore.MemoryStore.GetMessageCreatedAt` | `internal/zk/store.go:559-569` | The creation time, or not found |
| `MemoryStore.MemoryStore.DecorateReadState` | `internal/zk/store.go:592-625` | ReadBy and receipts sorted, and the flag by counting |
| `MemoryStore.MemoryStore.UnreadCount` | `internal/zk/store.go:797-809` | Counts the others' messages after the watermark |
| `MemoryStore.DecorateReactions` | `internal/zk/store.go:627-640` | Counting, listing and sorting gives the one strictly sorted tally of the users' emojis, with positive counts |
| `MemoryStore.NormalizeMemberList` | `internal/zk/store.go:815-831` | The loop over a seen-set gives the normalised list |
| `Reactions.CountsAddUp` | `internal/zk/store.go:627-640` | The counts of the shown reactions add up to the number of users who reacted |
| `Reactions.ShownIsUnique` | `internal/zk/store.go:627-640` | Strict order and exact counts leave only one list to show |
| `Reactions.ShownExactlyIfHeld` | `internal/zk/store.go:627-640` | An emoji is shown exactly if some user holds it |
| `Reactions.ToggleTwice` | `internal/zk/store.go:474-482` | Toggling twice is the identity exactly when the user began with no reaction or with that emoji |
| `Reactions.ToggleMovesOneUser` | `internal/zk/store.go:474-482` | A toggle changes the holders of an emoji by the one user at most |
| `Paging.PagingIsComplete` | `internal/api/router.go:1210-1234` | If creation times grow strictly along the log, each fetch finds its cursor at a boundary, so paging ends with the whole room |
| `Paging.PagingIsCompleteExactlyIfItFits` | `internal/api/router.go:1210-1234` | On any growing log: asking for older pages while there is more ends, with every message of the room as of the first fetch exactly once and in order, exactly if each fetch finds its cursor at a boundary, though others append and edit in between |
| `PagingRuns.PagingThroughARun` | `internal/api/router.go:1210-1234` | In every run of the store, a client whose fetches fall anywhere between the calls of others gets every message of the room as of its first fetch exactly once and in order, exactly if each fetch finds its cursor at a boundary; so it does if creation times grow strictly |
| `PagingRuns.StepExtends` | `internal/zk/store.go:360-454` | Whatever call comes, a room's log only grows at its end, and its messages keep their ids and creation times |
| `Paging.HasMoreIsExact` | `internal/api/router.go:1224-1233` | On any log with unique ids, `hasMore` is true exactly when something not on the page is left before a message that the cursor admits, and always when an older message is not on the page |
| `Paging.OlderIfNeverFalling` | `internal/api/router.go:1224-1233` | If times never fall, `hasMore` is true exactly when an older message is not on the page, and all on the page are before the cursor |
| `Paging.ServeIsASlice` | `internal/zk/store.go:532-557` | A page is a slice of the log ending at the cursor |
| `Paging.AnyLimit` | `internal/zk/store.go:532-557` | Every limit gives a slice that ends at the cursor, as long as asked for, or a hundred if that is not between one and five hundred |
| `Paging.NextPageFits` | `internal/api/router.go:1210-1234` | On any log, the next page ends where this one begins exactly if the message before this page is strictly older than its first and no later message is older than that; if times never fall, those of equal time before it are otherwise on no later page |
| `Paging.OneInFiftyOneIsLost` | `internal/api/router.go:1210-1234` | Of fifty-one messages none of which is older than the second, as with equal times or two crossed appends, the first is on no page |
| `Paging.ContextEndsAtTarget` | `internal/api/router.go:1236-1259` | On any log, a context page ends at its target exactly when no message behind it was created before the end of the microsecond that follows it; so with whole microseconds that grow strictly |
| `Shortfalls.ContextGoesPastItsTarget` | `internal/api/router.go:1236-1259` | A run in which two appends cross, and the context page of the first goes past it, though times are whole microseconds and nothing was created in the microsecond after it |
| `Paging.HandleListEncryptedMessages` | `internal/api/router.go:1210-1234` | The handler's page: one more than fifty is asked for and cut off again |
| `Paging.HandleMessageContext` | `internal/api/router.go:1236-1259` | The handler's context page of thirty, or not found |
| `ClientPaging.ClientEndsWithTheRoom` | `frontend/src/hooks/useMessages.ts:169-201` | Cursor, page and merge together: if each fetch finds its cursor at a boundary, loading ends, and the client then holds each message of the room as of its first fetch once, with a content some fetch found |
| `ClientPaging.ClientEndsWithTheRoomExactlyIfItFits` | `frontend/src/hooks/useMessages.ts:169-201` | If times never fall, the client ends with the whole room in the order of the log exactly if each fetch finds its cursor at a boundary |
| `ClientPaging.ClientListIsThePages` | `frontend/src/hooks/useMessages.ts:144-201` | On logs whose times never fall, the cursor over all that is held and the merge by id give, fetch by fetch, exactly the pages one gets by the cursor of the last page |
| `ClientPaging.OneMorePage` | `frontend/src/hooks/useMessages.ts:169-201` | A load that finds its cursor at a boundary reaches a page further back, or the start of the room, and knows which |
| `ClientPaging.OldestIsFirst` | `frontend/src/hooks/useMessages.ts:146-152` | The cursor, computed in milliseconds, is the time of the first message held |
| `ClientPaging.MergePagesHolds` | `frontend/src/hooks/useMessages.ts:154-159` | Merging pages keeps every id once, in order, and a copy already held wins |
| `ClientPaging.OlderPageGoesInFront` | `frontend/src/hooks/useMessages.ts:154-159` | A page of older, other messages is put in front unchanged |
| `ClientPaging.MergeMessagePages` | `frontend/src/hooks/useMessages.ts:154-159` | The two loops over a `Map` and the sort compute that merge |
| `ClientPaging.OldestPagedMessageAt` | `frontend/src/hooks/useMessages.ts:146-152` | The loop computes the cursor |
| `EndToEnd.PagesAndLiveMakeTheLog` | `frontend/src/hooks/useMessages.ts:169-274` | A client pages through a room during any store run with spaced changes, each fetch finding its cursor at a boundary, and gets live events, among them the current content of each message written or changed since its first fetch: loading ends, and its list is a permutation of the room's log, and the log itself exactly if messages of one millisecond first arrived in order |
| `EndToEnd.IncreasingFits` | `internal/zk/store.go:372-383` | In a run whose creation times grow strictly along the log, each fetch finds its cursor at a boundary |
| `EndToEnd.UnchangedAllAlong` | `internal/zk/store.go:386-454` | With spaced changes, a message that is at the end of a run what it was at a fetch was found the same by every fetch between |
| `ClientMerge.MergeIsNewest` | `frontend/src/hooks/useMessages.ts:249-274` | The merge keeps exactly one entry for each id of the room that arrived, a copy that did arrive, of the greatest version, sorted by creation |
| `ClientMerge.PutAllIsNewest` | `frontend/src/hooks/useMessages.ts:251-261` | Last writer wins by version, over any arrivals |
| `ClientMerge.PutAllIsByArrival` | `frontend/src/hooks/useMessages.ts:249-261` | The map keeps its ids in the order in which they first arrived |
| `ClientMerge.MergeKeepsLast` | `frontend/src/hooks/useMessages.ts:249-274` | Of the copies of one version the merge keeps the reactions that came last, and is read exactly if one is that has come since with these reactions |
| `ClientMerge.SignatureTells` | `frontend/src/types/messenger.ts:88-90` | The reaction signature tells emojis and counts, unless an emoji reads as an entry, a bar and another emoji |
| `ClientMerge.SplittingMixes` | `frontend/src/types/messenger.ts:88-90` | Every such emoji has the signature of two others |
| `ClientMerge.EncryptedMessages` | `frontend/src/hooks/useMessages.ts:249-274` | The loops over pages and live events compute the merge; in context mode live events stay out |
| `Convergence.NewestWinsExactlyIfSpaced` | `frontend/src/hooks/useMessages.ts:249-274` | For every store run: in the merge of any copies of its contents, in any order, with any reactions and read flags, no copy is newer than what is shown, if and only if each edit and deletion that altered anything came in a later millisecond than the message's last change |
| `Convergence.NewestCopyWins` | `frontend/src/hooks/useMessages.ts:249-274` | For copies from one store run the merge keeps one entry for each id of the room that arrived, one of the copies; with spaced changes it is the newest of them |
| `Convergence.ClientShowsTheLog` | `frontend/src/hooks/useMessages.ts:249-274` | With spaced changes, once a copy of each current content has arrived, the client's list is a permutation of the room's log, ordered by millisecond of creation and then by first arrival; it is the log itself if and only if the log is in that order |
| `Convergence.ShownIsInOrder` | `frontend/src/hooks/useMessages.ts:273` | The list is ordered by millisecond of creation, and within one by first arrival, and holds no message twice |
| `Convergence.OrderDoesNotMatter` | `frontend/src/hooks/useMessages.ts:249-274` | With spaced changes, two clients with the same contents agree on each message, whatever the order of arrival |
| `History.ContentsFollow` | `internal/zk/store.go:386-454` | Over every run the contents of a message keep its id, room, sender and creation time, its time of change never falls, and a deleted one is not edited |
| `History.RisingExactlyIfSpaced` | `frontend/src/types/messenger.ts:84-86` | Versions rise with every new content of a message in a run exactly if its changes are spaced |
| `Convergence.EditArrivesExactlyIfLater` | `frontend/src/hooks/useMessages.ts:251-261` | An edit takes the place of every copy of the old content, whatever the two copies' reactions and read flags and whichever is put first, if and only if it changes nothing or came in a later millisecond; if not, a copy of the old content with another reaction overwrites it |
| `Convergence.DeletionArrivesExactlyIfLater` | `frontend/src/hooks/useMessages.ts:251-261` | The same of a deletion |
| `Convergence.LastOfOneVersionStays` | `frontend/src/hooks/useMessages.ts:251-261` | Of two copies of one version with different reactions the last one put is kept, whichever content it holds |
| `Shortfalls.OldReplacesNew` | `frontend/src/hooks/useMessages.ts:249-274` | A run with an edit in the millisecond of writing, and two copies as the store served them, of which the older replaces the newer |
| `History.RunKeepsHistory` | `internal/zk/store.go:360-454` | The log holds the last content recorded of each message |
| `DecryptCache.ShownIsDecodedAfresh` | `frontend/src/hooks/useMessages.ts:291-377` | For one user or several with plain ids: after every sequence of updates, resets and cancelled or completed runs each place of the list shows its message's ids, times, read flag and delivery status, the body the decoder gives or a failure, and a copy's readers and reactions of the same signature, exactly if copies that the key does not tell apart are decoded alike |
| `DecryptCache.OldOneStays` | `frontend/src/hooks/useMessages.ts:316-376` | Of two copies that the key does not tell apart, fed one after the other, the first stays on the screen, with its own times, body and readers |
| `DecryptCache.SettledIsLatest` | `frontend/src/hooks/useMessages.ts:316-376` | The list shown belongs to the last update, unless the run for it is still in flight |
| `DecryptCache.FinishSettles` | `frontend/src/hooks/useMessages.ts:358-371` | When the run in flight completes, the list is that of the last update, and what was decoded in it has its own readers, receipts and reactions |
| `DecryptCache.KeyTells` | `frontend/src/hooks/useMessages.ts:301-304` | For one user, or ids without a colon, cache keys are equal exactly if version, reaction signature, read flag and user are |
| `DecryptCache.KeysCanMix` | `frontend/src/hooks/useMessages.ts:301-304` | With a colon in a user's id, which the store does not draw, two different keys could be one text |
| `DecryptCache.CopiesOfARunAreConsistent` | `frontend/src/types/messenger.ts:84-86` | Copies from a store run with spaced changes meet that condition, for any decoder |
| `DecryptCache.RunKeepsInv` | `frontend/src/hooks/useMessages.ts:291-377` | Every cache entry was decoded from a copy that was fed, under its key |
| `DecryptCache.Decrypted.Effect` | `frontend/src/hooks/useMessages.ts:291-376` | The effect with its filter loop starts a run, or shows the cached list |
| `DecryptCache.Decrypted.Restart` | `frontend/src/hooks/useMessages.ts:128-138` | Clearing the cache and then running the effect is the reset of the runs |
| `DecryptCache.Decrypted.CompleteRun` | `frontend/src/hooks/useMessages.ts:361-371` | A run that completes fills the cache and composes the list from it |
| `OptimisticSend.EachDraftShowsOnce` | `frontend/src/hooks/useMessages.ts:429-452` | Under any interleaving of acceptance, HTTP success and failure, decoding and pruning, each submitted draft shows exactly one bubble, the decoded one as soon as there is one |
| `OptimisticSend.DisplayIs` | `frontend/src/hooks/useMessages.ts:429-452` | Exactly which pending and decoded messages are displayed, one for each id |
| `SendHistory.BubbleFollowsTheDraft` | `frontend/src/hooks/useMessages.ts:509-663` | The one bubble of a draft is its decoded message once there is one; until then it shows what was written, with the status and id that the answers so far give it |
| `SendHistory.BubblesAreInOrder` | `frontend/src/hooks/useMessages.ts:429-452` | In every reachable state bubbles stand by millisecond of creation, and within one pending ones first and each kind as in its own list |
| `OptimisticSend.RunKeepsInv` | `frontend/src/hooks/useMessages.ts:419-547` | A draft is always pending or decoded, and never pending twice |
| `OptimisticSend.Outbox.DisplayMessages` | `frontend/src/hooks/useMessages.ts:429-452` | The three loops compute the display |
| `OptimisticSend.Outbox.SubmitMessage` | `frontend/src/hooks/useMessages.ts:614-663` | When a draft is taken, and the pending entry it adds |
| `OptimisticSend.Outbox.OnSuccess` | `frontend/src/hooks/useMessages.ts:509-528` | The context window is left, only the answered draft gets the server's id, and the message joins the last 200 live events unless its id is there |
| `OptimisticSend.LiveHoldsMessage` | `frontend/src/hooks/useMessages.ts:524-528` | Afterwards the live events hold the message's id once, and nothing new but the message |
| `OptimisticSend.Outbox.OnError` | `frontend/src/hooks/useMessages.ts:541-546` | Only the failed draft is marked |
| `OptimisticSend.Outbox.PruneConfirmed` | `frontend/src/hooks/useMessages.ts:419-427` | Drops exactly the sent entries whose id is decoded |
| `PlainMessage.PlainIsReadByAll` | `frontend/src/lib/crypto.ts:90-110` | A plain message is accepted by the store's check and decodes to what was written, whatever secret the reader has |
| `PlainMessage.SealedIsReadByHolders` | `frontend/src/lib/crypto.ts:75-122` | An encrypted message is read by everyone with the same secret and by nobody without one |
| `RateLimiter.NeverMoreThanLimit` | `internal/api/router.go:2001-2019` | No half-open interval of the window's length, open at either end, holds more than `limit` granted requests of an address |
| `RateLimiter.RefusedExactlyWhenFull` | `internal/api/router.go:2013-2019` | A request is refused exactly when its address has had `limit` granted within the window; other addresses are untouched |
| `RateLimiter.ListIsRecentHistory` | `internal/api/router.go:2005-2012` | The pruned list is the address's full granted history cut to the window |
| `RateLimiter.KeptTwice` | `internal/api/router.go:2007-2012` | Pruning what was pruned before loses nothing that a later prune would keep |
| `RateLimiter.Compact` | `internal/api/router.go:2007-2012` | Compaction in place: the kept times move to the front in order, and no place is overwritten before it is read |
| `RateLimiter.IpRateLimiter.Allow` | `internal/api/router.go:2001-2019` | The answer and the lists of all addresses afterwards, with the slices' buffers kept apart |
| `CallAudio.FrameRoundTrip` | `frontend/src/components/MessengerApp.tsx:805-853` | Sample rate and every 16-bit integer of a frame come back through Base64; a rate beyond 32 bits is cut; an empty frame is ignored |
| `CallAudio.QuantizingError` | `frontend/src/components/MessengerApp.tsx:809-811` | A sample in [-1, 1] comes back within 1/32768, within 1/65536 unless clamped, and only the top half-step is clamped |
| `CallAudio.QuantizingIsExact` | `frontend/src/components/MessengerApp.tsx:852-853` | Every 16-bit value survives the way to a float and back |
| `CallAudio.FadeOnlySoftens` | `frontend/src/components/MessengerApp.tsx:855-860` | The fade raises no magnitude, turns no sign, touches two disjoint ends only, and is silent at both ends |
| `CallAudio.Fade` | `frontend/src/components/MessengerApp.tsx:855-860` | The loop, which scales both ends in place, scales each sample once |
| `CallAudio.Chunk` | `frontend/src/components/MessengerApp.tsx:805-832` | The loops over samples and over steps of 8192 bytes build the frame's Base64 |
| `CallAudio.ChunksDoNotCollide` | `frontend/src/components/MessengerApp.tsx:869-893` | For chunks of one rate in order, starts are not before now, never fall, and two unclipped chunks start at least a chunk apart, also across re-anchoring |
| `CallAudio.PlaysFromItsAnchor` | `frontend/src/components/MessengerApp.tsx:869-893` | For any arrivals at any rates, a chunk plays at its distance from the last one at which the rate changed or that was over half a second late, which plays a quarter of a second after it came; or at once |
| `CallAudio.EpochOnlyMovesLater` | `frontend/src/components/MessengerApp.tsx:874-888` | Re-anchoring moves the epoch's start only later |
| `CallAudio.ClippedExactlyIfLate` | `frontend/src/components/MessengerApp.tsx:882-893` | A chunk is clipped to now exactly if it is late by no more than half a second |
| `CallAudio.Playout.Append` | `frontend/src/components/MessengerApp.tsx:869-893` | The scheduling step on the epoch ref |
| `Base64Url.UrlRoundTrip` | `frontend/src/lib/crypto.ts:178-194` | Every byte string comes back from its URL-safe text |
| `Base64Url.PaddingIsRestored` | `frontend/src/lib/crypto.ts:186-188` | The padding computed from the length is the padding taken off |
| `Base64Url.OutputIsUrlSafe` | `frontend/src/lib/crypto.ts:178-184` | Only letters of the URL-safe alphabet, and a length that is never 1 modulo 4 |
| `Base64Url.DecodingIsUndone` | `frontend/src/lib/crypto.ts:186-194` | A URL-safe text is what its bytes encode to exactly when its last letter wastes no bits |
| `Base64Url.EncodedIsPacked` | `frontend/src/types/messenger.ts:101-106` | Removing every `=` and removing those at the end give the same text |
| `Base64Url.AtobOfBtoa` | `frontend/src/lib/crypto.ts:178-194` | `atob` undoes `btoa` |
| `Base64Url.EncodeBytes` | `frontend/src/lib/crypto.ts:178-184` | The loop over the bytes computes the encoding |
| `Base64Url.DecodeText` | `frontend/src/lib/crypto.ts:186-194` | The loop fills an array with the decoded bytes, or `atob` throws |
| `InviteToken.CreateThenParse` | `frontend/src/types/messenger.ts:115-134` | A token parses back to its room and secret, and to nothing exactly if one of them was empty |
| `Text.TrimTakesOff` | `frontend/src/types/messenger.ts:119-121` | What is blank on either side comes off, and nothing else does |
| `InviteToken.LegacyReads` | `frontend/src/types/messenger.ts:128-129` | The older `room:secret` form: exactly which pair is read from a text |
| `Totp.TruncateIsBigEndian` | `internal/auth/service.go:721-725` | For every 20-byte MAC the cut stays inside, and OR-ing the shifted bytes is their big-endian sum below 2^31 |
| `Totp.CodeIsSixDigits` | `internal/auth/service.go:726` | A code is exactly six digits that tell the truncated number modulo a million |
| `Totp.CodeIsOfItsCounter` | `internal/auth/service.go:711-727` | There is a code exactly for a key that decodes, and it is the one text whose six digits are the truncation of the MAC of the counter's eight bytes |
| `Totp.CodeLivesThirtySeconds` | `internal/auth/service.go:692-709` | The code of time t, with any white space around it, is accepted at every time within thirty seconds of t |
| `Totp.ValidateTotp` | `internal/auth/service.go:692-709` | Accepts exactly the texts that are the six digits of the truncated MAC of one of three adjacent counters' bytes; what the form check rejects is never one |
| `Totp.CountersAreClose` | `internal/auth/service.go:702-703` | The counter is the number of whole periods, with division towards zero; times within a period have adjacent counters and times two periods apart do not |
| `Totp.BigEndianTells` | `internal/auth/service.go:716-717` | The eight counter bytes tell the counter modulo 2^64 |
| `Totp.MaskIsRemainder` | `internal/auth/service.go:721-725` | Masking with low ones keeps the remainder |
| `Totp.OrIsSum` | `internal/auth/service.go:722-725` | OR of numbers that share no bit is their sum |

## Left out

- HTTP routing, middleware, cookies, CORS and headers around the handlers: plumbing.
- The Postgres, Redis, S3 and Web Push implementations: their semantics are not in the repository.
- JSON, UTF-8, AES-GCM, bcrypt, SHA and HMAC themselves: parameters, as said above.
- React rendering, scrolling, microphone capture, AudioContext and WebRTC set-up, call states in the UI.
- Renaming a room, device data of sessions, friends, identities, call logs, attachments lists, push preferences, themes, configuration: they would add only easy members.
- White-space trimming and lower-casing of ids in the stores: ids are taken as normalised.
- Id collisions, failures of the random source and of JSON encoding: taken not to happen.
- Topics of rooms and the rules of who may subscribe: the hub is modelled for any topics.
- A send channel without a buffer (`WS_CLIENT_BUFFER=0`): a hand-over to a pump that is just receiving is not modelled; such a client counts as full.
- Hub.Hub.Register: is for a client that is not registered, as the connection handler registers each one once; a second time would count it twice in the gauge.
- Slices and maps shared between the store and its callers: what is handed out is a copy.
- ClientPaging.ClientEndsWithTheRoom: where times fall, the condition is shown to be enough only. The client's cursor is the oldest time it holds, not that of its first message, so it can go on where paging by the first message of the last page would not.
- EndToEnd.PagesAndLiveMakeTheLog: is for the copies that are still held; what falls out of the last 200 live events, and the gap a refetch of the newest page can open, are not part of it.
- Convergence.NewestCopyWins: is about content. Readers, receipts and reactions carry no version, so the last copy put may show older ones.
- DecryptCache.ShownIsDecodedAfresh: is for one room secret, which the cache key does not hold; clearing the cache always comes with a new pass over the list, as both follow from the same change of room or session.
- OptimisticSend.EachDraftShowsOnce: is for one room, outside context mode, and for drafts the user has not deleted for himself. Any number may be in flight, although the client waits for one before it takes the next.
- RateLimiter.IpRateLimiter.Allow: a full buffer is replaced by one of some greater length; how Go grows it is not modelled.
- CallAudio.Fade: samples are reals; the rounding of 32-bit floats in the products is not modelled.
- Message bodies are reduced to text, sender's name and time of sending; attachments and replies ride along unchanged.
- The Int16Array of a frame is taken to be little-endian, as on every platform the client runs on.
- The rarer blanks of Unicode in trimming invite tokens and codes.
