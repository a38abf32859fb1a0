# Proofs about hackline's message plane

hackline connects a cloud gateway to devices over Zenoh. This project models the parts of it whose
correctness depends on order, interleaving or string structure, and proves what they guarantee.
`dafny verify dfyconfig.toml` checks everything.

## What is modelled

**Command outbox and delivery** (`CmdOutbox`, `CmdDelivery`, `CmdInvariants`, `CmdSafety`, `CmdOrder`,
`CmdCancel`, `CmdRedelivery`, `CmdCap`, `CmdPusher`). REST senders commit a row and then notify; one pusher
task lists pending rows, looks each device up, publishes, and marks; acks and cancels change rows meanwhile;
deleting a device cascades; the gateway may die and restart at any point. `CmdOutbox` gives each SQL
statement as a function on the table. `CmdDelivery` is the protocol as a transition system: every clock
reading, statement, notify and await is a step of its own, steps of everyone interleave freely, and each
storage, lookup or publish may fail. A send, an ack or a mark stores a clock reading taken at any earlier
time. `CmdPusher` holds the code itself, loops over a mutable store, and every method is proved to be a run
of the transition system. Between any two awaits of a handler anyone may do anything, the pusher included;
between any two awaits of the pusher everyone else may. Only a crash of the gateway ends both.

**Byte bridge** (`Bridge`, `BridgePumps`, `HostHeader`, `HttpPreamble`). A flow is one direction: near pump,
publisher, channel, far pump, with the moment the far subscriber is declared as explicit state.
`BridgePumps` has the two pump loops, one over a reused buffer. `HttpPreamble` has the read loop that looks
for a Host header and the forwarding of the bytes it consumed.

**Streaming assemblers** (`SseFramer`, `AnthropicStream`, `ClaudeStream`). The CLI's incremental reader
of server-sent events, the Anthropic content-block loop, and the Claude tool-call log.

**Keys** (`Chunks`, `Ids`, `KeyExpr`, `ClientSdk`). All ten key builders, the three parsers, the device
id, the topic and slug validators, and the device side of commands and acks.

**Events** (`EventRing`, `EventPaging`, `Glob`, `GlobExact`, `GlobNul`). Insert-then-prune against a table that is
never pruned, cursor paging while rows come and go, the stream's glob matcher, and its agreement with the
query.

**Caches and accounting** (`RttCache`, `TunnelSessions`, `TunnelTask`). The round-trip-time cache against
the map it stands for; the gauges, counters and audit rows of bridged connections, first as a transition
system over any number of connections, then as the classes and the per-connection method that drive it.

`Seqs` and `Wrappers` hold filtering, counting, `Option` and `Result`; `Utf8` the encoding of text and its
lossy decoding.

## What was found

- **Rowids are reused.** `cmd_outbox.id` is an `INTEGER PRIMARY KEY` without `AUTOINCREMENT`, so SQLite
  hands out the largest present rowid plus one. Cancelling the newest row frees its id.
  `CmdCancel.ReusedRowIdOnTheWire` is a fault-free run that publishes two commands with one rowid.
  `CmdCancel.SendKeepsIdsFreshIff` says exactly which sends keep ids increasing. Publication order is
  therefore stated by commit order, which does hold (`CmdOrder.PublishedInCommitOrder`).
- **No redelivery.** `SCOPE.md` and the SDK's comments promise redelivery until an ack is seen. The code
  lists only rows with `delivered_at IS NULL` and sets it after the first successful publish.
  `CmdRedelivery.NeverRedelivered` is a run to a command published once, un-acked and unexpired, that no
  continuation publishes again. `CmdRedelivery.PublishedAgainIff` is the exact condition: a command can go
  out (again) exactly when the running drain still holds its row or its row is undelivered and unexpired
  at the clock reading the next listing goes by. Whatever fails, it goes out at most once plus once for
  every mark that was lost (`CmdOrder.AtMostOnce`).
- **A cancel can be too late without saying so.** A cancelled command still goes out if the running drain
  had already listed it, and only then (`CmdCancel.CancelledGoesOutIff`).
- **Delivery time can be after ack time.** The clock is read before each UPDATE waits for the database, so an
  ack read early and stored late leaves `ack_at` before `delivered_at`
  (`CmdRedelivery.AckedBeforeDelivered`); `CmdOutbox.AckInOrderIff` says when an ack leaves them in order.
- **The cap counts expired rows.** The comment on `enqueue` limits the refusal to outboxes whose oldest
  pending row has not expired; the code refuses at 1000 un-acked rows whatever their state. Whether pending is
  read as un-acked or as undelivered, the two differ exactly when the outbox is full and its oldest pending
  row has expired (`CmdCap.CommentDiffersIff`); `CmdCap.FullOfExpired` is a run to an outbox of 1000 expired
  rows that refuses.
- **The bridge can lose a beginning, in either direction.** Neither endpoint waits for the other's subscriber:
  the agent acknowledges before it declares its own, and the gateway declares its own only once it has the
  ack. Whatever one endpoint puts before the other has declared is lost, and nothing else is
  (`Bridge.NothingLostIff`, for each direction). Everything delivered is then a contiguous block instead of a
  prefix, as in the runs of `Bridge.LosesABeginning`, the gateway speaking first in one and the device in the
  other; only one of the two directions can lose anything (`Bridge.BridgeIsSafe`). Both deliver prefixes when
  each endpoint declares before the other's first put (`Bridge.NothingAtAllLostIff`).
- **The host is taken before its line ends.** If a read ends inside the Host value, the router routes on
  the part it has (`HostHeader.CutInsideHostValue`); the choice is final exactly when the line was
  terminated (`HostHeader.HostIsFinalIff`).
- **A body byte can cost a request its host.** The parser checks that everything read so far is UTF-8, the
  start of the body included. With a terminated Host line read, the request is refused as having no host
  exactly when that check fails and the headers are over (`HttpPreamble.TerminatedHostRoutedIff`,
  `HttpPreamble.BodyByteLosesHost`).
- **A limit above 1000 stops paging early**, because the handler compares with the unclamped limit
  (`EventPaging.StaticWalkIsCompleteIff`; `EventPaging.LongPageStops` is a limit of 1001 over 1001 events).
- **The two glob matchers differ.** The stream's matcher is said to mirror `GLOB`. On all values without U+0000
  it does so exactly for the patterns without `[` in which every longest run of wildcards is stars only or one
  `?` with stars (`GlobExact.AgreeEverywhereIff`): a `?` is one byte to the one and one character to the other,
  so `?` misses `é` in the stream and `?*` does not (`Glob.AnyByteIsNotAnyChar`). On ASCII values only `[`
  makes a difference (`Glob.GlobAgreesOnAsciiIff`). SQLite's comparison ends at U+0000 and the stream's does
  not, so with such values only patterns that ask for a prefix agree (`GlobNul.AgreeOnAllIff`).
- **A chunk can end inside a character.** The CLI decodes each chunk of an event stream by itself; the text
  it assembles is the text sent exactly when no chunk begins inside a character (`Utf8.ChunksDecodeIff`;
  `Utf8.CutInHalf` is the two halves of one character).
- **Leading empty data lines are dropped.** The CLI joins the data lines of an event with newlines but starts
  only at the first that is not empty (`SseFramer.LinesRoundTripIff`).
- **The cache forgets on overflow.** A `get` differs from the last put within the TTL only when a later put
  threw the whole map away, and then it is a miss (`RttCache.GetIsExact`). A put does so when 4096 keys have
  a fresh last put since the time before; `RttCache.FirstKeyIsForgotten` is 4097 keys put at once.

## Assumptions

One SQL statement or transaction is one atomic step. `Notify` stores one permit. A subscriber's channel is
first-in first-out and receives what is put after it was declared. A version 4 UUID is new. The clock does
not run backwards where a statement says so; in the delivery protocol and the session accounting it is a
shared counter that only grows and that anyone may have read some time before using it. Environments are
scripts of any length given as parameters, so a loop that never ends in the program is a loop over its
script here. JSON decoding is a parameter or a datatype with an undecodable case. The spellings
`Uuid::parse_str` accepts, the semantics of SQLite's `GLOB` and the replacement of bad UTF-8 are modelled
from the documented behaviour of those libraries.

## Model

| member | source | states |
|---|---|---|
| CmdOutbox.PendingAgreesWithStatus | hackline/crates/hackline-gateway/src/db/cmd_outbox.rs:152-163 | the pusher's query returns exactly the rows whose derived status at the same instant is pending, oldest first |
| CmdOutbox.FiltersPartition | hackline/crates/hackline-gateway/src/db/cmd_outbox.rs:127-138 | each row of a device passes exactly one of the three list filters; filter pending means status pending or expired |
| CmdOutbox.PartitionCount | hackline/crates/hackline-gateway/src/db/cmd_outbox.rs:127-138 | the three filtered listings together are the device's rows, none twice |
| CmdOutbox.ListingIsNewestFirst | hackline/crates/hackline-gateway/src/db/cmd_outbox.rs:113-149 | a page is newest first, holds only rows of the device that pass the filter, written out column by column, below the cursor, between 1 and 1000 as the limit says, and what it leaves out is older than all of it |
| CmdOutbox.EnqueueKeeps | hackline/crates/hackline-gateway/src/db/cmd_outbox.rs:63-92 | an accepted insert keeps rowids increasing, command ids unique, and every device within 1000 un-acked rows |
| CmdOutbox.MarkKeeps | hackline/crates/hackline-gateway/src/db/cmd_outbox.rs:165-177 | marking keeps the table invariant, attempts included |
| CmdOutbox.AckKeeps | hackline/crates/hackline-gateway/src/db/cmd_outbox.rs:179-194 | an ack, whenever its clock was read, keeps the table invariant; the COALESCE makes acked imply delivered |
| CmdOutbox.AckInOrderIff | hackline/crates/hackline-gateway/src/db/cmd_outbox.rs:179-194 | an ack leaves the delivery time no later than its own exactly when the row was undelivered or its delivery time was no later than the reading stored |
| CmdOutbox.DeleteKeeps | hackline/crates/hackline-gateway/src/db/cmd_outbox.rs:218-224 | deleting any rows, by cancel or by cascade, keeps the table invariant |
| CmdOutbox.NextRowIdAbove | hackline/crates/hackline-gateway/migrations/V003__cmd_outbox.sql:8 | the next rowid is above every rowid present |
| CmdInvariants.ReachableInv | hackline/crates/hackline-gateway/src/cmd_delivery.rs:92-106 | every reachable state of the protocol satisfies the row, ledger, ownership, order and pusher-view invariants |
| CmdSafety.Conservation | hackline/crates/hackline-gateway/src/db/cmd_outbox.rs:63-93 | in every run, rows present are the commands committed minus those cancelled minus those dropped with their device |
| CmdSafety.DepthIsOutstanding | hackline/crates/hackline-gateway/src/db/cmd_outbox.rs:199-214 | the depth metric equals the outstanding commands computed from the history alone, is absent at zero, and never passes 1000 |
| CmdSafety.AcceptedIsPending | hackline/crates/hackline-gateway/src/api/cmd/send.rs:60-62 | whatever TTL is asked for, an accepted command is pending at its enqueue instant, short of the last i64 instant |
| CmdSafety.ExpiryIsAsked | hackline/crates/hackline-gateway/src/api/cmd/send.rs:60-62 | the expiry is the enqueue instant plus the TTL asked for, a week if none, at least a millisecond, and no later than the last i64 instant |
| CmdSafety.StepEvolves | hackline/crates/hackline-gateway/src/db/cmd_outbox.rs:165-194 | after any step a row of a known command is an old row with nothing overwritten that was written once |
| CmdSafety.DeliveredOnce | hackline/crates/hackline-gateway/src/db/cmd_outbox.rs:165-194 | along any run delivered_at and attempts keep their first value once delivered, and an ack is never taken back |
| CmdSafety.RowLifecycle | hackline/crates/hackline-gateway/src/db/cmd_outbox.rs:165-194 | in every reachable state acked implies delivered, neither time is in the future, attempts is 1 exactly when the pusher's mark won, and delivered means marked or acked |
| CmdSafety.LastAckWins | hackline/crates/hackline-gateway/src/db/cmd_outbox.rs:186-192 | while its row exists, the ack columns hold the clock reading, result and detail of the latest ack that found it, whatever else happens |
| CmdOrder.AtMostOnce | hackline/crates/hackline-gateway/src/cmd_delivery.rs:161-233 | in every run, whatever fails, a command is published at most once plus once per lost mark |
| CmdOrder.PublishedInCommitOrder | hackline/crates/hackline-gateway/src/cmd_delivery.rs:143-235 | without faults, commands are published in the order their sends committed, across all drains, cancels and acks |
| CmdOrder.NoLostWakeup | hackline/crates/hackline-gateway/src/cmd_delivery.rs:96-106 | while the pusher is parked, a pending row was missed by the last drain, or its sender has yet to notify, or a permit is stored |
| CmdOrder.GoneForever | hackline/crates/hackline-gateway/src/cmd_delivery.rs:161-233 | a command out of the table and out of the running drain is never published again |
| CmdRedelivery.PublishedAgainIff | hackline/crates/hackline-gateway/src/db/cmd_outbox.rs:152-163 | in every reachable state some continuation publishes the command again exactly when the drain holds its row, or its row is undelivered and unexpired for the next listing |
| CmdRedelivery.DeliveredNeverAgain | hackline/crates/hackline-gateway/src/db/cmd_outbox.rs:165-177 | a row with a delivery time, outside the drain, is never published again, acked or not, crashes included |
| CmdRedelivery.NeverRedelivered | hackline/crates/hackline-gateway/src/cmd_delivery.rs:209-232 | a run after which an un-acked, unexpired command of a known device has been published once and never will be again |
| CmdRedelivery.AckedBeforeDelivered | hackline/crates/hackline-gateway/src/cmd_delivery.rs:111-141 | a run to a row whose ack time is before its delivery time |
| CmdCap.RefusedAsFullIff | hackline/crates/hackline-gateway/src/db/cmd_outbox.rs:63-75 | within the payload limit, a send in a reachable state is refused as full exactly when 1000 or more commands of the device are outstanding |
| CmdCap.CommentDiffersIff | hackline/crates/hackline-gateway/src/db/cmd_outbox.rs:41-46 | code and comment disagree about a refusal exactly when the outbox is full and its oldest pending row has expired, whichever rows pending is taken to mean |
| CmdCap.FullOfExpired | hackline/crates/hackline-gateway/src/db/cmd_outbox.rs:63-75 | a run to 1000 rows, all expired, on which the code refuses every send and the comment, read either way, would not |
| CmdCancel.CancelIsFinal | hackline/crates/hackline-gateway/src/db/cmd_outbox.rs:216-224 | a cancel that returned true is the only one for its command, and no later cancel, ack or mark changes the table |
| CmdCancel.CancelledGoesOutIff | hackline/crates/hackline-gateway/src/api/cmd/cancel.rs:47-54 | a cancelled command can still be published exactly when the running drain had listed it and not yet published it |
| CmdCancel.SendKeepsIdsFreshIff | hackline/crates/hackline-gateway/migrations/V003__cmd_outbox.sql:8 | a send keeps rowids increasing over all history exactly when the row with the highest id ever given is still present |
| CmdCancel.IdsAlwaysFreshIff | hackline/crates/hackline-gateway/migrations/V003__cmd_outbox.sql:8 | over any run rowids increase in commit order exactly when every accepted send found the row with the highest id ever given still present |
| CmdCancel.WireIdsIncreaseIff | hackline/crates/hackline-gateway/src/cmd_delivery.rs:161-233 | without faults the published rowids strictly increase exactly when the published commands, in commit order, were given increasing ids |
| CmdCancel.WireIdsIncrease | hackline/crates/hackline-gateway/src/cmd_delivery.rs:161-233 | without faults, and when every accepted send found that row, the published rowids strictly increase |
| CmdCancel.ReusedRowIdOnTheWire | hackline/crates/hackline-gateway/migrations/V003__cmd_outbox.sql:8 | a fault-free run that publishes two commands under one rowid |
| CmdPusher.CmdNotifier.NotifyOne | hackline/crates/hackline-gateway/src/cmd_delivery.rs:49-51 | a permit is stored, and one only |
| CmdPusher.CmdNotifier.TakePermit | hackline/crates/hackline-gateway/src/cmd_delivery.rs:53-55 | takes the permit if there is one and leaves none |
| CmdPusher.CmdStore.Enqueue | hackline/crates/hackline-gateway/src/db/cmd_outbox.rs:46-93 | checks payload size, cap and constraints in that order, and appends the row or changes nothing |
| CmdPusher.CmdStore.CountUnacked | hackline/crates/hackline-gateway/src/db/cmd_outbox.rs:65-69 | the scan counts the device's un-acked rows |
| CmdPusher.CmdStore.ListPending | hackline/crates/hackline-gateway/src/db/cmd_outbox.rs:152-163 | the scan returns the undelivered, unexpired rows in rowid order |
| CmdPusher.CmdStore.MarkDelivered | hackline/crates/hackline-gateway/src/db/cmd_outbox.rs:165-177 | the scan marks the command's row only if undelivered; nothing a row held of its delivery or ack is overwritten |
| CmdPusher.CmdStore.RecordAck | hackline/crates/hackline-gateway/src/db/cmd_outbox.rs:179-194 | after the scan the command's row holds this ack and some delivery time, and a delivery time it had stays; reports whether a row was hit |
| CmdPusher.CmdStore.Cancel | hackline/crates/hackline-gateway/src/db/cmd_outbox.rs:218-224 | after the scan a row of the command is left only if delivered, and every other row is; reports whether a row went |
| CmdPusher.Gateway.DrainPending | hackline/crates/hackline-gateway/src/cmd_delivery.rs:143-235 | one drain is a run of the protocol: it lists exactly the rows undelivered and unexpired at the clock reading, publishes listed rows in list order and accounts for each; if nothing fails and no listed device goes away, exactly the listed commands go out, in order, and each row still present is left delivered without a new fault |
| CmdPusher.Gateway.SendAll | hackline/crates/hackline-gateway/src/cmd_delivery.rs:161-234 | the per-row loop, with anything happening between its awaits; without failures every row goes out in order and is left delivered |
| CmdPusher.Gateway.ProcessRow | hackline/crates/hackline-gateway/src/cmd_delivery.rs:162-232 | one row: it goes out exactly when the lookup succeeds, the device is still registered and the put is accepted; it is then marked as the mark's outcome says |
| CmdPusher.Gateway.MarkSent | hackline/crates/hackline-gateway/src/cmd_delivery.rs:218-228 | a mark that succeeds leaves the command's row delivered, with the delivery time it had or one read since the put, and adds no fault; one that fails or panics is on record |
| CmdPusher.Gateway.AwaitWork | hackline/crates/hackline-gateway/src/cmd_delivery.rs:101-104 | the select wakes exactly when there is a permit or the timer fires, either first when both are ready, and uses up the permit only when that wins |
| CmdPusher.Gateway.PusherTask | hackline/crates/hackline-gateway/src/cmd_delivery.rs:96-106 | the whole pusher loop is a run of the protocol in which every round lists the table once; only a select that nothing ends stops it |
| CmdPusher.Gateway.OutsideStep | hackline/crates/hackline-gateway/src/cmd_delivery.rs:111-141 | what an ack, a send, a notify, a cancel or a device change does to the store is that step of the protocol |
| CmdPusher.Gateway.PusherStep | hackline/crates/hackline-gateway/src/cmd_delivery.rs:143-235 | what one step of the pusher does to the store, the permit, the wire and its own position is that step of the protocol, for every outcome |
| CmdPusher.Gateway.CrashAndRestart | hackline/crates/hackline-gateway/src/cmd_delivery.rs:92-106 | after a crash the table and what was published stay, the permit is gone, and the pusher starts with a drain |
| CmdPusher.Gateway.SendHandler | hackline/crates/hackline-gateway/src/api/cmd/send.rs:54-109 | at the state before the commit: too large above 65536, full at 1000 outstanding commands, refused for an unregistered device, accepted otherwise, each exactly then; an accepted send is commit, then anything by anyone, then notify, and its row holds what was sent and the expiry asked for |
| CmdPusher.Gateway.CommitSend | hackline/crates/hackline-gateway/src/db/cmd_outbox.rs:46-93 | the transaction appends one undelivered, un-acked row holding what was sent, above every other rowid, or changes nothing |
| CmdPusher.Gateway.CancelHandler | hackline/crates/hackline-gateway/src/api/cmd/cancel.rs:21-54 | with anything by anyone between lookup and DELETE, the reply is decided by the row at the instant of the DELETE; a reply of no content means the cancel took |
| Bridge.FlowStepInv | hackline/crates/hackline-core/src/bridge.rs:227-268 | every step of either pump keeps: bytes read are bytes published plus bytes in hand, and bytes written are bytes received minus bytes in hand |
| Bridge.SentinelIffReceived | hackline/crates/hackline-core/src/bridge.rs:256-262 | in any run the far pump has seen the sentinel exactly when it received the empty payload, and then it has stopped |
| Bridge.FlowIsABlock | hackline/crates/hackline-core/src/bridge.rs:227-268 | bytes written are a contiguous block of bytes read, right after those lost; a prefix when nothing was lost |
| Bridge.ClosedFlowIsComplete | hackline/crates/hackline-core/src/bridge.rs:232-262 | a direction closed by the sentinel delivered everything not lost, and its two counters agree exactly when nothing was lost |
| Bridge.SilentUntilDeclared | hackline/crates/hackline-core/src/bridge.rs:212-241 | in every run an endpoint has read nothing from its socket and put nothing as long as its own subscriber is not declared |
| Bridge.BridgeIsSafe | hackline/crates/hackline-core/src/bridge.rs:192-275 | in every run of both endpoints each direction is safe, the sentinel is last and never data, and at most one direction loses anything |
| Bridge.EndpointsAgreeIff | hackline/crates/hackline-core/src/bridge.rs:271-274 | when both directions were closed by the sentinel, the endpoints report the same totals exactly when nothing was lost |
| Bridge.NothingLostIff | hackline/crates/hackline-core/src/bridge.rs:192-226 | in every run and for each direction nothing is lost exactly when the receiving endpoint declared its subscriber before every put of the sending one |
| Bridge.NothingAtAllLostIff | hackline/crates/hackline-core/src/bridge.rs:192-226 | nothing at all is lost exactly when that holds of both directions, and then each socket has been given a prefix of what the other side read |
| Bridge.LosesABeginning | hackline/crates/hackline-core/src/bridge.rs:192-226 | for each direction a run that reads 1 and 2 and delivers only 2 |
| BridgePumps.TcpToZenoh | hackline/crates/hackline-core/src/bridge.rs:228-250 | the pump publishes a copy of each chunk in order and then the sentinel, stops at the first failed put, and counts every byte read |
| BridgePumps.ZenohToTcp | hackline/crates/hackline-core/src/bridge.rs:256-268 | the pump writes the samples up to the sentinel or a broken socket, and counts each sample it received in full |
| BridgePumps.NearPumpIsFlow | hackline/crates/hackline-core/src/bridge.rs:228-250 | what the near loop publishes, reads and counts is what a run of the near half of a flow does |
| BridgePumps.FarPumpIsFlow | hackline/crates/hackline-core/src/bridge.rs:256-268 | with samples arriving whenever they do, what the far loop writes and counts is what a run of the far half of a flow does |
| HttpPreamble.ReadPreamble | hackline/crates/hackline-gateway/src/tunnel/http_router.rs:68-89 | at most 8193 reads and 16384 bytes; the prefix is exactly the bytes read; it is routed to the host its text names, refused when a blank line came and no host can be found, and until then read on |
| HttpPreamble.FindDoubleCrlf | hackline/crates/hackline-gateway/src/tunnel/http_router.rs:321-323 | finds the leftmost blank line, or there is none |
| HostHeader.ParsedHostIff | hackline/crates/hackline-gateway/src/tunnel/http_router.rs:306-319 | for any bytes, the parser answers a host exactly when they are UTF-8 and the first line starting with one of the three spellings, no empty line before it, names that host once the white space at both ends is stripped |
| HostHeader.ParsedHostIsFinal | hackline/crates/hackline-gateway/src/tunnel/http_router.rs:306-319 | once the Host line ends in CRLF, more bytes leave the parsed host as it is unless they stop being UTF-8, and then none is parsed |
| HostHeader.HostIsFinalIff | hackline/crates/hackline-gateway/src/tunnel/http_router.rs:306-319 | the parsed host is final, whatever follows, exactly when its line is terminated |
| HostHeader.CutsAgree | hackline/crates/hackline-gateway/src/tunnel/http_router.rs:68-89 | two ways of cutting one stream that both pass the end of the Host line find one host, and the parser answers the same for both exactly when both or neither are UTF-8 |
| HttpPreamble.TerminatedHostRoutedIff | hackline/crates/hackline-gateway/src/tunnel/http_router.rs:79-88 | with a terminated Host line read, the connection is routed exactly when everything read is UTF-8, and refused as having no host exactly when it is not and the headers are over |
| HttpPreamble.BodyByteLosesHost | hackline/crates/hackline-gateway/src/tunnel/http_router.rs:306-309 | a request that is routed, and refused once a body byte that is not UTF-8 arrives in the same read |
| HostHeader.CutInsideHostValue | hackline/crates/hackline-gateway/src/tunnel/http_router.rs:80-83 | a cut inside the Host value changes the host chosen |
| HttpPreamble.PrefixGoesFirst | hackline/crates/hackline-gateway/src/tunnel/http_router.rs:249-281 | whatever came before, the published stream is the prefix, then the later reads in order, and the counter includes both; nothing is lost exactly when the subscriber was already declared, and then what is written begins with the prefix |
| SseFramer.ParseSseData | hackline/crates/hackline-cli/src/cmd/events.rs:124-139 | the loop computes the data values of the frame, trimmed, joined by newlines, none if empty |
| SseFramer.DrainFrames | hackline/crates/hackline-cli/src/cmd/events.rs:49-54 | the inner loop prints all complete frames of the buffer and leaves the rest |
| SseFramer.Tail | hackline/crates/hackline-cli/src/cmd/events.rs:44-56 | each chunk is decoded by itself; what is printed and what is left are the frames and the rest of the decoded chunks joined, and no complete frame is left |
| Utf8.ChunksDecodeIff | hackline/crates/hackline-cli/src/cmd/events.rs:44-47 | decoding the chunks of a text one by one gives back the text exactly when no chunk begins inside a character |
| Utf8.CutInHalf | hackline/crates/hackline-cli/src/cmd/events.rs:47-47 | a two-byte character cut in half is decoded as two replacement characters |
| SseFramer.ChunksDoNotMatter | hackline/crates/hackline-cli/src/cmd/events.rs:44-56 | cutting a stream between characters, as any cut of ASCII text is, changes neither what is printed nor what is left |
| SseFramer.FramesAppend | hackline/crates/hackline-cli/src/cmd/events.rs:46-55 | cutting frames off a prefix first changes neither the frames nor the rest |
| SseFramer.SplitIsExact | hackline/crates/hackline-cli/src/cmd/events.rs:49-50 | the frames and the rest together are the stream, and the rest holds no complete frame |
| SseFramer.FrameRoundTripIff | hackline/crates/hackline-cli/src/cmd/events.rs:124-139 | a one-line payload comes back from its frame exactly when it is not empty, does not start with white space and does not end in a carriage return |
| SseFramer.LinesRoundTripIff | hackline/crates/hackline-cli/src/cmd/events.rs:124-139 | several data lines come back joined by newlines exactly when the first is not empty |
| SseFramer.SentIsPrinted | hackline/crates/hackline-cli/src/cmd/events.rs:44-55 | clean payloads sent one frame each, with keep-alive comments anywhere between them, are printed exactly, in order, with nothing left over |
| SseFramer.SentOverTheWire | hackline/crates/hackline-cli/src/cmd/events.rs:44-55 | the same over encoded bytes cut into chunks between characters |
| AnthropicStream.InHandIff | ai-runner/src/runners/anthropic.rs:205-243 | a tool is in hand exactly when its index was started and not started again or stopped since, and holds its seed plus its own fragments in order |
| AnthropicStream.InterleavingIsIrrelevant | ai-runner/src/runners/anthropic.rs:180-328 | two interleavings of the same per-index streams finish the same tools at every index |
| AnthropicStream.ToolsAtAre | ai-runner/src/runners/anthropic.rs:243-275 | the tools of an index are those of exactly its stops of an open tool, in order |
| AnthropicStream.SentMirrors | ai-runner/src/runners/anthropic.rs:227-275 | the events sent carry exactly the assembled tools and text |
| AnthropicStream.Assemble | ai-runner/src/runners/anthropic.rs:205-275 | one event updates the pending map to what each index has in hand; a stop yields a tool exactly when its index has one open, with the id and name of the start that opened it and its seed and own fragments read as JSON |
| AnthropicStream.Pump | ai-runner/src/runners/anthropic.rs:180-328 | up to its end the loop's text, tools, token counts and sent events are those of the events taken |
| AnthropicStream.StreamLoop | ai-runner/src/runners/anthropic.rs:165-341 | ordinary events are taken until anything else comes; each sends what it carries and each stop of an open tool sends that tool, in order and nothing else; the result mirrors what was sent, and at most one Done or Error comes last, none for a cancelled run |
| ClaudeStream.Recorder.OnBlock | ai-runner/src/runners/claude.rs:252-303 | a text block extends the text; a tool use closes the call before it and opens its own |
| ClaudeStream.Recorder.OnEvent | ai-runner/src/runners/claude.rs:230-325 | after any event the recorder holds exactly the text, session, calls and offers of the events seen |
| ClaudeStream.Recorder.Finish | ai-runner/src/runners/claude.rs:332-390 | the close-out logs every tool use; a cancelled run leaves out the open call; a failed one sends its error even when the channel is full |
| ClaudeStream.RunCallback | ai-runner/src/runners/claude.rs:214-390 | on a whole stream the log, text and session are those of its events; delivered are the offers the channel had room for, in order |
| ClaudeStream.KeptAllIff | ai-runner/src/runners/claude.rs:200-215 | every offer is delivered exactly when the channel had room at each |
| ClaudeStream.LogNamesOfferedTools | ai-runner/src/runners/claude.rs:266-301 | the log names exactly the tools offered, in order; a cancelled run lacks the last |
| ClaudeStream.LogIsOfStarts | ai-runner/src/runners/claude.rs:332-390 | the log has one call per tool use, in order, under its name, in whole milliseconds from its start to the next use or the end; a cancelled run lacks the last |
| ClaudeStream.CallsDoNotOverlap | ai-runner/src/runners/claude.rs:267-274 | logged durations never overlap and fall short of the elapsed time by less than a millisecond a call |
| Ids.NewZid | hackline/crates/hackline-proto/src/zid.rs:21-35 | accepts exactly 2 to 32 hexadecimal digits of either case and returns them with `A` to `F` in lower case |
| Ids.ZidRoundTrip | hackline/crates/hackline-proto/src/zid.rs:21-35 | an id reads back as itself exactly when it is in canonical form, and reading twice is reading once |
| Ids.UuidRoundTrip | hackline/crates/hackline-proto/src/keyexpr.rs:104-106 | a printed command id parses back to itself |
| Ids.UuidSpellingsIff | hackline/crates/hackline-proto/src/keyexpr.rs:144-145 | a string parses to an id exactly when it is its digits in either case, plain, hyphenated, hyphenated in braces, or hyphenated after `urn:uuid:` |
| Ids.DecimalReadsBack | hackline/crates/hackline-proto/src/keyexpr.rs:15-18 | a printed port reads back as itself and has no leading zero |
| Ids.UuidPrintedIff | hackline/crates/hackline-proto/src/keyexpr.rs:144-145 | of all spellings that parse, only the lower-case hyphenated one is printed back |
| Ids.ValidateSlug | hackline/crates/hackline-gateway/src/db/orgs.rs:83-104 | accepts exactly [a-z0-9][a-z0-9-]* of at most 63 characters |
| KeyExpr.SplitKey | hackline/crates/hackline-proto/src/keyexpr.rs:16-122 | every built key splits into hackline, org, id and the chunks of its subject |
| KeyExpr.MsgOfBuilt | hackline/crates/hackline-proto/src/keyexpr.rs:160-182 | the message parser takes exactly event and log keys among all built keys, and returns the parts with slashes of the topic as dots |
| KeyExpr.MsgRoundTripIff | hackline/crates/hackline-proto/src/keyexpr.rs:66-84 | parsing a built event or log key gives the original parts exactly for topics without a slash |
| KeyExpr.HealthOfBuilt | hackline/crates/hackline-proto/src/keyexpr.rs:36-51 | the health parser takes exactly health keys among all built keys and returns org and id |
| KeyExpr.AckOfBuilt | hackline/crates/hackline-proto/src/keyexpr.rs:126-146 | the ack parser takes exactly ack keys among all built keys and returns org, id and command id |
| KeyExpr.ParsersAreDisjoint | hackline/crates/hackline-proto/src/keyexpr.rs:160-182 | no string at all is accepted by two of the three parsers |
| KeyExpr.BuildInjectiveIff | hackline/crates/hackline-proto/src/keyexpr.rs:16-122 | two built keys of any families are equal exactly when org, id and subject are |
| KeyExpr.SameSuffixSameTopic | hackline/crates/hackline-proto/src/keyexpr.rs:66-68 | topics without a slash that give one suffix are equal |
| KeyExpr.MsgParseBuildParse | hackline/crates/hackline-proto/src/keyexpr.rs:160-182 | parsing, building and parsing again is parsing once, for every key that parses |
| KeyExpr.MsgRebuildIff | hackline/crates/hackline-proto/src/keyexpr.rs:160-182 | the rebuilt key is the original exactly when the id chunk is lower-case and no topic chunk holds a dot |
| KeyExpr.AckRebuildIff | hackline/crates/hackline-proto/src/keyexpr.rs:126-146 | the same for ack keys: lower-case id, command id in its printed form |
| KeyExpr.HealthRebuildIff | hackline/crates/hackline-proto/src/keyexpr.rs:36-51 | the same for health keys: lower-case id |
| ClientSdk.ValidateTopic | hackline/crates/hackline-client/src/lib.rs:330-347 | accepts exactly the topics with no slash, no star, no dot at either end and no two dots in a row |
| ClientSdk.ValidateTopicSubscribe | hackline/crates/hackline-client/src/lib.rs:309-326 | the same with stars allowed |
| ClientSdk.ValidTopicIff | hackline/crates/hackline-client/src/lib.rs:84-94 | validated topics are exactly those whose event key has no empty chunk and no wildcard and parses back to the topic |
| ClientSdk.CmdStream.Recv | hackline/crates/hackline-client/src/lib.rs:224-243 | yields the first decodable command, skips only undecodable ones, and yields nothing only when none is left |
| ClientSdk.CmdStream.AckWith | hackline/crates/hackline-client/src/lib.rs:273-292 | adds one sample whose key parses to the handle's org, device and command and whose body names it too, so that the gateway's gate lets it through |
| ClientSdk.AckGateIff | hackline/crates/hackline-gateway/src/cmd_delivery.rs:117-126 | the gateway records a handle's ack for its own command, and refuses a body that names another |
| EventRing.PruneKeepsNewest | hackline/crates/hackline-gateway/src/db/events.rs:52-65 | pruning keeps exactly the device's newest rows and touches nobody else's |
| EventRing.RingRefines | hackline/crates/hackline-gateway/src/db/events.rs:29-50 | after any inserts and device changes each device holds exactly its newest rows of a table never pruned, under the same ids and replies |
| EventRing.SourcesAreKnown | hackline/crates/hackline-gateway/migrations/V002__message_plane.sql:5-13 | over any run the devices an insert may name are those added and not dropped since, and only they have rows |
| EventRing.DropCascades | hackline/crates/hackline-gateway/migrations/V002__message_plane.sql:5-13 | deleting a device deletes its rows and no others, and keeps the order of the rest |
| EventRing.RingBound | hackline/crates/hackline-gateway/src/db/events.rs:14-14 | with the shipped cap a device holds the last min(n, 10000) of its n events |
| EventRing.EventStore.PruneDevice | hackline/crates/hackline-gateway/src/db/events.rs:52-65 | the scan drops exactly the device's rows past its newest ones |
| EventRing.EventStore.InsertEvent | hackline/crates/hackline-gateway/src/db/events.rs:29-50 | insert and prune are one step; the row is refused exactly for an unknown device or more than 65536 characters, and otherwise gets the next id and stays |
| EventPaging.AheadShape | hackline/crates/hackline-gateway/src/db/events.rs:71-115 | the query's rows are exactly those of the caller's org, of the device asked for, covered by the pattern, not older than `since` and below the cursor, newest first |
| EventPaging.PageShape | hackline/crates/hackline-gateway/src/api/events/list.rs:57-67 | a page is newest first, matches, and its cursor is its last id, below the previous cursor |
| EventPaging.PageHolds | hackline/crates/hackline-gateway/src/db/events.rs:71-115 | a page holds, newest first, the newest rows that pass every filter written out on their columns, between 1 and 1000 as the limit says, and every row it leaves out is older |
| EventPaging.SinceIsAFilter | hackline/crates/hackline-gateway/src/db/events.rs:101-104 | a query with `since` lists exactly the rows of the same query without it that are not older |
| EventPaging.WalkDescends | hackline/crates/hackline-gateway/src/api/events/list.rs:35-68 | following the cursor ends, reads no row twice and none out of order, while rows come and go, for any limit |
| EventPaging.WalkMissesNothing | hackline/crates/hackline-gateway/src/api/events/list.rs:57-67 | for limits up to 1000 every matching row that stays through the walk is read |
| EventPaging.StaticWalkIsCompleteIff | hackline/crates/hackline-gateway/src/api/events/list.rs:57-67 | on an unchanging table the walk reads everything exactly when the limit is at most 1000 or at most 1000 rows match |
| EventPaging.LongPageStops | hackline/crates/hackline-gateway/src/api/events/list.rs:57-67 | over 1001 events a limit of 1001 reads 1000 and reports the end, and a limit of 1000 reads them all |
| EventPaging.StreamAgreesWithList | hackline/crates/hackline-gateway/src/api/events/stream.rs:40-62 | the query lists a row exactly when the live filter keeps its broadcast and it is not older than `since`, for a pattern without a bracket whose wildcards mean the same to both, or on an ASCII topic, U+0000 apart |
| EventPaging.StreamAgreesWithListIff | hackline/crates/hackline-gateway/src/api/events/stream.rs:40-62 | live filter and query agree on every topic without U+0000 exactly when the pattern has no bracket and its wildcards mean the same to both |
| EventPaging.StreamAgreesOnAllIff | hackline/crates/hackline-gateway/src/api/events/stream.rs:40-62 | with U+0000 allowed they agree on every topic exactly when the pattern is ordinary characters followed by stars |
| Glob.GlobMatchIff | hackline/crates/hackline-gateway/src/api/events/stream.rs:82-104 | the recursive matcher accepts exactly the values that can be cut into one segment per pattern byte |
| Glob.MatchConcatIff | hackline/crates/hackline-gateway/src/api/events/stream.rs:82-104 | matching a concatenation of patterns is matching the parts of some cut |
| Glob.SetMeans | hackline/crates/hackline-gateway/src/db/events.rs:97-100 | in the query's pattern a closed set takes one character that is one of its items, or none of them after `^`; a `]` that comes first is an item |
| Glob.GlobAgrees | hackline/crates/hackline-gateway/src/api/events/stream.rs:78-104 | the byte matcher is the database's GLOB for patterns without a bracket, on all values if there is no question mark and on ASCII values otherwise, U+0000 apart |
| Glob.GlobAgreesIff | hackline/crates/hackline-gateway/src/api/events/stream.rs:78-104 | a pattern without a question mark means the same to both on every value without U+0000 exactly when it has no bracket |
| Glob.GlobAgreesOnAsciiIff | hackline/crates/hackline-gateway/src/api/events/stream.rs:78-104 | an ASCII pattern means the same to both on every ASCII value without U+0000 exactly when it has no bracket |
| Glob.AnyByteIsNotAnyChar | hackline/crates/hackline-gateway/src/api/events/stream.rs:101-101 | against a two-byte character a question mark makes a difference, and one beside a star does not |
| GlobExact.AgreeEverywhereIff | hackline/crates/hackline-gateway/src/api/events/stream.rs:78-104 | for every pattern, U+0000 apart: it means the same to both on every value exactly when it has no bracket and each longest run of wildcards is stars only or one question mark with stars |
| GlobNul.AgreeOnAllIff | hackline/crates/hackline-gateway/src/api/events/stream.rs:78-104 | for every pattern and with U+0000 anywhere: it means the same to both on every value exactly when it is ordinary characters followed by at least one star |
| RttCache.GetIsExact | hackline/crates/hackline-gateway/src/rtt_cache.rs:54-62 | for every history, get answers the key's last put within the TTL unless a later put found 4096 keys fresh since the map was last thrown away, and then a miss |
| RttCache.FirstKeyIsForgotten | hackline/crates/hackline-gateway/src/rtt_cache.rs:67-73 | after puts of 4097 keys at one instant the first key is a miss although its last put is fresh |
| RttCache.NeverOverflowsIff | hackline/crates/hackline-gateway/src/rtt_cache.rs:67-73 | the map is never cleared exactly when fewer than 4096 keys have a fresh last put at each put |
| RttCache.GetIsExactWithRoom | hackline/crates/hackline-gateway/src/rtt_cache.rs:54-81 | with room at every put the cache is the last-put-within-TTL map |
| RttCache.SizeBound | hackline/crates/hackline-gateway/src/rtt_cache.rs:67-81 | never more than 4096 entries |
| RttCache.Cache.Get | hackline/crates/hackline-gateway/src/rtt_cache.rs:54-62 | the method returns the exact answer of its history |
| RttCache.Cache.PutRtt | hackline/crates/hackline-gateway/src/rtt_cache.rs:67-81 | prune, clear on overflow, insert: the map stays the one its history calls for |
| TunnelSessions.GaugeIsOpenConnections | hackline/crates/hackline-gateway/src/metrics.rs:92-103 | in every run a kind's gauge is the number of its connections between open and close, and is positive at every decrement |
| TunnelSessions.QuietCounters | hackline/crates/hackline-gateway/src/metrics.rs:85-109 | once every connection has finished, gauges read zero, session counters count connections by kind and by whether the bridge failed, and byte counters are the sums carried over all connections modulo 2^64 |
| TunnelSessions.SessionRows | hackline/crates/hackline-gateway/src/db/audit.rs:61-96 | no two audit rows belong to one connection, and a finalised row opens no later than it closes, in seconds |
| TunnelSessions.RowBytesIff | hackline/crates/hackline-gateway/src/db/audit.rs:81-96 | a finalised row is its own connection's and holds its byte count exactly when that fits an i64 |
| TunnelSessions.StepWrites | hackline/crates/hackline-gateway/src/tunnel/tcp_listener.rs:102-178 | a connection's open and close times are the clock at its two readings, its row id that of the row it opened, and no other step changes them |
| TunnelSessions.StepAudits | hackline/crates/hackline-gateway/src/db/audit.rs:61-96 | opening appends one row with the open time in seconds; closing writes that row's close time and changes no other row |
| TunnelSessions.DropDeviceBlanks | hackline/crates/hackline-gateway/migrations/V007__audit_fks_on_delete_set_null.sql:39 | deleting a device blanks it in the rows that name it and changes nothing else |
| TunnelSessions.ClosedOnce | hackline/crates/hackline-gateway/src/db/audit.rs:81-96 | over any run no row disappears and a closed row keeps its close time and byte counts |
| TunnelSessions.ReachableInv | hackline/crates/hackline-gateway/src/tunnel/tcp_listener.rs:102-178 | under any interleaving of any number of tasks the counters and rows agree with the connections' progress |
| TunnelTask.Metrics.IncTunnelActive | hackline/crates/hackline-gateway/src/metrics.rs:92-95 | the kind's gauge goes up by one, from zero if absent |
| TunnelTask.Metrics.DecTunnelActive | hackline/crates/hackline-gateway/src/metrics.rs:97-103 | the kind's gauge goes down by one, not below zero |
| TunnelTask.Metrics.IncTunnelSession | hackline/crates/hackline-gateway/src/metrics.rs:85-90 | the counter of this kind and outcome goes up by one and no other changes |
| TunnelTask.Metrics.AddTunnelBytes | hackline/crates/hackline-gateway/src/metrics.rs:105-109 | both directions grow by their own count, modulo 2^64 |
| TunnelTask.AuditTable.InsertTunnelSessionOpen | hackline/crates/hackline-gateway/src/db/audit.rs:61-76 | appends one open row in seconds and returns its id |
| TunnelTask.AuditTable.FinalizeTunnelSession | hackline/crates/hackline-gateway/src/db/audit.rs:81-96 | writes close time and byte counts into that row and changes nothing else |
| TunnelTask.Gateway.RunBridgedConnection | hackline/crates/hackline-gateway/src/tunnel/tcp_listener.rs:102-178 | one connection does each piece of accounting exactly once and in order, whatever other tasks do in between |
| TunnelTask.Gateway.TaskStep | hackline/crates/hackline-gateway/src/tunnel/http_router.rs:132-178 | what one step of a task does to the registry and the table is that step of the model |

## Left out

- Payload encodings: `content_type`, `last_error`, message headers and JSON values are not modelled; a
  payload is its text and its length.
- Authentication, scopes and the lookups that check them, and the audit rows of `cmd.send` and
  `cmd.cancel`: they are separate statements before or after the ones modelled.
- Cmd metrics other than the depth: counters that no modelled statement reads.
- Congestion control and undeclared publishers inside Zenoh: a successful put reaches a declared
  subscriber.
- HttpPreamble.ReadPreamble: a read error is taken as the peer closing; both end the connection without a
  host.
- HttpPreamble.PrefixGoesFirst: starts after the prefix was accepted; when that first put fails the code
  returns an error before any pump starts.
- Half-close and shutdown of sockets, TLS, and the connect query itself.
- The exact interval of the pusher's timer: a timeout may happen at any instant.
- Rowid overflow at the end of the i64 range, for all three tables.
- ClaudeStream.RunCallback: takes the channel's room at each offer as a parameter; costs are not modelled.
- AnthropicStream.StreamLoop: `duration_ms` and the model name are not modelled; token counts are unbounded.
- RttCache.GetIsExact: asks for a clock that does not run backwards, which `Instant` promises.
- TunnelSessions.QuietCounters: wraps the byte counters as a release build does; a debug build would panic.
- `touch_last_seen` after a successful bridge: it writes a table nothing here reads.
- The logs ring, the logs stream and the listing of commands: they repeat the events ring and pager.
- Tunnel creation and removal, the claim flow, tokens, and the other runners.
- Liveness: nothing says that a command is eventually acked or that a bridge ends.
