# Verified model of the JDSS arrow gateway

The gateway lets coalition nodes exchange JDSS messages over a lossy bearer, lets one authority decide
who may talk to whom, and bridges the network to CoT/TAK servers and attached EUDs. This project models
the parts of it that carry state or a format, and proves what they promise over every input and every run.

Verify everything with `dafny verify dfyconfig.toml`.

## How the model is laid out

* **Coalition policy.** `Policy` (the matrix and the pair blocks, as classes and as values), `Json` and
  `Signing` (the canonical payload, an ideal signature), `PolicyUpdate` (writing and reading an update),
  `Distribution` (the protocol: one authority, any number of receivers, a channel that loses, duplicates
  and reorders, members that put anything they like on it), `StaleBlock` (one run of it in full),
  `Distributor` (the object that edits, broadcasts and applies).
* **Exchange engine.** `Wire` (framing and the 32-byte tag), `Dedup`, `Metrics` (drop counters, peer counts,
  the audit ring), `Exchange` (the receive pipeline as a step function over whole runs), `Engine` (the object),
  `Enforcement` (the runs of a node joined with the runs of the distribution protocol: from the authority's
  policy to what a node dispatches).
* **CoT streams.** `CotStream` (the incremental splitter, one model for its two copies), `OutboundQueue` (the
  drop-oldest buffer, its flush, the connections it writes to, the reconnect backoff), `FlushRace` (the same
  buffer while a flush write is suspended), `Cot` (rendering a message as an event), `CotReader` (reading such an
  event back as an XML reader does, and what becomes of the message), `XmlTree` (the tree printer and reader of
  the XML codec).
* **Relaying.** `Relay` (how one gateway reacts to CoT), `RelayNet` (a network of gateways and peers),
  `EudServer` and `ServerManager` (the two manager objects; the latter with its reconciler).
* **Configuration.** `Servers` (id allocation, create, update, delete), `DeepMerge`.

A class stands for an object of the source; its methods are proved against the functions on values that the
lemmas are about. Code between two suspensions that can really suspend is one step.

## What the proofs found

* An authentic update whose `pairs` was rewritten to `null` (or `""`, `[]`, `0`, `false`) keeps its valid
  signature, because the signed bytes use `pairs or {}`. The receiver then takes the version and the matrix
  and keeps its old pair blocks. The comment at `src/jdssarrow/connections/distributor.py:159` says tampered
  updates are rejected; `Distribution.InstallAnswersExactlyWhen` says exactly when the pair answers are still
  the authority's, and `StaleBlock.StaleBlockIsReachable` gives a whole run that ends with a pair blocked which
  the authority has allowed again. In every run the matrix answers are the authority's, and the pair blocks are
  its own at that version or, only where it has none left, those of an earlier version
  (`Distribution.PairsComeFromHistory`). Such leftovers only refuse more: what a node dispatches is always
  permitted by the authority's policy at the version the node holds
  (`Enforcement.EveryDispatchPermittedByAuthority`).
* The docstring of `relay_from_bridge` says the loopback is deduplicated. The id is remembered after the last
  send, so this rests on the bearer: a copy of a new id is dispatched exactly when it arrives before `_transmit`
  has ended (`Exchange.LoopbackDispatchedExactlyWhenEarly`). The UDP bearer cannot deliver one that early, since
  its send does not suspend. The in-process one skips the transport that sends, but its send waits for the other
  nodes' handlers (`src/jdssarrow/iem/transport_loopback.py:42-43`): when a member puts the same bytes back on
  that bus from its handler, the sender dispatches its own message.
* A flush looks at the head of the buffer, writes it and then takes the head off. When a frame is buffered into
  the full buffer during that write and the write succeeds, what is taken off is another frame, never written:
  `FlushRace.ConservedExactlyWhen` says that this is the only way a frame is lost, and the counters still add up
  (`FlushRace.CountersAddUp`). While a flush runs the connector holds a writer, so frames are buffered only by
  direct sends that fail on that same connection.
* CoT has no letter for an assumed friend or a suspect: both come back as unknown. A carriage return in a chat
  text comes back as a line feed, and a text with a control character makes the whole event unreadable
  (`CotReader.ComesBackExactlyWhenItFits`, `CotReader.ReadRender`).
* A frame cut inside its payload parses, with the shorter payload (`Wire.ReencodeIsPrefixExactlyWhenWhole`).
* The dedup key is ambiguous exactly when some message id ends in a colon followed by another message id
  (`Dedup.KeysIdentifyExactlyWhen`).
* `MessageLog.recent` with a limit of 0 returns everything it holds (`Metrics.RecentIsNewest`).
* Whether the splitter emits an empty document depends on chunking (`CotStream.EmptyDocDependsOnChunking`); the
  other documents never do, and what an EUD's connection causes does not either (`EudServer.OnClient`).
* Two configuration patches in a row do not always equal their merge applied once
  (`DeepMerge.AssociativeExactlyWhen`).

## Model

| member | source | states |
|---|---|---|
| `Distribution.AnswersFollowHistory` | src/jdssarrow/connections/distributor.py:92-164 | In every run under loss, duplication, reordering and hostile members, a receiver at version v > 0 answers every peer query and every pair query as the authority did at v, and v never exceeds the authority's version, provided no injected update that a receiver would trust has a non-object for pairs |
| `Distribution.PeerAnswersFollowHistory` | src/jdssarrow/connections/distributor.py:147-164 | The same for peer queries, with no condition on what other members inject |
| `Distribution.PairsComeFromHistory` | src/jdssarrow/connections/distributor.py:147-164 | With no condition at all on what other members inject, the pair blocks held at version v > 0 are the authority's at v or, only where it has none at v, its blocks at some earlier version |
| `Distribution.InstallAnswersExactlyWhen` | src/jdssarrow/connections/distributor.py:151-164 | An accepted genuine update gives the authority's answers if and only if its pairs is an object or the receiver blocked no pair before |
| `Distribution.NullPairsKeepsOldBlock` | src/jdssarrow/connections/signing.py:34-43 | The concrete replay with pairs null: it verifies, the version moves and the lifted block stays |
| `StaleBlock.StaleBlockIsReachable` | src/jdssarrow/connections/distributor.py:132-164 | A run of block, join, deliver, allow, replay with pairs null and deliver that ends with the receiver at the authority's version and the allowed pair still blocked |
| `Distribution.EditMeans` | src/jdssarrow/connections/policy.py:63-116 | What each of the authority's six edits does to the answers: blocking and allowing change that peer's or pair's answer alone, reset falls back to the default, a new default reaches exactly the peers without an override, and no edit of the matrix touches the pairs or the other way round |
| `Distribution.WordIsKept` | src/jdssarrow/connections/distributor.py:112-130 | In every run, whatever else is edited, each policy in the history since a peer was blocked (allowed) refuses (admits) it, until the opposite or a reset is committed |
| `Distribution.PairWordIsKept` | src/jdssarrow/connections/distributor.py:132-140 | The same for pairs |
| `Distribution.ReceiversKeepWord` | src/jdssarrow/connections/distributor.py:147-164 | So does every receiver that has reached the version of that edit |
| `Distribution.InstallReads` | src/jdssarrow/connections/policy.py:118-121 | What an accepted update installs, entry by entry: only the word "allow" allows a listed peer, only "deny" denies the others |
| `Distribution.InstallReadsPairs` | src/jdssarrow/connections/policy.py:73-75 | Exactly the listed originators of an observer are refused |
| `Distribution.VersionsNeverDecrease` | src/jdssarrow/connections/distributor.py:160-162 | No receiver's version ever decreases, and the authority's history only grows |
| `Distribution.ChannelIsSound` | src/jdssarrow/connections/distributor.py:147-164 | Any sequence of updates taken off the channel of such a run is one the three results below are about |
| `Distribution.DeliverAllIsNewest` | src/jdssarrow/connections/distributor.py:147-164 | Applying any finite sequence of updates off the channel, untrusted ones of any shape among them, leaves exactly the state of the highest trusted version, or the initial state |
| `Distribution.OrderIrrelevant` | src/jdssarrow/connections/distributor.py:147-164 | Two deliveries of the same set of updates, in any order and any multiplicity, end in the same state |
| `Distribution.LatestSuffices` | src/jdssarrow/connections/distributor.py:92-106 | One copy of the latest broadcast anywhere among the others brings agreement with the authority |
| `Signing.PayloadDecides` | src/jdssarrow/connections/signing.py:30-43 | Two updates have the same signed bytes if and only if version, default, overrides and pairs agree as JSON values up to dict order, every falsy pairs counting as {} |
| `Signing.PayloadText` | src/jdssarrow/connections/signing.py:30-43 | The signed text is the four members in alphabetical order without blanks, whatever they hold |
| `Signing.NoPairsAre` | src/jdssarrow/connections/signing.py:39 | Exactly null, false, 0 and the empty text, list and dict are signed as {} |
| `Json.DumpsDecidesSame` | src/jdssarrow/connections/signing.py:34-43 | Sorted-key printing ignores insertion order and nothing else |
| `Json.PrintDelimited` | src/jdssarrow/connections/signing.py:34-43 | Followed by a separator, a closing bracket or the end of the text, a printed value can be read back off the front: value and rest are determined |
| `PolicyUpdate.SignedContent` | src/jdssarrow/connections/distributor.py:156-164 | An update whose payload equals an authentic one installs that one's content, whatever else about it was altered |
| `PolicyUpdate.EncodedCarries` | src/jdssarrow/connections/policy.py:73-78 | What the snapshots write, replace reads back: default, overrides and all non-empty pair rows |
| `Policy.SnapshotRoundTrip` | src/jdssarrow/connections/policy.py:118-134 | Replacing a matrix by its own snapshot restores it |
| `Policy.PairEditsOneCell` | src/jdssarrow/connections/policy.py:63-71 | Blocking and allowing a pair change the answer for that pair and for no other |
| `Policy.MatrixConnectionPolicy.Reset` | src/jdssarrow/connections/policy.py:111-113 | The peer falls back to the default; every other answer stands |
| `Policy.PairBlockPolicy.Allows` | src/jdssarrow/connections/policy.py:59-61 | Refuses exactly the pairs blocked for this node |
| `Distributor.PolicyDistributor.Block` | src/jdssarrow/connections/distributor.py:112-115 | On the authority the peer is refused from then on and every other answer stands, at the next version, and exactly that policy is announced; elsewhere it is refused and nothing changes |
| `Distributor.PolicyDistributor.AllowPair` | src/jdssarrow/connections/distributor.py:137-140 | The same for lifting a pair block: that pair is allowed and every other answer stands |
| `Distributor.PolicyDistributor.AnnouncementIsBroadcast` | src/jdssarrow/connections/distributor.py:92-106 | What the authority announces is what the protocol broadcasts in a state with its policy and version |
| `Distributor.PolicyDistributor.Broadcast` | src/jdssarrow/connections/distributor.py:92-106 | The update written encodes the policy held, at the current version, signed when the node signs |
| `Distributor.PolicyDistributor.OnUpdate` | src/jdssarrow/connections/distributor.py:147-164 | The field-by-field application is the receiver step the protocol theorems are about, and does nothing on the authority |
| `Wire.FrameRoundTrip` | src/jdssarrow/iem/exchange.py:58-92 | An encodable frame followed by anything parses back to itself |
| `Wire.EncodedBytes` | src/jdssarrow/iem/exchange.py:58-71 | Where every byte of a frame is: magic, version, both names with their lengths, the payload's length most significant byte first, the payload |
| `Wire.ParsesExactlyWhen` | src/jdssarrow/iem/exchange.py:73-92 | Bytes parse if and only if they are that header with ASCII names and at least four more bytes |
| `Wire.ReencodeIsPrefixExactlyWhenWhole` | src/jdssarrow/iem/exchange.py:73-92 | A parsed frame re-encodes to a prefix of the input if and only if the input held the whole declared payload |
| `Wire.ParseFrame` | src/jdssarrow/iem/exchange.py:74-92 | The cursor-based parser computes the parsing function, errors included |
| `Wire.Provider.VerifyExactly` | src/jdssarrow/security/provider.py:43-55 | verify returns p if and only if the wire bytes are protect(p), for any 32-byte tag function |
| `Wire.Provider.ProtectedBytes` | src/jdssarrow/security/provider.py:43-55 | The payload goes out in the clear, followed by its 32-byte tag |
| `Dedup.KeysIdentifyExactlyWhen` | src/jdssarrow/iem/exchange.py:266-268 | Keys identify (originator, id) pairs if and only if no message id ends in a colon followed by another one |
| `Dedup.ColonFreeIdsIdentify` | src/jdssarrow/iem/exchange.py:266-268 | Ids without a colon meet that condition |
| `Dedup.RepeatsAreFarApart` | src/jdssarrow/iem/exchange.py:270-280 | Between two deliveries of one key lie at least W distinct other keys |
| `Dedup.DedupIndex.IsDuplicate` | src/jdssarrow/iem/exchange.py:270-271 | A key is a duplicate exactly when it is among the last W remembered keys |
| `Dedup.DedupIndex.Remember` | src/jdssarrow/iem/exchange.py:273-280 | Set and deque keep holding exactly the last W remembered keys, without repeats |
| `Dedup.DedupIndex.Clear` | src/jdssarrow/iem/exchange.py:137-142 | Everything is forgotten and the number of forgotten keys returned |
| `Exchange.EveryDispatchPermitted` | src/jdssarrow/iem/exchange.py:228-240 | Every dispatch _on_frame makes was permitted at that moment by the local, coalition and pair policies and the receive capability, and its key was not in the window |
| `Exchange.FrameVerdict` | src/jdssarrow/iem/exchange.py:202-240 | What becomes of a frame that carries a payload under the receiver's key, in words of the tables consulted: control, decode failure, policy, capability, duplicate (by originator and id among the last W) or accepted, each under its own counter |
| `Exchange.UnprotectedIsRejected` | src/jdssarrow/iem/exchange.py:205-214 | Everything that is not a frame carrying the protected form of some payload is a decode failure |
| `Exchange.ControlFrameIsApplied` | src/jdssarrow/iem/exchange.py:215-250 | In any state a control frame is handed to its handler, never dropped, counted or remembered; a policy update in it moves the coalition policy as the protocol's receiver does and nothing else |
| `Exchange.OwnRefusalsTakeHold` | src/jdssarrow/iem/exchange.py:228-233 | Once the local matrix refuses a peer, or a kind is switched off, nothing of the sort is dispatched before the next such edit |
| `Exchange.OwnBlockTakesHold` | src/jdssarrow/connections/distributor.py:112-125 | At the authority itself a block is in force from its commit until the peer is allowed or reset |
| `Exchange.BlockedPeerIsSilenced` | src/jdssarrow/iem/exchange.py:228-240 | Once the coalition policy held refuses a peer or pair, a dispatch from that peer needs a newer version in force, one that permits it |
| `Exchange.ReentryNeedsFullWindow` | src/jdssarrow/iem/exchange.py:265-280 | In every run, with no clear in between, a key is remembered again only after W distinct other keys |
| `Exchange.DispatchedAtMostOnce` | src/jdssarrow/iem/exchange.py:234-240 | While fewer than W other keys are remembered in between, a key is dispatched at most once |
| `Exchange.DispatchedExactlyOnceWhen` | src/jdssarrow/iem/exchange.py:202-280 | In every run, clears and evictions included, a key the node did not transmit is dispatched exactly once if and only if some copy arrives when policy and capability permit it and every later such copy arrives with no clear and fewer than W other keys since the first |
| `Exchange.MessageDispatchedExactlyOnce` | src/jdssarrow/iem/exchange.py:155-240 | End to end: when one copy of a message arrives while permitted, its key is dispatched exactly once if and only if every permitted copy after the first is that close to it, and where no other message bears the key, what is dispatched is the message |
| `Exchange.HonestCopyMeetsGates` | src/jdssarrow/iem/exchange.py:202-226 | A copy sent with the shared key and codec never fails framing, security or decoding |
| `Exchange.AcceptedIsAuthentic` | src/jdssarrow/iem/exchange.py:205-240 | What is dispatched carries the tag of its own payload and is what the codec reads in it |
| `Exchange.OwnLoopbackIsDropped` | src/jdssarrow/iem/exchange.py:155-165 | A looped-back copy that arrives after _transmit of a new id has ended is not dispatched |
| `Exchange.LoopbackDispatchedExactlyWhenEarly` | src/jdssarrow/iem/exchange.py:155-186 | On a bearer that can return a copy while its send is suspended, a permitted copy of a new id is dispatched if and only if it arrives before _transmit has ended, and the next copy is then a duplicate |
| `Exchange.EveryFrameCountedOnce` | src/jdssarrow/iem/exchange.py:202-244 | In every run each non-control inbound frame is counted once, as accepted or under one of four drop counters, and each peer's count is its accepted messages |
| `Enforcement.EveryDispatchPermittedByAuthority` | src/jdssarrow/iem/exchange.py:205-240 | A node whose control frames come off the channel of any distribution run, hostile members included: what it dispatches while it holds version v > 0 comes from an originator that the authority's policy at v permits it to hear, peer and pair |
| `Enforcement.PermitsExactlyAsAuthority` | src/jdssarrow/connections/distributor.py:147-164 | Where no trusted replay has its pairs rewritten, the node at version v > 0 permits exactly what its local policy and the authority's policy at v both permit |
| `Enforcement.BlockTakesHold` | src/jdssarrow/connections/distributor.py:112-140 | Once a node holds a version from which on the authority refuses it an originator, nothing from that originator is dispatched, however late or reordered further updates arrive |
| `Enforcement.JoinedRunsExtend` | src/jdssarrow/iem/exchange.py:215-250 | The joined runs start from any fresh node and go on with any event whose update, if it carries one, is on the channel |
| `Enforcement.BlockedPeerStaysSilent` | src/jdssarrow/connections/distributor.py:112-115 | From the edit to the silence: after the authority blocks a peer, a node that has reached that version dispatches nothing from it until the peer is allowed or reset, whatever else is edited, lost, reordered or injected |
| `Enforcement.BlockedPairStaysSilent` | src/jdssarrow/connections/distributor.py:132-135 | The same for the observer a pair block names |
| `Enforcement.LatestBroadcastTakesHold` | src/jdssarrow/connections/distributor.py:147-164 | One control frame with the latest broadcast brings a node that is behind to permitting exactly what its local policy and the authority's present policy permit |
| `Engine.DeliveriesExact` | src/jdssarrow/iem/exchange.py:259-263 | Each subscribed handler is called once, in registration order, up to and including the first that raises, and no other |
| `Engine.ExchangeEngine.OnFrame` | src/jdssarrow/iem/exchange.py:202-240 | The receive path gives the verdict, the next state, the metrics reports and the handler calls of the step the run theorems are about |
| `Engine.ExchangeEngine.Transmit` | src/jdssarrow/iem/exchange.py:155-165 | Stamps the next sequence number, sends exactly `repeat` copies of the framed message, handles the frames that arrive while each send is suspended, and then remembers the message; where framing raises nothing is sent, where a send raises the copies before it are out and its own may be, and nothing is remembered |
| `Engine.ExchangeEngine.Publish` | src/jdssarrow/iem/exchange.py:167-172 | Fills in the originator, transmits and accounts the message once as sent, after whatever arrived meanwhile |
| `Engine.ExchangeEngine.RelayFromBridge` | src/jdssarrow/iem/exchange.py:180-186 | Transmits, calls the handlers and accounts the message once as received, past every gate, after whatever arrived meanwhile |
| `Metrics.RingAgreesWithDrops` | src/jdssarrow/monitor/metrics.py:88-96 | While nothing was evicted since the last clear, the ring's rejected entries per coarse reason equal the drops counted since |
| `Metrics.RecentIsNewest` | src/jdssarrow/audit.py:102-113 | A query answers with the newest matching records of the whole history, at most limit of them; a limit of 0 answers with all that are held |
| `Metrics.FilteredPicks` | src/jdssarrow/audit.py:108-112 | A filter keeps exactly the entries of the wanted direction and disposition, in order |
| `Metrics.EntriesSay` | src/jdssarrow/monitor/metrics.py:73-96 | Sent messages are logged as out and accepted, received ones as in and accepted, dropped ones as in and rejected, and sightings not at all |
| `Metrics.MaxClassExact` | src/jdssarrow/monitor/metrics.py:129-137 | The highest classification seen is the highest of the received messages |
| `Metrics.MessageLog.Recent` | src/jdssarrow/audit.py:102-113 | The filtering query is the tail of the filtered ring |
| `Metrics.MessageLog.Counts` | src/jdssarrow/audit.py:115-120 | The four counts are those of the ring, and both splits add up to its length |
| `Metrics.GatewayMetrics.RecordDropped` | src/jdssarrow/monitor/metrics.py:88-96 | Keeps counters, peer counts and ring in agreement with the reported history, extended by this drop |
| `Metrics.GatewayMetrics.RecordReceived` | src/jdssarrow/monitor/metrics.py:81-86 | The same for an accepted message, peer count and highest classification included |
| `Metrics.GatewayMetrics.NodeSeen` | src/jdssarrow/monitor/metrics.py:124-127 | The same for a sighting, which counts no message |
| `CotStream.EventsExact` | src/jdssarrow/bridges/takserver.py:188-201 | The documents of a stream are exactly, in order, one for each end tag with a start tag between it and the previous end tag, from the first such start tag, whatever else the stream holds |
| `CotStream.RestExact` | src/jdssarrow/bridges/takserver.py:188-199 | The leftover is what follows the last end tag |
| `CotStream.UntilEofExact` | src/jdssarrow/bridges/takserver.py:184-187 | An empty read ends the stream and nothing else does |
| `CotStream.ChunkingIrrelevant` | src/jdssarrow/bridges/takserver.py:184-201 | Any two ways of cutting a stream give the same events and the same leftover |
| `CotStream.ReadLoop` | src/jdssarrow/bridges/takserver.py:181-201 | The reading loop's non-empty documents and buffer are those of the stream up to its end, however it was cut |
| `CotStream.Drain` | src/jdssarrow/web/eud_server.py:114-124 | The inner loop ends, with exactly what its iterations emit, the events of the buffer apart from empty documents, and a leftover without an end tag |
| `CotStream.EventsAreFrames` | src/jdssarrow/bridges/takserver.py:190-199 | Every event starts with the start tag, ends with the end tag and holds no earlier end tag; the leftover holds none |
| `CotStream.EmittedIsDoc` | src/jdssarrow/bridges/takserver.py:191-199 | When an iteration emits a document and when that document is empty |
| `CotStream.EmptyDocDependsOnChunking` | src/jdssarrow/bridges/takserver.py:196-199 | The concrete bytes that yield an empty document in one buffer and none in two |
| `CotStream.LineExact` | src/jdssarrow/bridges/takserver.py:133-136 | A line is the frame with a newline at its end, added only where there is none |
| `CotStream.WrittenFramesReadBack` | src/jdssarrow/bridges/takserver.py:133-136 | Frames written with the newline rule are read back exactly, under any chunking |
| `OutboundQueue.QueueConserves` | src/jdssarrow/bridges/takserver.py:117-147 | In every run each buffered frame was flushed, evicted or is queued, in buffering order; the bound holds; buffered = flushed + dropped + queued |
| `OutboundQueue.QueueIsSuffix` | src/jdssarrow/bridges/takserver.py:128-147 | The queue is always a suffix of what was buffered |
| `OutboundQueue.OutageKeepsNewest` | src/jdssarrow/bridges/takserver.py:128-131 | While nothing is flushed the queue holds exactly the newest max(1, queue_max) frames |
| `OutboundQueue.FlushKeepsFailedFrame` | src/jdssarrow/bridges/takserver.py:138-147 | A flush writes from the head in order and a failing frame stays at the head, to be sent again even where it had reached the socket |
| `OutboundQueue.StreamsAreWhatWasWritten` | src/jdssarrow/bridges/takserver.py:117-160 | In every run the stream of each connection is, in order, the frames of its successful sends, of its writes that failed late, and of its flushes |
| `OutboundQueue.EverySendAccountedFor` | src/jdssarrow/bridges/takserver.py:117-147 | In every run each frame sent was written directly, flushed, dropped or is queued |
| `OutboundQueue.OutageThenFlush` | src/jdssarrow/bridges/takserver.py:117-160 | A concrete run over an outage: what a buffer of one keeps is first on the next connection |
| `OutboundQueue.PeerReadsWhatWasWritten` | src/jdssarrow/bridges/takserver.py:117-201 | Over any one connection, whatever part of its bytes arrives and however it is cut, the far reader gets a prefix of the frames the operations put on that connection, with every frame whose line arrived whole, and all of them when all bytes arrived |
| `FlushRace.ConservedExactlyWhen` | src/jdssarrow/bridges/takserver.py:128-147 | With flush writes suspended and frames buffered meanwhile: every buffered frame was flushed, was evicted or is queued, exactly one of the three, if and only if no frame was buffered into the full queue during a flush write that succeeded |
| `FlushRace.OvertakenLosesHead` | src/jdssarrow/bridges/takserver.py:138-147 | Where one was, the head taken off is flushed, evicted or queued in no later state |
| `FlushRace.CountersAddUp` | src/jdssarrow/bridges/takserver.py:128-147 | In every run the queue is the newest frames in order within the bound, and buffered = flushed + dropped + queued, so the counters do not show such a loss |
| `FlushRace.FlushCanLoseAFrame` | src/jdssarrow/bridges/takserver.py:138-147 | The concrete run of four events that loses a frame |
| `FlushRace.UndisturbedIsAtomic` | src/jdssarrow/bridges/takserver.py:128-147 | Buffering, and a flush write in which nothing is buffered, are the atomic steps of OutboundQueue |
| `OutboundQueue.TakServerConnector.Opened` | src/jdssarrow/bridges/takserver.py:155-163 | A new connection has a stream of its own, and earlier ones are left as they were |
| `OutboundQueue.TakServerConnector.Send` | src/jdssarrow/bridges/takserver.py:117-126 | A frame sent over a live connection is on its bytes and nowhere else; any other is at the end of the buffer; a failing write may or may not have put it in the socket's buffer too |
| `OutboundQueue.TakServerConnector.FlushQueue` | src/jdssarrow/bridges/takserver.py:138-147 | The flushing loop is the flush step of the runs |
| `OutboundQueue.Backoffs` | src/jdssarrow/bridges/takserver.py:150-179 | Each delay is the base at the start and after a connection, and otherwise twice the one before, capped |
| `OutboundQueue.SinceResetExact` | src/jdssarrow/bridges/takserver.py:151-179 | The attempts counted are those since the last connection |
| `OutboundQueue.DelayWithinCeiling` | src/jdssarrow/bridges/takserver.py:151-179 | A delay exceeds the ceiling exactly when it is the first one and the base does |
| `XmlTree.RoundTrip` | src/jdssarrow/datamodel/codec/xml_mip.py:32-67 | Decoding an encoded value gives its normal form if and only if no object's only key is `item` and lists hold only non-null scalars and objects |
| `XmlTree.NotEveryValueComesBack` | src/jdssarrow/datamodel/codec/xml_mip.py:63-67 | Concrete values of the two failing families |
| `XmlTree.DictOfExact` | src/jdssarrow/datamodel/codec/xml_mip.py:59-67 | A tag that occurs more than once is decoded to its last occurrence |
| `XmlTree.DictToElements` | src/jdssarrow/datamodel/codec/xml_mip.py:38-56 | The element-building loops compute the encoding function |
| `Cot.RenderIsFrame` | src/jdssarrow/bridges/cot.py:210-243 | Whatever a message says, its event is one frame to the stream reader: no text in it can end the event early |
| `Cot.RenderIsMarked` | src/jdssarrow/bridges/cot.py:227-228 | Every rendered event bears the bridge marker |
| `Cot.ForwardedEventsStayMarked` | src/jdssarrow/bridges/cot.py:155-243 | Events forwarded unchanged, cut into any chunks, are read back one by one and still marked |
| `CotReader.ReadRender` | src/jdssarrow/bridges/cot.py:58-243 | An emitted event is parsed if and only if XML can hold its texts, and then every attribute is seen as it was and the remarks with their line ends normalized |
| `CotReader.EmittedSays` | src/jdssarrow/bridges/cot.py:155-243 | What the event of each kind of message says to a reader: uid, type, time, start and stale where they belong, place, callsign and remarks; and which messages have no event |
| `CotReader.AttrComesBack` | src/jdssarrow/bridges/cot.py:210-230 | An attribute value comes back whatever characters it holds |
| `CotReader.TextComesBack` | src/jdssarrow/bridges/cot.py:231-232 | Character data comes back with its line ends normalized |
| `CotReader.ComesBackExactlyWhenItFits` | src/jdssarrow/bridges/cot.py:58-243 | A body rendered as CoT, read by an XML reader and translated back is the same body if and only if every text of the event is legal in XML, the remarks hold no carriage return, and it is a named presence or a described hostile, neutral, pending or unknown contact, with no course and speed or both in range, a request for one urgent casualty, a named overlay of one labelled graphic, or chat |
| `Relay.IngestedExactlyWhen` | src/jdssarrow/web/eud_server.py:133-176 | A document is ingested if and only if it is unmarked, parses, is no "t-x" or "t-b" control message, has no stale time that is past and maps to a message; then that message is ingested last, under the originator that peer, uid and kind give, after one Identification exactly when it is a presence with a callsign new to the source; and pings alone are answered |
| `Relay.NothingIngestedLeaves` | src/jdssarrow/web/eud_server.py:155-161 | Where nothing is ingested only an EUD's own position report changes anything: its originator |
| `Relay.CotMeans` | src/jdssarrow/bridges/cot.py:58-131 | What each kind of CoT event becomes, and that no other becomes a message |
| `Relay.InertCausesNothing` | src/jdssarrow/web/eud_server.py:137-150 | Marked documents and pongs change nothing and cause nothing at either manager |
| `Relay.EmittedIsInert` | src/jdssarrow/web/servers.py:112-113 | No CoT built by message_to_cot ever causes an ingest |
| `Relay.ReactionBooksOrigin` | src/jdssarrow/web/eud_server.py:157-176 | What a document makes a gateway ingest comes from an originator already booked under its source; no booking is lost |
| `RelayNet.RelayStepsBounded` | src/jdssarrow/web/eud_server.py:133-222 | In every run of any number of gateways and peers, documents going stale in the course of it included, the relay steps are at most the arrivals from outside times a constant of the topology |
| `RelayNet.NothingReturnsToItsSource` | src/jdssarrow/web/servers.py:156-171 | Over a connection no message is streamed to a peer that has sourced its originator, nor one the gateway's node originated |
| `EudServer.EudServerManager.Ingest` | src/jdssarrow/web/eud_server.py:133-176 | The handler is the reaction of the relay model; where the connection's entry is gone it raises before ingesting anything |
| `EudServer.EudServerManager.Emit` | src/jdssarrow/web/eud_server.py:200-222 | Writes one line to exactly the connections that have not sourced the originator, of messages with a CoT form that are not the node's own, and drops exactly those whose write fails |
| `EudServer.EudServerManager.OnClient` | src/jdssarrow/web/eud_server.py:99-131 | A connection from accept to close, with nothing else going on, ingests what the events of its stream cause in turn, each at its own arrival, whatever the chunking |
| `EudServer.ConnectionsAreIndependent` | src/jdssarrow/web/eud_server.py:133-222 | However documents of other connections, connections opened and closed, and emissions that drop connections interleave, a connection that stays connected ingests exactly what its own documents cause on their own |
| `EudServer.RunsExtend` | src/jdssarrow/web/eud_server.py:99-131 | Those interleavings start from any state and any happening can come next |
| `EudServer.EmptyDocsAreIdle` | src/jdssarrow/web/eud_server.py:120-124 | Empty documents change nothing about a connection |
| `ServerManager.ServerConnectionManager.Reconcile` | src/jdssarrow/web/servers.py:69-107 | From every reachable state: the live ids become exactly the enabled desired ones, each connector and its certificate files match its definition, unchanged connectors are the same objects, the others were stopped, files belong to live ids only, and a second call changes nothing |
| `ServerManager.DesiredExact` | src/jdssarrow/web/servers.py:71 | Every configured id is desired, with the last server that has it, and no other |
| `ServerManager.ConnectChangedExact` | src/jdssarrow/web/servers.py:252-255 | A new connector is due exactly where there was no definition or a connection field differs |
| `ServerManager.ResolvesExact` | src/jdssarrow/web/servers.py:227-236 | An absent or empty certificate value gives nothing, a path itself, PEM text a file that holds it |
| `ServerManager.IsPemExact` | src/jdssarrow/web/servers.py:230 | PEM text is what begins with "-----BEGIN" after white space |
| `ServerManager.ServerConnectionManager.Stop` | src/jdssarrow/web/servers.py:209-211 | Every connector is stopped and no temporary file is left |
| `ServerManager.ServerConnectionManager.OnCot` | src/jdssarrow/web/servers.py:110-144 | The handler is the reaction of the relay model, with a header of its own for the announcement |
| `ServerManager.ServerConnectionManager.Emit` | src/jdssarrow/web/servers.py:156-171 | Sends the rendered message to exactly the live servers that have not sourced its originator, unless it is the node's own |
| `ServerManager.StartedOwned` | src/jdssarrow/web/servers.py:83-92 | Files written for a new connector keep every temporary file booked under one live id |
| `ServerManager.StoppedServes` | src/jdssarrow/web/servers.py:101-107 | Unlinking one connector's files leaves every other connector's certificates in place |
| `ServerManager.KeptGood` | src/jdssarrow/web/servers.py:73-76 | Connectors the first loop leaves alone are built from their new definitions |
| `Servers.UniqueId` | src/jdssarrow/web/routers/servers.py:48-52 | Stops within one more test than there are ids, at the first of base, base-2, base-3 and so on that is free |
| `Decimal.NatExact` | src/jdssarrow/web/routers/servers.py:51 | The number in an id is its decimal numeral without leading zeros |
| `Decimal.IntExact` | src/jdssarrow/bridges/cot.py:182 | So is a number in remarks or JSON, after a minus sign where it is negative |
| `Servers.TriedAreMany` | src/jdssarrow/web/routers/servers.py:49-51 | n candidates are n different ids |
| `Servers.CreateServer` | src/jdssarrow/web/routers/servers.py:75-83 | Appends the server under an id no other has |
| `Servers.UpdateExact` | src/jdssarrow/web/routers/servers.py:86-96 | Fails exactly for an unknown id; otherwise that server has the new settings and nothing else changes |
| `Servers.DeleteExact` | src/jdssarrow/web/routers/servers.py:99-106 | Fails exactly for an unknown id; otherwise removes that server and no other, and keeps the order |
| `Servers.CrudKeepsDistinct` | src/jdssarrow/web/routers/servers.py:75-106 | Any sequence of create, update and delete keeps ids distinct |
| `DeepMerge.Merge` | src/jdssarrow/web/runtime.py:59-67 | The filling loop computes the recursive overlay |
| `DeepMerge.ShapeOfMerge` | src/jdssarrow/web/runtime.py:59-67 | What the merge has at any path: what the patch has there, else nothing below a leaf of the patch, else what the base has |
| `DeepMerge.MergedLeaves` | src/jdssarrow/web/runtime.py:59-67 | A value is at a path if and only if the patch has it there, or the base has it and the patch has nothing there and no value above |
| `DeepMerge.ShapesDetermine` | src/jdssarrow/web/runtime.py:59-67 | Configurations that agree at every path are equal, so the path law determines the merge |
| `DeepMerge.MergeNothing` | src/jdssarrow/web/runtime.py:59-67 | Merging an empty patch changes nothing |
| `DeepMerge.MergeTwice` | src/jdssarrow/web/runtime.py:59-67 | Merging a patch twice equals merging it once |
| `DeepMerge.AssociativeExactlyWhen` | src/jdssarrow/web/runtime.py:59-67 | For all bases two patches in a row equal their merge if and only if the second has no dict where the first has another value |

## Left out

- Distribution.AnswersFollowHistory: holds for one lifetime of the authority; a restart or hot reconfigure begins again at version 1.
- Relay.IngestedExactlyWhen: the unit, role and nation of an Identification, constants of each manager, are not part of it.
- Distribution.AnswersFollowHistory: trusted injected updates carry an object for pairs; without that the pair half is false of the code, Distribution.PairsComeFromHistory says what holds instead and Distribution.InstallAnswersExactlyWhen gives the exact condition.
- OutboundQueue.QueueConserves: an enqueue, one direct write and one flush iteration are atomic; FlushRace lets a flush write be suspended and gives the exact condition. A failing write puts the whole frame in the socket's buffer or nothing.
- ServerManager.ServerConnectionManager.Reconcile: calls do not overlap and a connector's start does not raise; dict order is not modelled.
- EudServer.EudServerManager.OnClient: nothing else happens while the connection lasts; EudServer.ConnectionsAreIndependent is about interleavings.
- Exchange.MessageDispatchedExactlyOnce: the codec reads back what it wrote; the key is not one the receiver transmitted itself (Exchange.LoopbackDispatchedExactlyWhenEarly is about those).
- Engine.ExchangeEngine.Transmit: what else can happen while a send is suspended is frames being received, as on the in-process bearer, where a handler that answers at once (src/jdssarrow/simulator/profiles.py:117-128) reaches the sender during its send. Policy edits, clears and a second transmission of the same node in that time are assumed away, so a handler's own sends are not nested in it.
- Ed25519 (section 5.1 of RFC 8032) is an ideal signature and HMAC-SHA256 (section 2 of RFC 2104) any 32-byte function of the payload; keys are not modelled.
- The parsers of json, lxml and ElementTree and the pydantic message codec are parameters. JSON numbers are integers: no floats, and a version sent as text or float is not modelled. Overrides and pairs are read with Python's dict and set rules.
- The order of lists in a pair snapshot is arbitrary in the model; the code sorts them.
- Python's str() of a list or dict, and the text of an exception, are abstract where they end up in output or in a drop reason.
- A coordinate that is not a number makes cot_to_message raise and ends the connection; documents here have coordinates that parse. Track values outside their range are taken as already removed.
- CotReader.ComesBackExactlyWhenItFits: message fields CoT has no place for (altitude, battery, symbol codes, strength, status, the other casualty counts, chat recipient) are not part of the bodies compared; coordinates, courses and speeds are the texts of numbers, and which of those _deg and _spd keep is a parameter; texts hold no lone surrogates.
- CotReader.Read: covers documents laid out as message_to_cot writes them, not XML in general.
- Clocks: last_seen, peer freshness, gossip TTL and the sleeps themselves. Which stale times are past comes with each arrival of a document.
- Telemetry, Prometheus, subscriber queues, the CoT traffic log and peer details other than the message count.
- Symbology, Arrow and JSON codecs, schema validation, CapabilityMatrix beyond its receive lookup, plugin registry, sessions, classification labels, address allocation and simulators: lookups, slices or geometry with no property of this kind.
- Sockets, TLS, multicast, HTTP, WebSocket, the UIs and the CLI. Starting and rebinding the EUD listener.
- `_slug` and the one-shot connectivity probe of the server manager.
