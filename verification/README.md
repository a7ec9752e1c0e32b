# Verification model of the FreeSWITCH control plane

A Dafny model of the parts of the control plane that carry protocol, state-machine or round-trip content, with proofs of the
properties they are meant to have. `dafny verify dfyconfig.toml` checks everything.

| file | what it models |
|---|---|
| `WebSocket.dfy` | the masked WebSocket frames of the WSS check script (RFC 6455): printer, parser, short reads, ping and pong |
| `Hub.dfy`, `HubSteps.dfy`, `HubIsolation.dfy` | the event hub: the code under its lock as classes, every interleaving of calls as a step machine, and one subscriber replayed without the others |
| `Listener.dfy`, `Text.dfy`, `Wrappers.dfy` | the event-socket byte stream: header reader, frame loop, event blocks, normalization, reconnecting, and the Go string functions they use |
| `Notifier.dfy`, `Subseq.dfy` | voicemail notifications, and subsequences, which is what a lossy hub delivers |
| `Sse.dfy`, `Wallboard.dfy` | the server-sent event writer, the page's incremental reader, and the page's fold over events |
| `Pipeline.dfy` | the whole way of an event, from the byte stream to the page |
| `Recordings.dfy`, `Order.dfy` | the pruned recordings walk with its in-place exchange sort; Go's string order and sorting |
| `Schema.dfy`, `Store.dfy`, `Query.dfy` | the desired-state tables with unique keys, CASCADE and RESTRICT; the store over them; what a query may answer |
| `DialplanStore.dfy` | dialplan extensions flattened into three tables in transactions and rebuilt by `order_index` |
| `StableSort.dfy`, `DialplanRender.dfy`, `DialplanRouting.dfy` | rooms merged with stored extensions, the stable sort, the document grouped by context, and what rendering does to the routing of calls |
| `Migrate.dfy` | the migration runner under crashes, failed statements and lost replies |
| `Params.dfy` | parameter lists under Go's arbitrary map order; directory users and conference profiles |
| `Cdr.dfy`, `Pagination.dfy` | call detail records under redelivery, their daily rollups, and pages |

Code that changes state is a class or a method with loops, proved against a specification function or predicate; what the
system promises is then proved about that specification. Whatever the code cannot control is left open: how a read is cut,
which goroutine runs next, the order of a map walk, the order of tied rows, whether a statement, a commit or a reply
fails. A call that such a choice can stop has a contract for that case too.

Where the code does not do what one might expect, the model keeps the code, and a lemma says exactly when it does:

- A pong answers a ping of up to 255 bytes, but it is a legal frame only up to 125 (`WebSocket.PongIsFrame`).
- An event-socket frame whose `Content-Length` is negative or above what `make` can allocate makes the listener panic; a
  stream of frames does so if and only if it holds such a length (`Listener.PanicsIff`, `Listener.OneLineKills`).
- Validation accepts time keys that rendering drops, so a validated condition can render without attributes and match every
  call (`DialplanRender.ValidRendersSome`, `DialplanRender.ValidMayRenderBare`). The document routes every call as the
  stored conditions do if and only if each extension that loses a key this way comes after one that asks no more of a call
  (`DialplanRouting.RoutingSameIff`).
- A context whose extensions are all disabled gets an empty document, not "not found" (`DialplanRender.NotFoundIff`).
- A user with both `password` and a different `a1-hash` gets one or the other at random (`Params.OneResultIff`).
- Without a limit, the CDR list ignores the offset that every other list applies (`Pagination.SqlPageIff`).
- Answered and abandoned calls make up the total only if no record has a negative `billsec` (`Cdr.RollupConserves`).
- A migration file added later takes effect in the order of a fresh install only if it sorts after all older ones
  (`Migrate.UpgradeIffSortedAfter`).
- The reconnect wait is bounded by 32 seconds, not by the 30 in its test, and it is never reset: every session ends in an
  error, so after the sixth and every later attempt it is 32 seconds, however long the sessions lasted (`Listener.Run`).
- Moving a room onto a taken number, or renaming an extension onto a taken name, returns the raw database error, where
  creating it there returns "already exists" (`Store.RoomUpdates`, `Store.Store.UpdateRoom`, `DialplanStore.Dialplan.Update`).

## Model

| member | source | states |
|---|---|---|
| `WebSocket.Unmask` | hack/wss_register_test.py:44-44 | masking twice with one key gives every payload back |
| `WebSocket.FromToBytes` | hack/wss_register_test.py:39-42 | reading a big-endian length gives the number that was written, for every number that fits |
| `WebSocket.FromBytesBound` | hack/wss_register_test.py:61-64 | a length field of k bytes never announces 256^k or more |
| `WebSocket.ParseEncode` | hack/wss_register_test.py:31-68 | parsing a sent frame followed by anything gives its opcode, key and payload, in all three length forms, and leaves exactly the rest |
| `WebSocket.ParseLocal` | hack/wss_register_test.py:58-68 | a frame that was parsed does not depend on the bytes behind it |
| `WebSocket.ParseCutFrame` | hack/wss_register_test.py:48-55 | a frame cut off at any byte is never delivered in part |
| `WebSocket.MinimalLength` | hack/wss_register_test.py:35-42 | no header that announces n bytes is shorter than the one that is sent (RFC 6455, section 5.2) |
| `WebSocket.PongIsFrame` | hack/wss_register_test.py:69-73 | the pong is a pong frame with the ping's payload if and only if the ping kept to 125 bytes |
| `WebSocket.ParsedOnWire` | hack/wss_register_test.py:58-68 | what is parsed is what the consumed bytes spell: the length from its big-endian bytes, and with the mask bit every payload byte under byte i mod 4 of the four key bytes that stand before it |
| `WebSocket.WireIsParsed` | hack/wss_register_test.py:58-68 | conversely, bytes that spell a frame, in any length form, are parsed as that frame |
| `WebSocket.TextOnWire` | hack/wss_register_test.py:31-44 | the bytes of an encoded text frame, one by one |
| `WebSocket.PongOnWire` | hack/wss_register_test.py:69-72 | the bytes of a pong, one by one |
| `WebSocket.ReceiveTakes` | hack/wss_register_test.py:57-76 | the outcome of a receive is the one that the bytes of the stream call for: pings, then a frame that is neither ping nor close, a close frame, a ping above 255 bytes, or an end before any whole frame |
| `WebSocket.ReceivePings` | hack/wss_register_test.py:69-73 | any number of pings in front of anything is answered one by one, in order, with the same payloads |
| `WebSocket.ReceiveFrame` | hack/wss_register_test.py:57-76 | after any pings a data frame's payload is returned and exactly its bytes are consumed |
| `WebSocket.ReceiveCut` | hack/wss_register_test.py:52-53 | when the stream ends inside the awaited frame the receive fails and returns no part of it |
| `WebSocket.ReceiveStream` | hack/wss_register_test.py:57-76 | repeated receives over a stream of frames with pings between them return every payload in order |
| `WebSocket.TextHeader` | hack/wss_register_test.py:33-42 | the header built in place is the header of a final, masked text frame with the minimal length form |
| `WebSocket.Socket.Recv` | hack/wss_register_test.py:51-51 | a read takes some non-empty part of what is asked for, of any size, or nothing at the end |
| `WebSocket.Socket.SendAll` | hack/wss_register_test.py:44-44 | all bytes are appended to what was sent |
| `WebSocket.Socket.ReadN` | hack/wss_register_test.py:48-55 | however reads are cut short, exactly the next n bytes, or failure if and only if fewer remain |
| `WebSocket.Socket.SendText` | hack/wss_register_test.py:31-44 | what goes out is one text frame, byte by byte: 0x81, the shortest of the three length forms with the mask bit, a four-byte key, and byte i of the data under byte i mod 4 of that key; or an error for a length that has no form |
| `WebSocket.Socket.RecvHead` | hack/wss_register_test.py:58-64 | the header read from the socket is the one parsed off the stream |
| `WebSocket.Socket.RecvFrame` | hack/wss_register_test.py:58-68 | one whole frame is taken off the stream, unmasked, or the stream ended inside it |
| `WebSocket.Socket.RecvText` | hack/wss_register_test.py:47-76 | result, consumed bytes and pongs are those of the specification for every way reads are cut; told by the bytes: the pings taken off the stream, the frame that ends the receive and its payload under its own key bytes, and one pong per ping, 0x8A with the same payload under a key |
| `Hub.Channel.TrySend` | control-plane/internal/events/hub.go:70-73 | a send with a default branch: appended when fewer than 64 events wait, dropped otherwise, never on a closed channel |
| `Hub.Channel.Receive` | control-plane/internal/events/hub.go:36-38 | the oldest buffered event; what is buffered stays readable after close |
| `Hub.Channel.Close` | control-plane/internal/events/hub.go:52-52 | closes an open channel and keeps its buffer |
| `Hub.Hub.constructor` | control-plane/internal/events/hub.go:32-34 | a hub starts with no subscriber and id 0 |
| `Hub.Hub.Subscribe` | control-plane/internal/events/hub.go:38-58 | a new open channel under an id never used before; others untouched |
| `Hub.Hub.Publish` | control-plane/internal/events/hub.go:63-75 | in any map order, every buffer with fewer than 64 events gains exactly one event at its end, with the kind and the data given and the time given, or the clock where that is 0; full buffers stay as they are |
| `Hub.Cancel.Run` | control-plane/internal/events/hub.go:47-56 | the first call removes and closes exactly this subscriber's channel; later calls change nothing |
| `HubSteps.InvStep` | control-plane/internal/events/hub.go:38-75 | every step of every goroutine keeps the lock, map and channel invariants |
| `HubSteps.Safety` | control-plane/internal/events/hub.go:38-75 | no interleaving of any number of publishers, subscribers, receivers and cancels sends on or closes a closed channel or reuses an id or channel, and the map holds exactly the ids not yet cancelled |
| `HubSteps.SubscriberCount` | control-plane/internal/events/hub.go:78-82 | after every run the size of the map, which is what Subscribers returns, is the number of ids handed out minus the number of ids cancelled |
| `HubSteps.Conservation` | control-plane/internal/events/hub.go:69-74 | offered events are accepted or dropped, and dropped only at a full buffer |
| `HubSteps.Delivery` | control-plane/internal/events/hub.go:60-75 | with one publisher, in every reachable state: what a subscriber was offered is exactly what was published since it subscribed, up to its cancel and without the event that a Publish in progress has not offered it yet; its received plus buffered events are those of them that did not meet a full buffer, in order, and received + buffered + dropped = offered |
| `HubSteps.Drain` | control-plane/internal/events/hub.go:48-54 | events already buffered can all be received, in order, whether or not the channel was closed |
| `HubIsolation.NonInterference` | control-plane/internal/events/hub.go:60-75 | for every run and every subscriber, whichever goroutines make the calls: removing every subscribe, receive and cancel of all others leaves a run of the hub with this subscriber's channel, received events and drops unchanged |
| `Text.AtoiItoa` | control-plane/internal/events/listener.go:192-192 | every Go int written in decimal is read back as the same number |
| `Text.UnescapeEncode` | control-plane/internal/events/listener.go:145-147 | percent-decoding undoes percent-encoding on every byte string (RFC 3986, section 2.1) |
| `Text.UnescapeHex` | control-plane/internal/events/listener.go:145-147 | a percent sign and two hexadecimal digits of either case are the byte they spell |
| `Text.NotHex` | control-plane/internal/events/listener.go:145-147 | a percent sign without two such digits is not decoded |
| `Text.TrimSpaceIs` | control-plane/internal/events/listener.go:124-124 | exactly the longest runs of the six white-space characters at both ends are trimmed |
| `Text.AtoiTooBig` | control-plane/internal/events/listener.go:95-95 | a number too large for an int reads as the largest int where the error is thrown away, and is refused where it is not |
| `Text.NotDecimal` | control-plane/internal/events/listener.go:95-95 | text with anything but digits behind a sign reads as 0 or is refused |
| `Listener.HeadersOfFields` | control-plane/internal/events/listener.go:112-127 | reading written header fields gives the same map, the later of two equal names winning, and stops exactly behind the blank line |
| `Listener.HeadersLocal` | control-plane/internal/events/listener.go:112-127 | headers that were read do not depend on the bytes behind them |
| `Listener.BlockOfFields` | control-plane/internal/events/listener.go:132-151 | a percent-encoded event block parses back to the same map, whatever follows its blank line |
| `Listener.OddHeaders` | control-plane/internal/events/listener.go:112-127 | lines may end in a carriage return, and a line that names nothing is passed over |
| `Listener.OddFields` | control-plane/internal/events/listener.go:132-151 | the same in an event block, where a value that does not decode is taken as it stands |
| `Listener.MwiCounts` | control-plane/internal/events/listener.go:185-239 | from an account "user@domain", with "sip:" in front or not, and a message line "n/s (...)" the event holds the account, its two parts, and n and s in a form that reads back as the same numbers |
| `Listener.NoCounts` | control-plane/internal/events/listener.go:227-239 | a message line without a slash before its parenthesis gives 0 and 0 |
| `Listener.LoopOfFrame` | control-plane/internal/events/listener.go:89-108 | a whole frame in front of anything is read exactly, whatever its body contains |
| `Listener.LoopOfCut` | control-plane/internal/events/listener.go:89-101 | a frame cut off at any byte publishes nothing |
| `Listener.LoopOfFatal` | control-plane/internal/events/listener.go:96-99 | a header with a length that cannot be allocated panics as soon as it is complete and does nothing before |
| `Listener.LoopOfStream` | control-plane/internal/events/listener.go:89-108 | for every sequence of frames, with lengths that fit their bodies or cannot be allocated, cut off at any byte: exactly the normalized events of the frames complete before any fatal header are published, in order, and the loop panics if and only if a fatal header has arrived |
| `Listener.PanicsIff` | control-plane/internal/events/listener.go:95-99 | a whole stream of such frames panics if and only if one announces a length below 0 or above 2^48 |
| `Listener.OneLineKills` | control-plane/internal/events/listener.go:95-99 | the input: a single header with any such length, negative or too large |
| `Listener.LoopOfPrefix` | control-plane/internal/events/listener.go:89-108 | on any bytes at all, a shorter stream publishes a prefix of the events of a longer one |
| `Listener.Reader.ReadString` | control-plane/internal/events/listener.go:115-118 | the next line, or nothing when the stream ends inside it |
| `Listener.Reader.ReadFull` | control-plane/internal/events/listener.go:99-101 | exactly n bytes, or failure |
| `Listener.Reader.ReadHeaders` | control-plane/internal/events/listener.go:112-127 | the reader's loop computes the specified header map and leaves the rest |
| `Listener.ParseBlock` | control-plane/internal/events/listener.go:132-151 | the loop over split lines computes the specified map |
| `Listener.Session` | control-plane/internal/events/listener.go:59-109 | after the two handshake replies exactly the events of the remaining stream are published; a refused login publishes none |
| `Listener.SessionOf` | control-plane/internal/events/listener.go:59-88 | a session from its first byte: after a reply whose text holds "+OK" everything behind the third header block is read, after any other reply nothing is |
| `Listener.ReadEvents` | control-plane/internal/events/listener.go:89-108 | the endless loop publishes what the specification says, and panics exactly when it does |
| `Listener.HandleBody` | control-plane/internal/events/listener.go:102-107 | a body is published only as an event-plain block, and then as the table of the next row says |
| `Listener.NormalizeIs` | control-plane/internal/events/listener.go:155-215 | one event exactly for five event names, two subclasses of CUSTOM among them, and nothing otherwise; for each its kind, and for each data key the header it is copied from, left out if and only if that header is empty or missing |
| `Listener.FieldsPublish` | control-plane/internal/events/listener.go:102-107 | the same for every percent-encoded block of written fields |
| `Listener.PutAllIs` | control-plane/internal/events/listener.go:132-151 | of two fields of one name the later one counts |
| `Listener.Connect` | control-plane/internal/events/listener.go:59-109 | every session ends in an error, whatever the network delivers |
| `Listener.Run` | control-plane/internal/events/listener.go:40-55 | over the whole life of the process the waits are 1, 2, 4, 8, 16 and then always 32 seconds, one for each session that ended without a panic; the reset for a session without an error never happens; the events of all sessions are published in order |
| `Notifier.Notifier.Handle` | control-plane/internal/events/notifier.go:95-122 | the account's last count becomes the number under "new", and exactly when that is more than before, or than 0 the first time, each configured sink hears of it once, in order |
| `Notifier.Notifier.Run` | control-plane/internal/events/notifier.go:71-92 | for every interleaving of accounts, each account's notices are the strict rises of its own count sequence from 0, per configured sink |
| `Notifier.TracksNext` | control-plane/internal/events/notifier.go:95-122 | one more event keeps that accounting for every account and every sink |
| `Notifier.CountsAre` | control-plane/internal/events/notifier.go:95-100 | the counts are the numbers written under "new" in the account's voicemail events |
| `Notifier.RisesOfSub` | control-plane/internal/events/notifier.go:102-109 | any subsequence of a count sequence rises at most as often as the whole |
| `Notifier.CountsOfSub` | control-plane/internal/events/notifier.go:95-100 | losing events loses counts of an account but never reorders or adds any |
| `Notifier.LossNeverNotifies` | control-plane/internal/events/hub.go:69-74 | dropped events can suppress notifications but never create one |
| `Sse.HandleEvents` | control-plane/internal/api/events.go:29-67 | the select loop writes the greeting and then one frame per event and a comment per heartbeat until it is stopped |
| `Sse.WriteFrame` | control-plane/internal/api/events.go:56-64 | three writes make up one event frame |
| `Sse.SplitMore` | control-plane/internal/api/wallboard.html:120-125 | splitting chunk by chunk with the remainder kept gives the blocks of the whole text |
| `Sse.DataLineIs` | control-plane/internal/api/wallboard.html:124-124 | the first line that starts with "data:" is taken, whatever stands before or behind it |
| `Sse.EventBlock` | control-plane/internal/api/wallboard.html:122-126 | a written frame is one block and decodes to its event |
| `Sse.DeliveredOutput` | control-plane/internal/api/events.go:39-66 | what the writer wrote is read back as exactly the sent events, in order; heartbeats vanish |
| `Sse.ReadUndoesWrite` | control-plane/internal/api/wallboard.html:117-127 | the same for the whole response, greeting included |
| `Sse.BrokenConnection` | control-plane/internal/api/wallboard.html:117-127 | a response cut off anywhere delivers a prefix of the sent events |
| `Wallboard.ActiveCalls` | control-plane/internal/api/wallboard.html:101-103 | the active calls are exactly the uuids with a start and no later end |
| `Wallboard.CallShown` | control-plane/internal/api/wallboard.html:101-103 | a shown call carries the parties and time of its last start, and is answered if and only if an answer came after it |
| `Wallboard.WaitingIsMaxSuffix` | control-plane/internal/api/wallboard.html:105-108 | the clamped waiting counter is the maximum over all suffixes of joins minus leaves |
| `Wallboard.QueueWords` | control-plane/internal/api/wallboard.html:105-108 | a queue event joins when its action says "join", and else leaves when it says "abandon", "bridge", "leave" or "exit", in letters of either case |
| `Wallboard.TotalCalls` | control-plane/internal/api/wallboard.html:101-101 | the number of calls is the number of starts |
| `Wallboard.AgentShown` | control-plane/internal/api/wallboard.html:104-104 | an agent is shown with the status of its last event, "?" when that has none |
| `Wallboard.AgentUnknown` | control-plane/internal/api/wallboard.html:104-104 | an agent without any such event is not shown |
| `Wallboard.Client.Apply` | control-plane/internal/api/wallboard.html:98-111 | one event changes the page's maps and counters as one step of the fold, each of the four told by the event's own fields |
| `Wallboard.Client.ApplyBlock` | control-plane/internal/api/wallboard.html:123-125 | a block without a decodable data line changes nothing |
| `Wallboard.Client.TakeBlocks` | control-plane/internal/api/wallboard.html:121-126 | the inner loop applies every complete block in order and keeps the unfinished rest |
| `Wallboard.Client.Stream` | control-plane/internal/api/wallboard.html:117-127 | for every chunking of the response text the page ends as the fold over the delivered events |
| `Pipeline.AcceptedIsSub` | control-plane/internal/events/hub.go:69-74 | accepted events are a subsequence of the offered ones |
| `Pipeline.PublishedInOrder` | control-plane/internal/events/hub.go:63-68 | one publisher's events are published in call order, each once, with their times set |
| `Pipeline.StampedIsRaw` | control-plane/internal/events/hub.go:63-66 | published event i has the kind and data of call i, and its time, or the clock of that call where it had none |
| `Pipeline.ReceivedIsSub` | control-plane/internal/events/hub.go:60-75 | what a subscriber received is a subsequence of what was published while it was subscribed |
| `Pipeline.NotifierBehindHub` | control-plane/internal/events/notifier.go:83-89 | over every run of the hub, a notifier behind it sends at most the notifications of the loss-free stream |
| `Pipeline.EndToEnd` | control-plane/internal/api/events.go:48-65 | from event-socket bytes through listener, hub, writer and any chunking, the page delivers exactly what its subscriber received: a subsequence, in kind and data, of the events that the listener reads from the bytes |
| `Recordings.LexicalIsNumeric` | control-plane/internal/api/recordings.go:203-203 | on fixed-width digit names the string order is the numeric order |
| `Recordings.TextOrder` | control-plane/internal/api/recordings.go:136-136 | the order of YYYY-MM-DD texts is the order of the dates |
| `Recordings.Calendar` | control-plane/internal/api/recordings.go:156-157 | the valid dates are the days of the Gregorian calendar: from each to the next an unbroken day count goes up by one |
| `Recordings.YearLength` | control-plane/internal/api/recordings.go:156-157 | a year has 365 valid dates, or 366 exactly when it is a leap year, and 400 years have 146097 |
| `Recordings.Chronological` | control-plane/internal/api/recordings.go:136-136 | the order of valid dates is the order of that count |
| `Recordings.PartiesRead` | control-plane/internal/api/recordings.go:24-31 | caller and destination are what stands before the first two underscores of a file name, whatever follows |
| `Recordings.NoParties` | control-plane/internal/api/recordings.go:24-31 | a name with fewer than two underscores has neither |
| `Recordings.WalkIsFullScan` | control-plane/internal/api/recordings.go:135-186 | whenever the pruned walk succeeds it returns what a scan of the whole tree returns after filtering |
| `Recordings.ListsFound` | control-plane/internal/api/recordings.go:144-183 | every file in the directory of a valid day whose text lies between the texts of the two dates, both included, and with the number as one of its parties, is listed, with its name, size, time, parties and address |
| `Recordings.ListsOnlyFound` | control-plane/internal/api/recordings.go:144-183 | whatever is listed is such a file |
| `Recordings.WalkSucceedsIff` | control-plane/internal/api/recordings.go:137-163 | the walk succeeds if and only if it can list every directory it needs: the root, the years between the two dates, their months, and those of their valid days that are in the range |
| `Recordings.WalkNewestFirst` | control-plane/internal/api/recordings.go:190-212 | with unique names in each directory, days come newest first and no file twice |
| `Recordings.ExchangeSort` | control-plane/internal/api/recordings.go:204-210 | the in-place exchange sort leaves a descending permutation |
| `Recordings.DescendingDirs` | control-plane/internal/api/recordings.go:190-212 | the wanted directories, filtered and sorted down |
| `Recordings.WalkDay` | control-plane/internal/api/recordings.go:155-183 | one day's loop equals its specification; an invalid date is skipped without a request |
| `Recordings.ListFiles` | control-plane/internal/api/recordings.go:164-183 | the file loop keeps exactly the matching files in order |
| `Recordings.WalkMonth` | control-plane/internal/api/recordings.go:149-184 | one month's loop equals its specification, stopping at the first failure |
| `Recordings.WalkYear` | control-plane/internal/api/recordings.go:144-185 | one year's loop equals its specification |
| `Recordings.WalkRecordings` | control-plane/internal/api/recordings.go:135-186 | the nested loops compute the specified walk, and everything they list is dated between the two dates as written |
| `Order.SortAscending` | control-plane/internal/renderer/xml.go:18-18 | sorting strings leaves them ascending |
| `Order.LtIs` | control-plane/internal/renderer/xml.go:18-18 | strings are ordered by bytes: the first difference decides, and a proper prefix comes first |
| `Order.AscendingUnique` | control-plane/internal/renderer/xml.go:11-18 | there is only one ascending arrangement |
| `Order.SortDownFilter` | control-plane/internal/api/recordings.go:190-212 | sorting what passes a filter is filtering what was sorted |
| `Schema.IntegrityStep` | control-plane/internal/db/migrations/000001_init.up.sql:12-77 | no accepted statement breaks a unique key or leaves a reference without its row |
| `Schema.FindDomain` | control-plane/internal/store/users.go:33-40 | the id of a name, if it has one |
| `Schema.NamesKept` | control-plane/internal/db/migrations/000002_callcenter.up.sql:5-39 | updates and deletes by name keep names unique and touch no other name |
| `Store.IntegrityRun` | control-plane/internal/store/callcenter.go:104-222 | every run of store calls from empty tables, failed ones included, keeps all keys and references |
| `Store.DeleteDomainIsExact` | control-plane/internal/store/domains.go:98-107 | deleting a domain removes it, its users, its extensions and their conditions and actions, and nothing else |
| `Store.DeleteExtIsExact` | control-plane/internal/store/dialplan.go:213-222 | deleting an extension removes its conditions and their actions, and nothing else |
| `Store.DeleteQueueIsExact` | control-plane/internal/store/callcenter.go:104-113 | deleting a queue removes it and its tiers, and nothing else |
| `Store.DeleteAgentIsExact` | control-plane/internal/store/callcenter.go:194-203 | deleting an agent removes it and its tiers, and nothing else |
| `Store.DeleteProfileIffUnused` | control-plane/internal/store/conference.go:93-105 | a profile is deleted if and only if it exists and no room uses it; a profile in use is a conflict |
| `Store.UserRowsAreExact` | control-plane/internal/store/users.go:116-153 | updating or deleting a user reaches exactly the row of that domain and number, and nothing else |
| `Store.TierRowsAreExact` | control-plane/internal/store/callcenter.go:258-280 | updating or deleting a tier reaches exactly the row of that queue and agent, and nothing else |
| `Store.DeleteRoomIsExact` | control-plane/internal/store/conference.go:186-195 | deleting a room removes exactly the room of that name |
| `Store.AcceptedIffConsistent` | control-plane/internal/db/migrations/000001_init.up.sql:12-77 | a fresh row of any table, or new columns of a room or an extension, are accepted if and only if the tables with them would satisfy every key and reference, and then they are exactly the new tables |
| `Store.UserInserts` | control-plane/internal/store/users.go:42-68 | a user under a known domain is a unique violation if and only if its id or its number in the domain is taken |
| `Store.TierInserts` | control-plane/internal/store/callcenter.go:207-222 | a new tier is a unique violation if its id or pair is taken, else a foreign-key violation if its queue or agent is missing, else a row |
| `Store.RoomInserts` | control-plane/internal/store/conference.go:117-134 | a new room is a unique violation if its id, name or number is taken, else a foreign-key violation if its profile is missing, else a row |
| `Store.RoomUpdates` | control-plane/internal/store/conference.go:168-184 | an update of a room is a unique violation if and only if the room exists and another has the number, which the store passes on; a missing profile is a foreign-key violation |
| `Store.Statement` | control-plane/internal/store/domains.go:29-44 | one statement takes effect whole or not at all and keeps all keys and references; its reply may be lost |
| `Store.UpdateNamedIsExact` | control-plane/internal/store/callcenter.go:81-102 | an update by name changes the columns of exactly that row; names, ids and all else stay |
| `Store.Store.CreateDomain` | control-plane/internal/store/domains.go:29-44 | the row is added, or the name is taken and nothing changes |
| `Store.Store.UpdateDomain` | control-plane/internal/store/domains.go:81-96 | the columns change and the name stays, or there is no such domain |
| `Store.Store.DeleteDomain` | control-plane/internal/store/domains.go:98-107 | the domain and all below it go, or there is no such domain |
| `Store.Store.CreateUser` | control-plane/internal/store/users.go:42-68 | the user is added under its domain, or the domain is unknown, or the number is taken |
| `Store.Store.UpdateUser` | control-plane/internal/store/users.go:116-139 | exactly this domain's user of that number changes |
| `Store.Store.DeleteUser` | control-plane/internal/store/users.go:141-153 | exactly this domain's user of that number goes |
| `Store.Store.CreateQueue` | control-plane/internal/store/callcenter.go:28-49 | the row is added, or the name is taken and nothing changes |
| `Store.Store.UpdateQueue` | control-plane/internal/store/callcenter.go:81-102 | the columns change and the name stays |
| `Store.Store.DeleteQueue` | control-plane/internal/store/callcenter.go:104-113 | the queue goes with its tiers |
| `Store.Store.CreateAgent` | control-plane/internal/store/callcenter.go:126-143 | the row is added, or the name is taken and nothing changes |
| `Store.Store.UpdateAgent` | control-plane/internal/store/callcenter.go:175-192 | the columns change and the name stays |
| `Store.Store.DeleteAgent` | control-plane/internal/store/callcenter.go:194-203 | the agent goes with its tiers |
| `Store.Store.CreateTier` | control-plane/internal/store/callcenter.go:207-222 | AlreadyExists for a taken pair, else NotFound for a missing queue or agent, else the tier is added |
| `Store.Store.UpdateTier` | control-plane/internal/store/callcenter.go:258-269 | level and position change, the pair stays |
| `Store.Store.DeleteTier` | control-plane/internal/store/callcenter.go:271-280 | exactly this pair goes |
| `Store.Store.CreateProfile` | control-plane/internal/store/conference.go:24-41 | the row is added, or the name is taken and nothing changes |
| `Store.Store.UpdateProfile` | control-plane/internal/store/conference.go:73-91 | the columns change and the name stays |
| `Store.Store.DeleteProfile` | control-plane/internal/store/conference.go:93-105 | an unused profile goes, a used one is refused |
| `Store.Store.CreateRoom` | control-plane/internal/store/conference.go:117-134 | AlreadyExists for a taken name or number, else NotFound for a missing profile, else the room is added |
| `Store.Store.UpdateRoom` | control-plane/internal/store/conference.go:168-184 | the columns change and the name stays; no such room or no such profile is NotFound, a number that another room has is the raw violation |
| `Store.Store.DeleteRoom` | control-plane/internal/store/conference.go:186-195 | exactly this room goes |
| `Query.AnswerUnique` | control-plane/internal/store/cdr.go:45-45 | a query whose ORDER BY leaves no ties has one answer |
| `DialplanStore.NumberedAnswer` | control-plane/internal/store/dialplan.go:73-75 | rows numbered 0 to n-1 come back from unordered tables in exactly that order |
| `DialplanStore.InsertConditions` | control-plane/internal/store/dialplan.go:47-70 | the nested loops write exactly the numbered rows of the conditions and actions, and touch no other extension's |
| `DialplanStore.Tx.InsertExt` | control-plane/internal/store/dialplan.go:28-39 | the extension's row enters the working copy, or its key is taken |
| `DialplanStore.Tx.UpdateExt` | control-plane/internal/store/dialplan.go:190-202 | the row changes and keeps its domain, or there is none, or its new key is taken and the violation is passed on |
| `DialplanStore.Tx.DeleteConds` | control-plane/internal/store/dialplan.go:204-206 | no row of the old version remains, and no other extension's row is touched |
| `DialplanStore.Dialplan.Create` | control-plane/internal/store/dialplan.go:12-45 | all or nothing: on success the saved map gains exactly this extension, priority 0 stored as 100; a failure before the commit changes nothing; NotFound exactly for an unknown domain, AlreadyExists exactly for a taken key or id |
| `DialplanStore.Dialplan.Update` | control-plane/internal/store/dialplan.go:180-211 | all or nothing: the extension is replaced as a whole and keeps its domain, all others read as before; NotFound exactly for an unknown id, the raw violation exactly for a key that another extension has |
| `DialplanStore.Dialplan.Delete` | control-plane/internal/store/dialplan.go:213-222 | exactly this extension leaves the saved map, or there is none; a lost reply may hide either |
| `DialplanStore.Dialplan.Commit` | control-plane/internal/store/dialplan.go:44-44 | the working copy takes effect whole or not at all; a lost reply may hide either |
| `DialplanStore.Dialplan.Load` | control-plane/internal/store/dialplan.go:72-124 | the conditions and actions come back as they were saved, in order |
| `DialplanStore.Dialplan.LoadActions` | control-plane/internal/store/dialplan.go:102-121 | the actions of a condition come back as they were saved, in order |
| `DialplanStore.Dialplan.Get` | control-plane/internal/store/dialplan.go:126-144 | what was saved under an id comes back, or there is no such id |
| `DialplanStore.Dialplan.List` | control-plane/internal/store/dialplan.go:146-178 | every saved match once, whole, by context, priority and name in the database's own collation |
| `DialplanStore.Dialplan.ListRooms` | control-plane/internal/store/conference.go:149-166 | every room of the context once, by priority and then by name in the database's own collation |
| `DialplanStore.KeyOfOther` | control-plane/internal/store/dialplan.go:190-202 | the unique key of the row is violated if and only if another saved extension has the same domain, context and name |
| `DialplanStore.OthersHold` | control-plane/internal/store/dialplan.go:180-211 | changing one extension's rows leaves every other extension readable as before |
| `DialplanStore.DomainDeleted` | control-plane/internal/store/domains.go:98-107 | after a domain is deleted, exactly its extensions are gone from the saved map |
| `StableSort.SortSorted` | control-plane/internal/api/xml.go:104-112 | any two extensions are in order of context, then the smaller priority first, then name |
| `StableSort.SortStable` | control-plane/internal/api/xml.go:104-112 | extensions that compare equal stay in the order they came in |
| `StableSort.SortMultiset` | control-plane/internal/api/xml.go:104-112 | nothing is lost, added or repeated |
| `StableSort.SortUnique` | control-plane/internal/api/xml.go:104-112 | there is no other sorted and stable arrangement |
| `StableSort.FilterSort` | control-plane/internal/api/xml.go:104-112 | filtering and sorting commute |
| `DialplanRender.ApplyTimeAttrs` | control-plane/internal/renderer/dialplan.go:49-72 | whatever order the map is walked in, each supported key sets its own attribute and others set none |
| `DialplanRender.ValidateExtension` | control-plane/internal/api/dialplan.go:11-49 | accepted exactly when name, context and conditions are there and every condition has a regex or time keys, field and expression together, a regex that compiles, and named actions; a refusal always has a message |
| `DialplanRender.ValidRendersSome` | control-plane/internal/api/dialplan.go:21-30 | a validated condition renders with an attribute if and only if it has a regex or a supported, non-empty time key |
| `DialplanRender.ValidMayRenderBare` | control-plane/internal/renderer/dialplan.go:47-72 | a misspelt time key is accepted and leaves a condition without attributes |
| `DialplanRender.RenderExtension` | control-plane/internal/renderer/dialplan.go:90-98 | the loops render every condition and action in order |
| `DialplanRender.GroupByContext` | control-plane/internal/renderer/dialplan.go:82-100 | each context maps to its enabled, unfiltered extensions in order |
| `DialplanRender.RenderDialplan` | control-plane/internal/renderer/dialplan.go:81-115 | the contexts with something to show, strictly ascending, each with what it shows |
| `DialplanRender.DocumentUnique` | control-plane/internal/renderer/dialplan.go:102-114 | the document does not depend on map order |
| `DialplanRender.RoomsRoute` | control-plane/internal/renderer/conference.go:78-105 | a room's extension has the room's context, priority and state, matches exactly its number, never renders bare and always validates |
| `DialplanRender.RoomsNeverTie` | control-plane/internal/db/migrations/000003_conference.up.sql:20-36 | no two rooms of the store tie in the sort, and no two rooms of a context answer the same number |
| `DialplanRender.RoomActions` | control-plane/internal/renderer/conference.go:79-90 | answer, then the member limit if there is one, in a form that reads back as the same number, then the conference of name and profile, with the pin if and only if there is one |
| `DialplanRender.HandleXmlDialplan` | control-plane/internal/api/xml.go:82-124 | the reply is that of the merged, stably sorted listing for the asked context |
| `DialplanRender.RoutingKept` | control-plane/internal/api/xml.go:95-118 | for every test, the first match in a context of the reply has the smallest priority, then the smallest name, then the first place in the listing, among all enabled stored extensions and rooms of the context that match; there is none if and only if none matches |
| `DialplanRouting.ShowsWritten` | control-plane/internal/renderer/dialplan.go:47-72 | a rendered condition asks exactly for its regular expression and its supported time keys that have values |
| `DialplanRouting.AgreeIff` | control-plane/internal/renderer/dialplan.go:47-72 | first matches before and after tests are lost agree for every call if and only if whatever loses a test is shadowed by something earlier that asks no more |
| `DialplanRouting.RoutingSameIff` | control-plane/internal/api/xml.go:95-118 | every call reaches the same position among the stored extensions of a context and among those of the document if and only if each extension that loses a time key comes after one that asks no more of a call |
| `DialplanRouting.LosesIff` | control-plane/internal/renderer/dialplan.go:49-72 | an extension loses a test if and only if it has a time key that is unsupported or empty |
| `DialplanRouting.SupportedKeysRoute` | control-plane/internal/renderer/dialplan.go:49-72 | with supported, non-empty time keys no call can tell the document from what is stored |
| `DialplanRender.EachOnce` | control-plane/internal/renderer/dialplan.go:81-114 | a context of the reply holds each of its enabled extensions and rooms as often as it is listed, smaller priorities first and equal ones by name, and nothing else |
| `DialplanRender.OneContext` | control-plane/internal/renderer/dialplan.go:87-89 | rendering with a context filter gives that context of the whole document |
| `DialplanRender.NotFoundIff` | control-plane/internal/api/xml.go:113-117 | not found if and only if a named context has no extension and no room; all disabled gives an empty document |
| `DialplanRender.SavedIsShown` | control-plane/internal/api/xml.go:88-118 | every enabled saved extension and every room of the store is in the document of its context |
| `Migrate.Database.ApplyFile` | control-plane/internal/db/migrate.go:43-74 | body and version row take effect together or not at all, and not at all if the version is recorded |
| `Migrate.Database.Migrate` | control-plane/internal/db/migrate.go:18-77 | wherever a run stops, a prefix of the pending files was applied; all of them if it completed |
| `Migrate.FileNames` | control-plane/internal/db/migrate.go:32-38 | the loop and the sort give the file list |
| `Migrate.FileListIs` | control-plane/internal/db/migrate.go:32-38 | in whatever order the directory is read, the list holds exactly its migration files, strictly ascending |
| `Migrate.FileListHolds` | control-plane/internal/db/migrate.go:32-38 | they are the entries that are no directories and whose names end in ".up.sql" |
| `Migrate.VersionIs` | control-plane/internal/db/migrate.go:41-41 | the version of a file is its name without that ending |
| `Migrate.RecordedIffApplied` | control-plane/internal/db/migrate.go:43-74 | over every history of runs a version is recorded if and only if its body took effect, and no body took effect twice |
| `Migrate.PrefixOfFiles` | control-plane/internal/db/migrate.go:40-76 | with fixed files the applied bodies are a prefix of the sorted names, and from the first completed run on the schema is that of one uninterrupted run |
| `Migrate.UpgradeIffSortedAfter` | control-plane/internal/db/migrate.go:38-51 | an upgrade ends in the schema of a fresh install if and only if every new file sorts after every old one |
| `Params.SortedParams` | control-plane/internal/renderer/xml.go:13-24 | the entries of the map, each once, strictly ascending by key |
| `Params.ListsUnique` | control-plane/internal/renderer/xml.go:11-12 | for every map order the list is the same |
| `Params.ListsInjective` | control-plane/internal/renderer/xml.go:13-24 | the list determines the map |
| `Params.DirectoryUserParams` | control-plane/internal/renderer/directory.go:72-92 | the sorted list of what the walk left, typed voicemail settings last: no password, the hash of "user:realm:password" in its place, every voicemail setting under its own key, all other entries unchanged |
| `Params.UserParams` | control-plane/internal/renderer/directory.go:72-92 | no password remains, typed voicemail settings win, a password becomes its hash, all else passes through |
| `Params.OneResultIff` | control-plane/internal/renderer/directory.go:80-87 | the result is independent of map order if and only if there are not both a password and a different a1-hash |
| `Params.RenderConference` | control-plane/internal/renderer/conference.go:43-67 | each profile's sorted list: every freeform setting, and each typed one under its own key unless it is given freeform, video settings only with a video mode |
| `Cdr.FirstStored` | control-plane/internal/store/cdr.go:9-25 | one row per call, equal to the first record that arrived |
| `Cdr.RedeliveryInvisible` | control-plane/internal/store/cdr.go:9-10 | the same records in any order and any number of times leave the same table |
| `Cdr.Cdrs.InsertCdr` | control-plane/internal/store/cdr.go:11-25 | a success adds the record to what arrived; a failure may have, its reply being lost |
| `Cdr.Cdrs.PostCdr` | control-plane/internal/api/cdr.go:43-102 | 400 exactly for a payload that names no call, 200 only when the record arrived, 500 when it may not have; the record has every column from its own variable and the parties from the caller profile first |
| `Cdr.ParsedIs` | control-plane/internal/api/cdr.go:58-94 | the payload is a record exactly when it has a uuid or a call_uuid, and which variable each column comes from |
| `Cdr.Cdrs.ListCdr` | control-plane/internal/store/cdr.go:32-66 | exactly the records that meet the five conditions, later starts first and equal ones by id, paged in SQL, with the unpaged total |
| `Cdr.ListedUnique` | control-plane/internal/store/cdr.go:32-66 | table and filter determine the page and the total |
| `Cdr.NewestOrders` | control-plane/internal/store/cdr.go:45-45 | start time then id leaves no ties, so the list is determined |
| `Cdr.Cdrs.CdrStats` | control-plane/internal/store/cdr.go:70-96 | one row per day with records, newest first, with that day's counts and sums |
| `Cdr.StatIs` | control-plane/internal/store/cdr.go:70-80 | a day counts the records that start between its midnights in UTC, those of them with billsec above 0 and those with billsec 0, and sums and averages their billsec |
| `Cdr.RollupConserves` | control-plane/internal/store/cdr.go:70-80 | daily totals add up to the list's total and talk time to all billsec; answered + abandoned = total if and only if no billsec is negative |
| `Cdr.RollupUnique` | control-plane/internal/store/cdr.go:78-81 | the window determines the rollup |
| `Cdr.AverageNearest` | control-plane/internal/store/cdr.go:77-77 | the average is the nearest whole number |
| `Pagination.ParsePage` | control-plane/internal/api/pagination.go:19-42 | malformed or negative numbers are refused, absent ones are 0, and limits above 1000 act as 1000 |
| `Pagination.AsWritten` | control-plane/internal/api/pagination.go:22-40 | the numbers a client writes in decimal are the ones taken |
| `Pagination.Malformed` | control-plane/internal/api/pagination.go:22-40 | no number is 0, and text that is no decimal number is refused |
| `Pagination.ApplyIs` | control-plane/internal/api/pagination.go:46-56 | a page is the elements from the offset on, as many as the limit, or all of them without one; with the whole length as total |
| `Pagination.FirstPages` | control-plane/internal/api/pagination.go:46-56 | the first k pages together are the first k times limit elements |
| `Pagination.PagesTile` | control-plane/internal/api/pagination.go:44-56 | enough pages of any size rebuild the list, each element once, with a constant total |
| `Pagination.SqlPageIs` | control-plane/internal/store/cdr.go:45-49 | the SQL page is the rows behind the offset, as many as the limit; all rows without a limit |
| `Pagination.SqlPageIff` | control-plane/internal/store/cdr.go:45-49 | the SQL page is the page of apply if and only if there is a limit, no offset, or no row |

## Left out

- The listener's shutdown by its context and the sending of the login; an attempt is either no connection or the stream of bytes it delivers.
- Memory running out: a length of up to 2^48 bytes counts as one that can be allocated, as it does for `make` on a 64-bit machine.
- Strings are bytes below 256 or abstract text: the UTF-8 stream decoder of the page and non-ASCII white space are not modelled.
- JSON, XML, regular expressions, MD5 and UUIDs are parameters or arbitrary values: a faithful encoder without newlines, a predicate for "compiles", a function for the hash, any text for an id. The dialplan document ends before it is written as XML.
- The clock is an input. Timers, HTTP plumbing, authentication, flushing and failed writes of the event stream are left out, except that a response may end anywhere.
- Sends of notifications are recorded in a log; the network behind them is not modelled.
- The writer preference of Go's RWMutex: the hub's step machine allows more interleavings than Go does.
- HubSteps.Delivery: stated for one publisher, as the hub is documented to have; with several, only channel safety is proved.
- WebSocket frames are taken as final (unfragmented), and control frames are told apart by opcode only, as the script does.
- The page's log lines, HTML and token handling.
- The date fallback of the recordings handler for text that has the shape of a date but is none: the walk starts from two valid dates.
- Store operations run one at a time. The store's reads by name, its gateways, devices and operators, and timestamps are left out; columns that no key, reference or order uses are kept together as one map.
- The store's methods return a new id; the Go methods write it into the argument struct. A nil map and an empty one are the same.
- An extension without a domain (a NULL domain_id) cannot be made through the store and is not modelled.
- The database's collation is any total order of text; the reply to FreeSWITCH is sorted again by bytes.
- A migration body is known by its name and changes the schema as a whole; a body that commits by itself and two runners at once are not modelled.
- Cdr.Cdrs.CdrStats: counts days from 1970-01-01 UTC instead of formatting them; the two agree for four-digit years.
- Gateway and directory document rendering around the parameter lists, and config, health checks, deployment files: easy members or nothing to verify.
