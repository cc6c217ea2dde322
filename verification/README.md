# Phaze relay and clients, in Dafny

A model of the hard parts of Phaze: the Nexus relay server, its rate limiter,
the clients' codecs and parsers, and their small state machines, with proofs of
what they promise. `dafny verify dfyconfig.toml` checks everything.

Code that changes state is a class with the same fields, or a method with the
same loop, proved against a specification function or against a step of a state
machine. The main results are then lemmas over every input, every run or every
interleaving.

| module | models | main results |
|---|---|---|
| `Relay`, `RelayMessages` | connection handlers, the client registry, the offline queue and group fan-out as a step machine: one step is one critical section, one SQL statement or one Send | no message lost under any interleaving, each goes where the registry pointed at its lookup; the registry holds exactly the latest session; rows are handed over twice exactly if some delivery reads a row while another is busy with it |
| `RelayRuns` | the server's loops as runs of that machine | the fan-out and delivery loops are runs; runs that duplicate a row or leave a stale entry |
| `IpLimiter` | the bounded map of token buckets with garbage collection | simulation by an unbounded map; exactly when and which evictions are invisible, and when the cap branch fires; size and rate bounds |
| `LineDrawing` | Bresenham lines with clipping | closed form of the loop; within half a pixel, no pixel nearer, connected |
| `ChannelHistory` | backwards paging over a growing log | pages rebuild the log of the first fetch |
| `Friends` | the friend graph and group creation | a friendship exists iff it was asked for, accepted and not ended; one row a pair exactly if no requests cross; who is in a group, over all runs |
| `Spaces` | servers, members, channels | who is a member, over all runs; exactly one owner row; positions are creation order exactly if no insert is overtaken |
| `FileTransfer` | DataChannel file framing | any file arrives once and unchanged amid other traffic |
| `Emoticons` | the token regular expression and the text splitter | the unique leftmost longest tokenization |
| `Stun` | the mapped-address attribute walk | exactly when an endpoint is returned; inverse of the encodings |
| `Envelopes`, `GroupChat` | hex, nonce and prefix layers of both clients; one group message from sender to reader | every seal/open combination of the clients round-trips; one readable copy for each member |
| `KeyPins` | trust on first use in both clients | pins never change, accepted keys agree, also with failing lookups |
| `MuLaw`, `JitterBuffer` | G.711 mu-law and the playback queue | error bound, monotone, inverse; never blocks, plays in arrival order, every sample accounted for |
| `Versions` | the update comparison | strict weak order without cycles; parsing inverts printing |

Where the code does not keep what one would expect, a lemma says exactly when it
does, over all runs or all inputs: `Relay.HandedOverOnceIff` (with the run of
`RelayRuns.OverlapCanDuplicate`), `Relay.StaleAfterExitIff` (with
`RelayRuns.TwoNamesLeaveStale`), `Spaces.PositionsIff` and `Spaces.DistinctIff`
(with `Spaces.InterleavedHandlersClash`), `IpLimiter.NeverShowsIff` (with
`IpLimiter.EarlyEvictionShows`), `IpLimiter.CapNeverFiresIff`,
`IpLimiter.CollectionNeverShowsIff`, `Envelopes.ReadsBackIff`,
`Envelopes.ClientsAgreeIff`, `GroupChat.CopyReadsBackIff`,
`Friends.PairsEventsIff` (with `Friends.RequestsCross`), `Friends.NewGroupExactIff`
(with `Friends.LeftOverByDeletion` and `Friends.DeletedCreatorLeavesMembers`). Two
smaller remarks of the kind follow from one definition each:
`KeyPins.ClientsDifferIff` and `Versions.MutuallyNewerIff`.

Assumptions. NaCl box, SHA-256 and JSON are parameters: `Box.Correct` (opening
undoes sealing for matching keys), `Box.NeverGrows` (plaintext is not longer than
its box) and `Json.Faithful` (headers read back and contain no raw newline) are
stated where they are used. `rate.Limiter` is an integer token bucket, as in
golang.org/x/time: time is counted in ticks and tokens in the amount earned per
tick. Go's regular expressions are leftmost-first alternation. SQL tables are
maps or sets by their keys. Randomness, clocks and failures of the database are
parameters of the calls that meet them. `parseVersion`'s comment on semantic
versioning promises more than the code does (`+` build metadata counts as a
pre-release); the model follows the code.

## Model

| member | source | states |
|---|---|---|
| `LineDrawing.DrawLine` | native_client/cmd/emoticongen/draw.go:351-380 | For all end points the loop stops, visits exactly the closed-form points in order, and sets exactly the array elements of those points: element (i, j) is pixel (minX + i, minY + j) |
| `LineDrawing.DrawAlong` | native_client/cmd/emoticongen/draw.go:351-380 | The loop follows any trace of its error term to the end and sets exactly the array elements of its points |
| `LineDrawing.TraceOfLine` | native_client/cmd/emoticongen/draw.go:361-378 | The closed-form points, with their error terms, are such a trace: one pass takes each to the next, and only the last is the target |
| `LineDrawing.Image.SetClipped` | native_client/cmd/emoticongen/draw.go:364-366 | A point without an array element changes nothing; any other changes its own element alone |
| `LineDrawing.StepFollowsRounding` | native_client/cmd/emoticongen/draw.go:370-378 | The two error-term tests advance each axis exactly when its nearest-integer offset advances |
| `LineDrawing.WithinHalfPixel` | native_client/cmd/emoticongen/draw.go:361-378 | Every visited point is within half a pixel of the ideal line: 2*abs(i*dy - j*dx) <= max(dx, dy); the k-th is k moves out |
| `LineDrawing.NoNearerPixel` | native_client/cmd/emoticongen/draw.go:361-378 | No other pixel of the same column (row, for a steep line) is nearer to the ideal line |
| `LineDrawing.LineIsConnected` | native_client/cmd/emoticongen/draw.go:362-379 | Starts on (x0, y0), ends on (x1, y1), consecutive points are distinct 8-neighbours |
| `LineDrawing.AtTargetOnlyAtEnd` | native_client/cmd/emoticongen/draw.go:367-369 | The exit test holds after exactly max(dx, dy) moves and not before |
| `LineDrawing.ErrorTermBounded` | native_client/cmd/emoticongen/draw.go:361-377 | The error term, its double and both its updates stay within 3*max(dx, dy), so they fit 64 bits for extents below 2^61 |
| `IpLimiter.IdleTimeEarnsBurst` | nexus_server/main.go:81-90 | The ten-minute idle time earns a whole burst if and only if 600*r >= burst |
| `IpLimiter.Take` | nexus_server/main.go:126 | A request is admitted iff the bucket holds its cost, and then costs exactly that; a denied one costs nothing |
| `IpLimiter.IpLimiter.GcLocked` | nexus_server/main.go:93-113 | When due: the idle entries go, then any entries beyond 9/10 of the cap if still over it; otherwise nothing changes |
| `IpLimiter.IpLimiter.EvictIdle` | nexus_server/main.go:97-102 | The deleting range loop leaves exactly the entries not idle since the cutoff |
| `IpLimiter.IpLimiter.EvictAny` | nexus_server/main.go:104-111 | Deletes in arbitrary order down to exactly the target size and changes no survivor |
| `IpLimiter.IpLimiter.Allow` | nexus_server/main.go:115-127 | Collection followed by admission; at most maxSize + 1 entries remain whatever the state was and whichever branch fires |
| `IpLimiter.EvictionInvisible` | nexus_server/main.go:92-127 | Simulation: over every call sequence the collected map answers like a map that never evicts, while the cap branch does not fire, if more than the idle time earns a whole burst |
| `IpLimiter.EvictionInvisibleFromStart` | nexus_server/main.go:92-127 | The same from the empty map |
| `IpLimiter.NeverShowsIff` | nexus_server/main.go:92-127 | Whenever the first call comes (any t0): over all runs in which the cap branch does not fire, idle eviction never shows if and only if idleTTL + 1 ticks earn a whole burst |
| `IpLimiter.EarlyEvictionShows` | nexus_server/main.go:97-102 | Otherwise, from any time on, two bursts of one IP, idleTTL + 1 ticks apart, end a run whose answers differ; another IP's calls may have to time the collections |
| `IpLimiter.NewLimiterNeverShowsIff` | nexus_server/main.go:81-90 | For a limiter as newIPLimiter makes it, put to use at any time: over all runs with at most 50000 IPs calling in any 600 seconds idle eviction never shows, if and only if 600*r >= burst |
| `IpLimiter.GlobalLimiterInvisible` | nexus_server/main.go:153 | The server's own limiter (10 a second, burst 30) answers as if nothing were evicted while at most 50000 IPs call in any 600 seconds |
| `IpLimiter.SweepKeepsLevels` | nexus_server/main.go:97-102 | An idle sweep changes no IP's token level, evicted ones included |
| `IpLimiter.ForgettingInvisibleIffFull` | nexus_server/main.go:104-111 | Dropping any set of buckets from a map that never evicts changes no later answer of that map if and only if every dropped bucket was full |
| `IpLimiter.CollectionInvisibleIff` | nexus_server/main.go:93-113 | The same for what one collection drops, by the idle sweep or the cap branch, if nothing were evicted after it |
| `IpLimiter.CollectionNeverShowsIff` | nexus_server/main.go:93-113 | In the limiter's own later runs, evictions included: what one collection drops, by either branch, never shows while the cap branch does not fire again, if and only if every dropped bucket was full (given that more than the idle time earns a burst) |
| `IpLimiter.WindowBound` | nexus_server/main.go:115-127 | In any window of a run in which the cap branch does not fire, one IP is admitted at most burst + rate*length times, if more than the idle time earns a whole burst |
| `IpLimiter.SpentIsCost` | nexus_server/main.go:126 | Units charged to an IP are its admitted requests times the cost |
| `IpLimiter.AnswersStandAlone` | nexus_server/main.go:115-127 | With nothing evicted, the answers to one IP are those of a single token bucket, full at first, to that IP's calls alone |
| `IpLimiter.CapNeverFiresIff` | nexus_server/main.go:103-111 | Over all runs: the cap branch never fires if and only if before each call at most maxSize IPs have called within the idle time, a condition on the calls alone |
| `IpLimiter.NewLimiterExact` | nexus_server/main.go:81-127 | A limiter as newIPLimiter makes it, 600*r >= burst, at most 50000 IPs calling in any 600 seconds: the cap branch never fires and every answer is that of a map that never evicts |
| `IpLimiter.NewLimiterBound` | nexus_server/main.go:81-127 | Then in any window one IP is admitted at most burst + r*(seconds) times |
| `IpLimiter.NewLimiterCollects` | nexus_server/main.go:93-113 | One collection of it in numbers: nothing within 60 seconds of the last with fewer than 50000 entries; else those idle for over 600 seconds go, and if more than 50000 remain, all but 45000 of them |
| `IpLimiter.NewLimiterStaysSmall` | nexus_server/main.go:81-127 | After any call of any run at most 50001 entries remain, each used within the last 660 seconds |
| `Relay.EveryRunKeepsInv` | nexus_server/main.go:1132-1167 | Every interleaving of handlers, deliveries, fan-outs, bans and deletions keeps the routing, place, queue and row invariants |
| `Relay.NothingLost` | nexus_server/main.go:1758-1772 | An accepted message is with its handler, handed to Send, queued, or its own row was erased with an account; and it was only ever sent to connections installed for its recipient |
| `Relay.OnePlacePerMessage` | nexus_server/main.go:1763-1772 | A message handed over directly is handed over once and never queued; a queued one is exactly one row |
| `Relay.PurgesOnlyHandedRows` | nexus_server/main.go:1160-1163 | A delivery deletes only ids it handed over, so rows inserted meanwhile survive |
| `Relay.HandedOverIffSelected` | nexus_server/main.go:1146-1158 | A finished delivery has handed a row over exactly once if it selected it, and never otherwise |
| `Relay.SelectedOnceIff` | nexus_server/main.go:1140-1163 | Over all runs: no row is read by two deliveries if and only if none is read while another delivery has read and not yet deleted it |
| `Relay.HandedOverOnceIff` | nexus_server/main.go:1132-1167 | When no delivery has rows left, every row was handed over at most once if and only if that held |
| `Relay.NoOverlapNoReselect` | nexus_server/main.go:1132-1167 | It holds if deliveries for one user never overlap |
| `Relay.ExactlyOnceWithoutReselect` | nexus_server/main.go:1132-1167 | Then each row is handed over at most once, and has been once it left the queue other than with an account |
| `Relay.RowsSelectedOnce` | nexus_server/main.go:1132-1158 | If deliveries for one user never overlap, no row is selected by two of them |
| `Relay.ExactlyOnceWithoutOverlap` | nexus_server/main.go:1132-1167 | The same for deliveries that never overlap |
| `RelayRuns.OverlapCanDuplicate` | nexus_server/main.go:1132-1167 | From every reachable state with a queued row and two idle connections there is a run that hands the row over twice |
| `Relay.RegistryHoldsLatestSession` | nexus_server/main.go:1449-1459 | In every run the registry maps u to c if and only if c is u's latest installed session and no ban or end of its own read loop followed |
| `Relay.RegistryStep` | nexus_server/main.go:1306-1312 | One step's effect on an entry: a replaced connection's exit leaves its successor alone |
| `Relay.NoStaleSession` | nexus_server/main.go:1297-1320 | If no connection uses two names, no entry points to a connection that has finished its disconnect step |
| `Relay.StaleAfterExitIff` | nexus_server/main.go:1306-1312 | Over all runs an entry u -> c is left behind by an ended connection if and only if c has ended and is still u's latest undisplaced session |
| `Relay.ExitedIff` | nexus_server/main.go:1297-1320 | A connection counts as ended exactly if its exit step is in the run |
| `RelayRuns.TwoNamesLeaveStale` | nexus_server/main.go:1297-1320 | Such entries arise: from every reachable state an idle connection that logs in as u, then as v, and ends leaves u's entry behind |
| `Relay.UsernameIsLastUser` | nexus_server/main.go:1515 | The handler's username is the name it last authenticated under |
| `Relay.NexusServer.InstallClient` | nexus_server/main.go:1451-1459 | Login is the machine's install step and kicks exactly the previous session |
| `Relay.NexusServer.DisconnectClient` | nexus_server/main.go:1306-1312 | The compare-and-delete is the machine's exit step; reports replacement iff another connection holds the name, and then deletes nothing |
| `Relay.NexusServer.StoreOfflineMessage` | nexus_server/main.go:1125-1130 | One insert under the next row id |
| `Relay.NexusServer.HandleMsg` | nexus_server/main.go:1759-1772 | Undisturbed, a direct message goes to its recipient's connection, or becomes the next row |
| `Relay.NexusServer.DeleteAccount` | nexus_server/main.go:1555-1571 | Undisturbed, exactly the account's rows, as sender or recipient, go, and its entry if it is this connection's |
| `Relay.NexusServer.KickBanned` | nexus_server/main.go:2788-2798 | A ban is the machine's ban step: the target's entry goes, whoever holds it, and no other |
| `Relay.NexusServer.DeliverOfflineMessages` | nexus_server/main.go:1132-1167 | Without interference: every row of the user, each once, is sent to their connection and exactly those rows go; offline, nothing happens |
| `RelayRuns.DeliverIsRun` | nexus_server/main.go:1132-1167 | From every reachable state with c just installed, that is a run of the machine, for any order of the rows |
| `RelayRuns.HandleMsgIsRun` | nexus_server/main.go:1759-1772 | From every reachable state with an idle logged-in connection, HandleMsg is a run of the machine with the same queue and send |
| `RelayRuns.DeleteAccountIsRun` | nexus_server/main.go:1555-1571 | And so is DeleteAccount, with the same queue and registry |
| `Relay.NexusServer.FanOut` | nexus_server/main.go:1964-1995 | Copies for online recipients go to their connections, the others become rows under fresh consecutive ids |
| `RelayRuns.FanOutIsRun` | nexus_server/main.go:1964-1995 | From every reachable state the fan-out loop is a run of the machine with the same queue and sends |
| `RelayMessages.MessageFollowsRegistry` | nexus_server/main.go:1758-1772 | Over all runs, direct messages and group copies: once its handler is done, a message has gone where the registry pointed at its lookup: to that connection, once, to no other and into no row; or, with none registered, into exactly one new row and to nobody directly |
| `RelayMessages.SentDirectlyIff` | nexus_server/main.go:1758-1764 | In events alone: it was sent to d directly if and only if d was the recipient's current session at the lookup |
| `RelayMessages.StoredIff` | nexus_server/main.go:1765-1766 | And became a row if and only if the recipient had no session then |
| `RelayMessages.AcceptedIff` | nexus_server/main.go:1740-1758 | The accepted messages are those a handler took in, directly or as group copies |
| `RelayMessages.QueuedIff` | nexus_server/main.go:604 | Over all runs, a row is queued if and only if some event inserted it and none since purged it or erased the account of its sender or recipient |
| `FileTransfer.SendFile` | native_client/internal/chat/webrtc.go:549-578 | Sends header, 16 KiB chunks and end frame of the data |
| `FileTransfer.WireFormat` | native_client/internal/chat/webrtc.go:558-577 | HDR, header and newline first, END last, data frames between |
| `FileTransfer.ChunkFormat` | native_client/internal/chat/webrtc.go:566-576 | Each data frame is D and 16384 bytes, the last 1 to 16384, and together they carry the data |
| `FileTransfer.Receiver.OnMessage` | native_client/internal/chat/webrtc.go:492-546 | One message changes only its peer's transfer and reports at most one file |
| `FileTransfer.MessageEffect` | native_client/internal/chat/webrtc.go:492-546 | A header that parses starts a transfer afresh, data is appended to one, an end reports and clears it; any other message has no effect |
| `FileTransfer.FramesRoundTrip` | native_client/internal/chat/webrtc.go:486-578 | For every file of any length, from any earlier state: exactly OnFile(name, length, data), and no transfer left |
| `FileTransfer.PeersIndependent` | native_client/internal/chat/webrtc.go:492-546 | What a peer's transfers come to depends only on that peer's messages, in any interleaving |
| `FileTransfer.VideoIgnored` | native_client/internal/chat/webrtc.go:498-513 | Video frames, wherever they fall, change nothing about files |
| `FileTransfer.TransferDelivered` | native_client/internal/chat/webrtc.go:486-578 | Both together: a transfer amid other peers' traffic and video frames is reported exactly once, unchanged |
| `FileTransfer.TransfersInSequence` | native_client/internal/chat/webrtc.go:486-578 | Any list of files sent one after the other is reported in order, unchanged |
| `FileTransfer.HeaderParses` | native_client/internal/chat/webrtc.go:514-529 | The header frame reads back as the name and size sent |
| `Emoticons.QuotePreservesPrefix` | native_client/internal/ui/emoticon_tokens.go:167 | Quoting keeps proper prefixes proper prefixes, hence shorter |
| `Emoticons.QuotedMatchesKey` | native_client/internal/ui/emoticon_tokens.go:165-168 | A quoted key matches exactly the texts that start with the key, consuming the key |
| `Emoticons.SortByLength` | native_client/internal/ui/emoticon_tokens.go:169-175 | The exchange sort permutes the array into descending length |
| `Emoticons.MoveLongest` | native_client/internal/ui/emoticon_tokens.go:170-174 | The inner loop permutes the tail and brings a longest element to its front |
| `Emoticons.BuildPattern` | native_client/internal/ui/emoticon_tokens.go:164-177 | The alternation holds exactly the quoted keys, longest first, whatever the iteration order |
| `Emoticons.FirstMatchIsLongest` | native_client/internal/ui/emoticon_tokens.go:163-177 | The first alternative that matches is the longest key at that place; none matches iff no key starts there |
| `Emoticons.SegmentsMunch` | native_client/internal/ui/bubbles.go:15-34 | The segments are the leftmost longest-match tokenization: no token starts inside a plain segment |
| `Emoticons.MunchUnique` | native_client/internal/ui/bubbles.go:12-39 | There is only one such tokenization of a text |
| `Emoticons.MunchCoversText` | native_client/internal/ui/bubbles.go:12-39 | Its segments concatenate to the text |
| `Emoticons.CutAtMatches` | native_client/internal/ui/bubbles.go:14-34 | The loop turns any ordered match list into the objects of the text's segments |
| `Emoticons.ParseRichText` | native_client/internal/ui/bubbles.go:12-39 | The objects are those of the one tokenization, or a single empty label |
| `Emoticons.PatternOrderIrrelevant` | native_client/internal/ui/emoticon_tokens.go:166-175 | Two patterns for the same keys cut every text alike: map iteration order does not matter |
| `ChannelHistory.NexusServer.ChannelHistory` | nexus_server/main.go:906-942 | The page is the newest messages before the cursor, oldest first, at most the limit (50 if out of range) |
| `ChannelHistory.NexusServer.Insert` | nexus_server/main.go:2305-2312 | Appends one row under a fresh larger id |
| `ChannelHistory.ReverseInPlace` | nexus_server/main.go:937-940 | The swap loop reverses the slice |
| `ChannelHistory.QueryIsPage` | nexus_server/main.go:912-940 | Reversing a descending LIMIT query gives the last n of the ascending log |
| `ChannelHistory.PageIff` | nexus_server/main.go:906-942 | A page ascends by id and holds exactly the channel's messages older than the cursor with fewer than limit newer ones, 50 for a limit out of 1..200 |
| `ChannelHistory.PagesRebuildLog` | nexus_server/main.go:906-942 | Paging back with the oldest id as cursor rebuilds exactly the log as of the first fetch, whatever is appended meanwhile, in one fetch per page |
| `ChannelHistory.NoGapNoDuplicate` | nexus_server/main.go:906-942 | Each message of the channel is on exactly one page |
| `Stun.ParseSTUNMappedAddress` | native_client/internal/sentinel/networking.go:56-90 | The walk terminates within bounds on every buffer and computes the recursive reading of it |
| `Stun.WalkBuffer` | native_client/internal/sentinel/networking.go:61-89 | The loop over positions of the buffer equals the recursion over them, and terminates within bounds |
| `Stun.WalkAtIsWalk` | native_client/internal/sentinel/networking.go:61-89 | That recursion is the walk over the suffixes of the buffer |
| `Stun.ParsesSerialized` | native_client/internal/sentinel/networking.go:56-90 | On any well-formed padded attribute list: the first usable address, else none (RFC 5389, section 15) |
| `Stun.ParsesIff` | native_client/internal/sentinel/networking.go:62-88 | On any buffer, an endpoint is returned if and only if 20 bytes in it has unusable padded attributes followed by one that decodes to it |
| `Stun.DecodesIff` | native_client/internal/sentinel/networking.go:70-85 | Exactly which attributes give which endpoint: type 0x0020 with every byte xored with 21 12 A4 42, or type 0x0001, of family IPv4 and at least 8 bytes |
| `Stun.XorBits` | native_client/internal/sentinel/networking.go:73-74 | Exclusive or as modelled, bit by bit |
| `Stun.DecodesMapped` | native_client/internal/sentinel/networking.go:78-83 | Inverse of the MAPPED-ADDRESS encoding (RFC 5389, section 15.1) |
| `Stun.DecodesXorMapped` | native_client/internal/sentinel/networking.go:71-77 | Inverse of the XOR-MAPPED-ADDRESS encoding (RFC 5389, section 15.2) |
| `Stun.RecoversEndpoint` | native_client/internal/sentinel/networking.go:56-90 | End to end: the encoder's address and port come back from behind any unusable attributes |
| `Envelopes.HexRoundTrip` | web/src/e2ee.ts:5-15 | Both hex decoders undo the encoder, for all byte strings |
| `Envelopes.WebReadsGoHex` | web/src/e2ee.ts:9-15 | Where Go's decoder accepts, the web decoder gives the same bytes |
| `Envelopes.EncodeUndoesDecode` | native_client/main.go:422 | Encoding a decoded text gives it back in lower case |
| `Envelopes.FromHex` | web/src/e2ee.ts:9-15 | The filling loop decodes pair by pair as parseInt does, total on all texts, and agrees with Go's decoder on hex |
| `Envelopes.HexDigitsOfBothCases` | web/src/e2ee.ts:5-15 | Digits are written 0-9a-f and read in either case |
| `Envelopes.PairIsParsed` | web/src/e2ee.ts:9-15 | What fromHex stores for two characters is parseInt of them in base 16 (ECMA-262), with white space, sign, 0x and NaN, modulo 256 |
| `Envelopes.Utf8Carries` | native_client/main.go:402 | UTF-8 as modelled carries each character's bits (RFC 3629) |
| `Envelopes.Utf16Carries` | web/src/e2ee.ts:42-44 | And UTF-16 (RFC 2781) |
| `Envelopes.DecryptUndoesEncrypt` | native_client/internal/crypto/e2ee.go:26-49 | Decrypt inverts Encrypt for matching keys and any 24-byte nonce |
| `Envelopes.EncryptForPeer` | web/src/e2ee.ts:28-40 | The web client fills nonce and box into the same envelope the Go client writes, E2EE: and hex |
| `Envelopes.SealedExactly` | native_client/main.go:398-411 | Exactly when a field goes out sealed: private key, recipient's key, text and nonce at hand; it is then E2EE: and the hex of nonce and box under those keys, else the text itself |
| `Envelopes.OpensEverywhere` | web/src/e2ee.ts:42-51 | Whichever client sealed it, both open an envelope to the original bytes, for plaintext that starts with E2EE: too |
| `Envelopes.ReadsBackIff` | native_client/main.go:398-431 | Between Go clients a field reads back unchanged if and only if it was sealed, with keys and a nonce, or does not start with E2EE: |
| `Envelopes.SidesAlike` | native_client/main.go:417-427 | For every text, in UTF-8 and in UTF-16 the prefix test and the digits' well-formedness come out the same, and well-formed digits are the same units |
| `Envelopes.ClientsAgreeOnHex` | web/src/e2ee.ts:42-51 | A text without the prefix, or with well-formed digits, valid or not, is read the same by both clients |
| `Envelopes.ClientsAgreeIff` | web/src/e2ee.ts:42-51 | For every text of Unicode characters, UTF-8 in Go and UTF-16 on the web, the two clients read it alike for every correct box if and only if it has no prefix, or well-formed digits, or fewer than 24 pairs of UTF-16 units behind the prefix |
| `Envelopes.ClientsAgreeWithOverheadIff` | web/src/e2ee.ts:42-51 | The same for boxes of a fixed overhead k (16 for NaCl): at most 24 + k pairs |
| `Envelopes.WebOpensWhatGoRejects` | web/src/e2ee.ts:9-15 | Every envelope with any character of one UTF-16 unit appended is rejected by Go and still opened by the web client |
| `GroupChat.BuildEnvelopes` | native_client/main.go:1629-1646 | Exactly the listed members other than the sender get an envelope: sealed with the nonce of its last listing if a private key, their key, a text and that nonce are at hand, else the text; keys are requested for exactly those without one |
| `GroupChat.OnConvoMsg` | nexus_server/main.go:1963-1996 | The handler sends or queues one copy per stored member except the sender; nothing happens before login or without a conversation id |
| `GroupChat.OneCopyEach` | nexus_server/main.go:1970-1989 | Copies for m: one if m is a stored member other than the sender, else none |
| `GroupChat.CopyContents` | nexus_server/main.go:1974-1989 | A copy carries its recipient's envelope, or the message body without one, and the sender's name |
| `GroupChat.SentOrQueued` | nexus_server/main.go:1990-1995 | Conservation: sent copies plus queued copies for m equal the copies for m |
| `GroupChat.SentToRecipient` | nexus_server/main.go:1990-1991 | A sent copy goes to the connection registered for its recipient |
| `GroupChat.SplitByRegistry` | nexus_server/main.go:1990-1995 | Exactly the copies for registered recipients are sent, to their connections, and exactly the others queued |
| `GroupChat.RowsAppended` | nexus_server/main.go:1992-1995 | Queued copies become rows of their own and older rows stay |
| `GroupChat.GroupMessageIsRun` | nexus_server/main.go:1963-1996 | From every reachable state with the sender logged in, the handler's fan-out is a run of the relay machine with the same sends and rows |
| `GroupChat.CopyReadsBackIff` | native_client/main.go:848-863 | A recipient reads the original bytes if and only if the sender's own list has them and the text was sealed for them or does not start with E2EE: |
| `GroupChat.GroupMessageArrives` | native_client/main.go:1629-1646 | End to end: with agreeing lists, current keys and nonces each member except the sender gets exactly one copy, sent or queued, and reads the original bytes |
| `KeyPins.PhazeApp.AcceptPeerKey` | native_client/main.go:435-470 | Accepts exactly a key that fits the hint and its readable pin, or a first one that can be stored, then caches it and pins a first one; otherwise nothing changes; one step of the pinning machine |
| `KeyPins.PhazeApp.Insert` | native_client/main.go:285-290 | The primary key: an insert succeeds iff the peer has no pin |
| `KeyPins.WebApp.AcceptPeerKey` | web/src/App.tsx:134-153 | Accepts exactly a key that fits the hint and its pin, or a first one that can be saved; a first one is pinned even if saving throws; one step of the machine |
| `KeyPins.ClientsDifferIff` | web/src/App.tsx:134-153 | The two clients treat a key differently exactly for the empty name, an unreadable matching pin, or a new pin that cannot be stored |
| `KeyPins.EveryRunKeepsInv` | native_client/main.go:435-470 | Over all runs, failures included, every cached key has its pin's fingerprint |
| `KeyPins.PinNeverChanges` | native_client/main.go:442-470 | A stored pin never changes; in the web client, between account resets |
| `KeyPins.PinnedIff` | native_client/main.go:442-470 | In both clients, over all runs from no pins, a pin is there if and only if a request that fits its hint met no pin, and was stored, with that key, and no account reset has come since |
| `KeyPins.AcceptedKeysAgree` | native_client/main.go:435-470 | All keys ever accepted for a peer share one fingerprint (web: between resets) |
| `KeyPins.CachedIff` | native_client/main.go:459-464 | Over all runs from an empty cache, a key is cached for a peer if and only if it is the last accepted since the cache was emptied |
| `KeyPins.PinIsFirstAccepted` | native_client/main.go:450-460 | In the Go client the pin is exactly that of the first accepted key, and exists iff there was one |
| `Friends.NexusServer.SendFriendRequest` | nexus_server/main.go:1001-1011 | Without interference: inserts a pending row iff no row exists in either direction; the machine's check and insert |
| `Friends.NexusServer.AcceptFriendRequest` | nexus_server/main.go:1013-1017 | Turns exactly a pending row into an accepted one |
| `Friends.NexusServer.RejectFriendRequest` | nexus_server/main.go:1019-1023 | Deletes exactly a pending row |
| `Friends.NexusServer.RemoveFriend` | nexus_server/main.go:1035-1040 | Deletes both directions and nothing else |
| `Friends.NexusServer.GetFriends` | nexus_server/main.go:981-999 | For every table: lists exactly the users areFriends holds of, each once per accepted row; somebody is listed twice if and only if a pair has accepted rows in both directions |
| `Friends.NexusServer.ConvoCreate` | nexus_server/main.go:1922-1945 | For every table: only the creator and accepted friends are let in; fails iff nobody is eligible or the id is taken |
| `Friends.NexusServer.CreateConversation` | nexus_server/main.go:1044-1066 | All or nothing; the creator and each wanted member once |
| `Friends.NexusServer.LeaveConversation` | nexus_server/main.go:1102-1105 | Deletes exactly that membership |
| `Friends.NexusServer.DeleteAccount` | nexus_server/main.go:590-605 | Deletes exactly the user's friend rows, memberships and the groups they created |
| `Friends.PairsIff` | nexus_server/main.go:1001-1011 | Over all runs, checks and inserts interleaved: no state has two rows for one pair if and only if no insert meets the opposite row |
| `Friends.PairsEventsIff` | nexus_server/main.go:1001-1011 | The same in events alone: if and only if no request ever goes in while the opposite one is open or accepted |
| `Friends.CrossesAtIff` | nexus_server/main.go:1001-1011 | Event n goes in against an open or accepted opposite request exactly if its insert meets the opposite row |
| `Friends.AtomicRequestsKeepPairs` | nexus_server/main.go:1001-1011 | With check and insert as one step, at most one row per unordered pair in every reachable state |
| `Friends.CrossedSinceCheck` | nexus_server/main.go:1001-1011 | An insert meets the opposite row only if that went in between its own check and it |
| `Friends.RequestsCross` | nexus_server/main.go:1001-1011 | From every reachable state without a row of the two there is such a run; accepted both ways, each has two friend rows of the other, so getFriends lists them twice |
| `Friends.PendingIff` | nexus_server/main.go:1001-1022 | A row is pending iff some event inserted it and nothing has answered or withdrawn it since |
| `Friends.ConsentIff` | nexus_server/main.go:1013-1040 | A row (a, b) is accepted if and only if b accepted an open request of a and neither removal nor deletion of an account followed |
| `Friends.RemoveUndoes` | nexus_server/main.go:1001-1040 | From any reachable state without a row of the two: whatever they request, answer and remove, a final removal restores friends, groups and members |
| `Friends.MemberIff` | nexus_server/main.go:1922-1945 | Over all runs, u is in a group if and only if a creation put u in, as creator or as the creator's friend at that moment, and u has neither left nor been deleted since |
| `Friends.NoStrangersAdded` | nexus_server/main.go:1922-1936 | So nobody is in a group without having created it or being the creator's friend when it was created |
| `Friends.NewGroupExactIff` | nexus_server/main.go:1044-1066 | At the end of a run that creates a group, it has exactly creator and eligible members if and only if everyone put into a group of that id before, and neither gone nor deleted since, is among them |
| `Friends.LeftOverByDeletion` | nexus_server/main.go:603-604 | Whoever is left under a free id was put in by a creator whose account has been deleted since |
| `Friends.DeletedCreatorLeavesMembers` | nexus_server/main.go:603-604 | Deleting the creator's account leaves the other members' rows, so the id's next user finds them in the new group without being their friend |
| `MuLaw.LinearToULaw` | native_client/internal/chat/audio.go:27-47 | Clips, biases and packs the G.711 code of the sample |
| `MuLaw.FindSegment` | native_client/internal/chat/audio.go:41-44 | The mask loop stops in the magnitude's segment |
| `MuLaw.SegmentBounds` | native_client/internal/chat/audio.go:41-44 | The exponent e found satisfies 2^(e+7) <= s < 2^(e+8), and only it |
| `MuLaw.StepOf` | native_client/internal/chat/audio.go:45 | The mantissa selects the step that holds s; decoding gives its middle |
| `MuLaw.DecodedInRange` | native_client/internal/chat/audio.go:50-61 | Decoded samples lie in -32124..32124, so int16 arithmetic does not overflow |
| `MuLaw.ErrorBound` | native_client/internal/chat/audio.go:27-61 | abs(decoded - x) <= (abs(x) + 132) / 32 for every int16 |
| `MuLaw.Monotone` | native_client/internal/chat/audio.go:27-61 | Decode after encode preserves order |
| `MuLaw.EncodeUndoesDecode` | native_client/internal/chat/audio.go:27-61 | Encode after decode is the identity on bytes except 0x7F, which becomes 0xFF |
| `MuLaw.Idempotent` | native_client/internal/chat/audio.go:27-61 | A second pass through the codec changes nothing |
| `MuLaw.EncodePCMUFrame` | native_client/internal/chat/audio.go:63-69 | Encodes every sample of a frame of any length |
| `MuLaw.DecodePCMUFrame` | native_client/internal/chat/audio.go:71-77 | Decodes every byte of a frame of any length |
| `MuLaw.FrameRoundTrip` | native_client/internal/chat/audio.go:63-77 | A frame through both keeps length, order and the error bound, sample by sample |
| `JitterBuffer.EveryRunKeepsInv` | native_client/internal/chat/audio.go:249-307 | Every interleaving of the producer and the callback keeps the queue, order and output invariants |
| `JitterBuffer.NeverBlocks` | native_client/internal/chat/audio.go:294-306 | At most ten frames wait, the producer's final send always has room, and the callback can always proceed |
| `JitterBuffer.CallbackFillsOutput` | native_client/internal/chat/audio.go:253-274 | A returning callback has written exactly as many samples as asked |
| `JitterBuffer.PlaysArrivalOrder` | native_client/internal/chat/audio.go:249-307 | What is played, silence left out, is a subsequence of the decoded samples in arrival order |
| `JitterBuffer.EverySampleAccounted` | native_client/internal/chat/audio.go:249-307 | Conservation over all interleavings: every arrived sample has been played, is waiting, or was lost with a dropped frame or beyond the end of an output; the rest of the output is the silence of underruns |
| `JitterBuffer.Playback.Push` | native_client/internal/chat/audio.go:294-306 | The nested selects are machine steps; a full queue loses exactly its oldest frame |
| `JitterBuffer.Playback.Fill` | native_client/internal/chat/audio.go:254-274 | Undisturbed, the callback plays the waiting frames, as many as fill the output and no more, then silence; its loop is a run of machine steps and terminates |
| `Versions.ParseVersion` | native_client/internal/updater/manifest.go:121-136 | The loop succeeds exactly on parsable text and yields its three numbers |
| `Versions.CompareNumbers` | native_client/internal/updater/manifest.go:101-108 | The loop decides by the first component that differs, and not at all if none does |
| `Versions.IsNewer` | native_client/internal/updater/manifest.go:95-119 | Computes the order on (major, minor, patch, no suffix), or the fallback if a side does not parse |
| `Versions.NoUpdateCycle` | native_client/internal/updater/manifest.go:95-119 | An update chain of parsable versions is transitive and never returns |
| `Versions.NewerWrittenIff` | native_client/internal/updater/manifest.go:90-119 | Of two versions as people write them, one is newer exactly if its first number that differs is greater, missing ones counting as zero, or none differs and the other alone has a suffix |
| `Versions.TiesAreEqualRanks` | native_client/internal/updater/manifest.go:95-119 | Ties are equal ranks and interchangeable: a strict weak order |
| `Versions.MutuallyNewerIff` | native_client/internal/updater/manifest.go:98-100 | Two strings are each newer than the other exactly when one does not parse, neither is blank and they differ |
| `Versions.ParsesPrintedIff` | native_client/internal/updater/manifest.go:121-136 | A printed number list, with or without v, suffix and white space, parses back exactly if it has at most three numbers that fit an int |
| `Versions.ComponentsNotNegative` | native_client/internal/updater/manifest.go:122-125 | No component is ever negative: a sign starts the suffix |
| `Versions.AtoiPrint` | native_client/internal/updater/manifest.go:129-132 | Atoi inverts decimal printing up to the 64-bit bound |
| `Versions.AtoiIff` | native_client/internal/updater/manifest.go:129-132 | Atoi reads exactly the numerals of 64-bit numbers: an optional sign, zeros and the digits |
| `Spaces.NexusServer.ServerCreate` | nexus_server/main.go:2104-2141 | Four inserts or none, table by table; succeeds iff no key conflicts |
| `Spaces.NexusServer.ServerJoin` | nexus_server/main.go:2170-2188 | Joins the server of the invite code with a member row, unless the user has a row, which stays; fails iff no server has the code |
| `Spaces.NexusServer.ServerLeave` | nexus_server/main.go:2199-2215 | Removes exactly the member's row, unless it is an owner row |
| `Spaces.NexusServer.MaxPosition` | nexus_server/main.go:2269-2270 | COALESCE(MAX(position), 0) of the server's channels |
| `Spaces.NexusServer.ChannelCreate` | nexus_server/main.go:2246-2276 | For owners and admins, without interference: one channel at one past the maximum position; fails iff not allowed or the id exists; the read and the insert of the machine |
| `Spaces.EveryRunKeepsInv` | nexus_server/main.go:2104-2276 | Every run, reads and inserts interleaved, keeps owners, unique invites and the list of each server's channels |
| `Spaces.OneOwnerEach` | nexus_server/main.go:2117-2120 | In every reachable state exactly one member row of a server is an owner row: that of servers.owner |
| `Spaces.OwnerForGood` | nexus_server/main.go:2204-2208 | Whatever follows, a server and its owner stay |
| `Spaces.FounderIff` | nexus_server/main.go:2104-2141 | Over all runs, a server is owned by u if and only if an event founded it for u with new keys |
| `Spaces.MemberIff` | nexus_server/main.go:2170-2215 | Over all runs, u has a row in a server if and only if u founded it, or joined it and has not left since; the founder's is an owner row, the others member rows |
| `Spaces.InsertKeepsPositionsIff` | nexus_server/main.go:2269-2274 | One insert keeps the positions right if and only if the maximum it goes by is the current one |
| `Spaces.PositionsIff` | nexus_server/main.go:2269-2274 | Over all runs: positions are 0..n-1 in creation order if and only if no channel was inserted into a server between another insert's read and that insert |
| `Spaces.DistinctIff` | nexus_server/main.go:2269-2274 | The same condition decides whether two channels of a server ever share a position |
| `Spaces.AtomicHandlersKeepPositions` | nexus_server/main.go:2246-2276 | With each handler as one step it always holds |
| `Spaces.InterleavedHandlersClash` | nexus_server/main.go:2269-2274 | From every reachable state two handlers that both read before either inserts give their channels one position |
| `Spaces.ListsInCreationOrder` | nexus_server/main.go:884-902 | If no insert was overtaken, listing by position gives creation order, positions exactly 0..n-1 |
| `Spaces.ClashesAreListed` | nexus_server/main.go:884-902 | Otherwise every listing of some server has two channels at one position |

## Left out

- Relay: a delivery's rows are taken in any order, because ORDER BY created_at has one-second ties; so no FIFO claim.
- Relay: Send errors are ignored by the code, so "handed over" means handed to Send; failing database statements are not modelled.
- Relay: the login checks, the block check before a message is accepted, the PhazeBot branch, presence broadcasts and status replies have no effect on the registry or the queue and are not steps; presence is sent outside the lock, so nothing is claimed about it.
- Relay: connections are numbers, and Conn.Close of a kicked session is not a step of its own: the kicked read loop may exit at any later time.
- Relay.NexusServer.HandleMsg: starts at the registry lookup; blocks and status replies are as above.
- Relay.NexusServer.FanOut: the convo column of an offline group row is not modelled, because it is never read back.
- Friends: the member filter and the transaction of convo_create are one step. Pending lists, notices, blocks and the other tables deleteAccount clears are left out.
- Spaces: a channel_create handler's role check and its read of the maximum are one step (an owner's role never goes away, and no code grants the admin role); name, topic, kind and visibility checks are left out, and so is the order by name of channels at one position.
- ChannelHistory: membership checks and message texts' limits; the order of created_at is not used.
- IpLimiter.IpLimiter.Allow: map entries are values here, so sharing of one *limiterEntry between map and caller is not modelled; one clock reading per call, taken as monotone although the code reads it before locking. The per-connection message limiter is a plain token bucket.
- LineDrawing.DrawLine: integers are unbounded; `LineDrawing.ErrorTermBounded` says for which end points 64 bits suffice. Colours are opaque values.
- FileTransfer: JPEG decoding of video frames, an unregistered OnFile callback, failing sends and two overlapping sends to one peer.
- Emoticons: strings stand for bytes; which tokens have artwork is a parameter. The regular-expression engine itself is abstracted to leftmost-first matching of literal alternatives; an empty key is excluded, as the table has none.
- Stun: the textual form "a.b.c.d:port" of an endpoint.
- Envelopes: texts are sequences of Unicode scalar values, so lone surrogates in a JavaScript string and invalid UTF-8 in a Go string are not modelled where both clients read one text. TextDecoder after opening on the web (results are bytes), base64 public-key fields, the web client's blank-key checks, and its exception when the random source fails. The web client decrypts only `msg`, not group messages, so `GroupChat` has Go receivers.
- GroupChat: trimming of blank input and the /me rewriting before encryption, and fields other than Body that the same prologue decrypts.
- KeyPins: notifications; on the web, names such as "constructor" that a JavaScript object inherits, and reloading pins from local storage (a reload starts a new run from what was saved).
- MuLaw: `&`, `|`, `^`, `>>` and `<<` on bytes and samples are written as arithmetic.
- JitterBuffer: the RTP reader, PulseAudio, and the end of the track.
- Versions: invalid UTF-8 in version strings; pre-release tags are not compared, as in the code.
- User interface, calls and signalling, libp2p, VP8, TURN, mail, updates' download and installation, the vault: input and output through foreign libraries.
