# Verified models of the relay, the codecs and the streaming code

Dafny models of the parts of the repository whose correctness spans several functions or a
whole run, with proofs that hold for every input and every interleaving. Check all of it with
`dafny verify dfyconfig.toml`.

Code that changes state step by step is modelled by classes with the same fields and by
methods with the same branches and loops. Each method is proved equal to a function on values,
and the theorems are about those functions and their runs.

| files | what they model |
|---|---|
| `Registry`, `Connections`, `WsHandler`, `Keepalive` | the relay: ownership table, connection indices, socket handlers, ping and pong timers |
| `RelayRuns`, `RelayResults`, `RelayTimers`, `RelayAnswers` | whole runs of the relay: all interleavings of socket events, timers and time |
| `Dag`, `DagOrder`, `DagResults` | ordering messages by their parent chain |
| `Doubles`, `BinaryFraming` | offsets in IEEE doubles, UUIDs, nested frames |
| `Utf`, `ProjectId` | UTF-16, UTF-8 and base64url project ids |
| `FilePaths` | file paths in text, segments, HTML |
| `LineFilter`, `LineBytes` | the chunked line filter of the development script, on text and on bytes |
| `IsoTime`, `Telemetry`, `TelemetryResults` | time stamps, the day-rotated log and its loader |
| `Versions` | the version comparator and sort |
| `ReaderCache` | the bounded cache of session readers |
| `Upload` | cutting a file and the event machine of an upload |

## What the relay assumes of its environment

`RelayRuns.Enabled`: `close` is the last event of a socket, and timers fire when due.
`RelayRuns.Legal`: a socket that waits as a server neither registers under a second name nor
connects as a client. The handlers do not check this. It is weaker than one accepted handshake
per socket (`RelayResults.FirstHandshakeIsLegal`), and it is exact: an event keeps the four
indices in agreement if and only if it is legal (`RelayRuns.AgreementExact`), and
`RelayResults.SecondNameBreaksAgreement` is a run of two accepted messages that breaks them.
The theorems on timers hold, in every legal run, for each socket that makes at most one accepted
handshake, and so for each socket that was never asked to close: a second accepted handshake
always leaves its socket asked to close (`RelayTimers.SecondHandshakeAsksToClose`). Without that
a second registration leaks an interval, whose pong timeout can come due after the server was
paired (`RelayTimers.LeakedTimerFiresOnPaired` is such a run).

A ping carries no number, so `Keepalive.Prompt` counts pongs: each answers the oldest ping that
has none. While the pong timeout is not longer than the interval at most one ping is unanswered,
so there is only one way to match them.

## Where the code falls short, with the exact condition

- Two pong timeouts can run for one socket exactly unless `pongTimeoutMs < pingIntervalMs`
  (`Keepalive.OnePongTimer`), and a server that answers every ping in time can be closed all the
  same exactly unless `pongTimeoutMs <= pingIntervalMs` (`Keepalive.AnsweringServerSafeExactly`).
  The configuration checks neither.
- String comparison of ISO time stamps is time order unless one year alone is past 9999 or two
  different years are both negative (`IsoTime.IsoOrderExact`).
- A project id gives its path back unless the path has a lone surrogate or starts with U+FEFF
  (`ProjectId.RoundTripExact`).
- An envelope whose ciphertext is shorter than 17 bytes is created but not parsed
  (`BinaryFraming.EnvelopeRoundTrip`).
- `parseLineColumn` and the stripping step of `isLikelyFilePath` differ when the string is
  itself a line suffix or has a line terminator before its first one
  (`FilePaths.SamePathExactly`).
- The type guard for project ids accepts some texts that decoding refuses, exactly those whose
  length is 1 modulo 4 (`ProjectId.GuardedIdsDecode`).
- A chunk of output that ends inside a character garbles it: the line filter sees the text of the
  whole byte stream exactly when no cut is inside a character (`LineBytes.TextExactly`,
  `LineBytes.SplitCharacter`).
- An upload goes on sending after the server reported an error: a chunk or `end` can still follow
  exactly unless the upload is aborted or its sending loop has ended
  (`Upload.SendingPossibleExactly`, `Upload.ErrorDoesNotStopSending`).
- The loader gives the recorded order back exactly when the recorded dates never decrease
  (`TelemetryResults.LoadedIsRecorded`).

## Keys of the reader cache

`getOrCreateReader` treats an empty oldest key as the end of the map. Its callers
(packages/server/src/app.ts:131, 141 and 151) all pass keys that contain `::`, so in this program
keys are never empty and `ReaderCache.GivenKeysNeverStick` is the result about it.
`ReaderCache.BoundKeptExactly`, `ReaderCache.StuckCacheGrows` and `ReaderCache.CacheIsWindow` are
about the function with arbitrary keys.

## Model

| member | source | states |
|---|---|---|
| `Registry.UsernameRegistry.CanRegister` | packages/relay/src/registry.ts:33-47 | true exactly for a valid username that is free or already owned by the same installation |
| `Registry.UsernameRegistry.Register` | packages/relay/src/registry.ts:55-86 | succeeds exactly when registration is allowed; the new table; every earlier owner keeps its name |
| `Registry.UsernameRegistry.UpdateLastSeen` | packages/relay/src/registry.ts:92-97 | stamps the row of a registered name, changes no owner and adds no row |
| `Registry.UsernameRegistry.IsRegistered` | packages/relay/src/registry.ts:111-116 | a registered name is open to at most one installation, a free valid one to every installation |
| `Registry.UsernameRegistry.ReclaimInactive` | packages/relay/src/registry.ts:122-132 | removes exactly the rows last seen before the cutoff and returns how many went |
| `Registry.UsernameRegistry.Delete` | packages/relay/src/registry.ts:138-143 | removes the one row and says whether it was there |
| `Registry.AskThenRegister` | packages/relay/src/registry.ts:33-86 | first come, first served: after a registration the same installation may register again, any other may not; a refused one changes nothing |
| `Registry.ReclaimByTime` | packages/relay/src/registry.ts:122-132 | for printable years the string comparison keeps a row exactly when it was seen at or after the cutoff instant |
| `Registry.RegistrationStores` | packages/relay/src/registry.ts:55-86 | the row a registration leaves: the time of the first registration is kept, the time seen is renewed, no other row changes |
| `Registry.SeenNamesAreKept` | packages/relay/src/registry.ts:92-132 | being seen at a stamp not before the cutoff saves a name from reclaiming, with owner and registration time, and saves no other |
| `IsoTime.TimeValueOrder` | packages/relay/src/registry.ts:122-132 | field-by-field order of UTC dates is the order of their time values |
| `IsoTime.IsoOrderExact` | packages/relay/src/registry.ts:122-132 | string order of two ISO stamps is time order if and only if their years are not misprinted |
| `IsoTime.UtcDateMonotone` | packages/relay/src/telemetry.ts:116-118 | for years 0 to 9999 a later instant never has a smaller date text |
| `IsoTime.IsoReads` | packages/relay/src/telemetry.ts:116-118 | a printed instant reads year, month, day, hour, minute, second and millisecond as decimal numbers at fixed places, each behind its mark |
| `IsoTime.TimeValueCounts` | packages/relay/src/registry.ts:122-132 | time values start at 0 with 1970 and grow by 86,400,000 from each day of the calendar to the next |
| `Connections.ConnectionManager.RegisterServer` | packages/relay/src/connections.ts:88-136 | the result is the registry's verdict alone, so the second refusal is never reached; the new indices and the one close request, to the server replaced |
| `Connections.ConnectionManager.ConnectClient` | packages/relay/src/connections.ts:145-174 | which of the two failures, or the pair made with the waiting server; nothing changes on failure |
| `Connections.ConnectionManager.Forward` | packages/relay/src/connections.ts:184-199 | sends the frame, bytes and flag, to the other end of the pair and to nobody else |
| `Connections.ConnectionManager.HandleClose` | packages/relay/src/connections.ts:209-244 | the indices after a close, its outcome, and the close request to the surviving end |
| `Connections.ConnectionManager.IsPaired` | packages/relay/src/connections.ts:249-251 | while the indices agree, true exactly for the two ends of the live pairs |
| `Connections.ConnectionManager.IsWaitingWs` | packages/relay/src/connections.ts:256-263 | true exactly when some name waits on the socket |
| `Connections.ConnectionManager.GetWaitingCount` | packages/relay/src/connections.ts:275-277 | while the indices agree, the number of active servers in the waiting state |
| `Connections.ConnectionManager.GetPairCount` | packages/relay/src/connections.ts:282-284 | while the indices agree, half the entries of `pairLookup`, and the active servers that do not wait |
| `Connections.CountersAgree` | packages/relay/src/connections.ts:275-284 | when the indices agree, active servers = waiting + pairs, and `pairLookup` has two entries a pair |
| `Connections.RegistrationKeepsAgreement` | packages/relay/src/connections.ts:88-136 | registering, replacement included, keeps agreement if and only if the socket does not wait under another name |
| `Connections.PairingKeepsAgreement` | packages/relay/src/connections.ts:145-174 | pairing keeps agreement if and only if the client is not a waiting server |
| `Connections.ClosingKeepsAgreement` | packages/relay/src/connections.ts:209-244 | any close keeps agreement and leaves the socket unpaired |
| `Connections.LateCloseOfReplaced` | packages/relay/src/connections.ts:88-136 | the close event of a replaced server, after its successor registered, changes no index |
| `WsHandler.Handler.GetState` | packages/relay/src/ws-handler.ts:16-41 | creates the state of a socket on first use and otherwise changes nothing |
| `WsHandler.Handler.StartPingInterval` | packages/relay/src/ws-handler.ts:61-93 | schedules a new interval and overwrites the field without clearing an earlier one |
| `WsHandler.Handler.StopPingInterval` | packages/relay/src/ws-handler.ts:95-104 | clears the two timers whose identifiers the fields hold |
| `WsHandler.Handler.HandlePong` | packages/relay/src/ws-handler.ts:106-112 | clears the pong timeout in the field |
| `WsHandler.Handler.PingIntervalCallback` | packages/relay/src/ws-handler.ts:63-92 | a paired socket stops its interval, any other gets a pong timeout |
| `WsHandler.Handler.PongTimeoutCallback` | packages/relay/src/ws-handler.ts:81-91 | asks the socket to close and changes nothing else |
| `WsHandler.Handler.HandleMessage` | packages/relay/src/ws-handler.ts:120-291 | the whole new state for every message: forwarding when flagged paired, the two handshakes, everything else dropped |
| `WsHandler.Handler.HandleRegister` | packages/relay/src/ws-handler.ts:170-226 | refusals close the socket; acceptance sets the flags, answers, starts the interval and records |
| `WsHandler.Handler.HandleConnect` | packages/relay/src/ws-handler.ts:229-279 | flags both ends, stops the server's timers, answers the client and records, or refuses and closes |
| `WsHandler.Handler.HandleSocketClose` | packages/relay/src/ws-handler.ts:293-359 | stops the timers, leaves the indices, records what ended and forgets the state |
| `WsHandler.Handler.HandleSocketPong` | packages/relay/src/ws-handler.ts:366-369 | a pong clears the timeout of its own socket only |
| `RelayRuns.AgreementExact` | packages/relay/src/ws-handler.ts:136-291 | an event keeps the four indices in agreement if and only if it is legal |
| `RelayRuns.StepKeepsInv` | packages/relay/src/ws-handler.ts:120-369 | every legal event keeps all invariants: indices, flags, ownership, delivery, records |
| `RelayRuns.InvAlways` | packages/relay/src/ws-handler.ts:120-369 | all invariants hold after every legal run, from any ownership table |
| `RelayResults.IndicesAgree` | packages/relay/src/connections.ts:88-244 | in every reachable state the four indices and the counters agree |
| `RelayResults.AgreementLostExactlyWhen` | packages/relay/src/ws-handler.ts:136-291 | after any legal run the next event breaks agreement exactly when it is illegal |
| `RelayResults.SecondNameBreaksAgreement` | packages/relay/src/ws-handler.ts:165-226 | a concrete accepted second registration after which the indices disagree |
| `RelayResults.FirstHandshakeIsLegal` | packages/relay/src/ws-handler.ts:149-152 | one accepted handshake a socket is enough for legality |
| `RelayResults.FlagsRefineIndices` | packages/relay/src/ws-handler.ts:16-41 | paired in the index implies flagged; flagged but unpaired implies asked to close; an unpaired server waits or was replaced and asked to close; a closed socket is in no index |
| `RelayResults.FramesAfterPairDropped` | packages/relay/src/ws-handler.ts:149-152 | a frame from a socket whose pair has ended has no effect at all |
| `RelayResults.PairsAreForLife` | packages/relay/src/ws-handler.ts:229-245 | a socket entering a pair never belonged to one before |
| `RelayResults.OnePairPerSocket` | packages/relay/src/ws-handler.ts:229-245 | at any two moments of a run at which a socket is paired, it is in the same pair |
| `RelayResults.PrivateFifo` | packages/relay/src/connections.ts:184-199 | the frames a socket was sent are exactly those its one peer sent while their pair was live, in order, with bytes and flag; an unpaired socket was sent none |
| `RelayResults.ConnectedComesFirst` | packages/relay/src/ws-handler.ts:229-245 | `client_connected` goes once, to the client of a pair, after the relay's own messages and before every frame |
| `RelayResults.ConnectionsConserved` | packages/relay/src/ws-handler.ts:297-339 | successes = live pairs + ended pairs; registrations = waiting + live + replaced + closed while waiting + ended; each pair ends once |
| `RelayResults.OwnershipStable` | packages/relay/src/connections.ts:94-107 | active servers and waiting names are registered to their installation, and no name changes owner in a run |
| `RelayTimers.RelayRefinesKeepalive` | packages/relay/src/ws-handler.ts:61-112 | seen from any one socket, a legal run of the relay is a run of the keepalive machine, and a timed-out socket has been asked to close |
| `RelayTimers.SecondHandshakeAsksToClose` | packages/relay/src/connections.ts:108-116 | in every legal run a socket that makes a second accepted handshake has been asked to close after it |
| `RelayTimers.UnaskedShakesOnce` | packages/relay/src/ws-handler.ts:165-279 | a socket never asked to close made at most one accepted handshake |
| `RelayTimers.TimersBounded` | packages/relay/src/ws-handler.ts:61-112 | with one accepted handshake, at most one pong timeout, and no timer at all once paired or closed |
| `RelayTimers.UnaskedTimersBounded` | packages/relay/src/ws-handler.ts:61-112 | the same, in every legal run, for every socket that was never asked to close |
| `RelayTimers.StrictIsLegal` | packages/relay/src/ws-handler.ts:149-152 | a run with one accepted handshake a socket is legal, and every socket in it makes at most one |
| `RelayTimers.AnsweringServerKept` | packages/relay/src/ws-handler.ts:81-112 | with a timeout not longer than the interval, the pong timeout of a server that answers in time never comes due, whatever other sockets do |
| `RelayTimers.SilentServerAsked` | packages/relay/src/ws-handler.ts:61-93 | a waiting server from which nothing arrives any more is asked to close within one interval and one timeout, unless paired or closed first |
| `RelayTimers.LeakedTimerFiresOnPaired` | packages/relay/src/ws-handler.ts:61-93 | a legal run in which a server registers its name twice, is asked to close for it, is paired, and then has a pong timeout due that nothing could clear |
| `RelayAnswers.AnsweredAlways` | packages/relay/src/ws-handler.ts:120-369 | for every event after every legal run: exactly which messages go to which sockets, which sockets are asked to close, what is recorded, and what becomes of the rows and indices |
| `RelayAnswers.ConnectionRefused` | packages/relay/src/ws-handler.ts:260-276 | a client asking for a name without a row is sent `unknown_username`, one asking for a row nobody waits for `server_offline`; it is asked to close and nothing is stored |
| `RelayAnswers.RegistrationRefused` | packages/relay/src/ws-handler.ts:211-224 | a server with an invalid name, or a name of another installation, is sent that reason and asked to close; nothing is stored |
| `RelayAnswers.PairsNamedAlways` | packages/relay/src/ws-handler.ts:229-257 | in every legal run both ends of a live pair carry the name its server is active under |
| `Keepalive.TimersInOrderAlways` | packages/relay/src/ws-handler.ts:61-112 | which timers exist in each phase, over every run with one handshake |
| `Keepalive.OnePongTimer` | packages/relay/src/ws-handler.ts:80-92 | at most one pong timeout over all runs if and only if the timeout is shorter than the interval |
| `Keepalive.SlowTimeoutClosesAnsweringServer` | packages/relay/src/ws-handler.ts:80-92 | for every timeout longer than the interval, a possible run in which every ping is answered in time and the server is closed |
| `Keepalive.AnsweringServerSafeExactly` | packages/relay/src/ws-handler.ts:61-112 | servers that answer every ping in time are safe in all runs if and only if the timeout is not longer than the interval |
| `Keepalive.AnsweringServerNeverTimesOut` | packages/relay/src/ws-handler.ts:61-112 | with a timeout not longer than the interval, a waiting server that answers each ping in time is never closed for it and has at most one ping unanswered |
| `Keepalive.SilentServerTimesOut` | packages/relay/src/ws-handler.ts:61-93 | on the timers of one socket: a silent waiting server times out within one interval and one timeout (for the relay's close request see `RelayTimers.SilentServerAsked`) |
| `Keepalive.NoTimerSurvives` | packages/relay/src/ws-handler.ts:237-242 | after pairing or close no timer ever fires again |
| `Keepalive.SecondRegistrationLeaksTimer` | packages/relay/src/ws-handler.ts:61-93 | on the timers of one socket, whatever the relay asks of it: a second registration leaves an interval nothing can clear, and its pong timeout fires after pairing |
| `Dag.NeedsReorder` | packages/shared/src/dag.ts:32-41 | false exactly when every non-null parent occurs strictly earlier |
| `Dag.Walker.constructor` | packages/shared/src/dag.ts:58-66 | the map holds the items under every parent in input order |
| `Dag.ChildMapExact` | packages/shared/src/dag.ts:58-66 | the list under a key is exactly the items with that parent, in input order |
| `Dag.Walker.Visit` | packages/shared/src/dag.ts:70-78 | terminates on every input, cycles included, by the ids not yet visited; what it appends and visits |
| `Dag.OrderByParentChain` | packages/shared/src/dag.ts:53-90 | the result is the items at the positions of the specified order |
| `DagOrder.WalkLists` | packages/shared/src/dag.ts:70-80 | the walk lists exactly the items below its siblings, in chain order, and the visited guard never fires |
| `DagOrder.ChainUnique` | packages/shared/src/dag.ts:53-90 | an item has at most one chain of ancestors from a root |
| `DagOrder.OrderIsPreorder` | packages/shared/src/dag.ts:53-90 | the order is the stable preorder of the rooted items followed by every other item in input order |
| `DagOrder.PreorderUnique` | packages/shared/src/dag.ts:53-90 | that specification has only one solution |
| `DagOrder.OrderIsPermutation` | packages/shared/src/dag.ts:53-90 | every item comes out exactly once |
| `DagResults.OrderIdempotent` | packages/shared/src/dag.ts:53-90 | ordering twice is ordering once, for every list with orphans and cycles |
| `DagResults.OutputSettled` | packages/shared/src/dag.ts:32-90 | the output needs no reordering if and only if every item reaches a root |
| `DagResults.ParentsFirstRooted` | packages/shared/src/dag.ts:32-41 | when no reordering is needed every item reaches a root |
| `BinaryFraming.PrependFormatByte` | packages/shared/src/binary-framing.ts:294-302 | the format byte followed by the payload |
| `BinaryFraming.FormatByteRoundTrip` | packages/shared/src/binary-framing.ts:311-337 | prepending and extracting undo each other exactly for known formats, and both decoders accept the same inputs |
| `BinaryFraming.CreateBinaryEnvelope` | packages/shared/src/binary-framing.ts:262-284 | version, nonce and ciphertext, or an error for a nonce of another length |
| `BinaryFraming.EnvelopeRoundTrip` | packages/shared/src/binary-framing.ts:222-284 | parsing undoes creating if and only if the ciphertext has at least 17 bytes |
| `BinaryFraming.EnvelopeReencodes` | packages/shared/src/binary-framing.ts:222-252 | every accepted envelope is rebuilt from its parts |
| `BinaryFraming.OffsetToBytes` | packages/shared/src/binary-framing.ts:444-477 | refuses exactly what is not an integer from 0 to 2^53-1, and otherwise gives the eight big-endian bytes |
| `BinaryFraming.OffsetRoundTrip` | packages/shared/src/binary-framing.ts:444-508 | decoding an encoded offset gives it back, for every safe integer |
| `BinaryFraming.RoundedTestExact` | packages/shared/src/binary-framing.ts:486-508 | the test on the double-rounded value rejects exactly the inputs whose exact value is 2^53 or more |
| `BinaryFraming.OffsetReencodes` | packages/shared/src/binary-framing.ts:486-508 | every eight bytes are rejected or re-encode to themselves |
| `BinaryFraming.OffsetOnTheWire` | packages/shared/src/binary-framing.ts:444-479 | the eight bytes weighted by powers of 256, the first byte highest, sum to the offset |
| `BinaryFraming.DecodedOffsetIsWeighted` | packages/shared/src/binary-framing.ts:486-508 | any eight bytes decode to their weighted sum if it is a safe integer and are refused otherwise |
| `Doubles.RoundedStaysUnsafe` | packages/shared/src/binary-framing.ts:500-507 | rounding to a double never brings an unsafe integer back among the safe ones |
| `Doubles.HighPartExact` | packages/shared/src/binary-framing.ts:486-508 | the high word times 2^32 is exact in a double |
| `Doubles.RoundedNearest` | packages/shared/src/binary-framing.ts:486-508 | rounding gives a multiple of the spacing at most half a spacing away, and in a tie the even one |
| `BinaryFraming.UuidToBytes` | packages/shared/src/binary-framing.ts:387-411 | the sixteen bytes of the hex digits, or an error for anything else |
| `BinaryFraming.UuidRoundTrip` | packages/shared/src/binary-framing.ts:387-434 | encode then decode gives the lower-case 8-4-4-4-12 form; decode then encode gives the bytes |
| `BinaryFraming.UuidOnTheWire` | packages/shared/src/binary-framing.ts:387-411 | byte i of an encoded UUID is what its hex digits 2i and 2i + 1 spell, high half first |
| `BinaryFraming.UuidText` | packages/shared/src/binary-framing.ts:420-434 | the decoded text has its four hyphens and, between them, the lower-case digits of the bytes in order |
| `BinaryFraming.EncodeUploadChunkPayload` | packages/shared/src/binary-framing.ts:607-627 | id, offset and data behind each other, or the error of the first bad one |
| `BinaryFraming.EncodeUploadChunkFrame` | packages/shared/src/binary-framing.ts:521-543 | the upload format byte in front of what the payload encoder gives |
| `BinaryFraming.ChunkRoundTrip` | packages/shared/src/binary-framing.ts:521-627 | decoding returns the same offset and data and the canonical id, for frame and payload |
| `BinaryFraming.ChunkOnTheWire` | packages/shared/src/binary-framing.ts:607-627 | a chunk payload is the sixteen bytes the id spells, eight bytes that weigh the offset, and the data |
| `BinaryFraming.ChunkReencodes` | packages/shared/src/binary-framing.ts:576-627 | the decoder accepts exactly long enough payloads with a safe offset, and each is the encoding of what it decoded |
| `BinaryFraming.DecodersAgree` | packages/shared/src/binary-framing.ts:553-596 | the frame decoder is the payload decoder behind the format byte |
| `Utf.Utf8RoundTrip` | packages/shared/src/projectId.ts:37-67 | the platform's decoder undoes its encoder on every sequence of scalar values but for a leading mark |
| `Utf.UnitsOfScalars` | packages/shared/src/projectId.ts:37-67 | reading UTF-16 as scalar values and writing it again is the identity exactly without lone surrogates |
| `Utf.UnitsPlaceByPlace` | packages/shared/src/projectId.ts:37-67 | it keeps every unit in its place but a surrogate without its other half, which becomes U+FFFD |
| `Utf.Utf8Values` | packages/shared/src/projectId.ts:37-39 | the bytes of a scalar value by the table of section 3 of RFC 3629: length, lead mark, and the value in the remaining bits |
| `Utf.SurrogateValues` | packages/shared/src/projectId.ts:66-66 | beyond the first plane the units are a high and a low surrogate with ten bits each |
| `ProjectId.AtobOfBtoa` | packages/shared/src/projectId.ts:41-61 | base64 decoding undoes base64 encoding for every byte string |
| `ProjectId.PadToFour` | packages/shared/src/projectId.ts:57-59 | the padding loop ends with the fewest signs that make the length a multiple of four |
| `ProjectId.FromUrlProjectId` | packages/shared/src/projectId.ts:53-67 | the decoded path, or nothing where decoding throws |
| `ProjectId.IdShape` | packages/shared/src/projectId.ts:21-47 | only the URL alphabet, length never 1 modulo 4, accepted by the type guard exactly for a non-empty path |
| `ProjectId.PaddingRestored` | packages/shared/src/projectId.ts:41-59 | re-padding restores exactly the removed padding |
| `ProjectId.FromToUrl` | packages/shared/src/projectId.ts:37-67 | what comes back for any string at all |
| `ProjectId.RoundTripExact` | packages/shared/src/projectId.ts:37-67 | the path comes back if and only if it is well formed and does not start with U+FEFF |
| `ProjectId.ComesBackAs` | packages/shared/src/projectId.ts:37-67 | for any string, the unit that comes back at each place |
| `ProjectId.IdSpellsBytes` | packages/shared/src/projectId.ts:37-47 | character i of an id is the digit, in the order of the base64url alphabet, for bits 6i to 6i + 5 of the UTF-8 bytes |
| `ProjectId.GuardedIdsDecode` | packages/shared/src/projectId.ts:21-67 | an id the type guard accepts is decoded if and only if its length is not 1 modulo 4 |
| `ProjectId.IdsDistinct` | packages/shared/src/projectId.ts:37-47 | two ids are equal exactly when the paths read as the same scalar values; distinct well-formed paths get distinct ids |
| `FilePaths.SamePathExactly` | packages/shared/src/filePathDetection.ts:253-320 | exactly when the lazy split and the leftmost strip give the same path |
| `FilePaths.SamePath` | packages/shared/src/filePathDetection.ts:306-320 | they do for every one-line string that does not start with a colon |
| `FilePaths.LineAndColumnRead` | packages/shared/src/filePathDetection.ts:306-320 | of two decimal numbers printed behind a path the first is read as the line and the second as the column |
| `FilePaths.LineReads` | packages/shared/src/filePathDetection.ts:306-320 | a single number is the line |
| `FilePaths.PlainPathReads` | packages/shared/src/filePathDetection.ts:306-320 | a string without a colon has neither |
| `FilePaths.DetectFilePaths` | packages/shared/src/filePathDetection.ts:328-356 | the accepted matches with path, line and column, in order |
| `FilePaths.DetectedInOrder` | packages/shared/src/filePathDetection.ts:328-356 | detected ranges are increasing and disjoint, and each text is the text at its range |
| `FilePaths.DetectedReads` | packages/shared/src/filePathDetection.ts:328-356 | a match that prints a path, a line and a column is detected as these, at its range |
| `FilePaths.SplitTextWithFilePaths` | packages/shared/src/filePathDetection.ts:364-401 | the segments around the detected paths |
| `FilePaths.SegmentsPartition` | packages/shared/src/filePathDetection.ts:364-401 | segments concatenate to the text, hold exactly the detected paths, no two texts adjacent, none empty unless the text is |
| `FilePaths.AnchorsStripAway` | packages/shared/src/filePathDetection.ts:411-439 | removing the tags leaves the escaped text, for any escape function that is a homomorphism without angle brackets |
| `FilePaths.TextRecovered` | packages/shared/src/filePathDetection.ts:411-439 | undoing the escapes then recovers the text |
| `FilePaths.ServerTextRecovered` | packages/server/src/augments/augment-generator.ts:268-275 | one instance, which the repository itself does not pass to `transformFilePathsToHtml`: with this escape function the text is always recovered |
| `FilePaths.AnchorReads` | packages/shared/src/filePathDetection.ts:423-436 | read between its quotes, an anchor names class, path, line and column with their values and shows the matched text |
| `FilePaths.EscapesEntities` | packages/server/src/augments/augment-generator.ts:268-275 | the five special characters become their entities and every other character stays |
| `LineFilter.Filter.OnData` | scripts/dev.js:47-57 | what a chunk adds to the output and what stays buffered |
| `LineFilter.Filter.OnEnd` | scripts/dev.js:59-63 | a non-empty rest that is not suppressed is emitted without a newline |
| `LineFilter.SplitAcross` | scripts/dev.js:47-51 | cutting anywhere, between carriage return and newline too, splits into the same lines |
| `LineFilter.ChunkingInvariant` | scripts/dev.js:42-64 | the output is the batch result for every way of cutting the stream |
| `LineFilter.FilterKeepsRest` | scripts/dev.js:42-64 | the output is the unsuppressed lines, each ended by a newline, and the rest unless it is suppressed; a suppressed line leaves nothing behind |
| `LineFilter.ForwardWithLineFilter` | scripts/dev.js:42-64 | the same of the handlers themselves, run over all chunks |
| `LineFilter.SplitLinesMeaning` | scripts/dev.js:49-49 | the pieces are the lines of the text whichever separator ends each of them |
| `LineFilter.EveryTextIsLines` | scripts/dev.js:49-49 | every text is such lines and a rest |
| `LineBytes.ForwardBytes` | scripts/dev.js:42-64 | the handlers on bytes: the filter of the chunks' texts, and the batch result of the whole stream's text when all cuts are clean |
| `LineBytes.CutText` | scripts/dev.js:47-47 | decoding two parts apart is decoding them together unless the cut is inside a character, and then it gives more characters |
| `LineBytes.TextExactly` | scripts/dev.js:47-47 | the filter sees the text of the whole stream if and only if no cut is inside a character |
| `LineBytes.OutputExactly` | scripts/dev.js:42-64 | the output is the batch result for every choice of suppressed lines if and only if no cut is inside a character |
| `LineBytes.SplitCharacter` | scripts/dev.js:47-47 | the input C3, A9 in two chunks fails |
| `Telemetry.JsonlRecorder.GetStream` | packages/relay/src/telemetry.ts:133-147 | the stream of today's file, the only one open, with the file created but not truncated |
| `Telemetry.JsonlRecorder.Record` | packages/relay/src/telemetry.ts:149-163 | appends one line to the file of the event's UTC date; at most one stream open |
| `Telemetry.JsonlRecorder.Close` | packages/relay/src/telemetry.ts:190-205 | no stream is open and no file changed |
| `Telemetry.ParseEventsFile` | packages/relay/src/stats.ts:16-32 | the parsed records of the non-blank lines, malformed ones skipped |
| `Telemetry.MalformedLineIgnored` | packages/relay/src/stats.ts:16-32 | a blank or malformed line costs itself and no other line |
| `TelemetryResults.Drive` | packages/relay/src/telemetry.ts:133-205 | the directory after any sequence of calls, at most one stream open |
| `TelemetryResults.FileRoundTrip` | packages/relay/src/stats.ts:16-32 | a file written one event a line parses back to the events |
| `TelemetryResults.DirectoryHolds` | packages/relay/src/telemetry.ts:133-205 | the directory holds exactly one file a recorded date, with the events of that date in order |
| `TelemetryResults.LoadedIsSorted` | packages/relay/src/stats.ts:34-46 | loading gives the recorded events stably sorted by UTC date, for every directory listing order |
| `TelemetryResults.StableSortUnique` | packages/relay/src/stats.ts:34-46 | a stable sort by date is unique |
| `TelemetryResults.LoadedIsRecorded` | packages/relay/src/stats.ts:34-46 | the loaded order is the recorded order exactly when the dates never decrease |
| `TelemetryResults.SteadyClockRoundTrip` | packages/relay/src/telemetry.ts:149-163 | in particular while the clock never goes back |
| `Versions.Compare` | packages/relay/src/stats.ts:126-137 | the comparator loop computes the specified comparison |
| `Versions.ComparedAtAnyLength` | packages/relay/src/stats.ts:127-135 | padding both versions with zeros to any common length gives the same answer |
| `Versions.ComparatorFlips` | packages/relay/src/stats.ts:125-138 | swapping the versions flips the sign |
| `Versions.ComparatorTransitive` | packages/relay/src/stats.ts:125-138 | the comparator is transitive although each pair is compared up to its own length |
| `Versions.FirstDifferenceDecides` | packages/relay/src/stats.ts:130-135 | the first differing number decides, past the end of the shorter version too; two infinities make the versions equal |
| `Versions.SmallerFirst` | packages/relay/src/stats.ts:130-135 | when all places before are equal, the version with the smaller number comes first, finite before infinite |
| `Versions.NumbersRead` | packages/relay/src/stats.ts:127-133 | a printed version, with anything behind a dash, reads as its numbers, and as zero past their end |
| `Versions.VersionReads` | packages/relay/src/stats.ts:127-129 | its segments are its decimals, with or without a leading `v` |
| `Versions.SegmentReads` | packages/relay/src/stats.ts:127-133 | a segment reads as its leading digits, and as zero when it starts with none |
| `Versions.StringsBreakTies` | packages/relay/src/stats.ts:136-136 | with equal numbers the string comparison decides |
| `Versions.SortVersionsSorts` | packages/relay/src/stats.ts:125-138 | the result is a sorted permutation of the versions |
| `Versions.SortedAscends` | packages/relay/src/stats.ts:125-138 | in the sorted list no version has, at the first place where they differ, a larger number than a later one |
| `Versions.SortedUnique` | packages/relay/src/stats.ts:125-138 | any two sorted arrangements agree place by place up to comparator equality |
| `ReaderCache.Cache.GetOrCreateReader` | packages/server/src/app.ts:103-120 | the cache and the returned reader for hits, misses and a throwing factory, eviction loop included |
| `ReaderCache.BoundKeptExactly` | packages/server/src/app.ts:113-117 | for arbitrary keys: a call keeps the limit unless it misses on a full cache whose oldest key is empty |
| `ReaderCache.StuckCacheGrows` | packages/server/src/app.ts:113-117 | for arbitrary keys: after that nothing is evicted and every miss adds an entry |
| `ReaderCache.CacheIsWindow` | packages/server/src/app.ts:100-120 | for arbitrary keys: the cache is at all times the last 500 misses in order, if and only if no miss meets a full window with an empty oldest key |
| `ReaderCache.GivenKeysNeverStick` | packages/server/src/app.ts:100-120 | with non-empty keys, as all callers pass, it always is, and stays within the limit |
| `ReaderCache.WindowDistinct` | packages/server/src/app.ts:100-120 | the keys held are distinct |
| `ReaderCache.HitReturnsLatest` | packages/server/src/app.ts:107-108 | a hit returns the reader of the key's latest miss and reorders nothing |
| `ReaderCache.MissAddsNewest` | packages/server/src/app.ts:110-119 | a miss returns the new reader, which is never the one evicted |
| `Upload.FileToChunks` | packages/client/src/api/upload.ts:216-228 | the chunks concatenate to the file; all but the last have the chunk size, none is empty |
| `Upload.UploadChunks` | packages/client/src/api/upload.ts:75-86 | an already aborted signal rejects without a socket |
| `Upload.Uploader.AbortHandler` | packages/client/src/api/upload.ts:88-99 | the state after an abort, with or without a working socket |
| `Upload.Uploader.MessageHandler` | packages/client/src/api/upload.ts:109-136 | the state after progress, complete and error messages |
| `Upload.Uploader.ErrorHandler` | packages/client/src/api/upload.ts:138-144 | the state after a socket error |
| `Upload.Uploader.CloseHandler` | packages/client/src/api/upload.ts:146-160 | the state after the socket closed |
| `Upload.Uploader.OpenHandler` | packages/client/src/api/upload.ts:162-172 | start is sent, or the error handled |
| `Upload.Uploader.ResumeOpenHandler` | packages/client/src/api/upload.ts:174-199 | one turn of the sending loop: chunk, end, stop after an abort, or the error handled |
| `Upload.SentIsPrefix` | packages/client/src/api/upload.ts:162-184 | what is sent is at all times a prefix of start, all chunks, end; when end is sent the bytes are the whole file |
| `Upload.AbortSilences` | packages/client/src/api/upload.ts:174-183 | after an abort no chunk and no end is sent, in any continuation |
| `Upload.UnabortedSendsAll` | packages/client/src/api/upload.ts:174-184 | without an abort everything is sent, even after the promise is settled |
| `Upload.SpentSilences` | packages/client/src/api/upload.ts:162-199 | once aborted, or with the sending loop ended, no chunk and no end is sent in any continuation |
| `Upload.SendingPossibleExactly` | packages/client/src/api/upload.ts:162-199 | after any run, a chunk or end can still follow if and only if the upload is not aborted and the loop has not ended, whatever the outcome |
| `Upload.ErrorDoesNotStopSending` | packages/client/src/api/upload.ts:126-183 | an error from the server after the start rejects, and every chunk and end can still follow |
| `Upload.FirstVerdictSettles` | packages/client/src/api/upload.ts:88-199 | the promise is settled by the first terminal event and by nothing after it |
| `Upload.CancelMeansAborted` | packages/client/src/api/upload.ts:88-107 | cancel is only ever sent on an upload rejected as aborted |
| `Upload.FlagsTell` | packages/client/src/api/upload.ts:88-199 | after every run the two flags say whether it was aborted and whether something else decided it |
| `Upload.RunLeaves` | packages/client/src/api/upload.ts:88-199 | after every run: the close requests with their reasons, the progress reports, and one cancel for each abort that found a working socket |
| `Upload.AskedToCloseExactly` | packages/client/src/api/upload.ts:88-199 | the socket is asked to close if and only if there was an abort, a completion, a server error, or an exception before anything else decided the upload |

## Left out

- Real sockets, HTTP routing, SQLite, file streams, logging: sockets are identities with an outbox and a set of close requests, tables and directories are maps. A handler call is one atomic step, as Node runs it. `send`, `ping` and `close` do not throw in the relay model.
- JSON: an abstract codec whose parse undoes its print and whose output is one non-blank line (`Telemetry.Lawful`); a relay message arrives already parsed (`WsHandler.Parsed`).
- Telemetry write streams are flushed at once; failures to open or write are not modelled. The sampling timer is left out: its events are calls of `Record` like any other. `currentFilePath` is only reported by `getStatus`, which is left out too.
- `lastPong` is written and never read, so it has no field.
- The cutoff date of `reclaimInactive` is a parameter: the local calendar arithmetic that computes it is not modelled.
- The regular expression that finds file paths and the heuristics of `isLikelyFilePath` are parameters; the line and column patterns are modelled in full.
- Paths and sockets compare by value or identity as in JavaScript; a pair is modelled by its two ends rather than as an object.
- `localeCompare` is a parameter with the two laws it promises (`Versions.LocaleOrder`).
- `btoa(String.fromCharCode(...bytes))` fails on very long paths because of the limit on arguments; the model has no such limit.
- Line numbers past 2^53 are exact in the model and rounded in the program.
- A factory of the reader cache that calls the cache again is not modelled.
- A fractional or non-positive chunk size is not modelled (the source loops for ever on the latter).
- The progress callback of an upload and closing the chunk iterator after an abort have no effect on the model.
- The relay's statistics page, daily aggregation, active-server listing, compression, encryption, user interface, session subscriptions and the run service: they would add easy members or rest on code that is not part of this model.
