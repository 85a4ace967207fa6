# Verification of the monitoring service

The repository is a metrics service: an agent polls sensors and reports batches over HTTP or gRPC, and a server keeps
counters and gauges in memory or in Postgres. This project models both sides in Dafny and proves what holds over every
input, every interleaving and every run, from the agent's poll to the server's listing.

`dafny verify dfyconfig.toml` checks everything.

## How the model is laid out

| file | what it models |
|---|---|
| `Int64`, `Strconv`, `Models`, `Wrappers` | Go's wrapping int64, decimal text, the metric record, the updates a batch stands for |
| `Stores`, `BatchLaws` | contents of a store as a value, closed form of a list of updates, laws of batches, concurrent clients |
| `MemStorage`, `Listing`, `Json`, `MetricJson`, `Snapshot` | the in-memory store as a class, its listing, its JSON-lines snapshot |
| `ListingLaws`, `JsonSpaces`, `SnapshotLaws` | what a listing tells about the store, blanks in JSON, which lines and stores the line scanner lets through, in bytes |
| `Postgres`, `TableLaws`, `Refinement`, `RunLaws` | the one-table store with transactions, closed forms of a transaction, and over which runs, and in which reads, the store cannot be told from the in-memory one |
| `Retrier`, `RetriedBatch` | go-retry's loop and backoff as vendored, the wrappers, retried transactions and reads |
| `Transport`, `Server` | gRPC encoding and decoding, the text and batch handlers |
| `Encoding`, `Oaep`, `ByPart`, `Pipeline` | hex, base64, UTF-8, EME-OAEP, the two by-part loops, signing and encryption around a request |
| `SignWriter` | the signing response writer and its helper goroutines as a step system |
| `AgentReport`, `Agent` | what a report contains; poller, report loop, workers, channels and server as a step system |
| `OsExit` | the os.Exit analyzer |

Classes carry the fields the Go code updates in place, and their methods have its loops and early returns; each is tied
to a function, and the theorems are about those functions. The two concurrent parts are step systems: a state, the
atomic steps, when each is enabled, and a run is any sequence of enabled steps. In `Agent` the state has two halves:
`Program`, what agent, network and server hold, and `Ledger`, an account of the polls. Guards (`Enabled`) and moves
(`Move`) take a `Program` only, so nothing the program does can depend on the account; the server adds the delta the
payload carries, and that this is what the account says is a theorem, by way of the payload's ownership.

Foreign code enters as parameters with stated hypotheses: `ValidText` (a finite float prints as a JSON number that
parses back to it), `ValidSuite` and `ValidKey` (lengths of hash and mask, the hash not being empty; the RSA
permutation is undone by its inverse), `ValidMac` (an HMAC is not empty), `PlainText` (a printed float holds neither a
colon nor a line end). `ValidTextExists` and `ValidSuiteAndKeyExist` show that the first three can be met.
Map iteration orders are arbitrary enumerations of the keys. Failures, cancellation and the random stream are arguments.

## Where the code differs from what is promised or documented

- The retrier asks `errors.Is` whether its joined errors are the error at hand, not the other way round. That skips
  exactly the four listed errors as they are; one that is wrapped would be retried (`Retrier.SkippedIff`,
  `Retrier.WrappedSentinelRetried`), and asking the other way round would skip none of them (`Retrier.SwappedIff`).
  No store of this program wraps one of the four, so its own errors never meet the difference.
- The gRPC handler answers OK when nothing was stored: because the database refused the batch, or because the server was
  stopping, over the in-memory store as well. The agent then resets its counter and those polls are gone
  (`Transport.SendToDatabase`, `Transport.SendToMemory`, `AgentProtocol.GrpcLosesAcknowledged`); by how much the server
  falls short is exact in `AgentProtocol.ServerTotal`.
- Polls between the parse and the reset of an acknowledged report are lost without any failure
  (`AgentProtocol.PollOvertaken`, `AgentProtocol.NothingLostIff`), and no others without cancellation or an unstored
  answer (`AgentProtocol.PollsConserved`, `AgentProtocol.ServerTotal`).
- The Postgres table is keyed by id alone, so a second kind of metric under one id is reported as stored and is not
  listed. A counter after a gauge cannot be read back either (`Refinement.SecondKindIsLost`); a gauge after a counter can
  (`Refinement.SecondKindIsUnlisted`). Exact conditions over whole runs are `RunLaws.RunRefinesExactly` and
  `RunLaws.RunReadsIff`.
- A snapshot silently leaves out infinite and NaN gauges, and the line reader gives up at a line of 64 KiB
  (`Snapshot.SnapshotExactIff`, `Snapshot.InfinityIsDropped`, `SnapshotLaws.ReadLineIs`); ids of up to 10000 characters
  are safe (`SnapshotLaws.ShortStoreSurvives`).
- The analyzer's flag outlives the body of main, so an os.Exit in a later function is reported as if it were in main
  (`OsExit.RightIff`); a second one in main is not reported, nor any in a second file of package main
  (`OsExit.UnreportedIff`).
- The comment of the vendored Fibonacci backoff promises waits of 1, 1, 2, 3; the code waits 1, 2, 3, 5
  (`Retrier.TotalWait`).

## Model

| member | source | states |
|---|---|---|
| Strconv.ParseFormat | internal/server/server.go:76-120 | reading the decimal text of any int64 gives it back |
| Stores.ApplyOutcome | internal/storage/storage.go:41-89 | closed form of any list of writes: a counter ends at the int64 representative of its start plus the unbounded sum of its deltas, a gauge at its last write, everything else as it was |
| Stores.OutcomeUnique | internal/storage/storage.go:41-89 | that closed form determines the resulting store completely |
| Stores.InterchangeableIff | internal/storage/storage.go:64-89 | two lists of writes act alike on every store if and only if they touch the same counters, their sums agree modulo 2^64 and their last gauge writes agree |
| BatchLaws.SplitBatch | internal/storage/storage.go:64-89 | a batch cut anywhere and stored in two calls leaves the same store |
| BatchLaws.BatchIsFoldOfWrites | internal/storage/storage.go:41-89 | a batch is the same as single writes of its valid entries in order |
| BatchLaws.PermutationKeepsCounters | internal/storage/storage.go:77-82 | any permutation of a batch has the same delta sum for every counter and touches the same counters |
| BatchLaws.ReorderedBatch | internal/storage/storage.go:64-89 | a permutation that keeps each gauge's values in order leaves every store in the same state |
| BatchLaws.RepeatHarmlessIff | internal/storage/storage.go:64-89 | storing a batch twice equals storing it once, on every store, if and only if its deltas for each counter cancel modulo 2^64 |
| BatchLaws.GaugesRepeatHarmlessly | internal/storage/storage.go:46-76 | gauge writes are idempotent |
| Clients.CountersConserved | internal/storage/storage.go:41-89 | for any clients and any interleaving of their locked calls a counter ends at the wrapped sum of everything anybody added |
| Clients.CountersIgnoreSchedule | internal/storage/storage.go:41-89 | no two interleavings differ in a counter |
| Clients.GaugeIsSomebodysLast | internal/storage/storage.go:41-89 | a gauge ends at the last value some client writes to it, or as it was if nobody writes |
| Listing.SortingIsCanonical | internal/storage/storage.go:116-129 | sorting the keys gives one list whatever order the map was visited in |
| Listing.ListingIgnoresMapOrder | internal/storage/storage.go:112-135 | two visits of the maps print the same text: each id once per section, sorted, with its value |
| ListingLaws.LeIff | internal/storage/storage.go:120 | names stand in the order of the first character in which they differ, a name before any it is a prefix of |
| ListingLaws.ListingExample | internal/storage/storage.go:115-134 | the listing of one counter and one gauge is the text of two headings, two names and two values, for all names and values |
| ListingLaws.ListingTellsApart | internal/storage/storage.go:112-135 | for ids without a line end, two stores print the same listing if and only if they hold the same counters, and gauges of the same printed value under the same ids |
| MemoryStorage.MemStorage.constructor | internal/storage/storage.go:206-208 | a new store is empty |
| MemoryStorage.MemStorage.WriteMetric | internal/storage/storage.go:41-61 | the whole new store for every type and value, and which error leaves it unchanged |
| MemoryStorage.MemStorage.WriteBatchMetrics | internal/storage/storage.go:64-89 | the loop does exactly the updates of the valid entries and skips the others |
| MemoryStorage.MemStorage.GetMetric | internal/storage/storage.go:92-109 | the stored value, a missing name or an unknown type, told apart |
| MemoryStorage.MemStorage.GetAllMetricsTxt | internal/storage/storage.go:112-135 | for every order of visiting the maps, the canonical listing |
| MemoryStorage.MemStorage.SaveToFile | internal/storage/storage.go:138-168 | one JSON line per metric in the order the maps are visited |
| MemoryStorage.MemStorage.ReadFromFile | internal/storage/storage.go:171-203 | the line loop on any file content, with its three ways to fail and what is stored by then; SnapshotLaws says when each happens |
| Json.StringRoundTrip | internal/storage/storage.go:151-161 | a string escaped as encoding/json does and read back is the same string |
| Json.ValueRoundTrip | internal/storage/storage.go:151-188 | parsing a printed value gives the value and leaves what follows it, except that a number must not be followed by a character that looks like more of it |
| Json.ParsePrint | internal/storage/storage.go:151-188 | Unmarshal undoes Marshal, with or without the encoder's newline |
| Json.PrintNoControls | internal/storage/storage.go:151-186 | printed JSON contains no newline or other control character, so a line is one value |
| Json.FormatIntIsNumber | internal/models/models.go:6 | every printed delta is a JSON number |
| Json.EscapeExamples | internal/storage/storage.go:151-161 | which characters encoding/json copies, and which it escapes with a backslash and a letter |
| JsonSpaces.BlanksDoNotMatter | internal/storage/storage.go:188 | blanks of the four kinds, any number before, between and after the tokens of any value, do not change what is read |
| MetricJson.MetricRoundTrip | internal/models/models.go:5-10 | decoding an encoded metric gives it back, nil pointers and pointers to zero told apart |
| MetricJson.BatchRoundTrip | internal/agent/agent.go:133-140 | a slice encodes if and only if its values are finite, and the server then decodes the same slice |
| MetricJson.MetricPrints | internal/models/models.go:5-10 | the text of a metric: delta and value where their pointers are set, zero or not, then id and type, under these names and in this order |
| MetricJson.CounterText | internal/storage/storage.go:154-158 | the line of a counter, letter by letter, for every delta and every name that needs no escaping |
| MetricJson.DecodeExamples | internal/storage/storage.go:187-190 | names of members match in any case, unknown members are passed over, the last of several counts, and null is like a missing member |
| MetricJson.TrailingText | internal/server/server.go:255-260 | the batch handler's decoder takes the first value and leaves what follows it, where a snapshot line with anything but blanks behind its value is refused |
| Snapshot.ReadEncodedLine | internal/storage/storage.go:186-197 | what reading any encoded metric does: stored, ignored, too long, or a nil dereference |
| Snapshot.SaveThenRead | internal/storage/storage.go:138-203 | saving one store and reading it into another overrides exactly the ids that were saved, or stops at a line that is too long |
| Snapshot.SnapshotExactIff | internal/storage/storage.go:138-203 | read into an empty store a snapshot is exact if and only if all gauges are finite and all lines fit, for every visiting order |
| Snapshot.InfinityIsDropped | internal/storage/storage.go:160-166 | a store with one infinite gauge comes back empty, without an error |
| SnapshotLaws.ReadLineIs | internal/storage/storage.go:186-201 | any line: too long if and only if its UTF-8 form has 65536 bytes or more; otherwise refused, a nil dereference, forgotten, or stored under its id |
| SnapshotLaws.FileByLine | internal/storage/storage.go:186-202 | a file is read line by line, the last with or without its line end, and reading ends at the first line that fails |
| SnapshotLaws.ShortStoreSurvives | internal/storage/storage.go:138-203 | a store whose ids have at most 10000 characters and whose gauges are finite and print in at most 64 is restored exactly, for every visiting order |
| SnapshotLaws.CounterReadIff | internal/storage/storage.go:184-195 | the literal line of a counter is stored if and only if name and digits together have at most 65500 characters, for plain ASCII names, and too long otherwise |
| SnapshotLaws.CounterFileRead | internal/storage/storage.go:171-203 | a file of that one line restores a store of that one counter |
| Postgres.PgDB.WriteMetric | internal/storage/pgdb.go:94-117 | an argument error, or the single statement as a transaction of its own: committed, undone, or committed and reported as a failure |
| Postgres.PgDB.WriteBatchMetrics | internal/storage/pgdb.go:120-153 | all statements of the transaction take effect, or, when the engine refuses one or the connection breaks before the commit, none; a commit may also be reported as a failure |
| Postgres.PgDB.GetMetric | internal/storage/pgdb.go:196-222 | the column's value, a missing row, a NULL that cannot be scanned, a broken connection, or an unknown type |
| Postgres.PgDB.GetAllMetricsTxt | internal/storage/pgdb.go:156-193 | the two sections row by row, or an error if a row's column is NULL or a query breaks off |
| Refinement.UpsertAllKeepsWellFormed | internal/storage/pgdb.go:20-30 | every row keeps the column of its own type, whatever is written |
| Refinement.BatchRefinesIff | internal/storage/pgdb.go:120-153 | a transaction commits to what the maps would hold if and only if every update fits its id, meets its own type and does not overflow |
| Refinement.RunRefinesIff | internal/storage/pgdb.go:94-153 | over any sequence of single and batch writes both stores answer alike and end alike if and only if every call meets a table it is compatible with |
| RunLaws.RunRefinesExactly | internal/storage/pgdb.go:94-153 | the same in closed form: over all updates of the run in a row every id fits, no id is asked for under both kinds or against its row's kind, and every sum on the way fits |
| RunLaws.OneKindIff | internal/storage/pgdb.go:27-29 | no id is asked for under both kinds or against its row's kind if and only if every update has the kind its row has or is going to have |
| Refinement.LookupAgreesIff | internal/storage/pgdb.go:196-222 | a table reads like the maps it stands for, except exactly where the id is stored under the other type |
| Refinement.ListingAgrees | internal/storage/pgdb.go:156-193 | a table is listed like the maps it stands for |
| Refinement.RunReadsAlike | internal/storage/pgdb.go:156-222 | after any compatible run of writes the two stores print the same listing, and a value reads the same from both exactly if its id is not stored under the other type |
| Refinement.SecondKindIsLost | internal/storage/pgdb.go:24-29 | a gauge and then a counter under one id: no error anywhere, but the table neither reads nor lists the counter and the two listings differ |
| Refinement.SecondKindIsUnlisted | internal/storage/pgdb.go:23-29 | a counter and then a gauge under one id: no error anywhere and both stores read both values, but the two listings differ |
| RunLaws.RunReadsIff | internal/storage/pgdb.go:94-222 | after any run of accepted writes, compatible or not, a value reads the same from both stores if and only if nothing is stored under the name, its row has the kind asked for, or it is a counter's row that a gauge was written to |
| Retrier.SkippedIff | internal/retrier/retrier.go:45-48 | errors.Is with the joined errors first, as a search through the error tree, finds exactly the four listed errors unwrapped, and the joined error itself |
| Retrier.SwappedIff | internal/retrier/retrier.go:45-48 | with the arguments the other way round it finds exactly errors that carry the whole joined error, and none of the four |
| Retrier.MatchesSentinelIff | internal/retrier/retrier.go:144-149 | asked for each of the four, errors.Is finds exactly the errors that some way of unwrapping leads to one of them; those skipped are the unwrapped among them |
| Retrier.WrappedSentinelRetried | internal/retrier/retrier.go:43-50 | a wrapped listed error gets a second attempt, where the bare one ends the call |
| Retrier.Wrapper.Call | internal/retrier/retrier.go:37-52 | the retry loop over the wrapper's shared backoff: outcome, attempts, waits and the backoff it leaves |
| Retrier.OutcomeMeaning | internal/retrier/retrier.go:43-50 | success means the last attempt had no error, failure returns its error, and all earlier attempts failed with retryable ones |
| Retrier.OutcomeAt | internal/retrier/retrier.go:43-50 | outcome and number of attempts, read off the first round that is not followed by another, for every sequence of errors and cancellations |
| Retrier.SentinelEndsCall | internal/retrier/retrier.go:45-47 | a bare listed error ends the call at once and is returned |
| Retrier.BudgetIsShared | internal/retrier/retrier.go:37-52 | all calls through one wrapper together make at most maxRetries retries and consume one sequence of waits |
| Retrier.TotalWait | vendor/github.com/sethvargo/go-retry/backoff_fibonacci.go:42-56 | n retries wait exactly base times F(n+3) - 2 |
| Retrier.ServerWaitsSixSeconds | internal/server/server.go:399 | with 3 retries of 1 s a wrapper waits at most 6 s of its 30 s, over all calls |
| Retrier.NextWait | vendor/github.com/sethvargo/go-retry/backoff_fibonacci.go:42-56 | a wait is the sum of the two before it, and the largest int64 once that does not fit |
| Retrier.OneTwoThree | internal/server/server.go:399 | the server's waits are one, two and three seconds, and there is no fourth |
| RetriedBatch.UseRetrierWMB | internal/retrier/retrier.go:55-70 | the retry loop over a changing table: outcome, attempts, and the table those attempts leave |
| RetriedBatch.UseRetrierWM | internal/retrier/retrier.go:37-52 | the same for a single write, where a refused argument ends the call at the first attempt and changes nothing |
| RetriedBatch.UseRetrierGetMetric | internal/retrier/retrier.go:111-128 | a retried read: the outcome of its rounds, and on success the value in the table |
| RetriedBatch.ReadSucceedsIff | internal/retrier/retrier.go:111-128 | a retried read succeeds if and only if there is a value to read and one of its attempts gets through, those before it having met a broken connection and no cancellation |
| RetriedBatch.ReadEnds | internal/retrier/retrier.go:111-128 | the first attempt that gets through decides: a value ends the read with success, a missing row with its error |
| RetriedBatch.GaugeReads | internal/storage/pgdb.go:201-209 | after any transaction on the empty table a gauge reads as its last write, a missing row if its id was never written, and an error if the id has been a counter only |
| RetriedBatch.CounterReads | internal/storage/pgdb.go:210-220 | a counter reads as the sum of its deltas if its id was a counter first, otherwise it is an error or missing |
| RetriedBatch.AppliedExactly | internal/retrier/retrier.go:55-70 | at most maxRetries + 1 attempts; the batch is applied once on success and not at all otherwise, and once more for every commit reported as a failure |
| RetriedBatch.AllOrNothing | internal/retrier/retrier.go:55-70 | if every failed transaction leaves the table alone, success means exactly once and any other outcome not at all |
| RetriedBatch.SucceedsIff | internal/retrier/retrier.go:55-70 | it succeeds if and only if one of its attempts does, within the budget and before any cancellation |
| RetriedBatch.StoredIff | internal/retrier/retrier.go:55-70 | without unseen commits it succeeds if and only if ids and sums fit and some attempt within the budget meets no failure, nothing being cancelled before |
| RetriedBatch.CanSucceedIff | internal/storage/pgdb.go:20-29 | a batch can be stored at all if and only if its ids fit into 64 characters and every sum on the way into a bigint |
| RetriedBatch.GaugesIdempotent | internal/storage/pgdb.go:97-103 | repeated gauge writes succeed and change nothing |
| RetriedBatch.UnseenDoNoHarm | internal/storage/pgdb.go:97-103 | a retried batch whose sums cancel, gauges in particular, ends as if applied once, however many commits went unseen |
| TableLaws.GoesThroughIff | internal/storage/pgdb.go:120-152 | a transaction goes through if and only if every id fits and so does every running sum of a counter row |
| TableLaws.RowAfter | internal/storage/pgdb.go:27-29 | the row a transaction leaves at any id: type of the first write, sum of all deltas or NULL, last gauge |
| TableLaws.RepeatOnTableIff | internal/storage/pgdb.go:120-152 | a committed batch stored once more changes nothing if and only if its deltas cancel for every counter the table then holds |
| Transport.EncodeProto | internal/agentwithgrpc/agentwgrpc.go:35-69 | the loop with its skipped entries, and zero for the field a message does not set |
| Transport.DecodeRequest | internal/server/server_grpc.go:60-67 | every message becomes an entry with both pointers set |
| Transport.MessageIff | internal/agentwithgrpc/agentwgrpc.go:41-64 | which message an entry is sent as, field by field: its type needs its number, and the other number is zero |
| Transport.DecodedAt | internal/server/server_grpc.go:60-67 | one entry per message, in order, with its four fields |
| Transport.UpdatesPreserved | internal/server/server_grpc.go:60-68 | sent and decoded, a batch asks for exactly the same updates, nil fields, empty ids and unknown types included |
| Transport.TransportPreservesMeaning | internal/server/server_grpc.go:60-68 | every in-memory store and every table end up the same as without the transport |
| Transport.SendToMemory | internal/server/server_grpc.go:31-74 | the handler over the in-memory store: answer and new contents, and OK with nothing stored once the server's context is done |
| Transport.SendToDatabase | internal/server/server_grpc.go:68-73 | over Postgres the answer is OK whatever the retried batch left in the table |
| Transport.SomeBatchIsNeverStored | internal/server/server_grpc.go:68-73 | a counter at the top of int64 makes a batch that no retry can store and that is answered OK |
| Server.UpdateMetrics | internal/server/server.go:50-94 | over the in-memory store: a value that parses is added to, or replaces, the one stored and the answer is 200; a wrong content type, metric type or value is 400, a stopping server 500, and nothing changes |
| Server.UpdateMetricsInDatabase | internal/server/server.go:50-94 | over Postgres, through the retrier: 200 if and only if the retried write succeeded, and 500 with an untouched table for what the database refuses |
| Server.GetMetrics | internal/server/server.go:97-126 | over the in-memory store: the text of the stored value and a newline with 200, 404 for a missing name or a cancelled read, 400 for an unknown type |
| Server.GetMetricsFromDatabase | internal/server/server.go:97-126 | over Postgres, through the retrier: the text of the value in the table, or not found for a missing row, a NULL column, a broken connection and cancellation alike |
| Server.TextCounterPath | internal/server/server.go:75-120 | any texts posted to a fresh counter: GET gives the canonical decimal of the wrapped sum of those that parse |
| Server.UpdateBatchMetricsJSON | internal/server/server.go:245-275 | over Postgres any encoded batch posted as application/json is answered 200 if and only if its retried transaction succeeded, and 500 otherwise; any other content type is 400; unless a commit goes unseen the table then has the whole batch once, and is untouched after any other answer |
| Server.UpdateBatchInMemory | internal/server/server.go:245-275 | in memory any encoded batch posted as application/json is stored whole, once, and echoed with 200, or with 500 not at all when the server is stopping; any other content type is 400 |
| Encoding.HexInverse | internal/cryptandsign/cryptandsign.go:94-124 | hex decoding undoes hex encoding |
| Encoding.HexDecodesIff | internal/cryptandsign/cryptandsign.go:94 | hex text decodes if and only if its length is even and every character is a hex digit of either case |
| Encoding.HexEncodeAt | internal/cryptandsign/cryptandsign.go:124 | every octet is written as two lower-case digits, the high half first |
| Encoding.Base64Inverse | internal/cryptandsign/asymcryptdecrypt.go:95-121 | base64 decoding undoes base64 encoding, padding included |
| Encoding.Base64DecodesIff | internal/cryptandsign/asymcryptdecrypt.go:121 | a body decodes if and only if it is well padded once its line ends are taken out |
| Encoding.Utf8Inverse | internal/agent/agent.go:137-138 | the text of a payload survives as octets |
| Encoding.Utf8DecodesIff | internal/agent/agent.go:137-138 | octets decode to a string if and only if they are its UTF-8 form |
| Oaep.EncryptBlock | internal/cryptandsign/asymcryptdecrypt.go:42-45 | a block fails if and only if the message is longer than k - 2hLen - 2, and has k octets otherwise |
| Oaep.MessageInverse | internal/cryptandsign/asymcryptdecrypt.go:65-68 | step 3 of section 7.1.2 of RFC 8017 undoes step 2 of section 7.1.1 |
| Oaep.EncodingUnmasks | internal/cryptandsign/asymcryptdecrypt.go:42 | the encoded message is a zero octet and two masked fields, behind whose masks are the seed and the label hash, zeros, a one and the message |
| Oaep.DecodesIff | internal/cryptandsign/asymcryptdecrypt.go:65-68 | the decoding accepts exactly the encodings: it gives a message if and only if the octets are that message's encoding under some seed |
| Oaep.DecryptsBlockIff | internal/cryptandsign/asymcryptdecrypt.go:65-68 | a block decrypts to a message if and only if it is no longer than the key, below the modulus, and its private power is an encoding of it |
| Oaep.BlockInverse | internal/cryptandsign/asymcryptdecrypt.go:42-68 | decrypting an encrypted block gives the message, for every seed |
| ByPart.EncryptOAEPbyPart | internal/cryptandsign/asymcryptdecrypt.go:31-51 | for every key, the loop with stride k - 2hLen - 2: the joined blocks, an error, or a slice out of range |
| ByPart.DecryptOAEPbyPart | internal/cryptandsign/asymcryptdecrypt.go:54-74 | the loop with stride k ends and joins the decrypted blocks, on any input |
| ByPart.BlocksIsCeiling | internal/cryptandsign/asymcryptdecrypt.go:36-40 | the number of rounds is the length divided by the stride, rounded up |
| ByPart.CiphertextLength | internal/cryptandsign/asymcryptdecrypt.go:31-51 | with a positive stride encryption fails only for want of random octets, and yields k octets per round |
| ByPart.DecryptsIff | internal/cryptandsign/asymcryptdecrypt.go:54-74 | decryption by part succeeds if and only if every block, cut off every k octets, decrypts by itself |
| ByPart.EncryptsIff | internal/cryptandsign/asymcryptdecrypt.go:31-51 | a message is encrypted if and only if it is empty, or the stride is positive and the random source lasts |
| ByPart.PartsInverse | internal/cryptandsign/asymcryptdecrypt.go:31-74 | decryption by part undoes encryption by part for every message, key length and random stream |
| ByPart.TurnsEndAt | internal/cryptandsign/asymcryptdecrypt.go:36-48 | round by round the loop can end only with the function's result |
| ByPart.LoopEndsIff | internal/cryptandsign/asymcryptdecrypt.go:33-50 | the loop, run round by round on its own state, can complete with some random stream if and only if the stride is positive or there is nothing to encrypt |
| ByPart.StandsStill | internal/cryptandsign/asymcryptdecrypt.go:36-48 | with stride zero every round adds k octets and leaves the loop where it was, for as long as the random source delivers |
| Pipeline.Request.SignNew | internal/cryptandsign/cryptandsign.go:115-128 | the request's body and signature header after signing |
| Pipeline.Request.Send | internal/cryptandsign/asymcryptdecrypt.go:77-100 | the request the agent sends, encrypted first and then signed; unchanged when the payload cannot be encrypted |
| Pipeline.Request.Receive | internal/cryptandsign/cryptandsign.go:66-112 | the server's layers on any request: which body reaches the handler, or why it is refused |
| Pipeline.ReceivedIff | internal/cryptandsign/cryptandsign.go:84-112 | any request: delivered if and only if the check is not made or the header is the HMAC in hex, and the body, if there is a key, is base64 of blocks that decrypt; which of the four reasons it is refused for otherwise |
| Pipeline.DeliveredIs | internal/cryptandsign/asymcryptdecrypt.go:103-138 | the handler then finds the plain body, and a signing writer whose hash has taken the signed body, or nothing if there was no header |
| Pipeline.SendingSucceedsIff | internal/cryptandsign/asymcryptdecrypt.go:90-93 | sending succeeds if and only if there is nothing to encrypt, or the key has room and the random source lasts for every block |
| Pipeline.PipelineExact | internal/cryptandsign/cryptandsign.go:66-128 | with one key pair the handler gets exactly the payload if and only if a party does not sign or the signatures agree; otherwise the answer is a sign error |
| Pipeline.AlteredBodyIff | internal/cryptandsign/cryptandsign.go:84-109 | under a signature the agent sent, another body is refused as wrongly signed if and only if its HMAC differs |
| EndToEnd.ReportArrives | internal/agent/agent.go:64 | through JSON, encryption and signing, the server's store moves as by the agent's own batch |
| SignWriter.AtMostOneToken | internal/cryptandsign/cryptandsign.go:40-58 | in every reachable state at most one token is live, exactly while a Write waits |
| SignWriter.InnerWriterSeesTriples | internal/cryptandsign/cryptandsign.go:40-58 | the inner writer sees one triple per Write: the HMAC of verified body and all writes so far, a header with an issued code, the write |
| SignWriter.RunsAreFinite | internal/cryptandsign/cryptandsign.go:40-58 | n steps of any interleaving bring the end exactly n steps nearer |
| SignWriter.Progress | internal/cryptandsign/cryptandsign.go:40-58 | with a WriteHeader for every Write some step is always possible until the handler is done |
| SignWriter.UnbalancedNeverFinishes | internal/cryptandsign/cryptandsign.go:44-45 | a prefix with too few WriteHeader calls means that no interleaving finishes the handler |
| SignWriter.FinishesIffBalanced | internal/cryptandsign/cryptandsign.go:40-58 | all interleavings finish the handler if and only if every prefix has at least as many WriteHeader as Write calls |
| SignWriter.LeftoverHelpers | internal/cryptandsign/cryptandsign.go:51-58 | one goroutine stays blocked for every WriteHeader beyond the Writes |
| SignWriter.ServerTraces | internal/server/server.go:91-92 | a handler's usual trace is safe, an error after a header too, a Write with no header is not |
| AgentReport.Sensors.UpdateMetrics | internal/agent/agent.go:119-130 | a poll adds one to the counter, wrapping, and replaces the random value |
| AgentReport.Sensors.UpdateSysKernMetrics | internal/agent/agent.go:143-155 | memory values replaced, and the processors that were reported; the others keep theirs, and more of them than counted panic |
| AgentReport.Sensors.Run | internal/agent/agent.go:295-318 | any readings of the two pollers: the counter moves by the runtime readings, unless one panics |
| AgentReport.ReportSlice.ParseRtm | internal/agent/agent.go:158-182 | the slice gains an entry per readable sensor, then PollCount and RandomValue |
| AgentReport.ReportSlice.ParseKernMetrics | internal/agent/agent.go:185-198 | the slice gains the two memory entries and one per processor, numbered from zero |
| AgentReport.ReportSlice.TakePayload | internal/agent/agent.go:321-341 | one pass of the report loop with any readings between its two parses: runtime values and polls from before them, kernel values from after; the slice is emptied whether encoding succeeds or not |
| AgentReport.ReportMovesPollCount | internal/agent/agent.go:175-181 | storing a report moves PollCount by the polls it was parsed with, and no other counter |
| AgentReport.ReportSetsGauges | internal/agent/agent.go:158-198 | a stored report leaves the random value, both memory values and every processor at what was read |
| AgentReport.RuntimeEntryIff | internal/agent/agent.go:158-182 | the runtime entries are exactly the listed sensors that can be read, each a gauge with its reading |
| AgentReport.CpuEntryAt | internal/agent/agent.go:194-197 | one gauge per processor, named by its number in decimal |
| AgentReport.CpuNamesDistinct | internal/agent/agent.go:196 | no two processors share a name |
| AgentProtocol.PollsConserved | internal/agent/agent.go:118-369 | in every reachable state: polls taken = acknowledged + still counted + overtaken by an acknowledged reset + dropped at shutdown, none dropped before cancellation; overtaken polls are counted as they happen |
| AgentProtocol.LostIsCounted | internal/agent/agent.go:320-361 | the lost polls are a function of the step sequence alone: at every acknowledged reset, the polls since the parse |
| AgentProtocol.NothingLostIff | internal/agent/agent.go:320-361 | a run loses no poll if and only if no poll stands between a parse and the reset of its acknowledged report |
| AgentProtocol.ServerTotal | internal/agent/agent.go:320-369 | at the top of an iteration the server's counter, fed by the payloads alone, is its start plus acknowledged, less answered without storing, plus what failed attempts and unseen commits left, modulo 2^64 |
| AgentProtocol.ServerHasAcknowledged | internal/server/server.go:263-269 | over HTTP and without overflow the server has at least the acknowledged polls, and exactly those if and only if failed attempts and unseen commits left nothing; over gRPC it falls behind exactly when more went unstored |
| AgentProtocol.EveryPollCounted | internal/agent/agent.go:320-369 | the server's and the agent's counters together hold every poll but the overtaken and unstored ones, and what was stored beside the answers once more |
| AgentProtocol.SingleJob | internal/agent/agent.go:214-366 | queued jobs, jobs in the three workers' hands and unread results are at most one together, and none at the top, cancellation included |
| AgentProtocol.PayloadNotRewritten | internal/agent/agent.go:132-140 | while a job is out no step changes the shared payload, which holds the polls of its own report |
| AgentProtocol.NeverStuck | internal/agent/agent.go:214-369 | after the first polls some step of the agent is possible until it stops, for every channel capacity |
| AgentProtocol.ReportsAwaitPolls | internal/agent/agent.go:320-341 | in every run the parse waits for a first poll and the payload for a first kernel poll, and only an HTTP payload can fail to encode |
| AgentProtocol.CancelledIff | internal/agent/agent.go:343-366 | the context is done in exactly those runs that took the step that cancels it |
| AgentProtocol.SelectsGiveWayIff | internal/agent/agent.go:343-356 | both selects of the report loop can be left without the channel if and only if the run was cancelled |
| AgentProtocol.CheckStopsIff | internal/agent/agent.go:363-366 | the check behind the reset stops the agent if and only if the run was cancelled, and otherwise leads back to the top |
| AgentProtocol.WorkerExitsIff | internal/agent/agent.go:214-228 | a worker that has sent its job exits if and only if the run was cancelled, and otherwise reports its result |
| AgentProtocol.StoppedForGood | internal/agent/agent.go:363-366 | nothing moves a stopped agent |
| AgentProtocol.StopsWithoutAnswer | internal/agent/agent.go:350-366 | a run cancelled while a report is out: the agent stops, and its poll is dropped unacknowledged |
| AgentProtocol.FailedReportIsKept | internal/agent/agent.go:350-356 | a run in which every attempt fails: back at the top the poll is still counted |
| AgentProtocol.UnencodedReportIsKept | internal/agent/agent.go:338-341 | a run in which the report cannot be encoded: it is dropped and the poll is still counted |
| AgentProtocol.ReportsEnd | internal/agent/agent.go:320-369 | between two parses the agent takes at most attempts + 9 steps |
| AgentProtocol.GrpcLosesAcknowledged | internal/server/server_grpc.go:68-73 | a run over gRPC that acknowledges a poll the server never stored |
| AgentProtocol.PollOvertaken | internal/agent/agent.go:358-361 | a run without failures that loses a poll between parse and reset |
| OsExit.Checker.Inspect | cmd/staticlint/main.go:141-152 | the recursive walk with its flag does what visiting the preorder does |
| OsExit.PartsInOrder | cmd/staticlint/main.go:141-152 | all nodes of a part are visited before those of a part further right |
| OsExit.CheckerExamples | cmd/staticlint/main.go:137-157 | of two in main the left one is reported; one behind main is, one before it is not, nor any in another package |
| OsExit.OneSelector | cmd/staticlint/main.go:142-149 | a selector in a function, for any three names: reported if and only if it is os.Exit in main |
| OsExit.OsExitChecker | cmd/staticlint/main.go:137-157 | only the first file of package main is walked, and its reports are returned |
| OsExit.CheckerReports | cmd/staticlint/main.go:137-157 | reported are exactly the os.Exit selectors with a main declaration before them and no other such selector in between, in order |
| OsExit.ReportsSeparated | cmd/staticlint/main.go:142-149 | a main declaration stands between any two reports |
| OsExit.AtMostOneEach | cmd/staticlint/main.go:142-149 | there are no more reports than main declarations |
| OsExit.SilentIff | cmd/staticlint/main.go:141-152 | the checker is silent if and only if no os.Exit selector follows a main declaration |
| OsExit.ExitInMainIsReported | cmd/staticlint/main.go:141-152 | a main declaration that contains an os.Exit selector gets one reported inside it |
| OsExit.RightIff | cmd/staticlint/main.go:138-147 | with one main declaration the checker speaks up for exactly the right files, except when main has no os.Exit and later code has one |
| OsExit.PackageReports | cmd/staticlint/main.go:137-157 | the reports for a package are those of its first file of package main, and none without one |
| OsExit.UnreportedIff | cmd/staticlint/main.go:137-157 | an os.Exit selector after a main declaration stays unreported if and only if its file comes behind another of package main, or another such selector precedes it since the last main declaration |

## Left out

- ByPart.EncryptOAEPbyPart: the random source is a finite stream, so where the Go loop would run for ever on an endless one it fails here when the stream runs dry; LoopEndsIff and StandsStill say what happens while it lasts.
- Postgres.PgDB.WriteBatchMetrics: a commit is reported as a failure by one kind of fault; which errors of the driver leave that open is not modelled.
- Json.ParsePrint: strings are sequences of Unicode scalar values, so Go's replacement of invalid UTF-8 does not show, and the decoder's nesting limit of 10000 is not modelled; a metric nests one level.
- MetricJson.BatchRoundTrip: the text of a float is a hypothesis, its digits are not computed.
- AgentReport.ReportSlice.TakePayload: the runtime's memory statistics enter as one reading function; a poll inside the first parse is held off by its lock, as in the Go code.
- AgentProtocol.ServerTotal: the server is one counter; that a report's batch moves the stored PollCount by exactly the delta of its payload is AgentReport.ReportMovesPollCount. A failed attempt is stored late at most once, besides any commits the server itself took for failures.
- AgentProtocol.NeverStuck: the panic of the kernel poller, which ends the process, is not a step.
- AgentProtocol.PayloadNotRewritten: over gRPC each report has a message of its own, which the model treats as the one shared payload; the lemma shows that this makes no difference.
- Server.UpdateMetrics: error texts are in the model, but only the status of an error answer is stated.
- Pipeline.PipelineExact: nothing is said about forging an HMAC or about secrecy.
- Postgres as an engine: overlapping transactions, collations other than bytewise, trailing blanks beyond 64 characters, NUL characters in ids, and the connection pool.
- Crashes in the middle of writing a snapshot, and file system errors.
- HTTP, gRPC, TLS and PEM handling, resty, routing, compression, and the RSA, SHA-256 and gzip computations.
- Wall-clock time: intervals are absent, and cancellation and the 30-second limits are steps that may happen at any point; only the sum of waits is computed.
- The subnet filter, which enters the gRPC handler as one boolean.
- The JSON handlers for a single metric, the ping and HTML handlers, which repeat the batch and text paths without a new property.
- UseRetrierPopDB and UseRetrierGetAllM: their loop is the one of UseRetrierGetMetric.
- Flags, environment, configuration files, logging, version output, key generation, mocks and the lists of third-party analyzers.
