# A verified model of reth-remote-exex

reth-remote-exex pushes what an Ethereum node has executed to remote subscribers, and ships Go
programs that check and measure the stream. This project models its five cores in Dafny and proves
what they are for:

- **Comparison** (`examples/go-trace-verifier/compare.go`): two call trees, one of raw bytes and one
  of hexadecimal text, are compared node by node through five normalisers. It is proved to be a
  decision procedure: exactly the differing places are reported, in the order of the walk, each
  under a text that can be read back and with the values of both sides.
- **Pipeline** (`examples/go-trace-verifier/main.go`): a producer, W workers, a closer and a
  collector over two bounded channels. Every interleaving is proved to give the answer of a
  sequential fold, without panic, deadlock or endless run.
- **Fan-out** (`src/exex.rs`): a lossy broadcast ring of 16, a forwarder per client and a bounded
  channel of 16 per client. What each client gets, what it loses and when it cannot lose anything
  is accounted for exactly.
- **Conversion** (`src/convert.rs`): transactions, state diffs and call frames become messages.
  Readers recover all that survives, and accept nothing that the conversion does not make.
- **Matching** (`examples/go-internal-txs-bench/main.go`): block arrivals from two sources are
  joined, with timeouts. Every run of deliveries is proved to give the join.

`System.ExitCodeIsTheTruth` puts the first four together: what the node executed is converted,
broadcast, possibly lost, read, distributed over workers and compared; the exit code is 0 exactly
when every block that was read and is to be verified was answered, and the answer reads as the
traces that were broadcast. Nothing is assumed of the answers.

## How the model is organised

| file | what it holds |
|---|---|
| `Basics.dfy`, `Hex.dfy`, `Decimal.dfy` | options, bytes, fixed-width integers; base 16 and base 10 text |
| `Frames.dfy`, `Normalize.dfy` | the two kinds of frames; the five normalisers and when two texts agree |
| `Locations.dfy`, `Diff.dfy`, `Order.dfy`, `Counts.dfy`, `Compare.dfy`, `Sides.dfy` | the grammar of error paths; the diff and what it means; its order; the counters; the loops of `compare.go`; what a printed line shows |
| `Work.dfy`, `Pipeline.dfy` | the sequential meaning of the verifier and its loops; its goroutines as interleaved steps |
| `Reth.dfy`, `Proto.dfy` | what the conversion reads and what it writes |
| `ConvertTx.dfy`, `ConvertState.dfy`, `ConvertTrace.dfy`, `ConvertChain.dfy`, `ReadBack.dfy` | the conversion, readers for its messages, and projections by subscription flags |
| `FanOut.dfy`, `Server.dfy`, `Ring.dfy`, `Loss.dfy`, `Loops.dfy`, `Delivery.dfy` | one client's account; whole runs of the server; the same with sixteen slots instead of a history; the bounds on loss; the two loops of `exex.rs` as classes; what a client learns of the stream |
| `EndToEnd.dfy`, `ReadRpc.dfy`, `System.dfy` | conversion composed with comparison; a reader for any JSON-RPC answer; the whole repository |
| `Matching.dfy`, `MatchLoop.dfy`, `Stats.dfy` | the matcher as a function of its events; its select loop over a mutable map; the summary |

Code that changes state is modelled by methods and classes (`Compare`, `Work`, `Loops`,
`MatchLoop`, `Stats`), each proved to compute a function or to make the steps of a state machine
about which the properties are then proved.
Goroutines and tasks are modelled as steps of a state machine, so that a property of all runs is a
property of all interleavings. `dafny verify dfyconfig.toml` checks everything.

A statement `hide F;` at the head of a proof only keeps the solver from unfolding `F`.

## What turned out not to hold as one might expect

- `normalizeHexStr` is idempotent on every text but `0X`, which becomes `0x` and then the empty
  text (`Normalize.NormalizeHexStrIdempotent`).
- `normalizeU256rpc` does not lower-case its input: a quantity with an upper-case digit never
  agrees with any bytes (`Normalize.QuantityAgreement`).
- A transaction comes back from its message exactly when every EIP-7702 authorization in it has
  parity 0 or 1 (`ConvertTx.TxRecoveredIff`).
- The verifier exits with 0 when the stream ends before n blocks, even on an empty stream
  (`Pipeline.EmptyStreamExitsZero`); exit code 0 after n blocks says that the stream had as many
  and that each was fetched and matched (`Pipeline.AllCountedIff`).
- The matcher's marker for "not arrived" is the time 0. An entry can end with neither side set,
  even if every first arrival has another time (`Matching.RepeatAtZeroLosesTheSide`). Every
  pending entry has exactly one side set throughout a run if and only if no arrival that finds the
  other side missing has the time 0 (`Matching.OneSidedThroughoutIff`). The counters balance
  whatever the times are (`Matching.BooksBalance`).
- The gas recorded for a root frame never reaches a message (`ConvertTrace.RootGasIsReplaced`).
- The printed average is the average, rounded toward zero, if and only if the sum of the
  differences fits in 64 bits (`Stats.AverageExactIff`, `Stats.AverageCanOverflow`).
- Where `docs/design/go-trace-verifier-design.md` and the code differ, the code is modelled: the
  design lets the collector count n results and then cancel, while the code ranges over the result
  channel until it is closed, and counts frames and logs during the comparison.

## Model

| member | source | states |
|---|---|---|
| `Basics.BigEndianRoundTrip` | src/convert.rs:26-40 | a number that fits in w bytes is the value of its w big-endian bytes, for every width |
| `Basics.BigEndianBytes` | src/convert.rs:26-40 | bytes are the encoding, in as many bytes, of the number they denote |
| `Basics.BigEndianConcat` | src/convert.rs:26-40 | the bytes that come first weigh more, by 256 for each byte after them |
| `Basics.IntegersExact` | src/convert.rs:26-40 | bytes that read as a fixed-width number are the encoding of that number |
| `Basics.IntegersRoundTrip` | src/convert.rs:26-40 | the 8, 16 and 32 byte encodings can be read back for every value |
| `Hex.LowerEncodes` | examples/go-trace-verifier/compare.go:153-165 | a text lower-cases to the encoding of some bytes exactly when it decodes, in either letter case, to them |
| `Hex.EncodeIsLowerHex` | examples/go-trace-verifier/compare.go:153-158 | encoding gives two lower-case digits a byte, is fixed by lower-casing and is undone by decoding |
| `Hex.ToLowerMeans` | examples/go-trace-verifier/compare.go:160-165 | lower-casing turns each capital into its own small letter and changes nothing else |
| `Hex.EncodeValue` | examples/go-trace-verifier/compare.go:124-136 | the base 16 value of encoded bytes is their big-endian value |
| `Hex.TrimKeepsValue` | examples/go-trace-verifier/compare.go:124-151 | removing leading zeros keeps the value |
| `Hex.MinimalUnique` | examples/go-trace-verifier/compare.go:124-151 | two lower-case digit texts without leading zero and of equal value are the same text |
| `Hex.TrimCanonical` | examples/go-trace-verifier/compare.go:124-151 | trimmed lower-case texts are equal exactly when the values are |
| `Normalize.BytesAgreement` | examples/go-trace-verifier/compare.go:117-165 | bytes and text normalise alike exactly when both are empty (text empty or bare prefix) or the text is a prefixed hex string of either case decoding to the bytes; the same for addresses |
| `Normalize.QuantityAgreement` | examples/go-trace-verifier/compare.go:124-151 | amounts normalise alike exactly when both are absent, or the text is 0x and lower-case digits whose value is the big-endian value of the bytes, whatever the leading zeros |
| `Normalize.NormalizeBytesInjective` | examples/go-trace-verifier/compare.go:153-158 | different bytes never normalise alike |
| `Normalize.NormalizeHexStrIdempotent` | examples/go-trace-verifier/compare.go:160-165 | normalising twice changes nothing, if and only if the text is not 0X |
| `Normalize.NormalizeU256RpcIdempotent` | examples/go-trace-verifier/compare.go:138-151 | normalising a quantity twice changes nothing |
| `Normalize.GrpcTextDenotes` | examples/go-trace-verifier/compare.go:117-158 | the text made of bytes or an amount is one that JSON-RPC may write for just these |
| `Normalize.RpcDataDenotesIff` | examples/go-trace-verifier/compare.go:160-165 | normalising an answer's data keeps what it denotes, if and only if it is not 0X |
| `Normalize.RpcAmountDenotes` | examples/go-trace-verifier/compare.go:138-151 | normalising an answer's amount keeps what it denotes |
| `Normalize.RpcDataKeepsText` | examples/go-trace-verifier/compare.go:160-165 | any text of an answer but the two empty ones is printed letter by letter in lower case |
| `Normalize.RpcAmountKeepsText` | examples/go-trace-verifier/compare.go:138-151 | of an amount's text only leading zeros after the prefix are dropped, and all texts without the prefix are kept |
| `Decimal.PrintInjective` | examples/go-trace-verifier/compare.go:44-46 | two counts print alike exactly when they are equal |
| `Decimal.ReadPrinted` | examples/go-trace-verifier/compare.go:49 | a printed index followed by a bracket reads back as that index, whatever follows |
| `Locations.SuffixRoundTrip` | examples/go-trace-verifier/compare.go:28-60 | the path below a root, through any depth of calls and logs, reads back as the same path |
| `Locations.BlockTextRoundTrip` | examples/go-trace-verifier/compare.go:15-60 | a location text decodes to exactly one transaction index, call path, log index and field |
| `Locations.BlockTextNoColon` | examples/go-trace-verifier/compare.go:28-60 | no location text contains a colon, so it ends at the first one of its line |
| `Diff.FieldTextsAgree` | examples/go-trace-verifier/compare.go:28-44 | the two texts compared for a field differ exactly when the field's values do |
| `Diff.LogTextsAgree` | examples/go-trace-verifier/compare.go:72-111 | the same for the fields of a log, with absent positions and indices told from present ones |
| `Diff.LogDiffsReport` | examples/go-trace-verifier/compare.go:69-115 | the comparison of two logs reports a place exactly when they differ there |
| `Diff.FrameDiffsReport` | examples/go-trace-verifier/compare.go:25-67 | the comparison of two frames reports a place at any depth exactly when they differ there |
| `Diff.BlockDiffsReport` | examples/go-trace-verifier/compare.go:11-23 | the same for two blocks |
| `Order.BlockDiffsInOrder` | examples/go-trace-verifier/compare.go:11-115 | mismatches come in the order of the walk: by transaction, scalar fields in their order, child calls, logs, and so on down |
| `Order.BlockDiffsDistinct` | examples/go-trace-verifier/compare.go:11-115 | no place is reported twice |
| `Diff.MatchHidesNothing` | examples/go-trace-verifier/compare.go:25-67 | matching frames differ at no place |
| `Diff.MismatchIsSomewhere` | examples/go-trace-verifier/compare.go:25-67 | frames that do not match differ at some place, which is found |
| `Diff.FrameDiffsSoundAndComplete` | examples/go-trace-verifier/compare.go:25-67 | the comparison of two frames is silent exactly when the recursive match relation holds |
| `Diff.BlockDiffsSoundAndComplete` | examples/go-trace-verifier/compare.go:11-23 | the same for two blocks |
| `Counts.FrameTotals` | examples/go-trace-verifier/compare.go:25-67 | the counters never exceed the node and log totals of either tree, and equal all of them exactly when the list lengths agree at every node |
| `Counts.BlockTotals` | examples/go-trace-verifier/compare.go:11-23 | the same for blocks |
| `Counts.SilentBlockCountedCompletely` | examples/go-trace-verifier/compare.go:11-23 | a block without mismatch has all frames and logs of both sides counted |
| `Counts.BlockCountsCommonParts` | examples/go-trace-verifier/compare.go:11-67 | for any two blocks the counters are the node and log totals of the part that a walk reaches if it stops where list lengths differ |
| `Compare.Check` | examples/go-trace-verifier/compare.go:28-33 | the closure extends the lines by those of one more field of the specification |
| `Compare.CheckOptional` | examples/go-trace-verifier/compare.go:91-111 | a line is added exactly when the optional numbers differ, an absent side being printed as such |
| `Compare.CompareLog` | examples/go-trace-verifier/compare.go:69-115 | the method returns the lines of the specified differences of two logs, in order |
| `Compare.CompareFrame` | examples/go-trace-verifier/compare.go:25-67 | the method returns the lines of the specified differences of two frames and the specified counters |
| `Compare.CompareBlock` | examples/go-trace-verifier/compare.go:11-23 | the same for two blocks |
| `Compare.LinePlace` | examples/go-trace-verifier/compare.go:28-33 | the place of a printed line can be read back from the line |
| `Compare.LinesLocateDifferences` | examples/go-trace-verifier/compare.go:11-115 | every line names a place of difference, every difference is named by a line, and no two lines carry the same location text or name the same place |
| `Sides.LineReads` | examples/go-trace-verifier/compare.go:28-33 | from a line and the length of its first text, place and both texts are recovered |
| `Sides.FieldTextsShow` | examples/go-trace-verifier/compare.go:35-60 | of the two texts of a field the first shows the gRPC side's value and the second the answer's |
| `Sides.LogTextsShow` | examples/go-trace-verifier/compare.go:72-111 | the same for the fields of a log, with a number shown as absent, present or by itself |
| `Sides.OptionalTextShows` | examples/go-trace-verifier/compare.go:91-111 | a position or index is shown as absent, or as its number, marked as present exactly when the other side is absent |
| `Sides.LinesShowBothSides` | examples/go-trace-verifier/compare.go:11-115 | every line shows, after grpc=, the value found on the gRPC side at the place that it names, and after rpc= the one found there in the answer |
| `Work.StreamLoop` | examples/go-trace-verifier/main.go:149-187 | what is sent are the first n non-empty block traces of the committed notifications, in order, or all of them if there are fewer |
| `Work.ProcessOne` | examples/go-trace-verifier/main.go:190-210 | the result of a unit of work is the specified one, fetch failures included |
| `Work.ResultMeans` | examples/go-trace-verifier/main.go:193-208 | a result carries its unit's number; a failed fetch has no lines and counts nothing; an answered unit counts its transactions and the common frames and logs, and its lines name exactly the places of difference, each once |
| `Work.SumMeans` | examples/go-trace-verifier/main.go:89-97 | the totals of any results: units, answered transactions, common frames and logs, the number of all places of difference, and failure exactly if there is one or a fetch failed |
| `Work.Collect` | examples/go-trace-verifier/main.go:80-97 | the six accumulators hold the fold of the results |
| `Work.SumOfPermutation` | examples/go-trace-verifier/main.go:89-97 | the same results in any order give the same totals |
| `Work.FailedMeansSome` | examples/go-trace-verifier/main.go:95-97 | the run has failed exactly when some result has an error or a mismatch, and every result is counted |
| `Work.VerifiedMeansCounted` | examples/go-trace-verifier/main.go:89-119 | when every block is verified, the summary counts every block, transaction, frame and log of the stream |
| `Work.ExitZeroMeansVerified` | examples/go-trace-verifier/main.go:95-123 | exit code 0 exactly when every block was fetched and matched, and 1 otherwise |
| `Pipeline.StepKeepsInv` | examples/go-trace-verifier/main.go:64-126 | every step of every goroutine keeps the invariant: channel bounds, closing order, the producer's position, conservation of results |
| `Pipeline.RunKeepsInv` | examples/go-trace-verifier/main.go:64-126 | every state of every run satisfies it |
| `Pipeline.NeverPanics` | examples/go-trace-verifier/main.go:74-78 | no send on a closed channel and no second close ever; at most n blocks are sent; sent = queued + in flight + in the result queue + collected |
| `Pipeline.ClosedOnce` | examples/go-trace-verifier/main.go:74-126 | each channel is closed at most once in a run |
| `Pipeline.NoDeadlock` | examples/go-trace-verifier/main.go:64-126 | until the collector has finished some goroutine can move, and which one is computed |
| `Pipeline.SendsWaitWhenFull` | examples/go-trace-verifier/main.go:64-65 | the work channel holds 32 units and the result channel two for each worker, and a send waits exactly when its channel is full |
| `Pipeline.StepDecreases` | examples/go-trace-verifier/main.go:149-210 | every step decreases the number of steps that can follow |
| `Pipeline.RunsAreBounded` | examples/go-trace-verifier/main.go:149-210 | every run is at most as long as the stream and the number of workers allow |
| `Pipeline.FinishedMeansAll` | examples/go-trace-verifier/main.go:80-123 | a finished collector has collected the sequential results as a multiset, with the sequential totals and exit code |
| `Pipeline.EveryRunRefinesSequential` | examples/go-trace-verifier/main.go:64-123 | every run that can go no further has finished, with the sequential results, totals and exit code |
| `Pipeline.FinishedRunMeans` | examples/go-trace-verifier/main.go:80-119 | a finished run, failures and mismatches included, has collected a result for each of the first n units, with its number, counts and differences, and totals that add up to all of them |
| `Pipeline.OneWorkerIsSequential` | examples/go-trace-verifier/main.go:64-97 | with one worker the results are collected in the order of the stream |
| `Pipeline.EmptyStreamExitsZero` | examples/go-trace-verifier/main.go:149-162 | with an empty stream every finished run has verified nothing and exits with 0 |
| `Pipeline.AllCountedIff` | examples/go-trace-verifier/main.go:80-123 | a finished run exits with 0 after n blocks exactly when the stream had n non-empty traces and each of the first n was fetched and matched |
| `Pipeline.Execute` | examples/go-trace-verifier/main.go:64-123 | a scheduler picking any enabled step terminates with the totals of the sequential program |
| `ConvertTx.TxRoundTrip` | src/convert.rs:154-266 | a reader recovers every transaction of all five types from its message, up to the parity byte of its authorizations |
| `ConvertTx.TxExact` | src/convert.rs:154-266 | the reader accepts only messages that the conversion makes, fields of other types unset, and of what it returns the conversion makes that very message |
| `ConvertTx.TypeNumbers` | src/convert.rs:154-208 | the five types travel as 0 to 4, in the order of their standards |
| `ConvertTx.TxCollapse` | src/convert.rs:154-266 | two transactions share a message exactly when they are equal up to those parity bytes |
| `ConvertTx.TxRecoveredIff` | src/convert.rs:257-266 | a transaction comes back unchanged exactly when every authorization has parity 0 or 1 |
| `ConvertState.OptionalInfoRoundTrip` | src/convert.rs:322-352 | absent and present account info stay apart, even when the present one is all zero |
| `ConvertState.AccountRoundTrip` | src/convert.rs:322-352 | status, present and original info and storage of every account are recovered |
| `ConvertState.RevertRoundTrip` | src/convert.rs:367-402 | every revert is recovered: its kind, its info without inline code, its slots in order with Destroyed told from the value zero |
| `ConvertState.InfoOnlyForRevertTo` | src/convert.rs:368-374 | a revert message has an info, and kind 2, exactly when the account is reverted to that info |
| `ConvertState.StateDiffRoundTrip` | src/convert.rs:289-320 | a whole bundle is recovered, lists in order, up to inline code |
| `ConvertState.StateDiffExact` | src/convert.rs:289-402 | the reader accepts only messages that the conversion makes, and of what it returns the conversion makes that very message |
| `ConvertState.EnumNumbers` | src/convert.rs:354-374 | statuses and revert kinds travel under the numbers of their enums |
| `ConvertState.StateDiffCollapse` | src/convert.rs:289-402 | two bundles share a message exactly when they differ in inline code at most |
| `ConvertState.ToMapExact` | src/convert.rs:289-303 | a list of pairs with distinct keys and the map it denotes hold the same pairs |
| `ConvertState.OrderIsAllThatIsLost` | src/convert.rs:289-303 | two iterations denote the same map exactly when they yield the same pairs |
| `ConvertTrace.LogCollapse` | src/convert.rs:450-463 | two logs share a message exactly when they are equal up to absent = empty for topics and data |
| `ConvertTrace.FrameCollapse` | src/convert.rs:433-448 | two frames share a message exactly when they are equal at every node up to absent = empty for output, error and revert reason, and logs as above |
| `ConvertTrace.FrameRoundTrip` | src/convert.rs:433-463 | a reader recovers every frame and log at every depth, up to absent = empty |
| `ConvertTrace.FrameExact` | src/convert.rs:433-463 | the reader accepts only frames that the conversion makes, flags and defaults included, and of what it returns the conversion makes that very frame |
| `ConvertTrace.NormalFrameIff` | src/convert.rs:433-463 | what is recovered of two frames is equal exactly when they are the same up to absent = empty |
| `ConvertTrace.BlockCollapse` | src/convert.rs:414-428 | two traced blocks share their frames exactly when as many are paired and the paired ones are the same with the gas limits as root gas |
| `ConvertTrace.ChainCollapse` | src/convert.rs:406-431 | two chains share their traces exactly when they have the same traced blocks, in order, by number and paired frames |
| `ConvertTrace.RootGasIsReplaced` | src/convert.rs:422-424 | the gas recorded for a root frame makes no difference to the message |
| `ConvertTrace.ChainTracesRoundTrip` | src/convert.rs:406-463 | a reader recovers the number and all paired frames of every traced block of a chain |
| `ConvertTrace.OneEntryPerTracedBlock` | src/convert.rs:406-431 | one entry for each block with recorded traces, in block order, with its number and its paired transactions and traces |
| `ConvertChain.FilterCommutes` | src/convert.rs:45-108 | converting under some flags is converting under all and removing the rest |
| `ConvertChain.ProjectTwice` | src/convert.rs:64-108 | filtering twice is filtering by the conjunction of the flags |
| `ConvertChain.SendersGoWithTransactions` | src/convert.rs:84-91 | one sender for each transaction, and neither without the flag |
| `ReadBack.NotificationRoundTrip` | src/convert.rs:45-108 | under any of the 64 flag sets a reader recovers the kind of notification, the role of each chain, and exactly the parts asked for: headers, transactions with senders up to parity bytes, receipts, withdrawals, state up to inline code, paired frames up to absent = empty |
| `ConvertChain.NoFlagsNoData` | src/convert.rs:64-108 | without flags every block is an empty message |
| `EndToEnd.RenderFrameEncodes` | examples/go-trace-verifier/rpc.go:19-40 | every frame has a JSON-RPC form |
| `EndToEnd.FrameExact` | src/convert.rs:433-463 | a converted frame matches the JSON-RPC form of another exactly when the two are equal at every node up to absent = empty for output, data, error, revert reason and topics |
| `EndToEnd.VerifierIsExact` | src/convert.rs:406-463 | converted traces of one block compared with the JSON-RPC form of another give no mismatch exactly when the traced blocks are the same |
| `EndToEnd.VerifyBlock` | examples/go-trace-verifier/compare.go:11-23 | the same for the comparison as it runs |
| `EndToEnd.VerifierAcceptsOwnRendering` | src/convert.rs:406-463 | a block in which each transaction has its trace passes against its own rendering |
| `ReadRpc.FrameReads` | examples/go-trace-verifier/compare.go:25-165 | for every frame and every JSON-RPC frame, well-formed or not: they match exactly when the texts read as the frame, at every depth |
| `ReadRpc.BlockReads` | examples/go-trace-verifier/compare.go:11-23 | the same for a traced block and any answer |
| `FanOut.ReceiveKeepsInv` | src/exex.rs:56-68 | receiving, with or without a loss report, keeps the client's account |
| `FanOut.SendKeepsInv` | src/exex.rs:57-64 | sending into the client's channel keeps it |
| `FanOut.HistoryGrows` | src/exex.rs:85-91 | a broadcast keeps the account of every client |
| `FanOut.ExactAccount` | src/exex.rs:52-72 | what a client was sent is a strictly increasing subsequence of the broadcasts since its subscription, converted with its own flags; each gap is the sum of the losses reported in between; sent + in hand + lost + backlog = broadcast |
| `Server.EveryClientAccounted` | src/exex.rs:52-91 | the account is exact for every client in every reachable state |
| `Server.StartsWhereSubscribed` | src/exex.rs:38-54 | a client's account starts at the end of the history at its subscription, and its flags stay those it asked for |
| `Server.HeightsFollowCommits` | src/exex.rs:85-91 | finished heights are the tips of the broadcast commits, in order; none for a reorg |
| `Server.HistoryIsTheStream` | src/exex.rs:85-91 | in every reachable state the history holds a broadcast for each notification of the stream, in order, commits and reorgs with their chains in their roles, and the heights are the numbers of the last blocks of the committed chains |
| `Delivery.ClientReadsTheStream` | src/exex.rs:52-91 | what a client reads, read back, are notifications of the stream in order, old and new chains in their roles, with exactly the parts that its flags ask for |
| `Server.OthersDoNotMatter` | src/exex.rs:53-72 | removing all steps of all other clients leaves a run that ends alike for one client |
| `Server.Isolation` | src/exex.rs:53-72 | what one client observes is determined by the producer and its own steps |
| `Server.ProducerNeverWaits` | src/exex.rs:85-91 | a broadcast is possible in every reachable state in which the producer loop goes on |
| `Ring.RingRefinesHistory` | src/exex.rs:22-24 | sixteen slots overwritten in turn make the same runs, with the same clients, as the whole history |
| `Ring.RingNeverWaits` | src/exex.rs:85-91 | overwriting the oldest slot is possible in every reachable state, and no client can tell it from an unbounded history |
| `Loss.LossFreeUnderAnySchedule` | src/exex.rs:24-27 | with at most 16 outstanding nothing is lost under any schedule |
| `Loss.LossFreeWhenEager` | src/exex.rs:24-27 | with at most 33 outstanding nothing is lost if the forwarder moves whenever it can |
| `Loss.StalledForwarderLoses` | src/exex.rs:24-68 | for every k above 16 a run with k outstanding in which k - 16 are lost |
| `Loss.EagerForwarderLoses` | src/exex.rs:24-68 | for every k above 33 a run with k outstanding and an eager forwarder in which k - 33 are lost |
| `Loss.SixteenIsExact` | src/exex.rs:24-27 | a bound excludes loss under any schedule exactly when it is at most 16 |
| `Loss.ThirtyThreeIsExact` | src/exex.rs:24-27 | a bound excludes loss for an eager forwarder exactly when it is at most 33 |
| `Loops.Forwarder.constructor` | src/exex.rs:52-53 | a new forwarder starts at the end of the history with an empty channel |
| `Loops.Forwarder.Receive` | src/exex.rs:56-68 | the receiver's state changes as specified, loss reports included |
| `Loops.Forwarder.Send` | src/exex.rs:57-64 | one converted notification goes into the client's channel, or the loop ends if the client is gone |
| `Loops.Forwarder.RunUntilBlocked` | src/exex.rs:55-71 | the loop keeps the client's account, stops only where it must wait or has ended, and reports no loss if it was at most 16 behind |
| `Loops.Producer.Run` | src/exex.rs:85-91 | broadcasts every notification in order, with the chains of a commit or reorg in their roles, a commit after reporting its height, up to the first height that cannot be reported |
| `Loops.BroadcastUsesRoom` | src/exex.rs:86-88 | as many commits are broadcast as heights are taken, and the loop ends early exactly when a further commit is refused |
| `Loops.LoopIsServerRun` | src/exex.rs:85-94 | what the loop broadcasts and reports is the state after a run of the server: a broadcast for each notification, then the end of the stream or the refused height |
| `Loops.RemoteExEx` | src/exex.rs:79-94 | the loop from its start leaves the state of that run |
| `System.WorkComesFromExecution` | examples/go-trace-verifier/main.go:143-187 | the verifier's units of work are the traced blocks of the committed chains delivered to it, in that order |
| `System.DeliveredWithoutGaps` | src/exex.rs:52-72 | with at most 16 outstanding, what a client has read is a contiguous stretch of the history from its subscription on |
| `System.ExitCodeIsTheTruth` | examples/go-trace-verifier/main.go:64-123 | for every run of the server, schedule, number of workers and any answers: exit code 0 exactly when each of the first n delivered blocks was answered and its answer reads as the broadcast traces |
| `System.ExitCodeComparesBlocks` | examples/go-trace-verifier/main.go:64-123 | where each answer encodes a block with one trace for each transaction: exit code 0 exactly when each block was answered and these blocks are the broadcast ones |
| `System.HonestNodePasses` | examples/go-trace-verifier/main.go:64-123 | a node that answers every time, with the broadcast blocks, one trace for each transaction, always passes |
| `Matching.NextKeepsBooks` | examples/go-internal-txs-bench/main.go:88-145 | every event keeps the counters consistent, whatever its time |
| `Matching.NextKeepsInvIff` | examples/go-internal-txs-bench/main.go:88-145 | an event keeps every pending entry one-sided exactly when it is no arrival with time 0 that finds the other side missing |
| `Matching.BooksBalance` | examples/go-internal-txs-bench/main.go:88-145 | after any events whatever, matched = number of differences = emitted lines ≤ target, and created = matched + unmatched + pending |
| `Matching.OneSidedThroughoutIff` | examples/go-internal-txs-bench/main.go:88-119 | every state of a run has exactly one side set in every pending entry exactly when each event of the run keeps that |
| `Matching.NonZeroIsHarmless` | examples/go-internal-txs-bench/main.go:88-119 | without times of 0 every event does |
| `Matching.RepeatAtZeroLosesTheSide` | examples/go-internal-txs-bench/main.go:93-97 | a repeated delivery with time 0 leaves an entry with neither side set |
| `Matching.PartnerAtZeroMatches` | examples/go-internal-txs-bench/main.go:108-111 | a second side with time 0 matches at once |
| `Matching.OneSidedIffNonZero` | examples/go-internal-txs-bench/main.go:93-112 | a first arrival dates its entry, and leaves exactly one side set if and only if its time is not zero |
| `Matching.StatusFollowsEvents` | examples/go-internal-txs-bench/main.go:90-134 | the loop has failed exactly after a source error, is interrupted exactly after a signal, and otherwise ends only at the target |
| `Matching.DeliveryReplacesItsSide` | examples/go-internal-txs-bench/main.go:93-119 | a delivery, repeated or not, replaces what its source said of the block and leaves what the other said, in the pending entry or the emitted line |
| `Matching.SinceIsKept` | examples/go-internal-txs-bench/main.go:138-145 | the time of first arrival is never refreshed while a block is pending |
| `Matching.TickRemovesExactlyExpired` | examples/go-internal-txs-bench/main.go:121-129 | a tick removes exactly the entries older than the timeout, counts them, and leaves the others alone |
| `Matching.ArrivalJoins` | examples/go-internal-txs-bench/main.go:93-119 | an arrival moves a block from where the earlier deliveries put it to where they and it put it |
| `Matching.RunJoins` | examples/go-internal-txs-bench/main.go:88-119 | after any run without timeouts, of non-zero times and no repeats, each block is where its deliveries say |
| `Matching.NoTimeoutsIffPrompt` | examples/go-internal-txs-bench/main.go:121-129 | such a run has no timeout exactly when no tick comes more than the limit after a delivery whose partner has not come by then |
| `Matching.MatcherIsJoin` | examples/go-internal-txs-bench/main.go:88-157 | for events that promise this and non-zero times without repeats: the emitted lines are exactly the join of the two sources, each block once, with gRPC minus RPC time and the gRPC payload; pending are exactly the blocks that one side has delivered |
| `MatchLoop.Matcher.constructor` | examples/go-internal-txs-bench/main.go:72-80 | the loop starts with nothing pending and nothing counted |
| `MatchLoop.Matcher.GetOrCreate` | examples/go-internal-txs-bench/main.go:138-145 | the entry of a block is found, or made with the current time and stored |
| `MatchLoop.Matcher.EmitAndForget` | examples/go-internal-txs-bench/main.go:98-105 | the line is emitted, the entry deleted, the counters advanced and the target checked, as specified |
| `MatchLoop.Matcher.OnGrpc` | examples/go-internal-txs-bench/main.go:93-106 | the mutable state after a gRPC arrival is that of the specification |
| `MatchLoop.Matcher.OnRpc` | examples/go-internal-txs-bench/main.go:108-119 | the same for an RPC arrival |
| `MatchLoop.Matcher.OnTick` | examples/go-internal-txs-bench/main.go:121-129 | the scan, in whatever order the map is walked, has the specified effect |
| `MatchLoop.Matcher.Handle` | examples/go-internal-txs-bench/main.go:88-134 | one turn of the select loop is one step of the specification |
| `MatchLoop.Run` | examples/go-internal-txs-bench/main.go:54-134 | the program refuses a negative count, reports at once for zero, and otherwise stops at the first event that ends it, with the counters and summary of the specified state |
| `Stats.PrintStats` | examples/go-internal-txs-bench/main.go:159-184 | minimum and maximum are members and bounds of the differences, and the average is the truncated quotient of their 64-bit sum |
| `Stats.TotalConcat` | examples/go-internal-txs-bench/main.go:169-170 | the sum adds up over concatenation |
| `Stats.TotalOne` | examples/go-internal-txs-bench/main.go:169-170 | of one difference it is that difference |
| `Stats.TotalReplaced` | examples/go-internal-txs-bench/main.go:169-170 | replacing one difference moves the sum by as much |
| `Stats.SummaryOfPermutation` | examples/go-internal-txs-bench/main.go:159-184 | the summary depends on the differences, not on their order |
| `Stats.QuotientTruncates` | examples/go-internal-txs-bench/main.go:178 | the division rounds toward zero for sums of either sign |
| `Stats.AverageExactIff` | examples/go-internal-txs-bench/main.go:169-178 | the average is exact if and only if the sum fits in 64 bits |
| `Stats.AverageBetweenExtremes` | examples/go-internal-txs-bench/main.go:169-178 | if it fits, the average lies between the extremes |
| `Stats.AverageCanOverflow` | examples/go-internal-txs-bench/main.go:169-178 | two differences whose sum does not fit and whose printed average is below both |

## Left out

- gRPC, WebSocket, HTTP, JSON decoding, retries and logging: input and output. The stream is a list of notifications, the answer of the JSON-RPC endpoint an arbitrary function of the unit of work that may fail, and events of the matcher are given with their times.
- The bytes of the wire format: messages are the records of `proto/exex.proto`, and the generated Go files are not modelled.
- Cancellation in the verifier: its context is cancelled only when `main` returns, so the `ctx.Done()` branches of `streamLoop` are never taken before the collector ends.
- The lines printed by `main` in the verifier, the sign prefixes, and the timeout lines of the matcher: printing only. The line of a matched block is kept as a record of its fields.
- Most fields of headers, receipts and withdrawals: one field of each stands for all, since the flags select them as a whole.
- The inside of tokio's channels: the broadcast channel is a ring of slots with its documented lag rule, without locks or wakers, and the client channel a bounded queue.
- `RecvError::Closed` in the forwarder: the service keeps a sender as long as it runs, so the branch cannot be taken while clients are served.
- The width of the verifier's counters: they are unbounded numbers here; 64 bits would need more than 2^63 frames.
- Letters outside ASCII in `strings.ToLower`: only U+0130 and U+212A lower to ASCII letters, to `i` and `k`, which are no hexadecimal digits, so no comparison with encoded bytes is affected.
- The parameter `blockNum` of `compareBlock`, which its body does not use.
- The other benchmark programs and `go-consumer`: the same state machine with other payloads, and printing.
- Execution of blocks, reorganisations and the node's own data structures: a hash map is the list of its pairs in iteration order.
- Loops.Forwarder.RunUntilBlocked: says where the loop comes to rest and that the account is kept, not how many messages it moved; each single move is specified by Receive and Send.
- MatchLoop.Run: the clock is part of the events, so nothing is said about how often ticks come.
- The order in which a hash map is iterated: it is part of the model's input, and ToMapExact and OrderIsAllThatIsLost say what it leaves of the map.
- The JSON-RPC endpoint over time: its answer, or failure, is fixed for each unit of work, so a node that changes its mind is not modelled.
