# Verified model of the bundle codec and the aggregation pipeline

A BLS wallet user signs operations; an aggregator collects the users' bundles, merges those that pay into one
aggregate bundle, compresses it and sends it to a contract that expands it again. This project models both ends
of that path in Dafny and proves what they promise.

**The codec.** `Vlq`, `PseudoFloat`, `RegIndex` and `BitStream` are the client's number encodings beside the
Solidity decoders that read them, with 256-bit wrap-around, checked arithmetic and reverts written out, and with
the bit stream summed in a model of double precision. `OperationStream` says what the two stream compressors
write and what the two expanders read; `Compressors` has the client's classes, which push onto shared arrays and
overwrite a placeholder, proved against it; `Registration` is the third form. `Framing` and `Bundles` put whole
bundles together; `Acceptance` says which operations a compressor takes, and `DocumentedStreams` proves the byte
strings that the repository's tests spell out. The main results are `Bundles.BundleRoundTrip`, `Bundles.RunReads` and `Bundles.BundleReads`.

**The pipeline.** `FilterRows`, `Strategy`, `AggregationRun`, `Aggregate` and `Breakeven` are the choice of what
goes into an aggregate; `BundleTable`, `HexText` and `Backoff` are the rows and their retries; `Mutex`,
`QueryGroups`, `Service` and `ServiceRuns` are the concurrent service as step machines, one step being the code
between two awaits, with the service's own methods in `BundleServiceObject`; `Composition` fits the strategy
and the groups into the service. `Rounding` is arithmetic in doubles up to a relative error. `OptimismFee`, `MeasuredCalls`,
`SigningMessage` and `SubmissionTimer` model what the pipeline relies on. Answers of the network, of gas and fee
estimates and of the random shuffle are arbitrary inputs throughout.

Where the code does not do what one would expect, the model follows the code; a lemma says exactly when it does, and
another builds a case in which it does not:

- The ERC20 form drops the ether that a regular action sends (`OperationRoundTrip.OperationRoundTrip`,
  `Bundles.BundleRoundTrip`; a transfer that loses it: `CodecCounterexamples.EtherIsDropped`).
- The zero address or key can be registered, is then written as an index, and the expander reverts
  (`Registry.GrowthIsHarmless`, `Bundles.BundleRoundTrip`; `CodecCounterexamples.ZeroAddressReverts`,
  `CodecCounterexamples.ZeroKeyReverts`).
- Aggregating in rounds fails where aggregating at once succeeds if a running sum of signatures is the identity
  (`Strategy.BuiltUpExactly`; `PipelineCounterexamples.RoundsCanFail`).
- Loss prevention never fails a lone losing row (`AggregationRun.LoneRowIsNeverFailed`;
  `PipelineCounterexamples.LoneRowIsStuck`).
- A confirmation is undone by the rollback of another group exactly when it was made since that group's BEGIN, and
  the row can then be submitted again (`ServiceRuns.FinalStaysFinal`; `ServiceRuns.ConfirmationCanBeLost`).
- One throw in a submission stops `tryAggregating` for good (`ServiceRuns.AThrowIsForever`;
  `ServiceRuns.SubmissionCanThrow`).
- Stopping can leave a submission waiting for ever inside its transaction (`ServiceRuns.GoesOnUnlessAllDropped`;
  `ServiceRuns.StopCanDeadlock`).

`dafny verify dfyconfig.toml` checks the whole project.

## Model

| member | source | states |
|---|---|---|
| Vlq.EncodeVLQ | contracts/clients/src/encodeUtils.ts:15-41 | the two loops write base-128 groups, most significant first, all but the last marked with 128 |
| Vlq.CollectSegments | contracts/clients/src/encodeUtils.ts:18-29 | the first loop collects exactly the base-128 digits |
| Vlq.DecodeIsIdealModulo | contracts/contracts/lib/VLQ.sol:27-50 | on every stream the contract reads what unbounded integers would give, modulo 2^256, stopping at the same byte; it reverts only when the bytes run out |
| Vlq.IdealRoundTrip | contracts/clients/src/encodeUtils.ts:15-41 | over unbounded integers every natural comes back with the trailing bytes untouched |
| Vlq.RoundTrip | contracts/contracts/lib/VLQ.sol:27-50 | the contract reads every encoded natural modulo 2^256 and leaves exactly the rest |
| Vlq.PrefixFree | contracts/clients/src/encodeUtils.ts:15-41 | no encoding is a prefix of another; different naturals never share one |
| Vlq.NoRedundantGroup | contracts/clients/src/encodeUtils.ts:18-29 | the first group is never an empty continuation group |
| Vlq.Groups | contracts/clients/src/encodeUtils.ts:15-41 | as few groups as the number needs, each the base-128 digit of its position, all but the last marked |
| PseudoFloat.EncodePseudoFloat | contracts/clients/src/encodeUtils.ts:43-65 | the loop divides out tens, up to 30, and writes header and mantissa of exactly that split |
| PseudoFloat.RoundTrip | contracts/contracts/lib/PseudoFloat.sol:73-99 | the contract reads x back with the rest untouched if and only if x fits 256 bits |
| PseudoFloat.ExponentIsLargest | contracts/clients/src/encodeUtils.ts:50-55 | 10^e divides x, for e up to 30, exactly when e is at most the exponent written |
| PseudoFloat.BytesWritten | contracts/clients/src/encodeUtils.ts:50-64 | the first byte holds the largest exponent up to 30 whose power of ten divides the number, plus one, and three bits of the quotient; the VLQ of the rest of the quotient follows |
| PseudoFloat.TwoBytes | contracts/clients/src/encodeUtils.ts:50-64 | a number below 1024 times a power of ten up to the 30th takes two bytes, a whole ether among them |
| PseudoFloat.ReadsExactly | contracts/contracts/lib/PseudoFloat.sol:73-99 | any header with any mantissa that fits is read as the number they stand for, or reverts exactly if that does not fit a word or the header has no exponent |
| PseudoFloat.IdealRoundTrip | contracts/clients/src/encodeUtils.ts:43-65 | over unbounded integers every natural comes back |
| PseudoFloat.PrefixFree | contracts/clients/src/encodeUtils.ts:43-65 | no encoding is a prefix of another |
| PseudoFloat.ZeroByteMeansZero | contracts/clients/src/encodeUtils.ts:46-48 | a zero first byte is written for 0 and for nothing else |
| RegIndex.RoundTrip | contracts/clients/src/encodeUtils.ts:67-77 | every index comes back modulo 2^256 from a VLQ and two fixed bytes |
| RegIndex.FixedReads | contracts/contracts/lib/RegIndex.sol:27-38 | the shifted VLQ value and the two fixed bytes add up without a revert |
| BitStream.DoublesAreExact | contracts/clients/src/encodeUtils.ts:101-119 | summing in double precision either throws or yields the VLQ of the exact little-endian value |
| BitStream.ThrowsExactly | contracts/clients/src/encodeUtils.ts:101-119 | it throws exactly from 2^53 - 1 up |
| BitStream.EncodeBitStream | contracts/clients/src/encodeUtils.ts:101-119 | the loop over doubles returns that VLQ, or fails exactly when the value is unsafe |
| BitStream.PopReturnsPushed | contracts/contracts/FallbackExpander.sol:148-150 | taking low bits returns the booleans in the order they were pushed |
| BitStream.PushPop | contracts/contracts/FallbackExpander.sol:148-150 | one bit taken is the first one pushed and the rest of the stack stands for the rest |
| BitStream.RoundTrip | contracts/clients/src/encodeUtils.ts:101-119 | what is written reads back as a VLQ whose bits are the original booleans |
| HexText.HexJoinIsConcat | contracts/clients/src/encodeUtils.ts:3-13 | joining hex strings is the hex string of the joined bytes |
| HexText.HexRoundTrip | contracts/clients/src/encodeUtils.ts:3-13 | hex digits determine the bytes |
| HexText.DigitsAt | contracts/clients/src/encodeUtils.ts:3-13 | each byte is written as two lower-case digits, the high one first |
| HexText.WordTextIsFixed | aggregator/src/app/BundleTable.ts:303-305 | padding the even-length minimal digits gives exactly 64 digits |
| HexText.TextOrderIsNumberOrder | aggregator/src/app/BundleTable.ts:303-305 | for 256-bit numbers the padded texts compare as the numbers do |
| HexText.ReadUint256Hex | aggregator/src/app/BundleTable.ts:303-305 | the padded text reads back as the number |
| Registry.ReverseLookup | contracts/clients/src/AddressRegistryWrapper.ts:78-86 | found exactly for registered entries; the id is of the last registration |
| Registry.GrowthIsHarmless | contracts/clients/src/AddressRegistryWrapper.ts:68-86 | an id found now resolves to the same entry in every later state, except the zero entry, which never resolves |
| Registry.ReRegistrationMovesId | contracts/clients/src/BlsPublicKeyRegistryWrapper.ts:72-101 | registering again changes the id that is found while the old id stays valid |
| Registry.RegistryWrapper.Register | contracts/clients/src/AddressRegistryWrapper.ts:91-105 | appends the entry and returns its id |
| Registry.RegistryWrapper.RegisterIfNeeded | contracts/clients/src/AddressRegistryWrapper.ts:107-115 | registers unknown entries only; the id returned refers to the entry |
| Erc20Call.ParseIsInverseOfEncode | contracts/clients/src/Erc20Compressor.ts:248-366 | calldata is recognised as a call exactly when it is that call's ABI encoding, byte for byte |
| Erc20Call.FirstByteDecides | contracts/clients/src/Erc20Compressor.ts:248-273 | the four selectors exclude each other, so the order of the tests does not matter |
| Erc20Call.Layout | contracts/clients/src/Erc20Compressor.ts:248-366 | the selector, the padded addresses and the number stand where the ABI puts them |
| OperationRoundTrip.AddressReads | contracts/contracts/ERC20Expander.sol:296-315 | an address comes back from either form in every later registry; it reverts exactly for a registered zero address |
| OperationRoundTrip.KeyReads | contracts/contracts/FallbackExpander.sol:77-86 | a public key comes back from either form in every later registry; it reverts exactly for a registered zero key |
| OperationRoundTrip.TransferReads | contracts/contracts/ERC20Expander.sol:178-197 | transfer calldata is rebuilt |
| OperationRoundTrip.TransferFromReads | contracts/contracts/ERC20Expander.sol:199-226 | transferFrom calldata is rebuilt, consuming two address bits in order |
| OperationRoundTrip.ApproveReads | contracts/contracts/ERC20Expander.sol:228-273 | approve calldata is rebuilt through code 2, or through code 3 exactly for the maximum value |
| OperationRoundTrip.MintReads | contracts/contracts/ERC20Expander.sol:275-294 | mint calldata is rebuilt |
| OperationRoundTrip.CallReads | contracts/contracts/ERC20Expander.sol:142-176 | every recognised call comes back, or reverts exactly when an address in it is a registered zero |
| OperationRoundTrip.ActionReads | contracts/contracts/FallbackExpander.sol:108-133 | one action comes back as delivered in both styles |
| OperationRoundTrip.ActionsRead | contracts/contracts/FallbackExpander.sol:108-133 | a list of actions comes back in order, leaving the rest of both channels |
| OperationRoundTrip.HeadReads | contracts/contracts/FallbackExpander.sol:75-106 | key, nonce, gas, action count and payment bit come back |
| OperationRoundTrip.PaymentReads | contracts/contracts/FallbackExpander.sol:135-143 | the final payment to tx.origin is put back at the end |
| OperationRoundTrip.OperationReads | contracts/contracts/FallbackExpander.sol:65-146 | for every accepted operation the expander returns key, delivered operation and unread bytes, or reverts exactly when a registered zero is referred to |
| OperationRoundTrip.DeliveredIsSame | contracts/clients/src/Erc20Compressor.ts:215-237 | the ERC20 form changes nothing exactly when no regular action carries ether |
| OperationRoundTrip.OperationRoundTrip | contracts/clients/src/Erc20Compressor.ts:167-246 | compression loses nothing exactly when no registered zero is referred to and, in ERC20 form, no regular action carries ether |
| CodecCounterexamples.EtherIsDropped | contracts/clients/src/Erc20Compressor.ts:215-237 | a token transfer with ether 1 that the ERC20 compressor accepts and the contract expands without the ether |
| CodecCounterexamples.EtherIsDroppedFromBundle | contracts/clients/src/BundleCompressor.ts:43-97 | the same for a bundle of that one operation |
| CodecCounterexamples.ZeroAddressReverts | contracts/clients/src/AddressRegistryWrapper.ts:68-86 | with the zero address registered, a call of it is compressed, alone and in a bundle, and reverts |
| CodecCounterexamples.ZeroKeyReverts | contracts/clients/src/BlsPublicKeyRegistryWrapper.ts:72-101 | with the zero key registered, an operation it sends is compressed, alone and in a bundle, and reverts |
| OperationStream.UnknownMethodReverts | contracts/contracts/ERC20Expander.sol:142-176 | a method code from 5 up reverts |
| Acceptance.AcceptsExactly | contracts/clients/src/Erc20Compressor.ts:192-246 | the ERC20 compressor accepts exactly the operations whose actions, but for a last one that pays tx.origin, are ABI calls with a short form, the fallback one all; both throw exactly if the bits, one for the key, one for the payment and one for each address written, reach 2^53 - 1 |
| Acceptance.PaymentIsLast | contracts/clients/src/Erc20Compressor.ts:199-246 | if the last action is a call of sendEthToTxOrigin on the utilities contract, its bit is the second and its ether the last bytes of the stream |
| Acceptance.CallBytes | contracts/clients/src/Erc20Compressor.ts:275-344 | the code of each call, and its addresses and value in order |
| DocumentedStreams.Vlqs | contracts/test/vlq-test.ts:15-50 | numbers and bytes listed in the tests |
| DocumentedStreams.Indices | contracts/test/regIndex-test.ts:19-57 | indices and bytes listed in the tests |
| DocumentedStreams.EtherTransfer | contracts/test/expanders-test.ts:123-140 | the stream spelled out for an ether transfer between registered wallets, byte for byte |
| DocumentedStreams.EtherTransferAndPayment | contracts/test/expanders-test.ts:208-227 | the same with a payment to tx.origin |
| DocumentedStreams.TokenTransfer | contracts/test/expanders-test.ts:566-586 | the stream spelled out for a token transfer with a payment |
| DocumentedStreams.TokenApproval | contracts/test/expanders-test.ts:640-660 | the stream spelled out for an approval of the maximum |
| DocumentedStreams.KeyRegistration | contracts/test/expanders-test.ts:270-285 | the stream spelled out for the registration of a key |
| DocumentedStreams.OneOperation | contracts/test/expanders-test.ts:123-140 | count and signature around the one operation of a bundle |
| DocumentedStreams.EmptyCallFallsBack | contracts/test/expanders-test.ts:125-126 | in the aggregator's list a call without data is written by the fallback compressor, with index 0 |
| DocumentedStreams.TokenCallGoesFirst | contracts/test/expanders-test.ts:568-569 | what the ERC20 compressor takes is written by it, with index 2 |
| DocumentedStreams.RegistrationGoesSecond | contracts/test/expanders-test.ts:272-273 | the registration of a key is written by the registration compressor, with index 1 |
| Compressors.StreamCompressor.CompressAddress | contracts/clients/src/Erc20Compressor.ts:368-383 | pushes index and bit, or address and bit, as specified |
| Compressors.StreamCompressor.CompressKey | contracts/clients/src/Erc20Compressor.ts:174-187 | pushes index and bit, or four words and bit, as specified |
| Compressors.StreamCompressor.CompressHead | contracts/clients/src/Erc20Compressor.ts:168-213 | writes key, numbers and the payment bit as specified |
| Compressors.StreamCompressor.CompressNumbers | contracts/clients/src/Erc20Compressor.ts:189-213 | writes nonce, gas and action count |
| Compressors.StreamCompressor.CompressAsErc20 | contracts/clients/src/Erc20Compressor.ts:215-237 | writes target and call; succeeds exactly for recognised calldata |
| Compressors.StreamCompressor.CompressFunctionCall | contracts/clients/src/Erc20Compressor.ts:248-273 | writes method code and arguments; succeeds exactly for recognised calldata |
| Compressors.StreamCompressor.CompressToAndValue | contracts/clients/src/Erc20Compressor.ts:275-295 | transfer and mint: code, address and value; succeeds exactly when the parameters decode |
| Compressors.StreamCompressor.CompressTransferFrom | contracts/clients/src/Erc20Compressor.ts:297-318 | code, both addresses and value; succeeds exactly when the parameters decode |
| Compressors.StreamCompressor.CompressApprove | contracts/clients/src/Erc20Compressor.ts:320-344 | code 3 without a value for the maximum, code 2 with it otherwise |
| Compressors.StreamCompressor.CompressPayment | contracts/clients/src/Erc20Compressor.ts:239-241 | writes the payment value exactly when there is a payment |
| Compressors.StreamCompressor.CompressInFull | contracts/clients/src/FallbackCompressor.ts:217-236 | writes value, target, length and calldata |
| Compressors.StreamCompressor.CompressActions | contracts/clients/src/FallbackCompressor.ts:217-236 | the loop writes all regular actions in order, or stops at the first that is refused |
| Compressors.StreamCompressor.Compress | contracts/clients/src/FallbackCompressor.ts:169-247 | the pushes and the overwritten placeholder give exactly the specified stream |
| Compressors.Output.Finish | contracts/clients/src/FallbackCompressor.ts:243-246 | overwriting the placeholder puts the bit stream in front of everything pushed |
| Registration.AcceptsExactlyRebuildable | contracts/clients/src/BlsRegistrationCompressor.ts:172-214 | accepted operations are exactly those the contract can rebuild |
| Registration.RoundTrip | contracts/contracts/BLSRegistration.sol:26-75 | every accepted operation comes back whole |
| Framing.AllRead | contracts/contracts/BLSExpanderDelegator.sol:51-75 | reading operations until the stream is used up gives what is delivered of each, in order; it reverts if fewer were announced, and slots announced beyond them stay empty |
| Framing.RunReads | contracts/contracts/BLSExpanderDelegator.sol:32-83 | the contract runs a framed bundle on exactly what is delivered of it |
| Framing.BundleReads | contracts/clients/src/BundleCompressor.ts:76-97 | read by its count a framed bundle leaves exactly the bytes that follow it |
| Framing.DispatchReads | contracts/contracts/BLSExpanderDelegator.sol:53-62 | the expander index selects the expander that reads the rest; an unknown one reverts |
| Bundles.Choose | contracts/clients/src/BundleCompressor.ts:43-74 | some compressor of the list that accepts; none exactly when all refuse |
| Bundles.ChosenIsFirst | contracts/clients/src/BundleCompressor.ts:49-64 | it is the first: all before it in the list refuse |
| Bundles.OperationBytesAreFirst | contracts/clients/src/BundleCompressor.ts:49-74 | what is written is the index and the form of the first compressor that accepts, and nothing exactly if all refuse |
| Bundles.OperationReads | contracts/clients/src/BundleCompressor.ts:43-74 | whichever compressor took an operation, the contract reads it with the matching expander |
| Bundles.CompressorsAgree | contracts/contracts/BLSExpanderDelegator.sol:51-75 | writing, reading and delivery of single operations agree for every list of compressors, each operation written against its own state of the registries, and every later state |
| Bundles.RunReads | contracts/contracts/BLSExpanderDelegator.sol:32-83 | the contract runs the compressed bundle on exactly the delivered bundle, whatever was registered since each operation was written |
| Bundles.BundleReads | contracts/clients/src/BundleCompressor.ts:76-97 | the compressed bundle delimits itself |
| Bundles.BundleRoundTrip | contracts/clients/src/BundleCompressor.ts:43-97 | the contract gets the very bundle that was compressed, and a reader guided by the count gets it and leaves any trailing bytes, if and only if every operation is intact; each operation may have been written against its own state of the registries |
| Framing.DeliverBundleKeeps | contracts/contracts/BLSExpanderDelegator.sol:51-75 | a bundle arrives as it was sent exactly if each of its operations does |
| Bundles.DeliverKeeps | contracts/clients/src/BundleCompressor.ts:43-74 | what intact means for one operation |
| Bundles.BundleCompressor.AddCompressor | contracts/clients/src/BundleCompressor.ts:25-40 | the id of the first registration; fails exactly when there is none; ids stay consistent with the delegator |
| Bundles.BundleCompressor.CompressOperation | contracts/clients/src/BundleCompressor.ts:43-74 | returns the index and the form of the first compressor in the list that accepts, or fails as all refuse |
| Bundles.BundleCompressor.CompressOperations | contracts/clients/src/BundleCompressor.ts:83-90 | the same for the operations, joined in order |
| Bundles.BundleCompressor.Compress | contracts/clients/src/BundleCompressor.ts:76-97 | equals the specified bytes over some states of the registries between the first and the last, others registering entries before each operation, or fails on unequal lengths or a refused operation |
| SigningMessage.EncodeMessageForSigning | contracts/clients/src/signer/encodeMessageForSigning.ts:4-24 | the loop packs the actions as specified |
| SigningMessage.MessageLayout | contracts/clients/src/signer/encodeMessageForSigning.ts:20-23 | wallet, nonce and hash stand at bytes 0, 20 and 52 of the message |
| SigningMessage.ActionsLayout | contracts/clients/src/signer/encodeMessageForSigning.ts:8-18 | action i takes bytes 84 i to 84 i + 84 of what is hashed: ether, address, hash of its data |
| Bytes.WordDigits | contracts/clients/src/signer/encodeMessageForSigning.ts:8-23 | byte i of a number is its base-256 digit, the most significant first |
| SigningMessage.MessagesAgree | contracts/clients/src/signer/encodeMessageForSigning.ts:4-24 | messages are equal exactly when wallet, nonce and hash of the packed actions are |
| SigningMessage.SameActions | contracts/clients/src/signer/encodeMessageForSigning.ts:8-18 | different actions pack alike only with a hash collision, which is exhibited |
| SigningMessage.SameMessage | contracts/clients/src/signer/encodeMessageForSigning.ts:4-24 | equal messages mean equal wallet, nonce and actions, or an exhibited hash collision |
| Aggregate.FilterChangesNothing | contracts/clients/src/signer/aggregate.ts:11-11 | dropping valid empty bundles changes neither keys, operations nor signature |
| Aggregate.AggregateIsTotal | contracts/clients/src/signer/aggregate.ts:7-23 | aggregation is the total of all bundles and fails exactly when some bundle is rejected |
| Aggregate.TotalAt | contracts/clients/src/signer/aggregate.ts:14-15 | the j-th operation of the i-th bundle stands, under its own key, at j plus the number of operations before that bundle |
| Aggregate.AggregateHolds | contracts/clients/src/signer/aggregate.ts:13-22 | the aggregate holds every operation under its own key at that place, none besides, and the signatures added up in order |
| Aggregate.IncrementalIsOneShot | aggregator/src/app/AggregationStrategy.ts:118-143 | aggregating round by round equals aggregating once, and fails exactly when a bundle is rejected or a running sum with operations has the identity signature |
| Aggregate.RunAggregatesOnce | aggregator/src/app/AggregationStrategy.ts:112-143 | from the empty aggregate, whenever all rounds succeed, the result is the aggregate of all bundles at once |
| Aggregate.NeverStuckMeans | aggregator/src/app/AggregationStrategy.ts:442-446 | rounds are never stuck exactly when no round starts from a total with operations and the identity signature |
| Aggregate.CancellingSignaturesStopRounds | aggregator/src/app/AggregationStrategy.ts:442-446 | whenever the signatures of two bundles cancel, no further round succeeds although all bundles at once aggregate |
| PipelineCounterexamples.RoundsCanFail | aggregator/src/app/AggregationStrategy.ts:112-143 | two rows, signatures added modulo 2^256, that are both included and aggregate at once; the empty round that follows theirs fails, and the run with it |
| FilterRows.PickBest | aggregator/src/app/AggregationStrategy.ts:340-362 | the loop finds the first row of largest excess fee |
| FilterRows.FilterAllRows | aggregator/src/app/AggregationStrategy.ts:295-333 | grouping by key and nonce and removing losers group by group, as specified |
| FilterRows.IndexRecords | aggregator/src/app/AggregationStrategy.ts:296-315 | each group holds exactly the rows that use its key and nonce |
| FilterRows.GroupsInOrder | aggregator/src/app/AggregationStrategy.ts:296-317 | each pair has one group, and groups come in the order in which their pairs are first used, row by row and operation by operation |
| FilterRows.RowsInOrder | aggregator/src/app/AggregationStrategy.ts:311-313 | the rows of a group come in the order of the rows given |
| FilterRows.ConflictIsSharedUse | aggregator/src/app/AggregationStrategy.ts:299-311 | rows share a group exactly if some operation of one has the sender key and nonce of some operation of the other |
| FilterRows.NoConflictsLeft | aggregator/src/app/AggregationStrategy.ts:291-333 | no two rows left have operations of the same sender key and nonce, whatever the checks answered |
| FilterRows.FilteredInOrder | aggregator/src/app/AggregationStrategy.ts:317-332 | what is left is a subsequence of the rows given |
| FilterRows.FilteredIsNotEmpty | aggregator/src/app/AggregationStrategy.ts:317-332 | nothing is left only if nothing was given |
| FilterRows.EveryRowReachesASurvivor | aggregator/src/app/AggregationStrategy.ts:295-362 | whatever every group measures afresh, each row reaches a survivor by a chain of the rows given; each link is two rows that meet in a group, in the order of the groups, and by that group's own answers the second pays a higher excess fee, or the same and comes first |
| FilterRows.StableClimb | aggregator/src/app/AggregationStrategy.ts:340-362 | if the measurements of its rows do not differ between its groups, the excess fee never falls from any row of such a chain to any later one |
| FilterRows.FirstBestSurvives | aggregator/src/app/AggregationStrategy.ts:335-362 | a row survives if in every group it pays a higher excess fee than every row it meets there, or the same and comes before it |
| FilterRows.UnrivalledSurvives | aggregator/src/app/AggregationStrategy.ts:321-325 | a row that conflicts with none survives |
| Strategy.AugmentAggregateBundle | aggregator/src/app/AggregationStrategy.ts:371-453 | one round over the first candidates, as many as the concurrency allows: those whose check does not succeed are returned as failed, in order, and the rest of the rows remain |
| Strategy.FailedAreUnsuccessful | aggregator/src/app/AggregationStrategy.ts:409-417 | the rows that fail are exactly those whose check does not succeed, in order, whatever the gas |
| Strategy.AccumulateRounds | aggregator/src/app/AggregationStrategy.ts:118-143 | the loop runs rounds until one includes nothing |
| Strategy.RoundsAreOnePass | aggregator/src/app/AggregationStrategy.ts:118-143 | all rounds together are one pass over the rows tried: included, failed, gas and fee |
| Strategy.RunSummary | aggregator/src/app/AggregationStrategy.ts:112-143 | what the variables of `run` hold after its loop, including that the fee is the sum of the included fees |
| Strategy.BuiltUpIsOneShot | aggregator/src/app/AggregationStrategy.ts:442-446 | the bundle built up is the aggregate of all included rows at once |
| Strategy.BuiltUpExactly | aggregator/src/app/AggregationStrategy.ts:118-143 | the rounds fail exactly when an included bundle is rejected or the bundles before some round add up to the identity signature; otherwise they build the total of all included bundles |
| Strategy.BuiltUpHolds | aggregator/src/app/AggregationStrategy.ts:442-446 | in the bundle `run` returns the operations of every included row stand in order, each under its own sender's key, and no others |
| AggregationRun.Partition | aggregator/src/app/AggregationStrategy.ts:404-440 | included, failed and gas-skipped rows partition the rows tried |
| AggregationRun.IncludedIfItFits | aggregator/src/app/AggregationStrategy.ts:419-439 | a row whose check succeeds, wherever it stands, is included if and only if its marginal gas fits on top of that of the rows included before it, and is never failed |
| AggregationRun.ChosenInOrder | aggregator/src/app/AggregationStrategy.ts:404-440 | each of the three is a subsequence of the rows tried |
| AggregationRun.GasIsSum | aggregator/src/app/AggregationStrategy.ts:419-437 | accumulated gas is the start plus the marginal gas of the included rows |
| AggregationRun.CapHolds | aggregator/src/app/AggregationStrategy.ts:419-437 | if anything is included the accumulated gas is within the cap |
| AggregationRun.StopsAfterABarrenRound | aggregator/src/app/AggregationStrategy.ts:140-142 | rows are left untried only after a full round that included nothing |
| AggregationRun.EarlierRoundsInclude | aggregator/src/app/AggregationStrategy.ts:140-142 | every round but the last included something |
| AggregationRun.PreventLosses | aggregator/src/app/AggregationStrategy.ts:191-269 | the result never loses; an unprofitable one is dropped, and at breakeven exactly half of the included rows, rounded down, become failed |
| AggregationRun.LoneRowIsNeverFailed | aggregator/src/app/AggregationStrategy.ts:232-268 | a run that loses at breakeven returns no aggregate and adds half of the included rows, rounded down, to the failed ones: none exactly when at most one was included |
| PipelineCounterexamples.LoneRowIsStuck | aggregator/src/app/AggregationStrategy.ts:106-185 | one row, measured at exactly its required fee and one unit of gas dearer as an aggregate: neither submitted nor failed |
| AggregationRun.Run | aggregator/src/app/AggregationStrategy.ts:106-185 | the whole run: filtering, rounds, empty result, final check and loss prevention |
| AggregationRun.ResultMeans | aggregator/src/app/AggregationStrategy.ts:152-185 | an aggregate is returned exactly if something was included and the fees cover the cost or losses are allowed, and with what; otherwise rows are added to the failed ones only at breakeven |
| AggregationRun.RunSettles | aggregator/src/app/AggregationStrategy.ts:106-185 | no row is both included and failed, none is listed twice, none invented; the gas cap holds and losses are prevented |
| AggregationRun.RunIsSafe | aggregator/src/app/AggregationStrategy.ts:106-185 | the same against the rows `run` was given, and the included rows are free of conflicts |
| Breakeven.CheckMeans | aggregator/src/app/AggregationStrategy.ts:533-655 | a check succeeds exactly if the simulation did and the fee is at least the required one; what is required and expected as cost, with and without fees |
| Breakeven.ContributionCovers | aggregator/src/app/AggregationStrategy.ts:552-557 | a contribution, computed with a rounding in each operation, is at least the exact share of the overhead and less than one unit more but for the rounding |
| Breakeven.FineForDoubles | aggregator/src/app/AggregationStrategy.ts:552-557 | double precision is fine enough for that while overhead times operations counts fewer than 2^52 units of the breakeven fraction |
| Breakeven.SharesCoverOverhead | aggregator/src/app/AggregationStrategy.ts:552-559 | the rounded contributions of all rows add up to at least the overhead per operation times the operations, and to less than one unit more for each bundle but for the rounding |
| Breakeven.RequiredFeesAddUp | aggregator/src/app/AggregationStrategy.ts:559-565 | the fees required of single bundles, each at its own gas price, add up to at least the gas required of them at the lowest price, and to exactly that at one price |
| Breakeven.FeesCoverRequired | aggregator/src/app/AggregationStrategy.ts:626-640 | the fees of rows that passed their check add up to at least the fees required |
| Breakeven.FeesCoverAggregateGas | aggregator/src/app/AggregationStrategy.ts:419-439 | with enough operations the included fees pay for the accumulated gas, overhead included, at the lowest price any of them was checked with, for doubles as for exact arithmetic |
| Breakeven.LossMeansGasGrew | aggregator/src/app/AggregationStrategy.ts:218-230 | an aggregate that reaches breakeven, is priced no higher than its parts and still loses needs more gas than its parts were measured to need |
| Breakeven.ReturnedAggregatePays | aggregator/src/app/AggregationStrategy.ts:176-212 | under loss prevention an aggregate is returned exactly if its fees are at least its gas estimate times the price |
| Breakeven.AggregateBreaksEven | aggregator/src/app/AggregationStrategy.ts:220-220 | the operation count loss prevention looks at is that of the included rows |
| Breakeven.AggregateHasAllOperations | aggregator/src/app/AggregationStrategy.ts:220-220 | the aggregate has the operations of all included rows |
| BundleTable.RowRoundTrip | aggregator/src/app/BundleTable.ts:56-127 | the numeric columns of a row, written as text, read back the same; status, id and the other text are carried along |
| BundleTable.SelectIsFirstEligible | aggregator/src/app/BundleTable.ts:237-253 | the query on text returns exactly the first `limit` pending rows by id whose delay has passed |
| BundleTable.TakeIsFirst | aggregator/src/app/BundleTable.ts:237-253 | those rows ascend by id, are at most `limit`, and an eligible row is left out only if that many come before it |
| BundleTable.Table.FindEligible | aggregator/src/app/BundleTable.ts:237-253 | both for the table object |
| BundleTable.Table.Add | aggregator/src/app/BundleTable.ts:154-194 | appends a row with the next id and changes nothing else |
| BundleTable.Table.Update | aggregator/src/app/BundleTable.ts:196-226 | replaces the row with that id and no other |
| Mutex.MutexObject.TryLock | aggregator/src/helpers/Mutex.ts:15-22 | grants a new lock exactly when none is current |
| Mutex.MutexObject.Lock | aggregator/src/helpers/Mutex.ts:24-32 | grants at once or queues the waiter last |
| Mutex.MutexObject.Release | aggregator/src/helpers/Mutex.ts:40-52 | throws without effect for any other lock; otherwise frees it and hands a new lock to the first waiter |
| QueryGroups.StepKeeps | aggregator/src/app/runQueryGroup.ts:10-28 | every step of every group keeps the bracketing invariant |
| QueryGroups.EveryRunIsBracketed | aggregator/src/app/runQueryGroup.ts:10-28 | over every interleaving: no nested or dangling transaction, one holder, waiters only while held, grants in order of request |
| QueryGroups.EndingsFollowOutcomes | aggregator/src/app/runQueryGroup.ts:11-27 | over every interleaving the transactions end, in order, with COMMIT where the body completed and ROLLBACK where it threw; only the last body that ended may still await its ending |
| QueryGroups.BeginsInOrder | aggregator/src/helpers/Mutex.ts:24-52 | groups begin in the order in which they asked |
| QueryGroups.NoInvalidRelease | aggregator/src/helpers/Mutex.ts:40-43 | no reachable release throws |
| QueryGroups.BeginsAlone | aggregator/src/app/runQueryGroup.ts:10-15 | whenever a group issues BEGIN no transaction is open and no other group is in one |
| QueryGroups.HandoffBeforeCommitWouldNest | aggregator/src/app/runQueryGroup.ts:25-28 | between release and COMMIT a waiter already has the lock, and a BEGIN there would nest |
| QueryGroups.HandoffHappens | aggregator/src/app/runQueryGroup.ts:25-28 | such a moment is reachable |
| Backoff.RetriesIsLogarithm | aggregator/src/app/BundleService.ts:370-382 | the number of retries is the number of binary digits of the maximum delay |
| Backoff.FailuresDetermine | aggregator/src/app/BundleService.ts:370-385 | after k failures the delay is 2^k and the row is eligible from the block of the last failure plus 2^(k-1) on; it is failed exactly after retries + 1 of them, and the k-th comes no earlier than 2^(k-1) - 1 blocks after adding |
| Backoff.FailuresAreSpaced | aggregator/src/app/BundleService.ts:370-377 | the first failure comes no earlier than the row, and the one after the k-th at least 2^(k-1) blocks after it |
| Backoff.BoundsAreAttained | aggregator/src/app/BundleService.ts:370-385 | both bounds are attained |
| Service.StepKeeps | aggregator/src/app/BundleService.ts:283-460 | every step keeps the invariant: separate flights, current copies, restorable table, permits, counter, recorded failures |
| ServiceRuns.FlightsAreSeparate | aggregator/src/app/BundleService.ts:387-398 | in-flight aggregates share no row, together they are `unconfirmedRowIds`, and there are at most `maxUnconfirmedAggregations` |
| ServiceRuns.RollbackUndoesConfirmations | aggregator/src/app/BundleService.ts:412-418 | after any schedule a rollback sets exactly the rows confirmed since its BEGIN back to pending and changes nothing else |
| ServiceRuns.FinalUnlessRolledBack | aggregator/src/app/BundleService.ts:412-418 | a step changes a confirmed or failed row if and only if it is a rollback and the row was confirmed since its BEGIN |
| ServiceRuns.FinalStaysFinal | aggregator/src/app/BundleService.ts:283-460 | from any point of any run a final row stays as it is throughout if and only if no group rolls back over a confirmation of that row |
| ServiceRuns.FailedStaysFailed | aggregator/src/app/BundleService.ts:378-382 | a failed row is final in every run |
| ServiceRuns.ConfirmationCanBeLost | aggregator/src/app/BundleService.ts:412-418 | a run in which a confirmation is undone and the row can be selected again |
| ServiceRuns.DecisionsAreUpToDate | aggregator/src/app/BundleService.ts:370-398 | rows decided on are pending and in no flight, and writing them from copies overwrites nothing |
| ServiceRuns.RowsFollowTheirFailures | aggregator/src/app/BundleService.ts:370-385 | in every reachable state a row is eligible from the block its last failure and its number determine, its failures are spaced by the delays, and the bounds on them hold |
| ServiceRuns.HistoriesFollowSchedule | aggregator/src/app/BundleService.ts:284-353 | the failures recorded for a row are one for each decision of the schedule that fails it, at the block for which its rows were queried |
| ServiceRuns.SelectsExactly | aggregator/src/app/BundleService.ts:288-296 | what can be queried is exactly rows that are pending, due and not in flight |
| ServiceRuns.FlightsAreDecisions | aggregator/src/app/BundleService.ts:351-398 | each decision that includes rows becomes one aggregate in flight of exactly these rows, in order |
| ServiceRuns.FailuresRunOut | aggregator/src/app/AggregationStrategy.ts:247-254 | all failures decided in a run are at most rows times (retries + 1), so loss prevention rounds come to an end |
| ServiceRuns.CounterIsLiveOrThrown | aggregator/src/app/BundleService.ts:284-363 | `submissionsInProgress` is zero exactly when no submission is live and none ever threw |
| ServiceRuns.AThrowIsForever | aggregator/src/app/BundleService.ts:103-108 | after one throw the counter is never zero again |
| ServiceRuns.SubmissionCanThrow | aggregator/src/app/BundleService.ts:283-363 | three steps after which no submission is live and the counter is 1 |
| ServiceRuns.GoesOnUnlessAllDropped | aggregator/src/app/BundleService.ts:393-459 | a submission waiting for a permit can go on exactly unless every flight was dropped |
| ServiceRuns.NoDeadlock | aggregator/src/app/BundleService.ts:393-459 | before the service is stopped some flight can release a permit without the lock |
| ServiceRuns.StuckForEver | aggregator/src/app/BundleService.ts:93-96 | if every flight was dropped the wait never ends |
| BundleServiceObject.BundleService.EnterSubmission | aggregator/src/app/BundleService.ts:283-284 | takes the machine's step |
| BundleServiceObject.BundleService.HandleFailedRow | aggregator/src/app/BundleService.ts:370-385 | while the delay is at most the maximum the row is eligible from the current block plus the delay on and the delay doubles; otherwise it is failed; its id is forgotten |
| BundleServiceObject.BundleService.HandleFailedRows | aggregator/src/app/BundleService.ts:342-353 | the loop writes every failed row and no other, and forgets their ids |
| BundleServiceObject.BundleService.RecordDecision | aggregator/src/app/BundleService.ts:342-353 | recording what the strategy decided takes the machine's step |
| BundleServiceObject.BundleService.RegisterFlight | aggregator/src/app/BundleService.ts:393-398 | the loop over included rows takes the machine's step |
| BundleServiceObject.BundleService.MarkConfirmed | aggregator/src/app/BundleService.ts:412-418 | the loop over included rows takes the machine's step |
| BundleServiceObject.BundleService.Settle | aggregator/src/app/BundleService.ts:450-458 | the `finally` block takes the machine's step |
| BundleServiceObject.BundleService.LeaveSubmission | aggregator/src/app/BundleService.ts:363-367 | takes the machine's step; aggregation is tried again exactly after a submission and not while stopping |
| ServiceRuns.StopCanDeadlock | aggregator/src/app/BundleService.ts:93-96 | for every number of permits, submissions that start once the service is stopping use all of them up and the next one waits for ever |
| Composition.RunIsADecision | aggregator/src/app/BundleService.ts:321-360 | whatever the strategy returns for the rows a submission selected is a decision the service can take, and it asks for a permit exactly if there is an aggregate |
| Composition.ServiceFollowsGroups | aggregator/src/app/runQueryGroup.ts:10-28 | for every interleaving of query groups the service has a run whose body is the group in its transaction, if any |
| Composition.ServiceIssuesTrace | aggregator/src/app/runQueryGroup.ts:11-27 | that run begins, commits and rolls back exactly where the groups do |
| SubmissionTimer.CompletionSettles | aggregator/src/app/SubmissionTimer.ts:43-62 | one more completion resolves exactly the listeners that waited for no more |
| SubmissionTimer.Timer.NotifyActive | aggregator/src/app/SubmissionTimer.ts:20-37 | arms the timer unless armed |
| SubmissionTimer.Timer.Clear | aggregator/src/app/SubmissionTimer.ts:39-41 | no wait can trigger any more |
| SubmissionTimer.Timer.WaitEnds | aggregator/src/app/SubmissionTimer.ts:31-35 | a wait triggers exactly when it was not cleared, and then no other can |
| SubmissionTimer.Timer.SubmissionCompletes | aggregator/src/app/SubmissionTimer.ts:43-62 | counts and resolves |
| SubmissionTimer.Timer.WaitForCompletedSubmissions | aggregator/src/app/SubmissionTimer.ts:64-75 | resolved at once or listed, according to the count |
| MeasuredCalls.MeasuringIsHarmless | aggregator/src/app/EthereumService.ts:275-304 | measurements that change nothing leave every call's result as it was, and each is taken in the state between its calls |
| MeasuredCalls.CallStaticSequenceWithMeasure | aggregator/src/app/EthereumService.ts:275-304 | every result is that of its call or measurement in the state left by all before it; if measuring changes nothing, calls return what they would without it |
| OptimismFee.CallDataGasCounts | aggregator/src/helpers/getOptimismL1Fee.ts:20-28 | 4 for each zero byte and 16 for each other |
| OptimismFee.EstimateOptimismL2GasNeededForL1Gas | aggregator/src/app/EthereumService.ts:507-536 | the loop and closing expression |
| OptimismFee.GetOptimismL1Fee | aggregator/src/helpers/getOptimismL1Fee.ts:18-47 | the loop and closing expression |
| OptimismFee.EstimateIsTight | aggregator/src/app/EthereumService.ts:528-536 | the gas set aside is worth at least the adjusted fee and less than one unit of gas more, but for seven roundings |
| OptimismFee.FeeIsRoundedDown | aggregator/src/helpers/getOptimismL1Fee.ts:39-46 | the charged fee is the exact one rounded down |
| OptimismFee.EstimateIsTightExactly | aggregator/src/app/EthereumService.ts:528-536 | in exact arithmetic the same without roundings and for any percentage |
| OptimismFee.EnoughForDoubles | aggregator/src/app/EthereumService.ts:528-531 | for doubles an increase of a 10^-13th percent, or a fee below 2^50 wei, makes up for the roundings |
| OptimismFee.EstimateCoversFee | aggregator/src/app/EthereumService.ts:507-536 | over the same bytes and prices the gas set aside pays for the charged fee whenever the increase, or the granularity of a wei, makes up for the roundings |
| Rounding.AfterTimes | aggregator/src/app/EthereumService.ts:526-536 | products of values that were rounded n and m times err by no more than n + m roundings |
| Rounding.AfterLoses | aggregator/src/app/AggregationStrategy.ts:552-557 | n roundings lose at most n times the relative error |
| Rounding.IntegerAbove | aggregator/src/app/AggregationStrategy.ts:552-557 | rounding up makes good for any loss smaller than the unit the value is counted in |

## Left out

- Breakeven.FeesCoverAggregateGas: rows checked at more than the lowest price must need a non-negative amount of gas;
  overflow and underflow of doubles, and the throw of `toNumber` from 2^53 up, are not modelled.
- Breakeven.LossMeansGasGrew: the same; an aggregate that is priced higher than its parts may lose by the price alone.
- OptimismFee.EstimateCoversFee: overflow and underflow of doubles are not modelled; without an increase, and from
  2^50 wei up, the roundings may cost more than the wei that are rounded up.
- OptimismFee.EstimateIsTight: as a bound with roundings for non-negative percentages only.
- BundleTable.RowRoundTrip: bundle, receipt, error and hashes are one opaque text, so the JSON conversions, which
  differ between inserting and updating, are not covered.
- Curve arithmetic, pairings and keccak: signatures are an arbitrary monoid with the library's failure on the
  identity, hashes an arbitrary function.
- Token fees: the branch is approximate floating point by design.
- `Framing.RunReads`, `Bundles.RunReads` and `Bundles.BundleRoundTrip` take fewer than 2^256 operations, as the
  contract's count cannot hold more.
- Spelling of addresses: the client compares hex text, which distinguishes upper and lower case; here addresses
  are their 20 bytes.
- The registries are assumed not to change while one operation is being compressed; between the operations of a
  bundle, and between compression and expansion, they may grow in any way.
- Calldata parsed by the client is ABI-decoded strictly; the tolerance of particular decoder versions is not modelled.
- Database errors, exceptions thrown by event listeners and errors inside synchronous code after the last await of
  a body: a body can throw only at its awaits.
- Which eligible rows the limit leaves is an arbitrary choice in `Service`; `BundleTable` has the query itself.
- The order in which groups get the lock is an arbitrary choice in `Service`; `QueryGroups` proves it is that of
  the requests.
- The semaphore is a counter: at most one submission at a time can wait for it, so its queue does not matter.
- Row ids in the service model are positions in the table; the set of in-flight bundles is that of its flights.
- When `tryAggregating` triggers, arms or clears the timer: submissions may start at any moment.
- `submitBundle`'s retries and `GasConfig`: easy bounds around network behaviour.
- RPC, contract deployment, HTTP routes, environment parsing and the parsers of requests: input and output.
- The browser extension: asynchronous events and browser storage.
