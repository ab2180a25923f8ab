# Verified model of the payment rail

A Dafny 4.11 model of the parts of the payment rail that move and account for money, with proofs of what
they promise. `dafny verify dfyconfig.toml` checks the whole project.

- **Batch calldata.** Receipts are packed into a blob with an address dictionary and decimal mantissas, and
  unpacked by a cursor decoder. The codec round-trips, is prefix-free, and the packer emits a shortest
  blob the decoder accepts. Which batches are packed, which blobs are taken and where every
  field stands is stated in terms of characters. (`CompactCodec`, `CompactTheorems`, `CompactAcceptance`,
  `CompactLayout`, `CompactReading`, `BatchCalldata`; the fixed-width layout in `ReceiptPacking`.)
- **Merkle proofs.** The loops refine a recursive tree; proofs are complete, sound at full height, and a
  root binds its batch exactly up to swaps in its tree. (`MerkleTree`, `MerkleBinding`, `Merkle`.)
- **Settlement.** One row, its attempts, retries and replays, interleaved with a chain that mines, reverts,
  drops and reorganises: a batch is paid at most once, and a payment that succeeds in sight of its attempt is
  booked. (`Settlement`, `SettlementOutcome`, `SettlementService`, `SettlementRetry`.)
- **Escrow contract.** Every function, with receivers of payouts free to call back: the contract stays
  solvent, and who may call what, and who is paid, follows from the calls before. (`EscrowHub`, `HubContract`,
  `HubHistory`.)
- **Batch scheduler.** Ticks group, cut, settle and mark receipts; blob, total, root and stored leaf order
  agree, and inclusion proofs verify. (`BatchStore`, `BatchScheduler`.)
- **Ledgers around the contract.** Spending windows, partial releases, refunds, reconciliation, fee policy
  and fee ledger, each under any interleaving of concurrent calls. (`SpendingLimit`,
  `SpendingLimitService`, `SpendingAnswer`, `EscrowRelease`, `EscrowReleaseService`, `ReleaseAnswer`,
  `Refunds`, `RefundsService`, `RefundAnswer`, `Reconciliation`, `FeePolicy`, `FeeLedger`, `FeeAnswer`.)
- **Idempotency keys.** The interceptor's statements as atomic steps over a table with a unique index.
  (`Idempotency`, `IdempotencyTwice`, `IdempotencyInterceptor`, `IdempotencyAnswer`.)
- **Printers and parsers.** Money text, canonical JSON, CSV and keyset export. (`Amount`, `CanonicalJson`,
  `CanonicalText`, `Csv`, `SettlementExport`; numerals and hex text in `Digits` and `Hex`.)

## How it is modelled

Concurrent services are machines: a state, a total step function in which an event out of turn changes
nothing, and runs that fold it over any sequence of events. Theorems are about every run. Beside each
machine a class has the source's methods in the source's order, reading and writing its own fields, with
scripts that say what others do at each `await` and which awaited statements throw. The state and the answer
that a script leads to are a function of the machine, and the methods are proved to compute it; a history of
events ties the object to a run, so the theorems hold of every sequence of calls. What one call makes of its
tables and answers its caller is stated a second time, await by await and without the machine's steps, and
shown to be the same. Algorithms over text and lists are loops proved against functions, and the theorems
are about those functions.

The environment is explicit. A broadcast either throws with nothing sent or yields a new hash; the write
that records the hash succeeds; reverted and dropped transactions never come back; a mined transaction short
of the required depth may be reorganised, a deeper one may not; a database statement that throws has changed
nothing; two attempts on one settlement do not overlap. Keccak is a parameter, assumed to print hashes and,
where a statement needs it, not to collide on the pairs that statement names. Clocks of all instances are
one clock. Results of sorted queries enter as parameters that satisfy the query's meaning.

## Where code and documentation differ

The model follows the code.

- `docs/SETTLEMENT-PROTOCOL.md:108-124` describes `settledBatches` and `totalSettled` checks that
  `contracts/src/EscrowHub.sol` does not have: the contract accepts the same receipts root twice, within
  deposit and budget (`SameRootPaysTwiceIff`). That a batch is paid once rests on the settlement service (`PaidAtMostOnce`).
- `docs/SETTLEMENT-PROTOCOL.md:277-279` names four characters that are guarded in CSV cells; the code also guards
  tab and carriage return.
- The interceptor's comment says a retry does not run the handler again. It can, when the handler
  succeeded and the write of its response failed (`HandlerCanSucceedTwice`). A second success before the
  first record's expiry is possible exactly when that write has failed or still can, there is time left
  or a later run in play, and no record that a failed deletion left behind blocks the key
  (`SecondSuccessIff`).
- A comment at `src/modules/settlement/settlement.service.ts:241` has a row keep waiting below the required
  depth. With more than one confirmation, a reorganisation between the two reads of the earlier
  transaction can settle the row all the same (`SettledIsAlwaysFinalIff`).
- A failed payout is documented to give its amount back to the session. It does exactly when the update of
  the give-back runs without throwing while the session is still open (`GivenBackIff`); with the session
  open, an update that throws keeps the amount too (`GiveBackCanThrow`). A payout whose wait timed out counts as failed too: its
  transaction can still pay, exactly while it is pending and the contract can pay it
  (`GivenBackIsPaidIff`), and the amount can be released and paid a second time
  (`GivenBackCanBePaidTwice`). Without such a wait releasedAmount covers what was paid
  (`ReleasedCoversPaid`).
- A refund row marked failed does not mean the escrow was not refunded. One call whose wait throws after
  its broadcast suffices (`TimedOutCallFailsRefunded`), and such a wait is the only way for a call that
  broadcast to end failed (`FailedAfterBroadcast`); a failed row can stand for a refunded escrow exactly
  when a close has succeeded or one that was broadcast can still be mined (`FailedCanBeRefundedIff`). The
  amount of a completed row need not be what the contract paid back (`RefundMatchesIff`). A row marked completed is final exactly when no other call can still save a failure
  (`CompletedStaysIff`, `CompletedCanBeOverwritten`).
- `docs/OBSERVABILITY.md:36` defines the shortfall on one state of hub and sessions. The code reads sessions
  and balance at different moments, so it can report one while every session agrees: exactly when the sessions' escrows have lost more since their
  reads than the contract holds for everything else (`ShortfallIff`).
- Anyone may freeze an active escrow, and a dispute does not block closing it.

## Model

| member | source | states |
|---|---|---|
| `BatchCalldata.PackReceiptsCompact` | src/modules/settlement/batch-calldata.util.ts:46-103 | The packing loop, with its address dictionary filled as it goes, builds exactly the blob of the specification or throws its first error; count, bytes and the Merkle root are those of the batch |
| `BatchCalldata.PackRecord` | src/modules/settlement/batch-calldata.util.ts:69-92 | One receipt checked, interned and written: hash, payer index, payee index, exponent, mantissa length, mantissa |
| `BatchCalldata.AddressDictionary.Lookup` | src/modules/settlement/batch-calldata.util.ts:52-64 | An address gets the index of its first occurrence; the dictionary only grows at its end and rejects a 256th address |
| `BatchCalldata.UnpackReceiptsCompact` | src/modules/settlement/batch-calldata.util.ts:105-144 | The cursor decoder returns what the recursive reader of the format returns, with the same rejection |
| `BatchCalldata.BlobReader.Next` | src/modules/settlement/batch-calldata.util.ts:109-115 | `take` returns the next bytes and moves the cursor past them, or throws when the blob is truncated |
| `BatchCalldata.BlobReader.NextReceipt` | src/modules/settlement/batch-calldata.util.ts:129-140 | One record read at the cursor: index range, mantissa length, uint256 bound |
| `CompactCodec.ToScientific` | src/modules/settlement/batch-calldata.util.ts:159-168 | The loop strips every trailing decimal zero: the mantissa and exponent of the specification |
| `CompactCodec.ScientificValue` | src/modules/settlement/batch-calldata.util.ts:159-168 | Mantissa times ten to the exponent is the amount |
| `CompactCodec.MantissaIsLeast` | src/modules/settlement/batch-calldata.util.ts:159-168 | No other scientific form of the amount has a smaller mantissa |
| `CompactCodec.ExponentBound` | src/modules/settlement/batch-calldata.util.ts:75-81 | An amount within uint256 has an exponent of at most 77 |
| `CompactCodec.MantissaHexIsShortest` | src/modules/settlement/batch-calldata.util.ts:170-177 | No even-length hex mantissa that stands for the amount, with any exponent, is shorter than the one written |
| `CompactTheorems.RoundTrip` | src/modules/settlement/batch-calldata.util.ts:46-144 | Unpacking a packed batch returns its receipts in order, hex in lower case |
| `CompactTheorems.PrefixFree` | src/modules/settlement/batch-calldata.util.ts:105-144 | No accepted blob is a proper prefix of another accepted blob |
| `CompactTheorems.ContinuedHexIsRejected` | src/modules/settlement/batch-calldata.util.ts:142 | Anything after the last record is rejected as trailing bytes |
| `CompactTheorems.ShortestBlob` | src/modules/settlement/batch-calldata.util.ts:46-144 | For every blob the decoder accepts, packing its receipts succeeds, decodes to the same receipts and is no longer than that blob |
| `CompactTheorems.PackedBlob` | src/modules/settlement/batch-calldata.util.ts:94-103 | The length of a packed blob: header, 20 bytes for each distinct address, and the records |
| `CompactTheorems.Pigeonhole` | src/modules/settlement/batch-calldata.util.ts:52-64 | Distinct dictionary entries drawn from an accepted blob's address table are no more than the table holds |
| `CompactAcceptance.PackIff` | src/modules/settlement/batch-calldata.util.ts:46-79 | A batch is packed exactly when it has at most 65535 receipts, every hash and address matches its pattern in either letter case, every amount is a uint256, and at most 255 distinct lower-cased addresses occur |
| `CompactAcceptance.PackErrorIsFirst` | src/modules/settlement/batch-calldata.util.ts:46-79 | A batch that is not packed is too long, or its error is that of the first receipt that does not fit after those before it |
| `CompactLayout.BlobLayout` | src/modules/settlement/batch-calldata.util.ts:81-97 | A packed blob is version, address count, the addresses in order of first appearance, receipt count, and for each receipt a record with its fields at their offsets |
| `CompactReading.UnpackIff` | src/modules/settlement/batch-calldata.util.ts:105-144 | A blob is taken, and stands for these receipts, exactly when its lower-cased digits have the layout, canonical or not, with mantissas of at most 32 bytes and amounts that are uint256 |
| `Hex.MatchesHexIff` | src/modules/settlement/batch-calldata.util.ts:54 | The pattern of a prefixed hex text, in terms of its characters |
| `Hex.LowerOfHex` | src/modules/settlement/batch-calldata.util.ts:57 | Lower case takes each hex digit to the lower-case digit of its value |
| `Digits.Positional` | src/modules/settlement/batch-calldata.util.ts:167-174 | Numerals are positional, the most significant digit first |
| `ReceiptPacking.PackReceipts` | src/modules/settlement/receipt-packing.util.ts:30-70 | The v1 packer accepts exactly the receipts that fit its fields and writes their fixed-width records and root |
| `ReceiptPacking.UnpackReceipts` | src/modules/settlement/receipt-packing.util.ts:72-86 | The v1 decoder's loop reads the records one after the other, with its one malformed-number failure |
| `ReceiptPacking.RoundTrip` | src/modules/settlement/receipt-packing.util.ts:30-86 | Unpacking a v1 batch returns its receipts in order, hex in lower case |
| `ReceiptPacking.CheckIs` | src/modules/settlement/receipt-packing.util.ts:43-51 | The check a v1 receipt fails first, in terms of the characters of its fields and the range of its amount |
| `ReceiptPacking.BlobLayout` | src/modules/settlement/receipt-packing.util.ts:53-67 | Record i of a v1 batch stands at byte 80 * i: hash, payer, payee in lower case, then the amount in sixteen digits |
| `ReceiptPacking.UnpackIff` | src/modules/settlement/receipt-packing.util.ts:72-86 | Which v1 blobs are taken, what each record of them becomes, and which of the two errors the others give |
| `ReceiptPacking.HexBigIntIff` | src/modules/settlement/receipt-packing.util.ts:82 | An amount field is read exactly when it is hex digits of either case with white space after them |
| `ReceiptPacking.LayoutsAgree` | src/modules/settlement/batch-calldata.util.ts:1-144 | A batch both layouts accept decodes to the same receipts from either |
| `ReceiptPacking.CompactIsShorter` | src/modules/settlement/batch-calldata.util.ts:1-46 | The compact layout is strictly shorter whenever its dictionary costs less than 36 bytes a receipt |
| `ReceiptPacking.CalldataGas` | src/modules/settlement/batch-calldata.util.ts:147-156 | The gas loop charges 4 for each zero byte and 16 for each other byte |
| `ReceiptPacking.GasSplits` | src/modules/settlement/batch-calldata.util.ts:147-156 | Gas of two byte strings is the sum of their gas |
| `ReceiptPacking.GasBounds` | src/modules/settlement/batch-calldata.util.ts:147-156 | Gas is between 4 and 16 per byte |
| `ReceiptPacking.GasOfByte` | src/modules/settlement/batch-calldata.util.ts:147-156 | A byte costs 4 when both its digits are zero and 16 otherwise |
| `Merkle.ParentLevel` | src/modules/receipts/merkle.util.ts:30-36 | The loop pairs neighbours and an odd last node with itself; each parent is the hash of the smaller node followed by the larger one |
| `Merkle.MerkleRoot` | src/modules/receipts/merkle.util.ts:38-43 | The loop computes the root of the recursive tree; the empty batch has the zero hash, a malformed leaf throws |
| `Merkle.MerkleProof` | src/modules/receipts/merkle.util.ts:46-60 | The loop collects the siblings of the recursive path; an index outside the batch throws |
| `Merkle.RefusesIff` | src/modules/receipts/merkle.util.ts:16-60 | Root and proof are refused exactly for a leaf that is not a hash or an index outside the batch; no receipt has the zero root and one receipt its own lower-cased hash |
| `Merkle.RootOfTwo` | src/modules/receipts/merkle.util.ts:18-43 | The root of two receipts is the hash of their lower-cased hashes, the smaller one first, in whichever order they come |
| `Merkle.ParentsHashInOrder` | src/modules/receipts/merkle.util.ts:18-36 | Every parent of a level is the hash of its smaller node followed by its larger one, and of an odd last node followed by itself |
| `Merkle.VerifyIff` | src/modules/receipts/merkle.util.ts:62-70 | A proof is accepted exactly when a walk by the documented rule min(a, b) ++ max(a, b) leads from the leaf to the root |
| `MerkleTree.RootIsTopOfTree` | src/modules/receipts/merkle.util.ts:38-43 | Halving levels computes the top node of the tree defined by recursion on subtrees |
| `MerkleTree.HeightIsCeilLog2` | src/modules/receipts/merkle.util.ts:46-60 | A proof has ceil(log2 n) siblings |
| `Merkle.PayloadDeterminesPair` | src/modules/receipts/merkle.util.ts:18-21 | The sorted payload determines the unordered pair it was made from |
| `Merkle.Completeness` | src/modules/receipts/merkle.util.ts:38-70 | Every receipt of every batch proves its inclusion, odd levels included, with ceil(log2 n) siblings |
| `Merkle.Soundness` | src/modules/receipts/merkle.util.ts:62-70 | A verified proof of full height puts the leaf in the batch, when keccak does not collide on the pairs hashed |
| `MerkleTree.ClimbersAreNodes` | src/modules/receipts/merkle.util.ts:62-70 | A climb of m steps that reaches the root started at a node exactly m levels below it |
| `Merkle.RootBindsBatch` | src/modules/receipts/merkle.util.ts:38-43 | Batches of equal height and equal root hold the same set of receipt hashes |
| `Merkle.EqualRootsIff` | src/modules/receipts/merkle.util.ts:38-43 | Batches of equal height have equal roots if and only if their trees agree up to swapping the children of nodes, when keccak does not collide on the pairs hashed |
| `MerkleBinding.EqualRootsIff` | src/modules/receipts/merkle.util.ts:30-43 | The same for every symmetric pairing |
| `MerkleBinding.FullBatchesAreBound` | src/modules/receipts/merkle.util.ts:30-43 | Batches that fill their trees and have one root hold the same leaves equally often |
| `MerkleBinding.EqualCountBindsNoMore` | src/modules/receipts/merkle.util.ts:30-36 | Batches of three can have one root and hold their leaves in different numbers |
| `MerkleTree.RepeatedLastLeafSameRoot` | src/modules/receipts/merkle.util.ts:30-36 | Repeating the last leaf of an odd batch leaves the root unchanged: the root does not fix the count |
| `Merkle.EveryNodePassesAsLeaf` | src/modules/receipts/merkle.util.ts:62-70 | Verification alone does not fix the height: every node of every level of the tree is accepted as a leaf, with a proof as much shorter as the node is above the leaves |
| `Settlement.PaidAtMostOnce` | src/modules/settlement/settlement.service.ts:83-123 | In every run of attempts, retries and replays with the chain moving between any two reads, every hash broadcast other than the recorded one is dead, and at most one transaction has paid |
| `Settlement.SettledIsFinalUnlessReorgBetweenReads` | src/modules/settlement/settlement.service.ts:234-247 | SETTLED implies one payment at the required depth, in every run without a reorganisation between the receipt read and the depth read |
| `Settlement.SettledIsAlwaysFinalIff` | src/modules/settlement/settlement.service.ts:234-247 | SETTLED implies a payment at the required depth in every run if and only if one confirmation is required |
| `Settlement.TornReadsSettleUnpaid` | src/modules/settlement/settlement.service.ts:234-247 | For two or more confirmations, a run whose first wait timed out and in which the two reads of the next attempt straddle a reorganisation ends SETTLED with its recorded transaction pending |
| `Settlement.SettledIsAbsorbing` | src/modules/settlement/settlement.service.ts:83-163 | A settled row never changes again and sends nothing more |
| `Settlement.AlwaysBooked` | src/modules/settlement/settlement.service.ts:83-163 | Between attempts nextRetryAt is set exactly in RETRYING, RETRYING implies attempts left, waits use up no attempt, counted attempts stay within maxAttempts |
| `Settlement.BroadcastsAreBounded` | src/modules/settlement/settlement.service.ts:174-191 | A run sends at most maxAttempts transactions for each fresh start or replay |
| `Settlement.BackoffIsBounded` | src/modules/settlement/settlement.service.ts:151-155 | After k failures the summed backoff is at most min(base * (2^k - 1), k * max) |
| `SettlementService.SettlementRow.Attempt` | src/modules/settlement/settlement.service.ts:83-123 | The attempt, with the chain moving at every await, is a run of the settlement machine that ends at rest, and leaves the row and the chain that its reads call for (`SettlementOutcome.Outcome`) |
| `SettlementService.SettlementRow.ConfirmEarlierTransaction` | src/modules/settlement/settlement.service.ts:234-247 | The look at the previous transaction: its four results, the machine step each one is, and which one the chain at its reads gives |
| `SettlementService.SettlementRow.Send` | src/modules/settlement/settlement.service.ts:249-262 | Gas check, broadcast, hash write and wait, as machine steps; what it saw, the chain and the recorded hash follow from the script |
| `SettlementService.SettlementRow.RecordBroadcast` | src/modules/settlement/settlement.service.ts:249-262 | A broadcast that went out is recorded under its own hash, one no earlier transaction has |
| `SettlementService.SettlementRow.WaitFor` | src/modules/settlement/settlement.service.ts:249-262 | The wait returns exactly when it answers and the transaction is mined ok at the required depth, and throws on a revert or a timeout |
| `SettlementService.SettlementRow.SettleBatch` | src/modules/settlement/settlement.service.ts:55-73 | A submitted row makes its first attempt at once |
| `SettlementService.SettlementRow.Retry` | src/modules/settlement/settlement.service.ts:157-163 | A due row makes exactly one attempt |
| `SettlementService.SettlementRow.ReplayNow` | src/modules/settlement/settlement.service.ts:174-191 | Replay is accepted exactly for dead-lettered and rejected rows while not paused, and starts a fresh count |
| `SettlementOutcome.SettledIff` | src/modules/settlement/settlement.service.ts:83-101 | An attempt books SETTLED, with settledAt now and no retry time or error, exactly when the earlier transaction was mined ok and deep enough at its depth read, or the sent one was at the end of its wait |
| `SettlementOutcome.FirstAttemptSettlesIff` | src/modules/settlement/settlement.service.ts:83-101 | A first attempt ends settled exactly when nothing threw and the chain it leaves holds its transaction mined ok at the required depth |
| `SettlementService.FailureIsWritten` | src/modules/settlement/settlement.service.ts:102-118 | The row of a failed attempt: REJECTED for the three final codes, else DEAD_LETTER once the attempts are used up, else RETRYING after min(base * 2^min(attempts - 1, 30), max) |
| `SettlementRetry.SettlementRetryService.ProcessDue` | src/modules/settlement/settlement-retry.service.ts:56-81 | A tick makes exactly one attempt, with the answers of its script, on each of the due rows it was given, at most a batch of them, counts how they ended, and does nothing while running or paused |
| `EscrowHub.SolventForever` | contracts/src/EscrowHub.sol:55-191 | In every run, at every depth of re-entrancy: balance = deposits not spent of active escrows + fees withheld + ether received; spent <= min(deposit, budget); after closing, payouts + fees + refund = deposit |
| `EscrowHub.SettlementIsCovered` | contracts/src/EscrowHub.sol:89-115 | In a reachable state settleBatch pays exactly when its checks pass: it never fails for lack of ether |
| `EscrowHub.SameRootPaysTwiceIff` | contracts/src/EscrowHub.sol:89-115 | Of two calls with one receipts hash and amount, one after the other, both pay exactly when the escrow is active, undisputed, and deposit and budget hold the amount twice |
| `EscrowHub.RefundIsCovered` | contracts/src/EscrowHub.sol:168-181 | In a reachable state the owner can close exactly the active escrows |
| `EscrowHub.ClosedIsFinal` | contracts/src/EscrowHub.sol:149-181 | A closed escrow is never paid from, refunded or reopened again |
| `EscrowHub.ClaimableIffExpiryFits` | contracts/src/EscrowHub.sol:117-133 | Of an amount that settleBatch would pay in a reachable state, someone can claim at some time exactly when createdAt + ttl does not overflow |
| `HubContract.PerformIsRun` | contracts/src/EscrowHub.sol:55-191 | A call with everything its receivers do inside it is a run of the machine that ends at the same depth |
| `HubContract.PerformIsSolvent` | contracts/src/EscrowHub.sol:55-191 | Whatever a caller does, however deep its receivers call back, a solvent hub stays solvent; a reverted call changes nothing |
| `HubHistory.FieldsMatchHistory` | contracts/src/EscrowHub.sol:12-191 | In every run, at every call depth, the contract's fields are what the calls that took effect say: the opening call's parties and bounds, what was taken, closed or frozen since; and the payments are the ones these calls made |
| `HubHistory.SucceedsIff` | contracts/src/EscrowHub.sol:55-189 | A call succeeds in a reachable state exactly when the history allows it: closeEscrow for the opener of an open escrow, claimStream for the named payee until createdAt + ttl while unfrozen, settleBatch while unfrozen and covered, emergencyClose for the owner; payouts less 0.5 % go to the payee, refunds to the opener |
| `HubHistory.PerformSucceedsIff` | contracts/src/EscrowHub.sol:55-191 | A whole call with its nested calls succeeds exactly when the history allows it and the receiver of its payment, if any, accepts |
| `HubContract.Hub.OpenEscrow` | contracts/src/EscrowHub.sol:55-87 | The function's checks and writes are those of the machine |
| `HubContract.Hub.SettleBatch` | contracts/src/EscrowHub.sol:89-115 | Checks, spent before the transfer, fee withheld, revert of everything when the transfer fails |
| `HubContract.Hub.ClaimStream` | contracts/src/EscrowHub.sol:117-147 | As settleBatch, for the payee and before expiry |
| `HubContract.Hub.CloseEscrow` | contracts/src/EscrowHub.sol:149-166 | Only the payer; inactive before the refund is sent |
| `HubContract.Hub.EmergencyClose` | contracts/src/EscrowHub.sol:168-181 | Only the owner; inactive before the refund is sent |
| `HubContract.Hub.FreezeOnDispute` | contracts/src/EscrowHub.sol:183-189 | Anyone may mark an active escrow disputed |
| `HubContract.Hub.Dispatch` | contracts/src/EscrowHub.sol:55-191 | A receiver's call back into any function, as the machine has it |
| `Amount.ParsingIsExact` | src/common/money/amount.ts:37-54 | Decimal text, or exponent text within the expanded range, is accepted exactly when the number times 10^18 is an integer, and that integer is returned; all other text is rejected |
| `Amount.ExpansionKeepsNumber` | src/common/money/amount.ts:169-180 | expandExponent yields plain decimal text that denotes the same number |
| `Amount.WeiIsUnique` | src/common/money/amount.ts:37-54 | A text denotes at most one number of wei |
| `Amount.PlainPatternIff` | src/common/money/amount.ts:15 | What the plain pattern matches: an optional minus, digits, and a point with digits or nothing |
| `Amount.ExponentPatternIff` | src/common/money/amount.ts:16 | What the exponent pattern matches: a plain text, a letter e in either case, an optional sign and digits |
| `Amount.PrintingRoundTrips` | src/common/money/amount.ts:141-161 | toPlain, toString and toFixed of every integer parse back to it |
| `Amount.PlainIsShortest` | src/common/money/amount.ts:147-153 | toPlain is the shortest plain decimal text of its amount |
| `Amount.PrintedShapes` | src/common/money/amount.ts:141-161 | toString keeps one fractional digit and no zero after that, toFixed prints eighteen, and no whole part has leading zeros |
| `Amount.Sum` | src/common/money/amount.ts:68-72 | The loop returns the sum of the parsed amounts, or throws when any text is not one |
| `Amount.MinusFloored` | src/common/money/amount.ts:94-98 | What is left, never below zero: it and what was taken make up the amount |
| `Amount.MulDivTruncates` | src/common/money/amount.ts:100-103 | mulDiv drops less than one unit, toward zero, for every sign |
| `CanonicalJson.CanonicalIsInjective` | src/common/idempotency/idempotency.interceptor.ts:150-161 | Two bodies print to the same text exactly when they are equal after reordering object keys at every depth |
| `CanonicalJson.EscapeIsInjective` | src/common/idempotency/idempotency.interceptor.ts:154-161 | An escaped string determines the string, lone surrogates included, and what follows it |
| `CanonicalJson.CanonicalPrintsOrdered` | src/common/idempotency/idempotency.interceptor.ts:154-161 | canonicalJson is the plain print of the value with every object's keys sorted |
| `CanonicalText.TextIs` | src/common/idempotency/idempotency.interceptor.ts:154-161 | The text of a value: its parts in brackets with commas, an object's members by ascending keys, compared by code unit |
| `CanonicalText.QuoteIs` | src/common/idempotency/idempotency.interceptor.ts:154-161 | A quoted string, character by character: the two-character escapes, \u for other controls and lone surrogates, pairs as they are |
| `CanonicalJson.PrintIsInjective` | src/common/idempotency/idempotency.interceptor.ts:154-161 | A printed value determines the value and where it ends |
| `CanonicalJson.OrderedIffSame` | src/common/idempotency/idempotency.interceptor.ts:157-159 | Two values have one sorted form exactly when they are the same up to key order |
| `CanonicalJson.SortedIsUnique` | src/common/idempotency/idempotency.interceptor.ts:157-158 | A list sorted by distinct keys is determined by its elements, so any correct sort gives this one |
| `Idempotency.HandlersDoNotOverlap` | src/common/idempotency/idempotency.interceptor.ts:66-147 | Of two handler runs on one key and scope the later was inserted no earlier than the earlier one's expiresAt, or the earlier had given its key back |
| `Idempotency.CompletedAtMostOnce` | src/common/idempotency/idempotency.interceptor.ts:66-147 | Two completed runs of one key: the later was inserted no earlier than the earlier one's expiresAt |
| `Idempotency.EveryRunIsLogged` | src/common/idempotency/idempotency.interceptor.ts:113-124 | Every request whose handler ran had inserted its record |
| `Idempotency.SecondSuccessNeedsFailedWrite` | src/common/idempotency/idempotency.interceptor.ts:72-83 | The handler succeeds twice before expiry only when the write of the first response failed |
| `Idempotency.HandlerCanSucceedTwice` | src/common/idempotency/idempotency.interceptor.ts:72-83 | Such a run exists: a failed completing write releases the key of a handler that succeeded |
| `IdempotencyTwice.SecondSuccessIff` | src/common/idempotency/idempotency.interceptor.ts:66-147 | After a handler success in any run, some continuation has another success of the key begun before the expiry if and only if: the response is not stored, and either a later run is in play, or the clock is before the expiry and no undeleted record of a request that gave up holds the key past it |
| `IdempotencyTwice.HolderIsLater` | src/common/idempotency/idempotency.interceptor.ts:113-131 | Where a request has given up, a live record whose request still holds the key is that of a later insertion |
| `Idempotency.ReplaysAreStored` | src/common/idempotency/idempotency.interceptor.ts:96-111 | Every replay returns the stored body of a completed run with the same key, scope and body hash |
| `IdempotencyInterceptor.Interceptors.Intercept` | src/common/idempotency/idempotency.interceptor.ts:53-86 | With other requests acting and statements throwing as the script says, the tables and the answer are those the protocol leads to from the state of the call; a replay has a stored origin |
| `IdempotencyAnswer.InterceptAnswers` | src/common/idempotency/idempotency.interceptor.ts:53-147 | The table and the answer of a request, statement by statement: the hourly purge of expired records, replay, 422 or 409 from a live record, the first insert on a key runs the handler, its response is stored unless another record took the key, and a failure gives the key back |
| `IdempotencyInterceptor.Interceptors.Begin` | src/common/idempotency/idempotency.interceptor.ts:88-132 | Purge, lookup, expired deletion and insert lead to the state the protocol leads to, and the answer is the phase it ends in |
| `IdempotencyInterceptor.FindDecides` | src/common/idempotency/idempotency.interceptor.ts:96-111 | 422 and a replay are answered exactly when the lookup sees a live record with another body hash, or with the same hash and that response; a live record without a response is a 409 |
| `IdempotencyInterceptor.Interceptors.Arrival` | src/common/idempotency/idempotency.interceptor.ts:142-144 | The purge runs at most once an hour per instance, and its time is taken before the first await |
| `IdempotencyInterceptor.Interceptors.Insert` | src/common/idempotency/idempotency.interceptor.ts:113-131 | The insert succeeds exactly when the unique index is free |
| `IdempotencyInterceptor.Interceptors.Complete` | src/common/idempotency/idempotency.interceptor.ts:134-139 | The save updates the row, inserts it again when it was purged, and fails only against another record of the key |
| `IdempotencyInterceptor.Interceptors.Handle` | src/common/idempotency/idempotency.interceptor.ts:72-83 | Handler, completing save and release lead to the state the protocol leads to; unless the response was stored or the deletion throws, the request has no record left |
| `BatchStore.ReceiptInOneSettlement` | src/modules/receipts/receipts.service.ts:73-80 | No receipt is in two settlements, or twice in one |
| `BatchStore.BatchIsFaithful` | src/modules/settlement/settlement-batch.scheduler.ts:120-145 | A settlement's blob decodes to exactly its receipts in batchIndex order, and its totalAmount parses to the sum of their wei |
| `BatchStore.TotalOfOneMore` | src/modules/settlement/settlement-batch.scheduler.ts:120-137 | A total is the sum of the amounts of its receipts |
| `BatchStore.InclusionVerifies` | src/modules/receipts/receipts.service.ts:83-106 | inclusionProof rebuilds the stored receiptsHash and its proof verifies, for every settled receipt |
| `BatchStore.QueryIsLeafOrder` | src/modules/receipts/receipts.service.ts:90-94 | The query ordered by batchIndex, createdAt and id returns the batch in leaf order |
| `BatchStore.BatchKeepsSound` | src/modules/settlement/settlement-batch.scheduler.ts:131-145 | Opening a settlement for waiting receipts and marking them keeps all of the above |
| `BatchScheduler.GroupByEscrow` | src/modules/settlement/settlement-batch.scheduler.ts:153-161 | One group for each escrow with receipts, in the order of their first receipts, holding all of them in order |
| `BatchScheduler.DueChunks` | src/modules/settlement/settlement-batch.scheduler.ts:109-118 | All receipts once the window has elapsed, else only the full batches; each batch at most maxReceipts, all but the last full |
| `BatchScheduler.CutIsUnique` | src/modules/settlement/settlement-batch.scheduler.ts:109-118 | There is one way only to cut rows in order into full batches and a last one |
| `BatchScheduler.DueIff` | src/modules/settlement/settlement-batch.scheduler.ts:108-118 | Of rows ordered oldest first all are due exactly when one has waited for the window or they fill whole batches; otherwise the first maxReceipts * floor(n / maxReceipts) are |
| `BatchScheduler.SettledRowsIff` | src/modules/settlement/settlement-batch.scheduler.ts:88-118 | The rows of an escrow that a tick settles are the due ones, up to the first batch whose settlement throws or whose receipts do not parse or pack |
| `BatchScheduler.Prepare` | src/modules/settlement/settlement-batch.scheduler.ts:121-137 | The row of a batch describes its receipts, and exists exactly when every amount parses and the codec accepts the batch |
| `BatchScheduler.SettlementBatchScheduler.SettleChunk` | src/modules/settlement/settlement-batch.scheduler.ts:120-150 | A batch is settled exactly when settleBatch does not throw and the batch packs: then one new settlement has exactly its rows, else no row and no settlement of the batch changes |
| `BatchScheduler.SettlementBatchScheduler.MarkSettled` | src/modules/receipts/receipts.service.ts:73-80 | The order of the ids becomes the stored leaf order |
| `BatchScheduler.SettlementBatchScheduler.SettleGroup` | src/modules/settlement/settlement-batch.scheduler.ts:88-101 | Of one escrow exactly the batches before the first that throws or does not pack are settled, each by a settlement of its own; its other rows wait, and the counters grow by what was settled and one for a failure |
| `BatchScheduler.SettlementBatchScheduler.RunOnce` | src/modules/settlement/settlement-batch.scheduler.ts:77-106 | A tick settles of every escrow exactly the due batches before its first failing one, whatever the other escrows do; no other receipt and no earlier settlement or membership changes; batches, receipts and failed are fixed by the pending rows and the script; nothing happens while running or paused; with no failing batch no pending receipt of an escrow that has one as old as the window waits |
| `BatchScheduler.FailedCountsEscrows` | src/modules/settlement/settlement-batch.scheduler.ts:88-101 | `failed` is the number of escrows with a failing batch, each counted once |
| `BatchScheduler.SettlementBatchScheduler.CreateReceipt` | src/modules/receipts/receipts.service.ts:27-38 | A new receipt waits for a batch and disturbs none |
| `BatchScheduler.SettlementBatchScheduler.InclusionProof` | src/modules/receipts/receipts.service.ts:83-106 | The proof returned has the settlement's root and verifies; an unbatched receipt is a conflict |
| `SettlementExport.ExportPage` | src/modules/settlement/settlement-export.service.ts:62-113 | A page holds the first matching rows after the cursor, a cursor exactly when more follow, and the header on the first page only |
| `SettlementExport.PageHoldsFirst` | src/modules/settlement/settlement-export.service.ts:64-98 | A page holds the first rows that pass the given filters after the cursor, at most 500 or the capped limit, and its cursor is that of its last row exactly when more follow |
| `SettlementExport.CellsFitHeader` | src/modules/settlement/settlement-export.service.ts:118-136 | Every cell of a record is the row's value in the column its header names |
| `SettlementExport.RowsIncrease` | src/modules/settlement/settlement-export.service.ts:67-93 | The rows of an export come in strictly increasing (createdAt, id) order, whatever happens to the table |
| `SettlementExport.ExportIsComplete` | src/modules/settlement/settlement-export.service.ts:48-113 | A finished export returns every row that existed and matched throughout exactly once, whatever is inserted or updated between pages |
| `SettlementExport.PagesOfFixedTable` | src/modules/settlement/settlement-export.service.ts:62-93 | On a fixed table it returns exactly the matching rows in max(1, ceil(N / limit)) pages |
| `SettlementExport.FileReadsBackWhole` | src/modules/settlement/settlement-export.service.ts:103-136 | A reader for section 2 of RFC 4180 recovers the header and every guarded cell from the concatenated pages |
| `Csv.FieldReadsBack` | src/modules/settlement/settlement-export.service.ts:139-144 | A written cell reads back as what it says, up to the separator |
| `Csv.FileReadsBack` | src/modules/settlement/settlement-export.service.ts:134-144 | Written records read back cell by cell |
| `Csv.FormulaOnlyFromNumber` | src/modules/settlement/settlement-export.service.ts:139-144 | A cell reaches a spreadsheet as a formula exactly when it is a number that starts with a sign |
| `Csv.GuardMergesIff` | src/modules/settlement/settlement-export.service.ts:142 | Two texts are guarded alike exactly when they are equal or one is the other, a formula, with the apostrophe already in front |
| `Csv.PlainIff` | src/modules/settlement/settlement-export.service.ts:139-144 | A cell is written as it stands exactly when it holds no quote, comma or line break, and guarded exactly when a text starts with one of six characters |
| `SpendingLimit.EveryWindowIsBounded` | src/modules/escrow/spending-limit.service.ts:64-93 | For every window (from, from + length] anywhere in the history, the never-cancelled deposits a limited payer opened in it sum to at most the limit, under any interleaving |
| `SpendingLimit.ClosedWindowCanHoldTwice` | src/modules/escrow/spending-limit.service.ts:137-146 | A window that includes both its ends can hold twice the limit: the half-open window is exact |
| `SpendingLimit.CheckMakesRoom` | src/modules/escrow/spending-limit.service.ts:79-81 | A passed check leaves room in every window the new session can fall in, not only the one summed |
| `SpendingLimitService.SpendingLimitService.Spent` | src/modules/escrow/spending-limit.service.ts:137-146 | The sum of deposits after the window's start, cancelled sessions excluded |
| `SpendingLimitService.SpendingLimitService.Status` | src/modules/escrow/spending-limit.service.ts:95-108 | The limit in force, the spent sum, and what is left, never negative |
| `SpendingLimitService.SpendingLimitService.SetLimit` | src/modules/escrow/spending-limit.service.ts:111-115 | A positive override limits the payer; zero lifts the limit for this payer only |
| `SpendingLimitService.SpendingLimitService.ClearLimit` | src/modules/escrow/spending-limit.service.ts:118-120 | The default applies again to this payer, nothing changes for others |
| `SpendingLimitService.SpendingLimitService.Check` | src/modules/escrow/spending-limit.service.ts:79-90 | Refused exactly when spent plus requested exceeds the limit, with the remaining amount reported |
| `SpendingLimitService.SpendingLimitService.WithinLimit` | src/modules/escrow/spending-limit.service.ts:64-93 | The tables and the answer are those the script leads to on the machine; an accepted call has inserted its own open session, stamped no earlier than the call; a refused one had more requested than remained |
| `SpendingAnswer.WithinLimitAnswers` | src/modules/escrow/spending-limit.service.ts:64-146 | The sessions and the answer of a call, await by await: the payer's own limit before the default, the lock, the sum of the young uncancelled deposits, and the refusal with what is left or the row |
| `EscrowRelease.ReleasedIsWhatIsTaken` | src/modules/escrow/escrow-release.service.ts:80-143 | Under any interleaving 0 <= releasedAmount <= min(deposit, budget), it equals the amounts taken and not given back, and while the session is open the amount of a payout that threw stays taken only if the give-back's update is still ahead or threw as well |
| `EscrowRelease.GiveBackTakesEffectIff` | src/modules/escrow/escrow-release.service.ts:103-105 | A thrown payout's give-back lowers releasedAmount exactly when its update runs without throwing on an open session |
| `EscrowRelease.GivenBackIff` | src/modules/escrow/escrow-release.service.ts:99-112 | In every run a release whose payout threw and that is past its give-back has given its amount back if and only if the update ran without throwing while the session was open; otherwise it holds it |
| `EscrowRelease.ThrewIff` | src/modules/escrow/escrow-release.service.ts:99-112 | In every run the phase of a release tells whether its payout threw at some point |
| `EscrowRelease.GiveBackCanThrow` | src/modules/escrow/escrow-release.service.ts:103-105 | With the session open throughout, a payout and a give-back that both throw keep the amount of a payee who was not paid |
| `EscrowRelease.GiveBackCanBeLost` | src/modules/escrow/escrow-release.service.ts:103-105 | A session closed during the payout keeps the amount although no transaction was sent and the contract paid nothing |
| `EscrowRelease.ReleasedAgainstPaid` | src/modules/escrow/escrow-release.service.ts:80-125 | In every run releasedAmount plus what was paid although given back equals what the contract paid plus what is held unpaid |
| `EscrowRelease.ReleasedCoversPaid` | src/modules/escrow/escrow-release.service.ts:99-112 | releasedAmount covers what the contract paid in every run in which no transaction succeeds whose wait threw |
| `EscrowRelease.ThrownAfterBroadcast` | src/modules/escrow/escrow-release.service.ts:99-112 | A payout with a transaction ends failed only by a wait that threw |
| `EscrowRelease.GivenBackIsPaidIff` | src/modules/escrow/escrow-release.service.ts:99-112 | An amount given back is paid after all, now or in some continuation, exactly when its transaction has succeeded or is pending while the contract can pay it |
| `EscrowRelease.GivenBackCanBePaidTwice` | src/modules/escrow/escrow-release.service.ts:99-112 | A run in which a timed-out payout is given back, the amount is released again, and both are paid |
| `EscrowReleaseService.EscrowSession.Reserve` | src/modules/escrow/escrow-release.service.ts:131-143 | The conditional update changes the row exactly when the session is open and the result stays in range |
| `EscrowReleaseService.EscrowSession.Release` | src/modules/escrow/escrow-release.service.ts:71-125 | The row, the transaction and the answer are those the script leads to on the machine: completed, refused with the reason the second read gives, failed, or abandoned by a failed write |
| `ReleaseAnswer.ReleaseAnswers` | src/modules/escrow/escrow-release.service.ts:71-125 | The session and the answer of a release, await by await: taken from an open session that holds it or the refusal explained, the row, the payout, and the give-back with its error |
| `Refunds.RefundedAtMostOnce` | src/modules/refunds/refunds.service.ts:97-198 | refundAmount + min(spent, deposit) = deposit; at most one emergencyClose of all calls succeeds; a completed row stands for one that did |
| `Refunds.AmountsStay` | src/modules/refunds/refunds.service.ts:137-162 | The amounts of the refund row never change once written |
| `Refunds.CloseIsTheContracts` | contracts/src/EscrowHub.sol:168-181 | On a solvent contract an emergencyClose, with whatever the payer does when paid and its refusal included, does to the escrow what the refund model says, and succeeds exactly when the model closes it |
| `Refunds.RefundMatchesIff` | src/modules/refunds/refunds.service.ts:137-162 | Once closed, the row's refund is what the contract paid back exactly when the spent amount summed for the row, up to the deposit, is what the contract had spent |
| `Refunds.ClosedHubStays` | contracts/src/EscrowHub.sol:149-181 | The contract's account of a closed escrow never changes again, so that spent amount is the one at the close |
| `Refunds.CompletedCanMisstate` | src/modules/refunds/refunds.service.ts:137-198 | A run that ends completed with the whole deposit as refund although the contract paid back nothing |
| `Refunds.CompletedStaysIff` | src/modules/refunds/refunds.service.ts:168-198 | A completed row survives every continuation exactly when no call can still save a failure |
| `Refunds.CompletedCanBeOverwritten` | src/modules/refunds/refunds.service.ts:168-198 | Two concurrent requests can leave the row of a refunded escrow marked failed |
| `Refunds.FailedCanBeRefundedIff` | src/modules/refunds/refunds.service.ts:168-198 | A failed row stands for a refunded escrow, now or once the chain moves on, exactly when a close has succeeded or a broadcast one is pending on the active escrow |
| `Refunds.FailedAfterBroadcast` | src/modules/refunds/refunds.service.ts:168-198 | A call that broadcast ends failed only by a wait that threw after the broadcast |
| `Refunds.TimedOutCallFailsRefunded` | src/modules/refunds/refunds.service.ts:168-198 | One call alone: its wait throws, FAILED is saved, and then the close is mined |
| `RefundsService.EscrowRefunds.Create` | src/modules/refunds/refunds.service.ts:137-162 | After it there is a row with the amounts of this call, or of the concurrent one that was first |
| `RefundsService.EscrowRefunds.Execute` | src/modules/refunds/refunds.service.ts:168-198 | State and outcome are those the script leads to; completed only after a close that succeeded on the contract; a thrown send or wait is answered with the row marked failed |
| `RefundsService.RefundSweeper.ExpireDue` | src/modules/escrow/escrow.service.ts:139-159 | Exactly the open sessions whose TTL has passed expire, and are counted |
| `RefundsService.RefundSweeper.FindAwaitingRefund` | src/modules/escrow/escrow.service.ts:162-171 | The first sessions, up to the limit, that are expired or cancelled and not refunded |
| `RefundsService.RefundSweeper.Sweep` | src/modules/refunds/refunds.service.ts:114-135 | Due sessions expire first; each session then selected gets exactly this one request and the outcome its own script leads to, whatever the others do, and all other sessions stay; the counters say how many; nothing happens while a sweep is running |
| `RefundsService.EscrowRefunds.Refund` | src/modules/refunds/refunds.service.ts:97-111 | State and answer are those the script leads to on the machine: a session that is not refundable is refused, and an answer of completed means the contract closed the escrow |
| `RefundAnswer.RefundAnswers` | src/modules/refunds/refunds.service.ts:97-111 | The escrow and the answer of a refund, await by await: a conflict unless expired or cancelled when read, the row found or written with what is left, the close, and the status it gets |
| `Reconciliation.SettledByEscrow` | src/modules/reconciliation/reconciliation.service.ts:175-186 | The map loop sums the settled amounts of each escrow |
| `Reconciliation.CheckSession` | src/modules/reconciliation/reconciliation.service.ts:141-157 | Exactly the mismatches that hold of one session; none exactly when the contract agrees |
| `Reconciliation.OneRowMore` | src/modules/reconciliation/reconciliation.service.ts:130-173 | One settled row more adds its amount to its escrow, and one open session more locks its deposit less what was settled and released, never less than nothing |
| `Reconciliation.Compare` | src/modules/reconciliation/reconciliation.service.ts:130-173 | The report lists exactly the mismatches that hold, and a shortfall exactly when every open session was checked and the balance is below the locked sum |
| `Reconciliation.ShortfallIff` | src/modules/reconciliation/reconciliation.service.ts:130-173 | When every session agrees at its own read, the shortfall is reported exactly when the escrows have lost more since their reads than the contract holds for everything else, and so only when some escrow holds less than at its read |
| `Reconciliation.AgreementRulesOutShortfall` | src/modules/reconciliation/reconciliation.service.ts:161-171 | On one snapshot of a reachable contract, sessions that agree one by one leave no shortfall |
| `Reconciliation.BalanceSplits` | src/modules/reconciliation/reconciliation.service.ts:161-171 | The balance is what the sessions' escrows hold plus what it holds for other escrows, fees and ether sent in |
| `Reconciliation.CloseBetweenReadsIff` | src/modules/reconciliation/reconciliation.service.ts:141-171 | After a close between the reads of agreeing sessions and the balance, the shortfall is reported exactly when the closed escrow held more than the contract holds for everything else |
| `Reconciliation.TornReadReportsShortfall` | src/modules/reconciliation/reconciliation.service.ts:141-171 | A run in which a session agrees when read, holds less when the balance is read, and the shortfall is reported |
| `FeePolicy.ComputeFee` | src/modules/fees/fee-policy.ts:46-67 | Fee and net make up the amount, the fee is the clamped share, and `bound` names the bound that replaced it |
| `FeePolicy.ValidIff` | src/modules/fees/fee-policy.ts:36-67 | The policies that are accepted, and the most they charge: a tenth of the amount, or the minimum fee |
| `FeePolicy.FeeAndNetGrow` | src/modules/fees/fee-policy.ts:46-67 | Under every valid policy both fee and net are non-decreasing in the amount |
| `FeePolicy.FeeIsTheHubsIff` | contracts/src/EscrowHub.sol:106-107 | At the hub's rate the fee is the hub's, to the wei, exactly when no bound moves it or the amount is zero |
| `FeePolicy.HubRateIff` | contracts/src/EscrowHub.sol:106-107 | Of the policies without bounds exactly the one at the hub's rate charges the hub's fee on every amount |
| `FeePolicy.SplittingLosesLittle` | src/modules/fees/fee-policy.ts:46-67 | Without bounds, splitting an amount into n parts never raises the total fee and lowers it by at most n - 1 wei |
| `FeeLedger.NeverOverdrawn` | src/modules/fees/fee-ledger.service.ts:45-134 | In every interleaving withdrawn <= accrued on every chain, and each settlement accrues at most once |
| `FeeLedger.FeeLedger.BookFee` | src/modules/fees/fee-ledger.service.ts:45-63 | A fee is booked exactly when it is positive and its settlement has none yet |
| `FeeLedger.FeeLedger.Totals` | src/modules/fees/fee-ledger.service.ts:119-134 | The loop computes what a chain accrued and withdrew |
| `FeeLedger.FeeLedger.Withdraw` | src/modules/fees/fee-ledger.service.ts:77-117 | The ledger and the answer are those the script leads to on the machine: a withdrawal appended as requested, or refused with what was available under the lock, which was less |
| `FeeAnswer.WithdrawAnswers` | src/modules/fees/fee-ledger.service.ts:77-134 | The entries and the answer of a withdrawal, await by await: the lock of its key, accruals less withdrawals of its chain, and the refusal with that balance or the row |

## Left out

- NestJS wiring, controllers, DTO decorators, guards, throttling, webhooks, metrics, tracing and health: framework plumbing.
- Keccak, sha256, HMAC and JWT: the Merkle hash is a parameter, `hashBody` is modelled up to the text it hashes.
- ethers and the node: replaced by the chain steps and replies described above; gas price ceilings appear only as a check that may throw.
- TypeORM and SQL text: replaced by maps with unique indexes, conditional updates, serialising locks and predicates on query results.
- Writes through stale loaded entities, and a crash between a broadcast and the write of its hash.
- EscrowService.close and emergencyClose as a status machine: they have no status guard, so no statement assumes that cancelled or expired sessions keep their status.
- The configuration loader and its validation; `maxReceipts`, the export limit and `maxAttempts` are taken as at least one, as that validation demands.
- Webhook delivery, streaming, session keys, access lists, verdicts and the pause switch: pausing enters as a flag.
- Parsing of JavaScript numbers and surrounding whitespace in amounts: `Amount.From` starts from trimmed text.
- NDJSON export and the base64 form of the export cursor: the cursor is its (createdAt, id) pair.
- Several schedulers on one table: the batch scheduler's running flag guards one instance, and the model has one.
- Merkle.Soundness: stated for proofs of full height, because the verifier accepts inner nodes as leaves otherwise (`EveryNodePassesAsLeaf`).
- SettlementRetry.SettlementRetryService.ProcessDue: the order of the attempts is not in the contract, because rows share no state in the model; the query that picks the oldest due rows is its parameter.
- Settlement.PaidAtMostOnce: rests on the stated environment; a node that sends a transaction and still throws is outside it.
- CanonicalJson.CanonicalIsInjective: bodies are what JSON.parse returns; a missing body prints like null, and numbers count as equal when they print alike.
- Idempotency.CompletedAtMostOnce: about responses that were stored; handlers whose response could not be stored are the subject of `SecondSuccessIff`.
- SpendingLimit.EveryWindowIsBounded: a session that was cancelled and later closed counts again in the code's sum but not in the statement.
- Refunds.RefundedAtMostOnce: the contract is reduced to the one escrow, shown to move as the full contract does by `CloseIsTheContracts`.
- RefundsService.EscrowRefunds.Refund: a rail without a contract address, which completes refunds without a transaction, is not modelled.
- RefundsService.RefundSweeper.FindAwaitingRefund: takes the sessions in the order in which they were closed; the closing times themselves are not modelled.
