# Komenci in Dafny

Komenci pays for users' first on-chain actions. This project models its hard parts as Dafny and
proves what they promise:

- the **relayer** (`TransactionService`): concurrent submissions behind a nonce lock, a gas price
  that a timer moves, and unguarded check passes that replace stuck transactions;
- the **reward pipeline**: N service instances over one database that scan the chain with a stored
  cursor, create one reward per invitee under a weekly limit, send it, watch it and retry it;
- the **meta-transaction parser** with its allow-list;
- the **retry** decorator with the receipt wait around it, and the **session quota ledger**.

`dafny verify dfyconfig.toml` checks everything.

## How it is modelled

Code that changes fields in place is a class whose methods are proved against functions on values
(`TransactionService`, `RewardSenderService`, `CursorTable`, `MethodFilter`, `TxParserService`,
`SessionRepository`); source loops are methods with loops. Concurrency is a step system over those
same functions: every `await` is a point where another step may run, `Next` gives the state after a
step (or None when the step is not possible), `Exec` runs a list of steps, and the theorems speak
about every list. What the outside world answers (node, relayer, database, clock) is carried by
the step. Histories that the code does not keep (acknowledged sends, parents of replaced entries,
hashes ever sent, completed uses) are ordinary fields that no step reads.

Modelling choices:

- Prices are exact decimals in the source (BigNumber), hence `real`; only `toFixed(0)` rounds, half
  away from zero. A transaction hash is a value made of nonce, broadcast price and payload, so it
  is injective. The clock does not run backwards.
- The chain's log is append-only up to the head, receipts are final, every broadcast transaction
  has a hash of its own, and a row lock makes other writers of that row wait.
- `trimLeading0x` and `normalizeAddress` come from `@celo/base`: strip a leading `0x`, lower-case.
- Some promises hold only under hypotheses about the outside world. They are named predicates
  (`FreshResets`, `CalmRun`, `GoodRun`, `NoSwallow`, `SerialRun`, `OrderlyRun`), and a concrete run
  shows what goes wrong without them.
- Where a promise fails, the exact condition under which it holds is proved next to it, over all the
  runs it is about: `NonceOrderExactly` and `NoNonceReused`, `OneNonceExactly`, `OutbidsExactly`,
  `DistinctNoncesExactly`, `ReplayExactly`, `RowsExactly`, `ExclusiveExactly`, `TransfersCounted`,
  `StaysCompletedExactly` and `OverwrittenIsRepairableExactly`, `LedgerExactExactly`,
  `CollectsNothingExactly`, `FindsOwnExactly`.

Where code and documentation differ, the code is what is modelled:

- The comment beside `maxGasPrice` in `packages/apps/relayer/src/config/app.config.ts` says 50 Gwei
  while the default is 100 Gwei; the cap is a parameter here.
- The comments of `rewardSender.service.ts` say that only failed rewards are retried, and only once.
  The code retries Created, Submitted and Failed rows older than 30 minutes. A further retry sends
  exactly when the row it has locked records a transfer that a retry sent and that has reverted
  (`FurtherRetryExactly`), and nothing bounds how often that happens (`RetriesUnbounded`).
- Sessions are stored under the lower-case account but looked up in the spelling of the request
  (`session.service.ts:19-42`), so only a lower-case spelling finds them again (`FindsOwnExactly`).

## Model

| member | source | states |
|---|---|---|
| `RelayerService.TransactionService.WatchPending` | packages/apps/relayer/src/chain/transaction.service.ts:93-101 | the start-up loop leaves exactly the pool watched on top of what was watched, each hash with its own cached data |
| `RelayerService.WatchPoolContents` | packages/apps/relayer/src/chain/transaction.service.ts:93-101 | contents of the watched set and of the cache after start-up, without the loop |
| `RelayerService.TransactionService.WatchTransaction` | packages/apps/relayer/src/chain/transaction.service.ts:370-380 | set and cache gain the hash together, every other entry is as before |
| `RelayerService.TransactionService.UnwatchTransaction` | packages/apps/relayer/src/chain/transaction.service.ts:382-385 | set and cache lose the hash together, every other entry is as before |
| `RelayerService.TransactionService.TakeNonce` | packages/apps/relayer/src/chain/transaction.service.ts:142-145 | hands out the current nonce and steps it, nothing else changes |
| `RelayerService.TransactionService.SetNonce` | packages/apps/relayer/src/chain/transaction.service.ts:431-435 | the counter becomes the reported count, nothing else changes |
| `RelayerService.TransactionService.UpdateGasPrice` | packages/apps/relayer/src/chain/transaction.service.ts:437-456 | a price at or below the cap never leaves it; a fetched price is scaled and only the cap lowers it, a failed fetch keeps the price unless there is none |
| `RelayerService.TransactionService.TakeSnapshot` | packages/apps/relayer/src/chain/transaction.service.ts:229-254 | one summary for exactly the watched hashes, with the cached data of each; none lacks it if and only if the cache covers the watched set |
| `RelayerService.TransactionService.Start` | packages/apps/relayer/src/chain/transaction.service.ts:88-101 | start-up leaves exactly the pool watched and cached, each with its own nonce and price, the time and the first timeout, and the reported count |
| `RelayerService.TransactionService.DeadLetterAccepted` | packages/apps/relayer/src/chain/transaction.service.ts:307-318 | the old hash leaves, the replacement enters with same nonce, new price and doubled expiry |
| `RelayerService.TransactionService.FinalizeTransactions` | packages/apps/relayer/src/chain/transaction.service.ts:261-281 | exactly the transactions with a receipt leave the set and the cache; what is left keeps its data, nonce and price are unchanged |
| `RelayerWatchList.WatchListExactly` | packages/apps/relayer/src/chain/transaction.service.ts:261-385 | over every run, a transaction comes under watch exactly when its send or its replacement is accepted, and leaves exactly when its receipt is confirmed, its nonce is reported too low or it is replaced; everything else keeps its own cached data |
| `RelayerWatchList.ConfirmedLeave` | packages/apps/relayer/src/chain/transaction.service.ts:261-281 | after any run, the receipts a pass confirms leave, every other hash is exactly as before, and so are nonce and price |
| `RelayerProvenance.CacheTellsTruth` | packages/apps/relayer/src/chain/transaction.service.ts:119-154 | in every run every cache entry tells the truth: what was sent, at which price and nonce read under the lock, when it came under watch, what a dead letter replaced and at which price, down the whole chain |
| `RelayerPrices.GasPriceExactly` | packages/apps/relayer/src/chain/transaction.service.ts:437-456 | in every run the gas price is the last one fetched by the timer, a rejected submission or a rejected dead letter, scaled and capped; failed fetches keep it unless it is zero |
| `RelayerPasses.PassesClassifyExactly` | packages/apps/relayer/src/chain/transaction.service.ts:190-207 | in every run, a pass works on exactly what was watched when it started and replaces exactly the unmined items below the gas price of its summaries, then exactly the unmined items past their expiry when it began to replace |
| `RelayerRetries.SubmissionsAccounted` | packages/apps/relayer/src/chain/transaction.service.ts:119-181 | in every run each submission is sent at most three times and acknowledged at most once; it ends acknowledged, with a failed count, or with the third rejection, after one price fetch or reset for each rejection that calls for it |
| `RelayerRetries.DeadLettersAccounted` | packages/apps/relayer/src/chain/transaction.service.ts:287-344 | in every run each dead letter is sent at most three times and accepted at most once, and a pass goes on exactly when each of its dead letters was accepted, reported too low or rejected three times |
| `RelayerNonces.NoNonceDropped` | packages/apps/relayer/src/chain/transaction.service.ts:190-344 | in every run, with overlapping passes and stale snapshots, each acknowledged nonce is about to be watched, watched, confirmed by a receipt, or was reported too low |
| `RelayerNonces.SnapshotsComplete` | packages/apps/relayer/src/chain/transaction.service.ts:229-254 | the watched set always equals the cache's keys, cached nonces are those broadcast, and no summary of any pass lacks cached data |
| `RelayerNonces.ConsecutiveNonces` | packages/apps/relayer/src/chain/transaction.service.ts:119-181 | between two resets the acknowledged sends use consecutive nonces from the reported count on, whatever interleaves, fails or retries |
| `RelayerNonces.NonceOrderExactly` | packages/apps/relayer/src/chain/transaction.service.ts:431-435 | in every run, acknowledged nonces strictly increase if and only if every reset that a send follows directly reported a count above all nonces acknowledged before |
| `RelayerNonces.NoNonceReused` | packages/apps/relayer/src/chain/transaction.service.ts:119-181 | in every run, no nonce serves two submissions if and only if no reset goes on to hand out a nonce acknowledged before it |
| `RelayerNonces.DeadLettersReuseNonces` | packages/apps/relayer/src/chain/transaction.service.ts:300-318 | every dead letter reuses a nonce that was pending at start-up or acknowledged before |
| `RelayerWitnesses.StaleResetReusesNonce` | packages/apps/relayer/src/chain/transaction.service.ts:431-435 | a concrete run in which a stale count makes one nonce serve two submissions |
| `RelayerBroadcasts.AcknowledgedIsLast` | packages/apps/relayer/src/chain/transaction.service.ts:119-181 | in every run, every broadcast of a submission but its last belongs to a send that was rejected, so without a leaked rejection it reaches the network at most once |
| `RelayerBroadcasts.OneNonceExactly` | packages/apps/relayer/src/chain/transaction.service.ts:166-181 | in every run a submission is broadcast under one nonce only if and only if it is never sent again while the counter shows another nonce than that of an earlier send of it that leaked |
| `RelayerWitnesses.LeakedSendTwoNonces` | packages/apps/relayer/src/chain/transaction.service.ts:172-176 | a concrete run in which a leaked nonce-too-low rejection sends one request under two nonces |
| `DeadLetterChains.WatchedChainsAreBounded` | packages/apps/relayer/src/chain/transaction.service.ts:291-318 | for every watched entry of every run: after k replacements same nonce, expiry 2^k timeouts, price between 1.4^k first prices and 1.4^k caps, and e expiries took more than (2^e - 1) timeouts |
| `DeadLetterChains.GasTooLowTerminates` | packages/apps/relayer/src/chain/transaction.service.ts:400-405 | however the gas price moves, a chain from a positive price sees at most an explicit number of GasTooLow replacements, and one at depth j only while 1.4^j first prices are below the cap |
| `DeadLetterBids.OutbidsExactly` | packages/apps/relayer/src/chain/transaction.service.ts:294-305 | in every run an accepted dead letter is broadcast at least 10% above what it replaces if and only if 1.4 times the cached price or the gas price at the start of the attempt reaches the minimum bid for the price broadcast before; at 25/14 wei cached at the broadcast price it always does |
| `GasPricing.OneSuffices` | packages/apps/relayer/src/chain/transaction.service.ts:294-305 | the same for prices alone: which cached and current prices round to 10% above a broadcast price, both directions |
| `GasPricing.RoundedBump` | packages/apps/relayer/src/chain/transaction.service.ts:294-305 | the exact prices at which rounding spoils the 10% bump, both directions |
| `GasPricing.UpdateStaysCapped` | packages/apps/relayer/src/chain/transaction.service.ts:437-456 | the price never exceeds the cap once fallback and current price do not |
| `RelayerWitnesses.LaggingPriceUnderbids` | packages/apps/relayer/src/chain/transaction.service.ts:134-154 | a concrete run in which the cached price, read after the send, lags and the dead letter bids less than the original |
| `DistinctNonces.DistinctNoncesExactly` | packages/apps/relayer/src/chain/transaction.service.ts:300-318 | in every run whatsoever, watched nonces stay pairwise distinct if and only if they are at start-up, no dead letter is accepted for an item no longer watched beside another transaction with its nonce, and no sent transaction is watched beside one |
| `DistinctNonces.FreshRunsWatchApart` | packages/apps/relayer/src/chain/transaction.service.ts:142-154 | with resets above all allocated nonces the last of the three never happens |
| `DistinctNonces.WatchedNoncesDistinct` | packages/apps/relayer/src/chain/transaction.service.ts:192-207 | runs without overlapping passes and with a constant price within a pass never do that, although one item may be dead-lettered twice from one snapshot |
| `RelayerWitnesses.OverlapSharesNonce` | packages/apps/relayer/src/chain/transaction.service.ts:103-106 | a concrete run with overlapping passes and constant price in which two watched transactions share a nonce |
| `RelayerWitnesses.PriceMoveSharesNonce` | packages/apps/relayer/src/chain/transaction.service.ts:192-206 | a concrete run with one pass and a moving price in which two watched transactions share a nonce |
| `EventWindows.FetchAndProcessEvents` | packages/apps/rewards/src/event/eventService.service.ts:61-100 | the window loop handles exactly the delivery up to the first throw, in order, and otherwise returns the largest handled block |
| `EventWindows.ProcessEvents` | packages/apps/rewards/src/event/eventService.service.ts:84-95 | one event list is handled in order up to the first throw and the maximum follows |
| `EventWindows.WindowsCoverExactly` | packages/apps/rewards/src/event/eventService.service.ts:71-97 | the queried windows are contiguous, of 10001 blocks up to the last one, and cover [from, last], stopping at last - 1 exactly when last - from is a multiple of 10001 |
| `EventWindows.DeliveryExact` | packages/apps/rewards/src/event/eventService.service.ts:74-97 | a scan delivers exactly the events of the covered blocks, each once |
| `EventWindows.DeliveryInOrder` | packages/apps/rewards/src/event/eventService.service.ts:74-97 | and in the order of the log, when the log is in block order |
| `EventDelivery.CursorTable.RaiseTo` | packages/apps/rewards/src/blocks/notifiedBlock.service.ts:45-56 | the stored block becomes the larger of the two; a missing row stays missing |
| `EventDelivery.CursorTable.Insert` | packages/apps/rewards/src/blocks/notifiedBlock.service.ts:31-42 | the first insert of a key wins, a second one fails |
| `EventDelivery.AtLeastOnce` | packages/apps/rewards/src/blocks/notifiedBlock.service.ts:22-63 | with N instances, stale reads, throwing handlers and racing updates, every event after the starting block and at or below the cursor has been handled |
| `EventDelivery.CursorNeverDecreases` | packages/apps/rewards/src/blocks/notifiedBlock.service.ts:43-56 | along every run the stored cursor never decreases |
| `EventDelivery.PollsStartAtCursor` | packages/apps/rewards/src/blocks/notifiedBlock.service.ts:28-43 | in every run a poll scans from the block after the cursor that it has itself read, or inserted when there was none; one that loses the race to insert does not scan |
| `EventDelivery.CursorMovesExactly` | packages/apps/rewards/src/event/eventService.service.ts:71-99 | in every run, a finished scan goes on to raise the cursor exactly when an event lies beyond its first block, and then to the largest block delivered; the raise leaves the larger of the stored and the raised block |
| `EventDelivery.ReplayOnlyNextBlock` | packages/apps/rewards/src/event/eventService.service.ts:74-99 | in clean single-instance runs an event is handled again only if its block is exactly cursor + 1 |
| `EventDelivery.ReplayExactly` | packages/apps/rewards/src/blocks/notifiedBlock.service.ts:43-56 | after any clean single-instance run, and however the next poll is carried out, what it has handled is the beginning of its delivery; once through, the events handled again are exactly those already handled of block cursor + 1, if it looks beyond that block, and otherwise none |
| `EventDelivery.PollCanComplete` | packages/apps/rewards/src/event/eventService.service.ts:74-97 | such a poll can always be carried through |
| `EventDelivery.ExactlyOneRow` | packages/apps/rewards/src/attestation/attestation.service.ts:58-95 | an event at or below the cursor has been handled, and has exactly one row if and only if some handling of its key was stored; always when saves fail only as duplicates |
| `EventDelivery.RowsExactly` | packages/apps/rewards/src/addressMappings/addressMappings.service.ts:57-91 | in every run a key has one row when some handling of its events was stored and none otherwise, never two |
| `EventDelivery.SwallowedSaveLosesRow` | packages/apps/rewards/src/attestation/attestation.service.ts:82-94 | a concrete run in which a swallowed save error leaves an event below the cursor without its row |
| `RewardSender.RewardSenderService.RecordSend` | packages/apps/rewards/src/invite/rewardSender.service.ts:223-256 | Submitted exactly with a hash, which is recorded and watched; Failed exactly without one on a first send, DeadLettered exactly without one on a retry, the recorded hash kept; invitee, creation time and all other rows are unchanged |
| `RewardSender.RewardSenderService.SettleWatched` | packages/apps/rewards/src/invite/rewardSender.service.ts:85-112 | success makes the row Completed, a revert Failed or, for a retry, DeadLettered, and ends the watch; no receipt changes nothing, the recorded hash and all other rows stay |
| `RewardSender.RewardSenderService.TryBeginRetry` | packages/apps/rewards/src/invite/rewardSender.service.ts:125-132 | a retry run starts only if none is running on the instance |
| `RewardStatuses.StatusTellsTruth` | packages/apps/rewards/src/invite/rewardSender.service.ts:74-257 | over every run, leaks, rollbacks and stale watchers included: a Created row records nothing, a Submitted row records a hash that was sent for it, a Completed row has a successful transfer, a Failed row had its first send refused or reverted, a DeadLettered row a retry |
| `RewardPasses.RetriesTellTruth` | packages/apps/rewards/src/invite/rewardSender.service.ts:134-178 | in every run, whoever holds a row took it 30 minutes old, not Completed and not DeadLettered; it calls the relayer at most once, and only after it has found no recorded transfer or a reverted one; it writes Completed, Submitted with the new hash or DeadLettered accordingly, or nothing when the transfer is pending or the relayer threw |
| `RewardPasses.LocksExactly` | packages/apps/rewards/src/invite/rewardSender.service.ts:140-155 | a retry run takes rows exactly when its instance holds none and each is free, 30 minutes old, not Completed and not DeadLettered |
| `RewardPasses.RowsChangeExactly` | packages/apps/rewards/src/invite/rewardSender.service.ts:74-257 | which rows exist and what they hold after any step: only the end of a first send, a commit and a settled watch change a row, a rollback changes none |
| `RewardPasses.WatchChangesExactly` | packages/apps/rewards/src/invite/rewardSender.service.ts:245-250 | a hash comes under watch exactly when the send that got it is written, and leaves exactly when its verdict is |
| `RewardSafety.AtMostOneTransfer` | packages/apps/rewards/src/invite/rewardSender.service.ts:74-257 | over every interleaving of first sends, watched checks and locked retries, of two hashes sent for an invite one has reverted, and every hash but the recorded (or about to be recorded) one has |
| `RewardExclusive.ExclusiveExactly` | packages/apps/rewards/src/relayer/relayer_proxy.service.ts:101-118 | in every run whatsoever, two transfers of an invite can never both succeed if and only if no retry sends while an unrecorded one may still succeed and no first send goes out beside a living one |
| `RewardSafety.CompletedIsPaid` | packages/apps/rewards/src/invite/rewardSender.service.ts:87-111 | a Completed row has a successful receipt for its recorded hash |
| `RewardSafety.NoSendAfterSuccess` | packages/apps/rewards/src/invite/rewardSender.service.ts:140-178 | once a transfer succeeded no later step of any instance sends again for that invite |
| `RewardFirstSends.OneFirstSendPerInvitee` | packages/apps/rewards/src/invite/inviteReward.service.ts:140-152 | in every run each invitee has at most one row and at most one relayer call that is not a retry, made exactly when the row is past that phase |
| `RewardWitnesses.LeakedErrPaysTwice` | packages/apps/rewards/src/relayer/relayer_proxy.service.ts:101-118 | a concrete run in which an Err after a broadcast makes two transfers succeed |
| `RewardWitnesses.RollbackPaysTwice` | packages/apps/rewards/src/invite/rewardSender.service.ts:134-199 | a concrete run in which a rolled-back retry transaction makes two transfers succeed |
| `RewardWitnesses.LateFirstSendPaysTwice` | packages/apps/rewards/src/invite/rewardSender.service.ts:140-153 | a concrete run in which a first send older than 30 minutes makes two transfers succeed |
| `RewardRepair.StaysCompletedExactly` | packages/apps/rewards/src/invite/rewardSender.service.ts:87-111 | once Completed, a row stays Completed over any good continuation if and only if no failed verdict for the invite is written |
| `RewardRepair.OverwrittenIsRepairableExactly` | packages/apps/rewards/src/invite/rewardSender.service.ts:97-103 | a paid row that a failed verdict overwrites can become Completed again if and only if the watcher did not mark it DeadLettered or a watcher is left that will not; a retry can pick it up in the first case only |
| `RewardWitnesses.StaleWatcherOverwrites` | packages/apps/rewards/src/invite/rewardSender.service.ts:97-103 | a concrete run within all hypotheses in which a paid row ends in state Failed |
| `RewardWitnesses.PaidRowStaysDeadLettered` | packages/apps/rewards/src/invite/rewardSender.service.ts:97-103 | a concrete run within all hypotheses after which a paid row is DeadLettered and no continuation makes it Completed |
| `RewardRetries.FurtherRetryExactly` | packages/apps/rewards/src/invite/rewardSender.service.ts:140-178 | a retry that is about to send is a further retry of the invite if and only if the row it has locked records a hash that a retry sent; that hash has reverted and the row is not DeadLettered |
| `RewardRetries.TransfersCounted` | packages/apps/rewards/src/invite/rewardSender.service.ts:140-178 | the exact number of transfers ever sent for an invite in a good run, and the exact condition for a third one |
| `RewardRetries.AtMostTwoTransfers` | packages/apps/rewards/src/invite/rewardSender.service.ts:40-46 | at most two transfers in every good run in which no retry run locks the row while it records a retry's hash |
| `RewardRetries.RelockSendsAgain` | packages/apps/rewards/src/invite/rewardSender.service.ts:140-178 | conversely such a lock on a reverted transfer sends one more if the relayer accepts |
| `RewardWitnesses.RetriedTwice` | packages/apps/rewards/src/invite/rewardSender.service.ts:140-178 | a concrete run within all hypotheses that sends three transfers for one invite |
| `RewardWitnesses.RetriesUnbounded` | packages/apps/rewards/src/invite/rewardSender.service.ts:140-178 | for every n some run within all hypotheses sends n transfers for one invite |
| `InviteLimit.WeeklyLimit` | packages/apps/rewards/src/invite/inviteReward.service.ts:131-154 | with N instances the set of rewards of an inviter and week has at most 19 + N elements plus those that were ever Failed, even across a change of week |
| `InviteLimit.WeeklyLimitIsTight` | packages/apps/rewards/src/invite/inviteReward.service.ts:243-255 | for every N >= 1 and every f some run of N instances creates 19 + N + f rewards for one inviter and week of which exactly f were ever Failed |
| `InviteLimit.CountsAreSizes` | packages/apps/rewards/src/invite/inviteReward.service.ts:243-255 | the counts are the sizes of the index sets: all rewards of inviter and week, those not Failed, those ever Failed |
| `InviteLimit.CheckExactly` | packages/apps/rewards/src/invite/inviteReward.service.ts:169-260 | in every reachable state an idle instance is cleared if and only if the other checks hold, the invitee has no reward and fewer than 20 of the rewards of inviter and week are not Failed |
| `InviteLimit.SaveExactly` | packages/apps/rewards/src/invite/inviteReward.service.ts:140-147 | a cleared instance saves the reward it was cleared for, of any week since then, exactly when neither its invitee nor its identifier has one, and is idle afterwards |
| `InviteLimit.ChecksOutliveTheWeek` | packages/apps/rewards/src/invite/inviteReward.service.ts:131-147 | a concrete run in which a check of one week leads to a reward of the next |
| `InviteLimit.RowsTellTruth` | packages/apps/rewards/src/invite/inviteReward.service.ts:262-302 | in every run invitees and identifiers are unique, and a reward is marked as ever Failed exactly when it was Failed after some part of the run |
| `BatchDecoding.UnpackBatch` | packages/apps/api/src/wallet/decode-txs.ts:46-62 | the offset loop yields the entry at each place of the buffer, with clamped slices, missing destinations and the exception on a missing value |
| `BatchDecoding.UnpackedExactly` | packages/apps/api/src/wallet/decode-txs.ts:46-62 | for every batch, malformed ones included: the exception exactly when a value is missing, otherwise one entry per length with its own value, its destination if listed, and the bytes after those of the entries before it, as many as there are |
| `BatchDecoding.BatchRoundTrip` | packages/apps/api/src/wallet/decode-txs.ts:33-63 | unpacking a packed list returns it, for every list, empty data included |
| `BatchDecoding.PackInjective` | packages/apps/api/src/wallet/decode-txs.ts:33-63 | lists that unpack alike are equal |
| `Hex.ToHexIsPositional` | packages/apps/api/src/wallet/decode-txs.ts:54 | a buffer is written as two lower-case hexadecimal digits for each byte, at its place and with its value |
| `Hex.SelectorExactly` | packages/libs/core/src/hex.ts:5-7 | call data select a method exactly when its first four bytes are the four bytes of the method id, with or without 0x |
| `Hex.NormalizedEqualExactly` | packages/libs/core/src/hex.ts:9-11 | normalised addresses and method ids agree exactly when they have the same hexadecimal digits: letter case and a leading 0x do not matter, everything else does |
| `TxParser.MethodFilter.AddContract` | packages/apps/api/src/wallet/method-filter.ts:23-38 | each key of the wrapper is in the filter with the last target it was given, and everything else is as before |
| `TxParser.InsertInsert` | packages/apps/api/src/wallet/method-filter.ts:23-38 | filling a filter in several calls is the same as filling it in one, so what follows holds for any sequence of calls |
| `TxParser.DefaultFilter` | packages/apps/api/src/wallet/tx-parser.service.ts:23-45 | the default filter holds the pairs of its five contracts, as if added in one call |
| `TxParser.FilterSoundComplete` | packages/apps/api/src/wallet/method-filter.ts:40-57 | find succeeds exactly when an added (address, selector) pair matches up to case and 0x, and names the last such pair |
| `TxParser.CheckChildren` | packages/apps/api/src/wallet/tx-parser.service.ts:61-73 | all metadata in order, or the first child not allowed, or the exception on a child without destination |
| `TxParser.ChildrenSoundComplete` | packages/apps/api/src/wallet/tx-parser.service.ts:61-73 | whatever meets the loop's promise is the one result the added pairs determine: all metadata of the last matches, or the first disallowed child reported, or the exception if that one has no destination |
| `TxParser.TxParserService.Parse` | packages/apps/api/src/wallet/tx-parser.service.ts:47-74 | the result of every case: wrong root, undecodable, flattened children checked by the given or the default filter |
| `TxParser.ParseSoundComplete` | packages/apps/api/src/wallet/tx-parser.service.ts:47-101 | without the code of the flattening: Parsed exactly when root and decoder carry one child or one batch of children and every one matches an added pair; a wrong root, an undecodable transaction, a short batch and the first disallowed child each yield their own outcome |
| `TxParser.ParseBatchExactly` | packages/apps/api/src/wallet/tx-parser.service.ts:47-101 | a meta-transaction around a packed batch is parsed exactly when every packed child matches an added pair, with the metadata of child i at place i; otherwise the first child that does not is reported |
| `TxParser.ParseSingleExactly` | packages/apps/api/src/wallet/tx-parser.service.ts:47-101 | a meta-transaction around any other call is decided by exactly that one child |
| `TxParser.MatchesExactly` | packages/apps/api/src/wallet/method-filter.ts:40-57 | for hexadecimal text a transaction matches a pair exactly when the addresses have the same digits and the first four bytes of its data are the method id |
| `TxParser.DefaultAllowsExactly` | packages/apps/api/src/wallet/tx-parser.service.ts:23-45 | the default filter allows a transaction exactly when it calls one of the eight methods of its five contracts |
| `Retrying.Retry` | packages/libs/komencikit/src/retry.ts:31-59 | returns the outcome of the first attempt that is Ok, refused or last, within the tries, and notifies each failure once |
| `Retrying.FirstStopUnique` | packages/libs/komencikit/src/retry.ts:31-59 | the stopping attempt is unique, so the outcomes determine the result |
| `Retrying.TerminatesIffTries` | packages/libs/komencikit/src/retry.ts:32-58 | the loop ends on every outcome stream exactly when at least one try is configured |
| `Retrying.WaitForReceipt` | packages/libs/komencikit/src/kit.ts:435-456 | the first receipt before the timeout decides, and the wait is shorter than timeout plus interval |
| `Retrying.TimeoutExact` | packages/libs/komencikit/src/kit.ts:435-448 | a timeout exactly when no poll before the timeout sees a receipt |
| `Retrying.SubmitMetaTransaction` | packages/libs/komencikit/src/kit.ts:398-427 | Ok if and only if in the last attempt the retried request ended Ok and the first receipt seen before the timeout says success; a first receipt that says otherwise is a Revert, none in time a Timeout, a failed request its own last error; at most n * m requests and less than n * (timeout + interval) of waiting |
| `SessionLedger.SessionRepository.IncrementUsage` | packages/apps/api/src/session/session.service.ts:58-68 | the stored session shows the snapshot's counts plus this use and the snapshot's deploy; with a current snapshot the quota left falls by the count and nothing else changes; other and unknown sessions are untouched |
| `SessionLedger.SessionRepository.RecordDeploy` | packages/apps/api/src/wallet/wallet.service.ts:116-125 | a deploy of exactly this implementation is in progress until it times out and the counts are the snapshot's; other and unknown sessions are untouched |
| `SessionLedger.SessionRepository.FindOrCreate` | packages/apps/api/src/session/session.service.ts:48-56 | whoever starts gets a session of the account with something left of every action, at most one is added and none changes |
| `SessionExactness.NeverOvercounts` | packages/apps/api/src/session/session.service.ts:58-68 | under any interleaving a stored count never exceeds the units successfully used |
| `SessionExactness.LedgerExactExactly` | packages/apps/api/src/session/session.service.ts:58-68 | in every run, counts equal the sums of uses and deploys the last ones throughout if and only if every request that completes still finds what it has read |
| `SessionExactness.QuotaHolds` | packages/apps/api/src/session/quota.guard.ts:26-38 | in such runs quotaLeft plus usage is the quota, and usage stays below quota plus the last request |
| `SessionExactness.SerialLedgerExact` | packages/apps/api/src/session/quota.guard.ts:26-38 | serial runs are such runs: exact counts, no clobbered deploys, the quota holds |
| `SessionExactness.ArriveExactly` | packages/apps/api/src/wallet/wallet.service.ts:85-92 | a request goes to the relayer with the session as stored exactly when its guard holds: quota left for a use, a known implementation that is not being deployed for a deploy |
| `SessionExactness.PendingExactly` | packages/apps/api/src/wallet/wallet.service.ts:85-125 | in every run the requests in progress are exactly those let through and neither completed nor failed since, each with the session as stored when it arrived |
| `SessionExactness.CompleteExactly` | packages/apps/api/src/session/session.service.ts:58-68 | what a completed use or deploy leaves in the session, and that every other session and request is as before |
| `SessionExactness.DeploysAdmittedExactly` | packages/apps/api/src/wallet/wallet.service.ts:85-148 | while no update is lost, a deploy goes to the relayer exactly when its implementation is known and the last completed deploy on the session was of another implementation or has timed out |
| `SessionExactness.OverlapExceedsQuota` | packages/apps/api/src/session/session.service.ts:58-68 | a concrete run in which two overlapping requests exceed a quota of one |
| `SessionExactness.OverlapErasesDeploy` | packages/apps/api/src/wallet/wallet.service.ts:116-125 | a concrete run in which an overlapping use erases deploy metadata |
| `SessionAccounts.FindsOwnExactly` | packages/apps/api/src/session/session.service.ts:19-42 | in every run a start finds the sessions of its account if and only if it spells the account in lower case |
| `SessionAccounts.NewSessionIsEarned` | packages/apps/api/src/session/session.service.ts:48-56 | in every run, a start that found a session creates another one only if an action was really used up on the one found |
| `SessionAccounts.StartCreatesExactly` | packages/apps/api/src/session/session.service.ts:48-56 | while no update is lost, a start creates a session if and only if it finds none or an action is used up on the one it finds |
| `SessionAccounts.AccountUsageBounded` | packages/apps/api/src/session/session.service.ts:48-80 | while no update is lost, an account's usage is at most its number of sessions times the quota, plus the excess of multi-unit requests |
| `SessionAccounts.CollectsNothingExactly` | packages/apps/api/src/session/session.service.ts:48-56 | in every run an account has at most one session that is not used up, throughout, if and only if no start creates a session while the account has one that the start did not find |
| `SessionAccounts.AllButLatestUsedUp` | packages/apps/api/src/session/session.service.ts:48-56 | starts of the account in lower case, that do not overlap and create younger sessions, never do that |
| `SessionAccounts.OverlapCollectsSessions` | packages/apps/api/src/session/session.service.ts:48-56 | a concrete run in which two overlapping starts give one account two unused sessions |

## Left out

- NestJS modules, controllers, validators, configuration, logging, analytics and error filters: wiring without a hard property.
- Captcha, SafetyNet, DeviceCheck, signature and ODIS code: thin clients over external services.
- `verifyWallet`, the deployer CLI and the contract artefacts: chain calls and bytecode hashes.
- The throttler guard: its window behaviour belongs to another library.
- `FundingService` and `SubsidyService`: a multiplication and plain conjunctions of checks.
- ABI decoding: decoded inputs are parameters, with lengths as natural numbers as the source declares them.
- The token, sender and verification checks of `handleWithdrawalEvent`: one flag (`othersHold`) in the weekly-limit model, since they only filter events.
- The event polling flag `isRunning` and the watched-invites flag are not fields: one phase per instance allows one poll at a time, and watched checks may overlap freely, which covers the flag.
- `getWallet`, `findOne` and `removeSession`: a cached lookup, a lookup and an unused delete.
- A dead letter whose send is rejected after its broadcast: it reuses the nonce of what it replaces, so at most one is mined; leaks are modelled for submissions and for the reward sender.
- Liveness on a real chain: it depends on the node.
- The limit of 100 rows per retry query (`rewardSender.service.ts:154`): a retry may lock any set of eligible rows, which only allows more runs.
- `AtMostTwoTransfers`: one direction, because a relock need not lead to a send; `TransfersCounted` is exact.
- The unique inviteeIdentifier column is not part of the reward sender's step system, which only allows more runs; it is part of the weekly limit's.
- `ExactlyOneRow`: the starting block of `Latest` keys is any block at or below the head, because nodes may answer with different heads.
