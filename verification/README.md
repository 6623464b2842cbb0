# TEENet bridge: verified model of the redeem path

The bridge pays Bitcoin for tokens burned on an account chain (Ethereum or Aptos). A redeem goes through four
components, and this project models each of them, joins them into one state machine, and proves what they guarantee
together.

- **Vault** (`Vault.dfy`, `VaultRuns.dfy`, `VaultScripts.dfy`, `VaultLocks.dfy`). Holds the bridge's UTXOs, picks the
  largest free ones for a redeem, locks them for an hour under the redeem's id, and releases them on expiry or command.
  Only selections take the mutex, so a step of a run is a single UPDATE statement: releases fall anywhere inside a
  selection, and every loop may break off at any statement.
- **Shared redeem state** (`Redeem.dfy`, `RedeemRuns.dfy`). Consumes requested and prepared events in whatever order and
  however often they arrive, and completes redeems.
- **Chain managers** (`ChainTxMgr.dfy`, `ChainTxMgrRuns.dfy`, `ChainTxMgrExact.dfy`, `EthTxManager.dfy`,
  `EthTxManagerRuns.dfy`, `EthTxManagerExact.dfy`). Filter, check, send, record, then track what was sent, with a timeout.
- **Withdrawal** (`Assembler.dfy`, `Withdraw.dfy`). Turns a prepared redeem into a Bitcoin transaction and tracks it.
- **The whole path** (`Bridge.dfy`, `BridgeProofs.dfy`, `BridgeProgress.dfy`). Vault, chain, shared state and withdrawal
  take steps in any interleaving.

Beside the path stand four self-contained cores: the message that is hashed and signed (`Packed.dfy`,
`PackedLayout.dfy`), the length-prefixed call arguments for Aptos (`Bcs.dfy`), the overlapping block scan and its
publication (`Scan.dfy`, `Publisher.dfy`), and deposits (`Deposit.dfy`).

Where the program changes state, a class or a loop does the same here and is proved against a function of the old state;
the lemmas are about those functions. SQL tables are maps from their primary key, with the CHECK and UNIQUE rules that
decide behaviour. Everything outside is a parameter that a theorem quantifies over: replies and failures of the chain,
the Bitcoin node and the database, the clock, the order of rows that SQL leaves open, and which channels are full.

## What the proofs found

- `SetRedeemCompleted` (state/state.go:375-382) builds a redeem without an amount, and the encoder reads the amount
  (state/sqlredeem.go:36), so that call panics and no row is ever completed through it. Completion is modelled at
  `UpdateAfterRedeemed` with an amount.
- Confluence needs a valid receiver: a request with an invalid one and a prepared event of the same redeem end in an
  error in one order and in a prepared row in the other. `OrderIrrelevantIff` gives the exact condition for any two events.
- INSERT OR IGNORE drops a new row without an error exactly when its requester is the zero address or its prepare hash
  is taken, while the same clash in an UPDATE is an error (`RequestHandled`, `NewPreparedHandled`, `StoredPreparedHandled`).
- A release takes no mutex. If its reset of the timeout falls after the second of a selection's three statements on the
  same row, the row is handed out locked with timeout 0, and the next expiry may free it (`OverlapBreaksTheHourIff`;
  `LockHoldsIff` is the exact condition over all interleavings).
- `uint16(utxo.Vout)` (btcvault/vault.go:250) names another output when the index is 2^16 or more (`VoutRoundTrip`).
- When neither the reply nor the latest-ledger query gives a number, cloning the nil number ends the process after the
  transaction went out, and the send stays unrecorded (chaintxmgr/mgr.go:331, 343; `NilLedgerEndsTheProcess`).
- In the Ethereum manager a failed lookup of earlier transactions reads as "never sent" (`LookupDecides`), and a
  transaction seen mined can still be marked as timed out in the same tick (`MinedMayTimeOut`).
- The scan updates the last visited height after reading a window of `max(36, gap - 1)` blocks that ends one below the
  tip. Beyond a gap of 36 the last visited block itself is not in the window, and no later scan of a chain that does not
  shrink delivers it (`GapBoundIsSharp`).
- The packed prepare message is ambiguous exactly between receivers whose encoded lengths differ by a multiple of 64
  (`CollidingLengths`, `PrepareEqualIff`). Receivers that start with "0x" are read as hex: they lose the case of their
  letters and nothing else (`HexReceiversCollideIff`), and bad hex ends the program (`MessageFailsIff`).
- The two-byte length prefix agrees with BCS exactly below 16384.
- A chain id of 2^31 or more comes back negative from a deposit, because it is cast to `int32`. A recognised deposit whose
  script is a bare OP_RETURN ends the program, because two bytes are cut off unchecked (`RecognisedDeposit`).

## Model

| member | source | states |
|---|---|---|
| Vault.SelectionGranted | btcvault/vault.go:81-94 | for positive targets a selection is granted exactly when no row is linked to the id and the rows neither locked nor spent are worth the target; rows locked for others do not matter, and what is granted is a least cover |
| Vault.GreedySelection | btcvault/sqlite_db.go:261-291 | for positive targets, selection succeeds exactly when the free money suffices; the result covers the target, its last row is needed, and no smaller set of usable rows covers it |
| Vault.PrefixIsWorthMost | btcvault/sqlite_db.go:262-267 | no set of at most n rows is worth more than the first n rows in descending order |
| Vault.RowsReadIsFirst | btcvault/sqlite_db.go:276-286 | the loop stops at the first prefix that reaches the target |
| Vault.TreasureVault.AddUTXO | btcvault/vault.go:37-69 | a new output is added unlocked; a known one, a failed lookup and a failed INSERT are errors and change nothing |
| Vault.TreasureVault.QueryEnoughUTXOs | btcvault/sqlite_db.go:261-291 | the loop with its early break returns the greedy selection, or nothing if all rows together fall short |
| Vault.TreasureVault.ChooseAndLock | btcvault/vault.go:76-118 | returns a least cover exactly when no row is linked to the id, the free rows are worth the target and the UPDATEs succeed; after n successful UPDATE statements exactly those n took effect |
| Vault.TreasureVault.LockRows | btcvault/vault.go:96-115 | the locking loop, interrupted at any UPDATE |
| Vault.TreasureVault.ReleaseByExpire | btcvault/vault.go:121-139 | unlocks exactly the locked rows whose timeout is past, resets their timeouts, leaves their links and all other rows; interrupted at any UPDATE |
| Vault.TreasureVault.ReleaseByCommand | btcvault/vault.go:187-206 | the same for one row; a missing row is an error |
| Vault.TreasureVault.Write | btcvault/sqlite_db.go:294-334 | one UPDATE changes one column of one row, and nothing if the row is missing |
| Vault.LockScriptAt | btcvault/vault.go:96-115 | each selected row gets its lock, then its timeout, then its link |
| Vault.FreedExactly | btcvault/vault.go:127-136 | a release without interruption unlocks exactly its rows, resets their timeouts and leaves their links |
| VaultRuns.Always | btcvault/vault.go:76-139 | the invariant of rows, log, selections and releases holds after every interleaving of single statements |
| VaultRuns.Exclusive | btcvault/vault.go:76-139 | in every run, a UTXO handed out twice was released after the first selection locked it and before the second one read it, wherever the statements of other releases fell |
| VaultRuns.SecondService | btcvault/vault.go:81-115 | a second service of one id comes only after every UTXO of the first was released, then locked again, then linked to another id, in this order |
| VaultRuns.NoReleaseNoReuse | btcvault/vault.go:76-118 | if no lock is ever cleared each id is served at most once and all selections are disjoint |
| VaultRuns.AmountsAreFirstAdds | btcvault/vault.go:58-68 | in every run the vault holds the outputs ever added, each with the amount first reported |
| VaultRuns.Conservation | btcvault/sqlite_db.go:338-351 | free money plus locked money is the sum of all distinct outputs added, between any two statements |
| VaultScripts.LockExactly | btcvault/vault.go:96-115 | a completed locking loop marks the selected rows with id and deadline and no others |
| VaultScripts.ServiceMovesItsSum | btcvault/vault.go:91-117 | a choice that completes without interruption moves exactly the returned sum from free to locked |
| VaultScripts.ChoiceIsSteps | btcvault/vault.go:76-118 | a selection without interruption, failing at any statement or none, is a run of single statements with the effect that ChooseAndLock states |
| VaultScripts.ReleaseIsSteps | btcvault/vault.go:127-136 | the same for the statements of a release |
| VaultLocks.LockHoldsIff | btcvault/vault.go:96-139 | while no other selection takes the row, it is locked for its id until its deadline exactly when no release cleared the lock after the selection set it and none reset the timeout after the selection set that, in every interleaving |
| VaultLocks.LockLastsAnHour | btcvault/vault.go:16-19 | a held row with no release in progress for it stays locked for its id until its deadline, whatever else runs, unless released by command |
| VaultLocks.ServiceStartsTheHour | btcvault/vault.go:96-115 | a selection without interruption starts such an hour for each row that no release in progress touches |
| VaultLocks.OverlapBreaksTheHourIff | btcvault/vault.go:121-139 | a selection of the row that a release has just unlocked is served either way, and is locked until its deadline exactly when the release's reset falls before the selection's second statement |
| VaultLocks.ReleaseAllowsReuse | btcvault/vault.go:187-206 | after one release the same UTXO is served to another id |
| Redeem.PreparedWrites | state/state.go:216-268 | a prepared event changes nothing or writes one prepared row with the event's own outpoints, never over a prepared, completed or invalid row |
| Redeem.RedeemedWrites | state/statedb_eth2btc.go:91-110 | completion writes transaction id and status of one existing row and keeps the rest |
| Redeem.RowsAreBuilt | state/redeem.go:51-150 | a request yields a row exactly when its hash is not zero and its amount positive; a prepared event, exactly when also its prepare hash is not zero and its two lists are equally long, not empty and without a zero id; against a stored row, requester, receiver and amount must match |
| Redeem.RequestHandled | state/state.go:171-197 | the outcome for every request by its own fields: nothing, an error, the stored row, or a row dropped for a zero requester |
| Redeem.NewPreparedHandled | state/state.go:249-259 | the outcome for every prepared event without a stored row: an error, the stored row, or a row dropped for a zero requester or a taken prepare hash |
| Redeem.StoredPreparedHandled | state/state.go:225-248 | the outcome for every prepared event with a stored row, by status and fields; a taken prepare hash is an error |
| Redeem.RedeemedHandled | state/statedb_eth2btc.go:91-110 | the outcome of every completion: panic, nothing, an error for a zero or taken transaction id, or the completed row |
| Redeem.State.HandleRequested | state/state.go:171-197 | the requested handler: skip known, refuse malformed, insert as requested or invalid |
| Redeem.State.HandlePrepared | state/state.go:216-268 | the prepared handler with all its branches and errors; an error leaves the table alone |
| Redeem.State.UpdateFromPreparedEvent | state/redeem.go:82-134 | the event must match the row and carry a prepare hash and equally many non-zero outpoints, which are then copied |
| Redeem.State.Insert | state/statedb_eth2btc.go:12-37 | INSERT OR IGNORE under the CHECK and UNIQUE rules |
| Redeem.State.UpdateAfterRedeemed | state/statedb_eth2btc.go:91-110 | completion of a row, with the errors of encoder and UPDATE |
| Redeem.State.SetRedeemCompleted | state/state.go:375-382 | as called, completion always fails and never changes the table |
| RedeemRuns.Confluence | state/state.go:165-273 | every ordering of a consistent set of events with acceptable fields, with any repetition, completions after their prepared event, runs without error to one table that is a direct function of the set |
| RedeemRuns.OrderingsAgree | state/state.go:208-209 | any two such orderings of the same events end in the same table |
| RedeemRuns.ConfluenceStep | state/state.go:165-273 | one more event takes the table of a set to the table of the larger set |
| RedeemRuns.OrderIrrelevantIff | state/state.go:208-268 | for any request and any prepared event of one redeem, both orders end alike, down to the error, exactly when the request is dropped, or both are well formed and agree with a valid receiver, or the request is malformed and the prepared event is dropped |
| RedeemRuns.FinalTableUnique | state/schema.go:14-29 | rows of different redeems never collide in a UNIQUE column |
| RedeemRuns.RowsAreOk | state/redeem.go:82-134 | over arbitrary event streams, every prepared row names its preparation and at least one outpoint, none of them zero |
| RedeemRuns.RowsAreUnique | state/schema.go:16-17 | over arbitrary event streams no prepare hash and no Bitcoin transaction id is named twice |
| RedeemRuns.PreparedIsFrozen | state/state.go:229-231 | once prepared, a row keeps receiver, amount, requester and outpoints under every later event |
| Assembler.ValueConserved | btcman/assembler/assembler.go:100-147 | outputs plus fee equal the inputs, and the build fails for want of money exactly when inputs fall below amount plus fee |
| Assembler.PaymentThenChange | btcman/assembler/assembler.go:124-147 | payment first, script second; a further output exists exactly when inputs exceed amount plus fee, is the last and pays the rest to the change address; the build succeeds exactly with enough money and addresses that decode |
| Assembler.SumAmounts | btcman/assembler/assembler.go:109-116 | the accumulation loop computes the sum of the inputs |
| Assembler.CraftRedeemOutput | btcman/assembler/assembler.go:100-147 | payment, OP_RETURN with the request hash, then change only if positive |
| Assembler.CraftTransferOutOutput | btcman/assembler/assembler.go:24-57 | payment, then change only if positive |
| Withdraw.PrefixIsRemoved | btcman/utils/string.go:7-12 | exactly one leading "0x" is removed |
| Withdraw.RedeemTxExactly | btctxmanager/withdraw.go:111-144 | the whole transaction of a row, and exactly when it fails: a missing outpoint, too little money, an address that does not decode |
| Withdraw.PaysExactly | btctxmanager/withdraw.go:182-245 | a turn broadcasts exactly when its query works, the redeem is not on record, the transaction can be built and the node accepts it; it is then recorded unless the INSERT fails |
| Withdraw.CompletionMarks | btcaction/sqlite_db_redeem.go:105-116 | a completion leaves the redeem marked as mined and touches nothing else |
| Withdraw.BtcTxManager.FetchUTXOs | btctxmanager/withdraw.go:68-79 | every outpoint of the row looked up in the vault, or an error if one is missing |
| Withdraw.BtcTxManager.CreateBTCRedeemTx | btctxmanager/withdraw.go:111-144 | the transaction of a row: its outpoints as inputs, its receiver and amount paid |
| Withdraw.BtcTxManager.WithdrawRound | btctxmanager/withdraw.go:180-246 | one pass of the loop: skip recorded redeems, send, record; each failure skips one redeem |
| Withdraw.BtcTxManager.CompleteRedeem | btcaction/sqlite_db_redeem.go:95-116 | a tracked redeem is marked mined once; a failed query or UPDATE is an error and changes nothing |
| BridgeProofs.Always | btcvault/vault.go:226-256 | the joint invariant of vault, events, rows, payments and records holds after every interleaving of steps |
| BridgeProofs.NoDoubleSpend | btctxmanager/withdraw.go:166-250 | an input shared by payments of two redeems was selected for both, and a release cleared its lock after the earlier selection took it and before the later one read it |
| BridgeProofs.DisjointPayments | btctxmanager/withdraw.go:166-250 | in a run that clears no lock the payments of different redeems have disjoint inputs |
| BridgeProofs.ResendIdentity | btctxmanager/withdraw.go:207-245 | every payment ever sent for one redeem is the same transaction, even when recording failed in between |
| BridgeProofs.BroadcastCount | btctxmanager/withdraw.go:236-245 | a redeem is sent once per failed recording and once more if it is on record; if recording never fails, at most once |
| BridgeProofs.PaymentWasRequested | state/redeem.go:51-150 | every payment pays exactly the amount and receiver of a valid request on the chain, in whatever order its events arrived |
| BridgeProofs.ChangeComesBack | btctxmanager/withdraw.go:131-138 | beyond payment and OP_RETURN a broadcast has at most one output, which pays the bridge's own change address all that the inputs are worth beyond amount and fee |
| BridgeProofs.PreparedIsPaid | btctxmanager/withdraw.go:180-246 | the next turn for a prepared redeem not on record broadcasts its payment if its calls succeed and the addresses decode |
| BridgeProgress.RedeemCompletes | state/state.go:165-273 | every request that one output can fund has a run after which it is completed by the accepted transaction, broadcast once and recorded as mined |
| BridgeProofs.FundingSuffices | btcvault/vault.go:233-252 | payment of a prepared redeem never lacks inputs or money, because the selection margin is the withdrawal fee; inputs equal outputs plus fee |
| BridgeProofs.PaymentsDiffer | btcman/assembler/assembler.go:124-132 | payments of different redeems are different transactions |
| BridgeProofs.SettledRows | state/redeem.go:82-134 | every reachable prepared or completed row has a non-zero prepare hash and a non-empty list of non-zero outpoints |
| BridgeProofs.CompletionFollowsPayment | btcsync/btc_monitor.go:204-219 | a completed redeem was paid from its own outpoints by the recorded transaction it names |
| BridgeProofs.RoundIsSteps | btctxmanager/withdraw.go:180-246 | a pass of the withdrawal loop over prepared redeems is a run of the machine's withdraw steps, so the theorems hold of it |
| BridgeProofs.LandKeepsInv | btcvault/vault.go:226-256 | the prepared event of a returned selection names outpoints that are worth its amount plus the withdrawal fee |
| BridgeProofs.EchoKeys | btcvault/vault.go:246-252 | selected outputs below index 2^16 come back unchanged from event and row |
| BridgeProofs.VoutRoundTrip | btcvault/vault.go:250 | an output index survives the 16-bit conversion exactly when it is below 2^16 |
| ChainTxMgr.ChainTxMgr.FilterTracked | chaintxmgr/mgr.go:227-241 | keeps the items that no record refers to; a failed lookup drops its item |
| ChainTxMgr.ChainTxMgr.GetByRef | chaintxmgrdb/sqlite_chaintxmgrdb.go:116-148 | whether any record refers to an item |
| ChainTxMgr.ChainTxMgr.SendProcedure | chaintxmgr/mgr.go:116-214 | a round of filtering, checking on chain, sending and recording |
| ChainTxMgr.ChainTxMgr.Send | chaintxmgr/mgr.go:515-559 | one item: an unknown ledger number ends the process after the send |
| ChainTxMgr.ChainTxMgr.MarkTxStatus | chaintxmgr/mgr.go:567-641 | a tracking round over the limbo and pending records, with every query and UPDATE allowed to fail |
| ChainTxMgrRuns.AtMostOnce | chaintxmgr/mgr.go:227-241 | over all rounds and failures a reference has at most one record, and is sent once per unrecorded send and once more if it has one; if recording never fails, at most once |
| ChainTxMgrRuns.FoundMeansIncluded | chaintxmgr/mgr.go:608-617 | a found number implies success or reverted, even under partial database failure |
| ChainTxMgrRuns.FinalIsAbsorbing | chaintxmgr/mgr.go:578-580 | a record that is neither limbo nor pending is never changed by a later round |
| ChainTxMgrRuns.TrackAt | chaintxmgr/mgr.go:590-639 | a tracking round rewrites each record by its own answer alone, unless the process ended first |
| ChainTxMgrRuns.TrackingIsBounded | chaintxmgr/mgr.go:618-637 | with failure-free tracking rounds and a ledger that grows by one per round, every record of every run is final within timeout + 1 rounds |
| ChainTxMgrRuns.NilLedgerEndsTheProcess | chaintxmgr/mgr.go:540-554 | a send ends the process exactly when it went out and neither reply nor latest-ledger query gave a number; it is then on no record |
| ChainTxMgrExact.FilterKeeps | chaintxmgr/mgr.go:227-241 | the filter keeps exactly the items whose lookup works and that no record refers to |
| ChainTxMgrExact.SendOneExactly | chaintxmgr/mgr.go:155-209 | an item that goes out is recorded as pending under its reference with the ledger number of the reply, else the latest, unless the INSERT fails or the number is unknown |
| ChainTxMgrExact.RoundSendsExactly | chaintxmgr/mgr.go:116-214 | in a round in which every send learns a number, a reference is sent exactly when its lookup works, it has no record, nothing is found on chain and the calls succeed, and its pending record is then there |
| ChainTxMgrExact.TrackingExactly | chaintxmgr/mgr.go:590-639 | exactly when a tracking round breaks off, and what it makes of every record otherwise: Timeout exactly when answered so or when sent plus timeout has been reached and the UPDATEs succeed |
| EthTxManager.EthTxManager.AllTimedOut | ethtxmanager/ethtxmanager.go:195-201 | the loop answers whether no earlier transaction is live |
| EthTxManager.EthTxManager.Resendable | ethtxmanager/ethtxmanager.go:180-206 | the filter of a send tick; a failed lookup reads as never sent |
| EthTxManager.EthTxManager.SendTick | ethtxmanager/ethtxmanager.go:235-289 | one prepare or mint tick with its sends and inserts |
| EthTxManager.EthTxManager.MonitorTick | ethtxmanager/ethtxmanager.go:137-158 | one monitor tick over the pending transactions |
| EthTxManager.EthTxManager.MonitorPendingTxs | ethtxmanager/monitor.go:25-87 | mined marking, then the timeout check, with uint64 difference and fallback |
| EthTxManagerRuns.RetrySafety | ethtxmanager/ethtxmanager.go:137-289 | across all interleavings of mint, prepare and monitor ticks at most one transaction per id is not timed out, as long as no lookup fails for an id with a live one |
| EthTxManagerRuns.TickKeepsOneLive | ethtxmanager/ethtxmanager.go:137-289 | each tick keeps that invariant |
| EthTxManagerRuns.LookupDecides | ethtxmanager/ethtxmanager.go:180-206 | a send tick leaves at most one live transaction per id exactly when it sends for no id that has a live one, and it can do so only where the lookup failed |
| EthTxManagerRuns.MinedMayTimeOut | ethtxmanager/monitor.go:38-84 | a transaction just marked mined ends as timed out exactly when the check still runs and finds the distance modulo 2^64 beyond the timeout, with the header found by hash or by the fallback |
| EthTxManagerExact.MonitorsExactly | ethtxmanager/monitor.go:25-87 | a transaction that is not mined ends as timed out exactly when the receipt query worked, the distance modulo 2^64 exceeds the timeout and the UPDATE works; otherwise it, and always every other one, is unchanged |
| EthTxManagerExact.TickMonitorsExactly | ethtxmanager/ethtxmanager.go:137-158 | a monitor tick treats each pending transaction by its own answer and no other one |
| EthTxManagerExact.FilterKeeps | ethtxmanager/ethtxmanager.go:180-206 | the filter keeps exactly the items whose lookup fails or all of whose transactions timed out |
| EthTxManagerExact.TickSendsExactly | ethtxmanager/ethtxmanager.go:235-289 | after a send tick rows are as before, every new row is the pending transaction of an item that had to be sent, and every such transaction that could be inserted is on record |
| Packed.EncodePacked | common/abi.go:14-43 | the loop over all argument types concatenates their encodings, or fails on bad hex |
| Packed.EncodeStringArray | common/abi.go:81-88 | the encodings of the strings in order, or failure on bad hex |
| Packed.EncodeAddressArray | common/abi.go:45-52 | the 20 bytes of each address in order |
| Packed.EncodeBigIntArray | common/abi.go:72-79 | 32 bytes per number, in order |
| Packed.EncodeHashArray | common/abi.go:54-61 | 32 bytes per hash, in order |
| Packed.PreparePreimage | agreement/types.go:114-128 | the prepare message, its indices converted one by one |
| Packed.ConvertOutpoints | agreement/types.go:133-143 | splits outpoints into two lists that together give them back |
| Packed.MintInjective | agreement/types.go:91-97 | the mint message determines its parameters, for receivers of any length |
| PackedLayout.HashIsWord | common/abi.go:32-33 | a hash is packed as its 32 digits in base 256, most significant first |
| PackedLayout.NumberIsWord | common/abi.go:28-29 | a number is packed as its low 256 bits |
| PackedLayout.MintMessageLayout | agreement/types.go:91-97 | transaction id, receiver and amount stand in this order and at these positions |
| PackedLayout.PrepareMessageLayout | agreement/types.go:114-128 | request, requester, encoded receiver, amount, all transaction ids and all indices stand in this order and at these positions |
| PackedLayout.ReceiverIs | common/abi.go:90-108 | a receiver goes in as it is, except that "0x" and hex text stand for the bytes |
| PackedLayout.ArgumentIs | common/abi.go:14-43 | how each kind of single argument is packed |
| PackedLayout.TextsAreElements | common/abi.go:81-88 | an array of strings is packed like its elements one after the other |
| PackedLayout.NumbersAreElements | common/abi.go:72-79 | the same for numbers |
| PackedLayout.HashesAreElements | common/abi.go:54-61 | the same for hashes |
| PackedLayout.AddressesAreElements | common/abi.go:45-52 | the same for addresses |
| Packed.PrepareEqualIff | agreement/types.go:114-128 | for equally long outpoint lists, amounts below 2^256, requesters of one length and receivers that can be encoded, two prepare messages are equal exactly when the parameters with the longer encoded receiver are the others with words moved into the receiver |
| Packed.PrepareDecides | agreement/types.go:114-128 | under the same conditions, and encoded receivers of equal length or lengths that differ by no multiple of 64: equal exactly when all other fields agree and the receivers are encoded alike |
| Packed.PrepareInjective | agreement/types.go:114-128 | so the message determines its parameters for receivers of such lengths that do not start with "0x" |
| Packed.PrepareCollision | agreement/types.go:114-128 | every message with an outpoint is also that of parameters with one outpoint less and a receiver 64 bytes longer, unless that receiver starts with "0x" |
| Packed.CollidingLengths | agreement/types.go:114-128 | two different receiver lengths admit parameters with one message exactly when they differ by a multiple of 64, for every requester length and even among parameters with outpoints, non-zero transaction ids and amounts of 63 bits |
| Packed.HexEqualIff | common/abi.go:102-108 | hex texts decode alike exactly when they agree up to the case of their letters |
| Packed.HexReceiversCollideIff | common/abi.go:90-108 | receivers that start with "0x" give one message exactly when they agree up to the case of their letters |
| Packed.MessageFailsIff | common/abi.go:102-108 | there is no message, and the program ends, exactly when the receiver starts with "0x" and no hex follows |
| Bcs.SerializeString | aptosman/aptos_utils.go:436-448 | length prefix and bytes |
| Bcs.StringToBytes | aptosman/aptos_utils.go:321-333 | the `byte(len)\|0x80` variant writes the same bytes at every length |
| Bcs.SerializeStringVector | aptosman/aptos_utils.go:450-466 | count prefix and the strings in order |
| Bcs.SerializeU64Vector | aptosman/aptos_utils.go:468-484 | count prefix and the numbers in order, little endian |
| Bcs.PrefixIs | aptosman/aptos_utils.go:436-448 | the prefix bytes at every length, also where they lose bits |
| Bcs.LittleEndianAt | aptosman/aptos_utils.go:468-484 | each byte of a number, least significant first |
| Bcs.StringRoundTripIff | aptosman/aptos_utils.go:436-448 | a BCS decoder recovers the string and leaves the following bytes exactly when its length is below 16384 |
| Bcs.StringVectorRoundTripIff | aptosman/aptos_utils.go:450-466 | the same for string vectors: exactly when count and all lengths are below 16384 |
| Bcs.U64VectorRoundTripIff | aptosman/aptos_utils.go:468-484 | the same for u64 vectors: exactly when the count is below 16384 |
| Scan.Reverse | btcman/rpc/rpc_client.go:95-100 | in-place reversal |
| Scan.GetBlocks | btcman/rpc/rpc_client.go:106-138 | n blocks ending `offset` below the tip, lowest first; any failure or a negative height fails the call |
| Scan.BTCMonitor.Scan | btcsync/btc_monitor.go:96-231 | one scan: window, delivery, last visited height |
| Scan.ScansExactly | btcsync/btc_monitor.go:96-231 | at every gap: when a scan fails, and that otherwise it remembers the latest height and delivers, ascending, the blocks of a window of max(36, gap - 1) that ends one below the height read, without those that could not be inspected |
| Scan.ScanWithinGap | btcsync/btc_monitor.go:113-130 | within the gap bound a scan delivers exactly the last 36 mature blocks, ascending, and fails exactly on an error or a short chain |
| Scan.ScanCoverage | btcsync/btc_monitor.go:96-231 | in a run within the gap bound every block from the start height to newest minus one is delivered |
| Scan.GapBoundIsSharp | btcsync/btc_monitor.go:113-130 | take a scan of a quiet chain after scans that delivered nothing from the last visited height on: whatever is scanned later on a chain that does not shrink, the gap is closed exactly when it was at most 36; beyond, the last visited height is never delivered |
| Publisher.PublisherService.Register | btcsync/type_publisher.go:58-63 | appends an observer |
| Publisher.PublisherService.Notify | btcsync/type_publisher.go:114-128 | offers the value to each observer, to a goroutine when a channel is full |
| Publisher.OffersExactly | btcsync/type_publisher.go:114-128 | a value goes to a waiting receiver, else to the end of the buffer if it has room, else to a goroutine |
| Publisher.BuffersFit | btcsync/type_publisher.go:114-128 | no buffer ever holds more than its capacity |
| Publisher.NothingLostOrDoubled | btcsync/type_publisher.go:114-128 | under every schedule a channel, its goroutines and its receiver hold each notification once per registration |
| Publisher.DeliveredExactlyOnce | btcsync/type_publisher.go:114-128 | a quiet observer that registered once has received exactly the notifications, as a multiset |
| Publisher.NotificationsReachTheVault | btcsync/observer_utxo.go:33-44 | the UTXO observer tells the vault about notified outputs only, and about all of them exactly when for each some add succeeds |
| Publisher.SameReportsSameVault | btcvault/vault.go:58-68 | vaults told about the same outputs, in any order and any number of times, hold the same outputs and amounts |
| Publisher.RedeliveryChangesNothing | btcvault/vault.go:63-66 | telling the vault about a known output changes no row: not its lock, timeout or link |
| Deposit.IntToByteArray | common/btc2evm_deposit.go:30-46 | the four big-endian bytes, or an error outside 32 bits |
| Deposit.ByteArrayToIntInverts | common/btc2evm_deposit.go:49-51 | reads back every chain id of 32 bits |
| Deposit.DeserializeInverts | common/btc2evm_deposit.go:25-27 | RLP decoding accepts exactly the encodings and gives back what was encoded |
| Deposit.MaybeJustTransfer | btcman/utils/adapter.go:43-76 | collects the outputs that pay the bridge |
| Deposit.TransfersAre | btcman/utils/adapter.go:43-76 | it reports an index and amount exactly when that output pays the bridge that non-zero amount |
| Deposit.CraftBridgeDepositOutputs | btcman/assembler/assembler.go:193-239 | payment to the bridge, OP_RETURN with chain id and address, change |
| Deposit.EncodingIs | common/btc2evm_deposit.go:25-27 | the 27 bytes of the encoding |
| Deposit.RecognisedIff | btcman/utils/adapter.go:14-40 | a deposit is recognised exactly when output 0 pays the bridge something and output 1 is worth nothing and carries a null-data script |
| Deposit.RecognisedDeposit | common/btc2evm_deposit.go:89-96 | a recognised deposit ends the program exactly when its script is a bare OP_RETURN, and is decoded exactly when its script is the one built for that data |
| Deposit.DepositRoundTrip | btcman/utils/adapter.go:79-103 | outputs built for a deposit are recognised exactly when the amount is not zero, and give back amount, bridge and address, and the chain id exactly when it is below 2^31, else 2^32 less |

## Left out

- Network and chain clients, gRPC, the Aptos and Ethereum workers: replaced by answers that may fail.
- Cryptography, transaction signing, address decoding and hex text: hashes are numbers below 2^256, facts about messages
  are facts about the bytes before hashing, and which addresses decode is a parameter.
- The wall clock: the times an operation reads are its parameters.
- Overflow of 64-bit amounts: amounts are unbounded, since Bitcoin's supply keeps every total far below 2^63.
- The `spent` flag: no vault code sets it.
- VaultRuns.Exclusive: a statement that fails is one that has no effect; a failure reported after the effect is not modelled.
- Bridge runs: the checks by which the chain manager avoids preparing twice are not conditions of a step, and a preparation
  may land at any time after its selection, so the runs include all real ones and more; a failed handler leaves the table
  alone and the run goes on, where the program stops.
- BridgeProofs.CompletionFollowsPayment: holds of completion with an amount supplied; the call path of the Bitcoin side
  panics before it writes (`SetRedeemCompleted`).
- BridgeProgress.RedeemCompletes: likewise completes with an amount supplied.
- BridgeProofs.RoundIsSteps: the vault is read once per pass; amounts of existing rows never change in between.
- Packed.PrepareEqualIff: messages of requesters of different lengths are not compared, since one chain has one length.
- EthTxManagerRuns.RetrySafety: the concurrent senders and monitors of one tick work on different keys and are run in
  turn; the wait group and lock maps are not modelled.
- RedeemRuns.Confluence: the stream ends at the first error, as the loop's caller does.
- Mints in the shared state: `UpdateMint` can overwrite a mint hash with zero when a deposit is delivered again, so no
  stability of the mint hash is claimed; the finalized-number cache is left out as well.
- Reorganisations of either chain, and redelivery beyond the scan window.
- Scan: blocks are their heights; which of their transactions are deposits, transfers or redeems is the subject of
  `Deposit.dfy` and of the Mined step.
- Publisher.PublisherService.Notify: the four Notify methods differ in the value type only and are one generic method.
- RLP beyond 55 bytes and OP_RETURN data beyond 75 bytes: deposit data is 27 bytes long.
- Status reports, logging, JSON, the HTTP reporter, command-line programs and `SelectUtxo`: they would add only easy
  members.
