# Weighted points ledger

A Dafny model of the ERC-20 `Transfer` handler of a points indexer
(`src/l-20.ts`). For each transfer of a liquid-staking token, the handler:

- looks up the token's price weight, a numerator over 10000;
- turns the transferred value into weighted shares;
- multiplies those shares by the block timestamp;
- debits the sender and credits the receiver in a per-account `Point` record.

A `Point` holds a running `balance` and two time-weighted sums, `timeWeightAmountIn` and `timeWeightAmountOut`. Points live in a keyed entity store. A record is created with zero values the first time an address is seen. The all-zero address stands for mint (as `from`) and burn (as `to`), and it never gets a record.

Modules:

- `Addresses` (addresses.dfy): addresses as hexadecimal text, the zero address, and the `ToLowerCase` normaliser (ASCII case folding).
- `Weights` (weights.dfy): `DENOMINATOR`, the four token addresses and the `LST_PRICE_MAP` weight table.
- `Points` (points.dfy): the `Point` record and the transfer event. It also holds the arithmetic: weighted shares, floor-divided with the multiply done first, and the time-weighted increase. `Apply` is the value-level specification of one event: the new store, or `UnknownTokenWeight` when the token has no weight. This module also holds the ledger invariant and the proof that one event preserves it.
- `Ledger` (ledger.dfy): the class `PointStore`. Its field `points: map<Address, Point>` is the entity store. `Load` and `Save` stand for the entity store's get and put. `LoadOrCreatePoint` and `HandleTransfer` read and rewrite that field step by step, as the handler does; `DebitSender` and `CreditReceiver` are the handler's sender and receiver blocks. Each method is proved equal to the specification.
- `LedgerProperties` (ledger_properties.dfy): lemmas about `Apply`, covering:
  - the sender, receiver and self-transfer effects;
  - that only the two endpoints change;
  - mint and burn;
  - monotone time-weighted sums;
  - conservation of the total balance (for one event and for a stream of transfers);
  - zero-value events and replay;
  - the two worked numeric cases.

Arithmetic in the source uses arbitrary-precision `BigInt`, so the model uses `int` and `nat`. Weighted shares use floor division, which agrees with `BigInt.div` because both operands are non-negative.

The source calls `LST_PRICE_MAP.get` on a token that is not in the table without any guard. That call aborts the handler before any `Point` is loaded or saved. The model returns this case as `Failure(UnknownTokenWeight(token))` and leaves the store unchanged.

## Model

| member | source | states |
|---|---|---|
| `Addresses.ToLowerCase` | src/l-20.ts:48-50 | the result has the input's length, contains no upper-case letter, and differs from the input only where an upper-case letter was folded to lower case |
| `Addresses.CanonicalIsFixpoint` | src/l-20.ts:48-50 | an address that has no upper-case letter is returned unchanged |
| `Addresses.ToLowerCaseIdempotent` | src/l-20.ts:48-50 | normalising twice gives the same key as normalising once (loadOrCreatePoint re-normalises an already normalised address) |
| `Addresses.SameKeyIffEqualIgnoringCase` | src/l-20.ts:48-50 | two spellings have the same key if and only if they differ only in letter case |
| `Weights.WeightOf` | src/l-20.ts:29-38 | a weight exists exactly for the four table tokens, and every weight lies between 1.0x (10000) and 1.053x (10530) |
| `Weights.TokensDistinct` | src/l-20.ts:30-33 | the four token addresses are pairwise distinct, so no table entry overwrites another |
| `Weights.WeightTable` | src/l-20.ts:35-38 | STETH→10000, METH→10240, WBETH→10330, SWETH→10530 |
| `Points.WeightedShares` | src/l-20.ts:173 | the shares are the floor of value·weight/10000: s·10000 ≤ value·weight < (s+1)·10000; weight 1.0x keeps the value, and a weight of at least 1.0x never gives fewer shares than the value |
| `Points.TransferAmounts` | src/l-20.ts:166-174 | fails exactly when the lower-cased token has no weight, with that token as the error; otherwise the shares are the floor quotient and increase = timestamp·shares |
| `Points.NewPoint` | src/l-20.ts:199-203 | no contract of its own: the zero record that loadOrCreatePoint creates (address, balance 0, both sums 0); `LoadOrCreatePoint`'s ensures and `LedgerProperties.ZeroValueTransfer` state it |
| `Points.Lookup` | src/l-20.ts:194-207 | no contract of its own: the value-level result of loadOrCreatePoint (the stored record, or the zero record); `Ledger.PointStore.LoadOrCreatePoint` is proved to return exactly it |
| `Points.Debit` | src/l-20.ts:176-182 | the key set gains the sender's key, every other key keeps its record, and the sender's record has balance − shares, out-sum + increase, in-sum and address kept |
| `Points.Credit` | src/l-20.ts:184-190 | the key set gains the receiver's key, every other key keeps its record, and the receiver's record has balance + shares, in-sum + increase, out-sum and address kept |
| `Points.Apply` | src/l-20.ts:165-192 | no contract of its own: the whole handler on values, the error for an unknown token or the store after the sender and receiver updates; `HandleTransfer` is proved equal to it, and the lemmas of ledger_properties.dfy state its properties |
| `LedgerProperties.SharesExample` | src/l-20.ts:173 | 1000 at weight 10330 gives 1033 shares, while dividing first would give 0 |
| `LedgerProperties.UnknownTokenAborts` | src/l-20.ts:167 | the event aborts if and only if the token has no weight, and then the error names the lower-cased token |
| `Ledger.PointStore.LoadOrCreatePoint` | src/l-20.ts:194-207 | an existing record of the lower-cased address is returned and the store is unchanged; otherwise a zero record is stored and returned; afterwards the key is present and holds the returned record |
| `Ledger.PointStore.DebitSender` | src/l-20.ts:176-182 | the store afterwards is the sender update applied to the old store |
| `Ledger.PointStore.CreditReceiver` | src/l-20.ts:184-190 | the store afterwards is the receiver update applied to the old store |
| `Ledger.PointStore.HandleTransfer` | src/l-20.ts:165-192 | fails exactly for a token without a weight, and then writes nothing; otherwise the new store is `Apply` of the old one; the ledger invariant is kept |
| `LedgerProperties.SenderUpdate` | src/l-20.ts:176-182 | a non-zero sender distinct from the receiver ends with balance − shares and out-sum + increase; its in-sum and address are unchanged |
| `LedgerProperties.ReceiverUpdate` | src/l-20.ts:184-190 | a non-zero receiver distinct from the sender ends with balance + shares and in-sum + increase; its out-sum and address are unchanged |
| `LedgerProperties.EndpointEffect` | src/l-20.ts:176-190 | for every event that succeeds, every written key is present afterwards; it loses the shares and gains the increase in its out-sum if it is the sender, and gains the shares and the increase in its in-sum if it is the receiver (both for a self-transfer) |
| `LedgerProperties.SelfTransfer` | src/l-20.ts:176-190 | when from = to ≠ zero, the balance is unchanged and both sums grow by the increase, because the receiver branch reloads the record the sender branch saved |
| `LedgerProperties.OnlyEndpointsChange` | src/l-20.ts:176-190 | every key that is not a non-zero lower-cased endpoint, the zero address included, keeps its record or stays absent; every non-zero endpoint is present afterwards |
| `LedgerProperties.MintAndBurnTouchOneSide` | src/l-20.ts:176-190 | a mint changes only the receiver's key and a burn only the sender's |
| `LedgerProperties.TimeWeightsMonotone` | src/l-20.ts:179-187 | no record is removed, and neither time-weighted sum of any record decreases |
| `Points.InvariantPreserved` | src/l-20.ts:176-207 | from a store where every key is canonical and non-zero, every record sits under its own address and all sums are non-negative, the event yields a store with the same property; the zero address never gets a record |
| `LedgerProperties.BalanceConservation` | src/l-20.ts:180-188 | the total balance of the store changes by +shares for a mint, −shares for a burn, and not at all for a transfer between two non-zero addresses |
| `LedgerProperties.DebitTotal` | src/l-20.ts:180 | the sender update lowers the store's total balance by exactly the shares |
| `LedgerProperties.CreditTotal` | src/l-20.ts:188 | the receiver update raises the store's total balance by exactly the shares |
| `LedgerProperties.ZeroValueTransfer` | src/l-20.ts:173-190 | a zero-value event changes no existing record; it only adds zero records for endpoints seen for the first time |
| `LedgerProperties.ReplayCountsTwice` | src/l-20.ts:165-192 | applying any successful event twice (a transfer, mint, burn or self-transfer) succeeds again; every written key ends with twice the event's balance change and twice its increase in each sum it receives; every other key is untouched (no deduplication) |
| `LedgerProperties.MintScenario` | src/l-20.ts:165-192 | this mint succeeds: 1000 at timestamp 100 with weight 10000, into a new account; the account then holds balance 1000, in-sum 100000 and out-sum 0, and the zero address gets no record |
| `LedgerProperties.WeightedTransferScenario` | src/l-20.ts:165-192 | a transfer of 1000 at timestamp 50 with weight 10330 moves 1033 shares and adds 51650 to the sender's out-sum and to the receiver's in-sum |
| `LedgerProperties.ClosedStreamConservesBalance` | src/l-20.ts:165-192 | a sequence of events without mints or burns, applied in order, leaves the total balance unchanged |
| `LedgerProperties.ApplyAll` | src/l-20.ts:165-192 | no contract of its own: the handler applied to a sequence of events in order, stopping at the first that aborts; the two stream lemmas state its properties |
| `LedgerProperties.StreamKeepsInvariant` | src/l-20.ts:165-207 | applying events in order keeps the ledger invariant |

## Left out

- The audit-mirror handlers (`handleAdminChanged`, `handleApproval`, `handleBeaconUpgraded`, `handleBridgeBurn`, `handleBridgeInitialize`, `handleBridgeMint`, `handleEIP712DomainChanged`, `handleInitialized`, `handleUpgraded`) are left out. They copy event fields into records and derive nothing.
- The generated schema and event bindings are foreign code. The store is the `points` map. `PointStore.Load` and `PointStore.Save` stand for `Point.load` and `Point.save`. `Save` writes under the entity id, which is the key the record was loaded or created under.
- Hex parsing and formatting in `toLowerCase` (`Bytes.fromHexString`/`toHexString`) are library calls. Addresses are modelled as their hexadecimal text, and lower-casing as ASCII case folding.
- The token addresses are written in their lower-cased form. The model does not evaluate the source's `.toLowerCase()` on the mixed-case literals.
- The weights for METH, WBETH and SWETH come from float products in the source (`1.024 * 10000` and so on). They are modelled as the integers 10240, 10330 and 10530, which are the exact values of those double-precision products. The float computation itself is not modelled.
- The unused constants `ETHER_ONE`, `BIGINT_ONE`, `BIGINT_TWO`, `BYTES_ZERO` and `ADDRESS_ZERO_BYTES` are left out.
- The block timestamp is a `nat`. The source's `BigInt.fromI32` conversion of it is not modelled; block timestamps fit in 32 bits until 2038.
- The event's block number, log index and transaction hash are left out, because the handler does not read them. Event ordering, delivery and deduplication belong to the indexing runtime. `LedgerProperties.ApplyAll` only models in-order application of a sequence, stopping at the first event that aborts.
- The handler's intermediate save of a freshly created zero record is modelled by `LoadOrCreatePoint`. Store failures between the two endpoint writes are not modelled, because store operations always succeed in this model.
