# A verified model of the indexer and trading backend

The backend reads Solana blocks, prices SOL from the swaps in them, turns pump instructions into trades, keeps one
row per pair, quotes trades and carries market orders to the chain. The model covers the parts where something can
quietly go wrong: the arithmetic of the quotes, the price oracle, the block ingestion and its retries, the pair rows,
the order lifecycle and the byte codecs. `dafny verify dfyconfig.toml` checks all of it.

| component | files |
|---|---|
| shared | `Constants`, `Wrappers`, `Sets` |
| arithmetic | `Rounding` (integers), `Decimals` (quotients of the decimal package), `Floats` |
| quotes | `AmmQuote` (18-digit decimals), `PumpSwapQuote` (big integers with a fee), `BondingCurve`, `Ticks` |
| price oracle | `TransferScan`, `TrimmedMean`, `TokenAccounts` (objects updated in place) |
| ingestion and retries | `BlockTable`, `BlockIngest`, `RetryLoop`, `Backoff` |
| trades and pairs | `Trades`, `PumpEvents`, `PairRow`, `PairChoice` |
| orders | `Orders` |
| codecs | `Bytes`, `WireFormat`, `AccountCodec`, `InstructionCodec`, `InstructionBuilders` |

A method follows the code it models and is proved equal to a function on values; the lemmas are about that function.

## Reading the model

- `decimal.Div` rounds half away from zero. A process that loads `pkg/util` keeps 18 digits
  (`pkg/util/decimal.go:12-15`): the trade service does, through `pkg/sol/const.go:4`. The consumer does not, so the
  token price of a trade (`consumer/internal/logic/sol/block/pump.go:100`) keeps the package's default of 16. The
  decimal package itself is not part of this model.
- `big.Int.Div` is Euclidean; Go's integer division truncates and is written out in `Rounding`.
- Floats and `big.Float` are exact reals. The price of a swap whose SOL leg is zero is an infinity
  (`TransferScan.Evaluate`), and the average and the block table carry it on.
- A call of `ProcessBlock` or `SavePair` is one atomic step; a failed database call changes nothing.
- The node's answers, the clock, the chain's answers, random draws and the success of each database call are
  parameters, so a lemma about them holds for all of them. A Go map range is a loop that takes any remaining key, or an
  arbitrary order passed in.
- The ticker and the service context are one bound: the whole ticks before the service stops, and how many slots still
  go out in the pass after them. Every slot sent on the error channel is processed before the next one.
- Each pump event carries the position of the top-level instruction it was logged under. The log does not show it and
  the decoder does not read it; only `PumpEvents.OwnEventIff` speaks of it.
- The SDK reads a flag byte other than zero as true, and splits a list that is too short into the whole list and
  nothing. The straight-line parameter codecs of the 21 instruction variants are one table
  (`InstructionCodec.Params`), read and written field by field.

## Where the code does not do what it seems to promise

- The 18-digit quote can exceed the constant-product output by one, and then take more than the pool owes
  (`AmmQuote.ExactIff`, `AmmQuote.LargeReserveOvershoots`).
- Buying on the curve and selling back can quote more than was paid (`BondingCurve.RoundTrip`, `RoundTripCanGain`).
- A block without a price source stores no row, so no retry finds it (`BlockIngest.BlockRecordedIff`,
  `RetryLoop.UnrecordedBlockIsNeverRetried`).
- A failed retry query ends the retry loop: the case for an empty result comes before the one for an error
  (`RetryLoop.TickReturnsIff`). With more than fifty failed slots in the window, older ones get their turn exactly when
  one of the fifty newest can be resolved (`RetryLoop.OlderSentNextIff`); slots more than 100 below the failed slot
  recorded first never do (`RetryLoop.RemainingLieBelow`, `LateLowSlotIsOutside`).
- No test rejects the infinite price of a swap that moves dollars against no SOL: it can become the price of a block,
  and of blocks without swaps above it (`BlockIngest.StoredPriceFiniteIff`).
- A pump trade gets the event of another one as soon as an earlier trade had an unknown token account or an earlier
  instruction traded through an inner call (`PumpEvents.OwnEventIff`, `InnerTradeShiftsEvents`).
- The pump decoder sets neither slot nor swap name, so the slot guard freezes a pair row after its first trade
  (`PairRow.DecodedTradesFreezeRow`, `DecodedTradesHaveNoSlot`).
- A pair row need not show its latest trade when that trade opened it, because inserts and updates compute the
  liquidity by different formulas (`PairRow.LatestSlotWinsIff`); a newer trade that loses the race of two inserts is
  dropped (`PairRow.RacedTradeIsLostIff`).
- When the final write fails after a send, the caller gets an empty hash and no error
  (`Orders.CreateMarketOrderLogic.CreateMarketTxWithPairInfo`). The escalation of slippage would lower it for an
  auto-slippage order that starts above 4500 (`Orders.SlippageNeverLoweredIff`); the market-order flow never places one
  (`Orders.PlacedOrderTriesOnce`).
- The announced range of a delay collapses when the jitter exceeds one and is the wrong way round when it is negative
  (`Backoff.DrawsLandIff`).
- Two map iterations can choose different pairs of a token when two names are at the top
  (`PairChoice.OrderMattersIff`).
- Two map iterations can fill in different decimals when the known ones of a mint disagree
  (`TokenAccounts.OrderMattersIff`).
- Decoding a mint or an account into a used object keeps options the bytes do not have (`WireFormat.RestoresIff`).

## Model

| member | source | states |
|---|---|---|
| AmmQuote.QuotedOutput | pkg/trade/swap.go:60-82 | for every slippage and fee up to 100% the quoted output is the rounded-down constant-product output, plus one exactly when the leftover of the division is lost at 18 digits; a slippage of 100% or more quotes nothing |
| AmmQuote.ExactIff | pkg/trade/swap.go:60-82 | the quote equals the exact output, and the pool keeps its product, if and only if the leftover does not round away |
| AmmQuote.SmallReserveIsExact | pkg/trade/swap.go:60-82 | a new input reserve of at most 2·10^18 millionths makes the quote exact, at most the reserve, and product preserving |
| AmmQuote.LargeReserveOvershoots | pkg/trade/swap.go:60-82 | beyond that bound a concrete quote hands out the whole output reserve where the exact output is zero |
| AmmQuote.MinimumOutput | pkg/trade/swap.go:76-81 | the minimum output is the quoted one less the slippage share, to within one unit, and never above it |
| AmmQuote.MoreInMoreOut | pkg/trade/swap.go:60-82 | a larger input never quotes less, before or after slippage |
| AmmQuote.ExcessFeePaysNothing | pkg/trade/swap.go:60-82 | a fee above 100% quotes nothing while the new reserve stays positive |
| AmmQuote.FailsOnlyOnEmptyReserve | pkg/trade/swap.go:60-82 | the call divides by zero exactly when the new input reserve is zero |
| AmmQuote.ReserveIsExact | pkg/trade/swap.go:61-74 | the fee division loses nothing: the 18-digit reserve is 10^12 times the reserve in millionths |
| AmmQuote.AmmDirection | pkg/trade/swap.go:53-58 | a buy pays the base side and takes tokens, a sell the reverse; in both the pool keeps its product within the bound |
| PumpSwapQuote.NetRoundsUp | pkg/trade/swap.go:91-97 | the floored fee leaves the rounded-up net input, zero exactly for no input or a full fee |
| PumpSwapQuote.ReceivedRoundsUp | pkg/trade/swap.go:98-116 | a pool gives out the rounded-up share of the net input, never more than its reserve, and all of it exactly when the input dwarfs the product |
| PumpSwapQuote.ProductAfterSwap | pkg/trade/swap.go:98-112 | the pool product never grows and falls by less than the new input reserve |
| PumpSwapQuote.BaseAmountOut | pkg/trade/swap.go:85-117 | the bought amount is ceil(base·e/(quote+e)) for the net input e, between one and the reserve; the call fails exactly when e is zero |
| PumpSwapQuote.BaseAmountOutMono | pkg/trade/swap.go:85-117 | paying more never buys less, through both nested floors |
| PumpSwapQuote.MinQuoteAmountOut | pkg/trade/swap.go:120-164 | the sell side: the rounded-up share of the quote reserve less the slippage percentage, failing exactly below one unit |
| BondingCurve.StepBounds | pkg/pumpfun/pump/buy.go:66-72 | one curve step pays between nothing and the reserve and drops the product by less than the new reserve |
| BondingCurve.SplitBuy | pkg/pumpfun/pump/buy.go:66-75 | paying any n positive amounts one after another buys at least the single-shot amount and at most n-1 tokens more |
| BondingCurve.BuyQuoteBounds | pkg/pumpfun/pump/buy.go:66-83 | for every percentage slippage takes its share and less than one unit more, toward zero; a share of at most the whole keeps the quote within what leaves the reserve |
| BondingCurve.RoundTrip | pkg/pumpfun/pump/sell.go:186-205 | selling back exactly the bought tokens quotes the payment plus ceil(dust/tokens), the payment itself exactly when the division left no dust, and at most one more when S+x <= T |
| BondingCurve.RoundTripCanGain | pkg/pumpfun/pump/sell.go:193-205 | a concrete round trip quotes twice what was paid |
| BondingCurve.SellMirrorsBuy | pkg/pumpfun/pump/sell.go:186-205 | a sell quote is the buy quote with the two reserves exchanged, fails exactly on an empty token side, and its second number is what leaves the curve before slippage |
| TransferScan.GetBlockSolPriceByTransfer | consumer/internal/logic/sol/block/price.go:182-247 | the pending-transfer loop returns the price of the first swap among neighbouring instructions; at each loop head at most one transfer is pending, the last instruction when it is one, and `connect` says whether one is |
| TransferScan.FirstSwapPrices | consumer/internal/logic/sol/block/price.go:182-247 | when the first neighbouring transfers of SOL and of dollars, in either order, where one payer owns the account the other pays into, move s and u, the price p satisfies p·s = 1000·u, and is infinite or no number when s is zero |
| TransferScan.NoSwapNoPrice | consumer/internal/logic/sol/block/price.go:182-247 | without such neighbours the price is zero |
| TransferScan.ScanFindsFirst | consumer/internal/logic/sol/block/price.go:182-247 | the search it refines returns the price of the first adjacent pair of opposite kind that is a swap |
| TransferScan.ScanFindsNone | consumer/internal/logic/sol/block/price.go:182-247 | and zero exactly when no two neighbours form one |
| TransferScan.LaterLegsDoNotMatter | consumer/internal/logic/sol/block/price.go:213-240 | instructions after the found pair never change the price |
| TransferScan.SwapTransferSymmetric | consumer/internal/logic/sol/block/price.go:249-267 | the owner test does not depend on which transfer comes first |
| TransferScan.TransferDecodesIff | consumer/internal/logic/sol/block/price.go:269-360 | which instructions decode as transfers, exactly, by program, tag, length and number of accounts |
| TransferScan.ProgramsDecodeAlike | consumer/internal/logic/sol/block/price.go:269-360 | the two token programs decode a transfer alike if and only if it is not a checked transfer longer than ten bytes |
| TransferScan.BuiltTransferIsSeen | consumer/internal/logic/sol/block/price.go:269-360 | a checked transfer as the instruction builder makes it is decoded to its source, destination, owner and amount |
| TransferScan.PlainTransferIsSeen | consumer/internal/logic/sol/block/price.go:269-360 | so is a plain transfer |
| TransferScan.KeptIffDollarsMoved | consumer/internal/logic/sol/block/price.go:82-85 | a found price is kept exactly when dollars moved, and is infinite exactly when no SOL did |
| TrimmedMean.RemoveMinAndMaxAndCalculateAverage | consumer/internal/logic/sol/block/price.go:119-158 | the three passes return 0, the element, the mean of two, or (sum-min-max)/(n-2), without dividing by zero; one infinity of a longer list is trimmed as its largest entry and any other makes the result infinite |
| TrimmedMean.AverageIsFiniteIff | consumer/internal/logic/sol/block/price.go:119-158 | the result is finite exactly without an infinity, or with one among at least three prices, and then lies between the smallest and the largest finite price |
| TrimmedMean.FindExtremes | consumer/internal/logic/sol/block/price.go:130-142 | no price is below the one at the first index or above the one at the second, an infinity counting as the largest; an index stays -1 only when no price passes the sentinel |
| TrimmedMean.RemovalIsTrimming | consumer/internal/logic/sol/block/price.go:144-155 | removing by index averages as trimming does even when both indices coincide |
| TrimmedMean.TrimmedBetween | consumer/internal/logic/sol/block/price.go:119-158 | the result lies between the smallest and the largest price |
| TrimmedMean.AverageOfPermutation | consumer/internal/logic/sol/block/price.go:119-158 | the order of the prices does not matter, whatever infinities the list holds |
| TrimmedMean.AverageIgnoresOutlier | consumer/internal/logic/sol/block/price.go:119-158 | among at least three prices raising a largest one, even to an infinity, does not change the result |
| TrimmedMean.AverageOfPositive | consumer/internal/logic/sol/block/price.go:119-158 | positive prices, infinities included, average to a positive price |
| TokenAccounts.AccountMap.FillTokenAccountMap | consumer/internal/logic/sol/block/price.go:370-438 | the objects of the map end as the recorded balances with the decimals collected along some order filled in; keys keep distinct objects; the flag says whether a balance moved |
| TokenAccounts.AccountMap.RecordPre | consumer/internal/logic/sol/block/price.go:375-387 | balances before the transaction replace the entries with new objects |
| TokenAccounts.AccountMap.RecordPost | consumer/internal/logic/sol/block/price.go:388-409 | balances after it update entries in place or add new ones |
| TokenAccounts.BalancesShown | consumer/internal/logic/sol/block/price.go:375-409 | what the balances leave of every account, field by field: open with both amounts, closed with the one before, newly seen with the one after, or untouched |
| TokenAccounts.MovedIff | consumer/internal/logic/sol/block/price.go:388-409 | the change flag is raised exactly when an account is new or holds another amount than recorded before |
| TokenAccounts.AccountMap.DecodeInitAccountInstruction | consumer/internal/logic/sol/block/price.go:440-483 | an initialisation instruction opens its account unless one of the same mint is there |
| TokenAccounts.InitialisationShows | consumer/internal/logic/sol/block/price.go:440-483 | over a sequence of instructions an initialisation leaves its account with its mint and owner, empty, new and open, and replaces an entry exactly when that has another mint |
| TokenAccounts.OpensNothingIff | consumer/internal/logic/sol/block/price.go:440-483 | an instruction changes nothing exactly when it initialises no account, or one known under that mint |
| TokenAccounts.OpenedInTransaction | consumer/internal/logic/sol/block/price.go:410-483 | after a transaction an account first met in an initialisation shows the mint and owner of its accounts or data; only its decimals may have been filled in |
| TokenAccounts.BuiltInitialisationOpens | consumer/internal/logic/sol/block/price.go:440-470 | the three variants are recognised as the token program encodes them, the owner of two of them being the key in the data |
| TokenAccounts.AccountMap.CollectDecimals | consumer/internal/logic/sol/block/price.go:426-431 | along some order of the keys, every mint gets the decimals of its last account that has any |
| TokenAccounts.CollectedIsTable | consumer/internal/logic/sol/block/price.go:426-431 | whatever the order, these are the decimals of one of its accounts, and no mint with known decimals is left out |
| TokenAccounts.AccountMap.FillDecimals | consumer/internal/logic/sol/block/price.go:432-436 | entries without decimals take those of their mint, all others stay |
| TokenAccounts.FilledIsUniform | consumer/internal/logic/sol/block/price.go:370-438 | if known decimals are the truth before, all entries of a mint agree after the call and no key is lost, for any iteration order |
| TokenAccounts.SettledKeeps | consumer/internal/logic/sol/block/price.go:425-436 | the two ranges change nothing but unknown decimals |
| TokenAccounts.BlockKeepsUniform | consumer/internal/logic/sol/block/price.go:370-438 | the same across any sequence of transactions of a block |
| TokenAccounts.OrderMattersIff | consumer/internal/logic/sol/block/price.go:426-436 | two iteration orders can fill in different maps if and only if some mint has disagreeing decimals and an entry to fill |
| TokenAccounts.OrderDoesNotMatter | consumer/internal/logic/sol/block/price.go:426-436 | without such a mint all tables fill in the same map |
| TokenAccounts.ContestedMintDependsOnOrder | consumer/internal/logic/sol/block/price.go:426-436 | and with one, two iteration orders are exhibited that disagree |
| BlockTable.ProcessingSlotsAreNewest | model/solmodel/blockmodel.go:72-87 | the retry query returns failed slots of the window only, the newest ones in descending order, as many as the limit lets through |
| BlockTable.TopIsDistinct | model/solmodel/blockmodel.go:72-87 | the selected slots are distinct: removing them removes as many rows |
| BlockTable.NearSlotIsNearest | model/solmodel/blockmodel.go:36-40 | the near-slot query returns the processed row no other processed row below the slot lies above |
| BlockTable.FindFirstFailedBlock | model/solmodel/blockmodel.go:63-70 | the failed slot with the least id, that is, the one recorded first; none exactly when nothing is failed |
| BlockIngest.BlockService.ProcessBlock | consumer/internal/logic/sol/block/block.go:102-204 | one call is one step of the state machine: final rows are left alone, otherwise the row is skipped, failed or processed with a price, or nothing is written |
| BlockIngest.IdsCountInsertions | model/solmodel/blockmodel_gen.go:66-70 | over every run a save of a known slot keeps its row's id and a save of a new slot takes the next one: ids are distinct and count the insertions |
| BlockIngest.StepFrame | consumer/internal/logic/sol/block/block.go:107-123 | a delivery touches no other slot, no final row and no row id, and drops no row |
| BlockIngest.StepKeepsPriced | consumer/internal/logic/sol/block/block.go:156-165 | a delivery keeps every processed row priced |
| BlockIngest.RunSafety | consumer/internal/logic/sol/block/block.go:102-198 | over every sequence of realtime and retry deliveries processed and skipped rows are absorbing and every processed row has a positive price |
| BlockIngest.PriceMissingIff | consumer/internal/logic/sol/block/price.go:99-116 | the price is missing exactly when the block has no swap, nothing is cached, and no processed row lies below the parent or its query failed |
| BlockIngest.PriceSources | consumer/internal/logic/sol/block/price.go:66-116 | the order of the sources: the average of the block, the cached price, the nearest processed row below the parent |
| BlockIngest.AcceptedDelivery | consumer/internal/logic/sol/block/block.go:125-203 | what an accepted delivery leaves of its slot, for each answer of the node, both ways |
| BlockIngest.DeliveredRow | consumer/internal/logic/sol/block/block.go:125-165 | the row an accepted delivery writes, column by column: a block brings its own time, and the clock only without one; a missing height keeps the row's; a skip keeps height, time and price; an unavailable slot gets the clock only while it has no time |
| BlockIngest.BlockTimeStays | consumer/internal/logic/sol/block/block.go:144-154 | over runs, whatever was delivered before or after, an accepted block leaves its own time on the row, or the clock of that attempt when it brings none |
| BlockIngest.FirstFailureStamps | consumer/internal/logic/sol/block/block.go:134-140 | while a slot stays failed its row keeps the clock of its first unavailable attempt |
| BlockIngest.RefusedDelivery | consumer/internal/logic/sol/block/block.go:102-123 | slot zero, a failed lookup, a failed write and a final row each leave the table alone |
| BlockIngest.NoPriceGapAbove | consumer/internal/logic/sol/block/block.go:158-163 | once a slot is processed, no later block with a parent above it ends without a price, whatever was delivered in between |
| BlockIngest.BlockRecordedIff | consumer/internal/logic/sol/block/block.go:158-203 | a fetched block of a new slot is recorded exactly when it holds a swap, a price is cached, or a processed row lies below its parent |
| BlockIngest.PriceStaysFound | consumer/internal/logic/sol/block/price.go:99-116 | a price source that answers keeps answering on every later table |
| BlockIngest.StoredPriceFiniteIff | consumer/internal/logic/sol/block/price.go:97-116 | the price a processed row gets is finite exactly when the swaps of its block hold no infinity, or one among at least three, and, for a block without swaps, when a price is cached or the nearest processed row below the parent is finite |
| BlockIngest.RunKeepsFinite | consumer/internal/logic/sol/block/price.go:66-116 | over every run from finite rows no row becomes infinite unless the swaps of some block average to an infinity |
| RetryLoop.SlotNotCompleted | consumer/internal/logic/sol/slot/not_complete.go:24-71 | the starting slot, the ticker loop and a stop in the middle of a pass refine the recursive retry process, with the same passes, table and way of ending |
| RetryLoop.Send | consumer/internal/logic/sol/slot/not_complete.go:60-67 | one pass delivers the selected slots in order, all of them or those that go out before the service stops |
| RetryLoop.PassShrinks | consumer/internal/logic/sol/slot/not_complete.go:49-67 | a pass can only take slots out of the failed window and changes only the failed slots it sends |
| RetryLoop.RetriesOnlyShrink | consumer/internal/logic/sol/slot/not_complete.go:45-69 | so does any run of the loop, and it adds no row |
| RetryLoop.SentAreFailed | consumer/internal/logic/sol/slot/not_complete.go:45-69 | only failed slots of the window are ever sent |
| RetryLoop.ReturnsWhenNoneRemain | consumer/internal/logic/sol/slot/not_complete.go:45-69 | with working queries the loop returns only when no failed row is left in the window |
| RetryLoop.TickReturnsIff | consumer/internal/logic/sol/slot/not_complete.go:49-57 | a running tick ends the loop exactly when its query failed or no failed row is left: the empty-list case comes before the error case |
| RetryLoop.PassResolves | consumer/internal/logic/sol/slot/not_complete.go:60-67 | a pass whose deliveries resolve their slots, by a skip or by any price source that answers, takes exactly the slots it sends out of the window |
| RetryLoop.Converges | consumer/internal/logic/sol/slot/not_complete.go:45-69 | with working queries, and deliveries that resolve the failed slots of the window through any price source, F failed rows vanish after exactly ceil(F/50) passes and the loop returns |
| RetryLoop.RemainingLieBelow | consumer/internal/logic/sol/slot/not_complete.go:45-69 | what such a run leaves failed is exactly what lay more than 100 below the starting slot |
| RetryLoop.StartOfRun | consumer/internal/logic/sol/slot/not_complete.go:26-43 | a run starts from the configured slot, otherwise from the failed slot with the least id, and nowhere exactly when neither is there |
| RetryLoop.RunWindow | consumer/internal/logic/sol/slot/not_complete.go:45-69 | it sends only failed slots from 100 below its start |
| RetryLoop.LateLowSlotIsOutside | consumer/internal/logic/sol/slot/not_complete.go:26-38 | the failed slot recorded first need not be the lowest: a concrete run whose lower failed slot is never sent |
| RetryLoop.UnrecordedBlockIsNeverRetried | consumer/internal/logic/sol/block/block.go:158-163 | a fetched block of a new slot is missing from every later table of the retries, and sent in none, exactly when no price source answers |
| RetryLoop.PassResolvesIff | consumer/internal/logic/sol/slot/not_complete.go:60-67 | a pass takes some slot out of the failed ones exactly when some of its attempts resolves on the table it starts from |
| RetryLoop.OlderSentNextIff | consumer/internal/logic/sol/slot/not_complete.go:49-67 | with more failed rows than one pass takes and working queries, an older slot is sent at the next tick exactly when some slot sent now can be resolved on the present table: the node skips it, or returns its block and some price source answers |
| RetryLoop.NewestFailuresStarveOlder | consumer/internal/logic/sol/slot/not_complete.go:45-69 | so while the newest fifty stay unavailable, no run sends anything older and the table never changes |
| PumpEvents.DecodePumpEvent | consumer/internal/logic/sol/block/pump.go:132-157 | the events are those of the log lines in order, or an error if any is corrupt |
| PumpEvents.CorruptIffFails | consumer/internal/logic/sol/block/pump.go:132-157 | decoding the log fails exactly on a corrupt line |
| PumpEvents.EventsOfLog | consumer/internal/logic/sol/block/pump.go:132-157 | otherwise every event line counts, in order |
| PumpEvents.TradesByDiscriminator | consumer/internal/logic/sol/block/pump.go:17-54 | the trades are the pump instructions whose data start with the discriminator of buy or of sell |
| PumpEvents.DecodedTx.DecodePumpInstruction | consumer/internal/logic/sol/block/pump.go:36-130 | the cursor advances by one exactly when a pump trade of a known account finds an event, and the trade is built from the event under it |
| PumpEvents.DecodedTx.DecodeTx | consumer/internal/logic/sol/block/block.go:206-237 | the k-th emitted trade is built from the k-th resolved instruction and the k-th event, the cursor ends at their number, which is the smaller of the two counts |
| PumpEvents.ExpectedStep | consumer/internal/logic/sol/block/pump.go:36-130 | how one instruction extends the emitted trades |
| PumpEvents.OwnEventIff | consumer/internal/logic/sol/block/pump.go:56-73 | for every ordered log, a trade takes an event of its own instruction if and only if the events logged before the instruction are no more, and those up to it more, than the trades emitted so far; when every top-level trade logs its event this means that no earlier pump trade was passed over and no earlier event came from an inner call |
| PumpEvents.InnerTradeShiftsEvents | consumer/internal/logic/sol/block/block.go:224-235 | a concrete transaction whose one trade carries the event of an inner call before it |
| PumpEvents.TradeValue | consumer/internal/logic/sol/block/pump.go:80-127 | a trade's dollars are the SOL paid at the block price; its price times its tokens misses them by half of the last digit kept for each token at most, and is zero exactly when the dollars of a token are less than that; amounts, reserves and parties are those of the event and the instruction; no slot and no swap name are set |
| PumpEvents.TradePair | consumer/internal/logic/sol/block/pump.go:80-127 | the pair of a decoded trade is the event's token against SOL, with the fixed amounts of a new curve, in the block that carried it |
| PairRow.Pair.UpdatePairDBPoint | consumer/internal/logic/sol/block/db.go:251-320 | the in-place update equals the guarded field-by-field one |
| PairRow.PairModel.SavePair | consumer/internal/logic/sol/block/db.go:108-248 | a first trade inserts, a later one updates only from a greater slot, a lost race keeps the other row, a failed call leaves the table alone, and the trade carries the valuation it would be saved with in every case after the lookup |
| PairRow.PairModel.SavePairInfo | consumer/internal/logic/sol/block/db.go:62-106 | of the trades of one pair only the last is saved; its valuation, saved or not, and the token's supply are given to all; without a token row nothing happens, and its error is passed on |
| PairRow.UpdateShows | consumer/internal/logic/sol/block/db.go:209-245 | after an update the row shows exactly the trade |
| PairRow.SavedRowShows | consumer/internal/logic/sol/block/db.go:108-248 | after any trades of a new pair the row is named PumpFun, is about the tokens and block of the trade that opened it, has the symbol of the token row or else of the latest trade, and was last traded when that one says |
| PairRow.UpdateGuards | consumer/internal/logic/sol/block/db.go:209-320 | a token price of zero, an unknown supply and a pool without one of its sides keep the old values; initial amounts are taken once |
| PairRow.UpdateValues | consumer/internal/logic/sol/block/db.go:251-320 | the valuation and the liquidity an update writes, by the row's name |
| PairRow.InsertShowsIff | consumer/internal/logic/sol/block/db.go:118-181 | an inserting trade shows the same exactly when the two liquidity formulas agree |
| PairRow.LatestSlotWinsIff | consumer/internal/logic/sol/block/db.go:108-248 | after any sequence of trades the row shows the trade of the greatest slot, the earliest of them on a tie, if and only if that trade did not open the row or the two liquidity formulas agree on it |
| PairRow.ArrivalOrderMattersIff | consumer/internal/logic/sol/block/db.go:108-248 | with distinct slots two arrival orders end in the same row if and only if the formulas agree on the latest trade or it opens the row in both or in neither |
| PairRow.RacedTradeIsLostIff | consumer/internal/logic/sol/block/db.go:187-196 | when another trade of the pair wins the race of two inserts, saving this one leaves the table as the other made it, which is the table of the two saves in turn exactly when this one is not newer |
| PairRow.SlotAndInitsKept | consumer/internal/logic/sol/block/db.go:108-248 | the stored slot never decreases, known initial amounts are kept and the row stays about the same tokens |
| PairRow.DecodedTradesFreezeRow | consumer/internal/logic/sol/block/db.go:209-245 | trades without a slot never update the row after the first |
| PairRow.DecodedTradesHaveNoSlot | consumer/internal/logic/sol/block/pump.go:80-127 | the pump decoder emits only such trades |
| PairRow.DecodedTradeOpensRow | consumer/internal/logic/sol/block/db.go:127-181 | the row a decoded trade opens is about the event's token against SOL, at the event's reserves and the block's price, with the fixed amounts of a new curve |
| PairRow.SavedPairsCompete | model/solmodel/pairmodel.go:65-111 | among pairs that were all saved here the choice is one of them and a most liquid one as soon as any has liquidity: none is dropped for its name |
| PairRow.DecodedPairIsFound | model/solmodel/pairmodel.go:54-112 | the pair a decoded trade opens is the choice for its token when there is no other, with a SOL price and SOL in the pool |
| PairChoice.FindOneByChainIdTokenAddress | model/solmodel/pairmodel.go:54-112 | for every iteration order the two levels return the most liquid of the group winners; a failed query and no rows are errors |
| PairChoice.GroupByName | model/solmodel/pairmodel.go:68-75 | the groups are the rows of each name in order, without unnamed ones |
| PairChoice.MostLiquid | model/solmodel/pairmodel.go:78-88 | the inner loop keeps the first of the most liquid rows |
| PairChoice.MostLiquidWinner | model/solmodel/pairmodel.go:92-109 | the outer one passes over the pump pair when several names are there |
| PairChoice.ChoiceIsFlatMaximum | model/solmodel/pairmodel.go:65-111 | the choice is a maximum over all eligible rows at once, and empty exactly when none has positive liquidity |
| PairChoice.ChoiceIsTop | model/solmodel/pairmodel.go:65-111 | the chosen row is the best of its own name |
| PairChoice.ChoiceIgnoresOrder | model/solmodel/pairmodel.go:65-111 | the iteration order does not matter with at most one name at the top |
| PairChoice.DistinctLiquiditiesDecide | model/solmodel/pairmodel.go:65-111 | in particular when liquidities are distinct |
| PairChoice.FirstTopNameWins | model/solmodel/pairmodel.go:65-111 | of several names at the top the first one the iteration meets wins, at whatever position |
| PairChoice.OrderMattersIff | model/solmodel/pairmodel.go:65-111 | two iteration orders can choose different rows if and only if two different names are at the top |
| Orders.OrderModel.InsertWithLog | model/trademodel/tradeordermodel.go:41-50 | a new order and its first log line are written together, under a fresh id, or not at all |
| Orders.OrderModel.UpdateOrderBySelect | model/trademodel/tradeordermodel.go:52-62 | only the selected columns change, together with a log line, or nothing does |
| Orders.LogHoldsLatest | model/trademodel/tradeorderlogmodel.go:54-113 | after any sequence of writes the log holds at most one line for each order and status, the last one written, and nothing else changed |
| Orders.CreateMarketOrderLogic.UpdateDbByTxResult | trade/internal/logic/createmarketorderlogic.go:215-267 | although only changed columns are selected, the stored row ends equal to the order in memory |
| Orders.CreateMarketOrderLogic.CreateMarketTxWithPairInfo | trade/internal/logic/createmarketorderlogic.go:269-391 | the retry loop ends at the deciding attempt, whose slippage, hash or reason is stored by one write; an unsigned transaction bypasses the database |
| Orders.CreateMarketOrderLogic.CreateMarketTx | trade/internal/logic/createmarketorderlogic.go:182-214 | exactly one final write in every case, on chain if and only if no error is returned, whether the handler or the loop decided |
| Orders.OnlyAskedMatters | trade/internal/logic/createmarketorderlogic.go:269-391 | two chains that agree on every attempt with the order's amount, price, wallet and slippage, the pair's pool and address and the tokens of its direction, lead the order to the same end |
| Orders.FinalRow | trade/internal/logic/createmarketorderlogic.go:215-391 | the row an order ends in, column by column, from what such an attempt was answered; the price limit is used exactly for limit orders and on concentrated liquidity |
| Orders.CreateMarketOrderLogic.CreateMarketOrder | trade/internal/logic/createmarketorderlogic.go:68-180 | a refused request or failed insert leaves no trace; otherwise a fresh id gets one row and log lines of its first and its final status and no other, and success is reported exactly when it ends on chain or its transaction is handed back unsigned |
| Orders.RetryOutcome | trade/internal/logic/createmarketorderlogic.go:357-375 | at most three attempts, one without auto slippage, all but the last ended by the slippage limit, and the last one's parameters decide |
| Orders.SlippageNeverLoweredIff | trade/internal/logic/createmarketorderlogic.go:357-375 | over everything the chain can answer the deciding attempt never has less slippage than the order exactly when the order is no auto-slippage order of the served chain or starts from at most 4500 |
| Orders.CreateMarketOrderLogic.Accept | trade/internal/logic/createmarketorderlogic.go:70-154 | which requests are refused and with what error, and the order an accepted one leads to |
| Orders.Refused | trade/internal/logic/createmarketorderlogic.go:70-124 | nothing is refused exactly for a positive amount, a found pair, and a base price in the pair or a positive native price on the served chain |
| Orders.PlacedPrice | trade/internal/logic/createmarketorderlogic.go:106-126 | for a base price that is not negative, the order's price times the base price is the token price to within half of the last digit kept, and is zero exactly below that |
| Orders.PlacedOrderTriesOnce | trade/internal/logic/createmarketorderlogic.go:80-154 | an order placed by this flow makes one attempt and keeps its slippage of 5000, whatever the chain answers |
| Orders.PlacedRow | trade/internal/logic/createmarketorderlogic.go:126-157 | the first row of a request, column by column |
| Orders.OnlyAskedForMatters | trade/internal/logic/createmarketorderlogic.go:68-391 | two chains that agree on the requested amount at the pair's price, from the requesting wallet at a slippage of 5000, lead the request to the same row and result |
| Orders.SellMirrorsBuy | trade/internal/logic/createmarketorderlogic.go:280-354 | a sell hands the chain the tokens of a buy exchanged and nothing else; a buy pays with the base token |
| Orders.SlippageLimitIff | trade/internal/logic/createmarketorderlogic.go:438-465 | which messages ask for another attempt, exactly |
| Orders.CodeOf | trade/internal/logic/createmarketorderlogic.go:438-465 | the code every message is translated to, exactly |
| Orders.TranslatingTwice | trade/internal/logic/createmarketorderlogic.go:438-465 | coded errors pass through, so translating an error twice is translating it once |
| Ticks.CorrectedTruncIsFloor | trade/internal/chain/solana/txManager.go:1775-1781 | truncation corrected for negative remainders is the floor |
| Ticks.TickAligned | trade/internal/chain/solana/txManager.go:1775-1781 | the aligned tick is the multiple at or just below, and aligning is idempotent |
| Ticks.TickMonotone | trade/internal/chain/solana/txManager.go:1775-1781 | aligning keeps the order of ticks |
| Ticks.ArrayStartAligned | trade/internal/chain/solana/txManager.go:1783-1790 | the array start is the tick aligned to the width of the whole array |
| Ticks.AlignedTickKeepsArray | trade/internal/chain/solana/txManager.go:1775-1790 | aligning a tick first never moves it to another array |
| Backoff.Grow | pkg/backoff/backoff.go:41-49 | for every retry count and multiplier the loop multiplies until the ceiling is reached for the first time |
| Backoff.ReachedIsCappedIff | pkg/backoff/backoff.go:36-57 | that is min(MaxDelay, BaseDelay·Multiplier^retries) exactly when the multiplier is at least one, or the base is below the ceiling, or the shrunk delay is not |
| Backoff.Delay | pkg/backoff/backoff.go:36-57 | the delay is the jittered one cut to whole nanoseconds, never negative |
| Backoff.Range | pkg/backoff/backoff.go:60-82 | the announced range is the delay at the two extreme draws |
| Backoff.DrawnIs | pkg/backoff/backoff.go:54-82 | a draw d gives the whole nanoseconds of delay·(1+jitter·(2d-1)), and the announced ends are the extreme draws |
| Backoff.CappedStays | pkg/backoff/backoff.go:41-49 | once at the ceiling, more retries stay there |
| Backoff.CappedMonotone | pkg/backoff/backoff.go:36-57 | the delay never falls with more retries and never exceeds the ceiling |
| Backoff.DelayInRange | pkg/backoff/backoff.go:36-82 | with a jitter in [0,1] every draw lands in the announced range |
| Backoff.DrawsLandIff | pkg/backoff/backoff.go:36-82 | every draw lands in the announced range exactly for a jitter in [0,1], or a negative one too small to move the delay by a nanosecond |
| Backoff.NegativeJitterInverts | pkg/backoff/backoff.go:60-82 | a negative jitter announces the range the wrong way round, with every draw in between |
| Backoff.WideJitterMisses | pkg/backoff/backoff.go:60-82 | a jitter above one announces nothing while draws do not vanish |
| WireFormat.ValueRoundTrip | pkg/sol/token2022_new/accounts.go:43-164 | each kind of field decodes to what was encoded and is canonical |
| WireFormat.ValueReencode | pkg/sol/token2022_new/accounts.go:43-164 | encoding a decoded field gives as many bytes, the same exactly when they were canonical |
| WireFormat.LenientReads | pkg/sol/token2022_new/accounts.go:43-104 | an option tag other than one reads as absent whatever its body, a flag byte other than zero as true |
| WireFormat.RoundTrip | pkg/sol/token2022_new/accounts.go:43-386 | every record of every layout decodes to itself whatever follows |
| WireFormat.ReencodedIsCanonical | pkg/sol/token2022_new/accounts.go:43-386 | decoding and encoding is an idempotent canonicalisation of the same length that changes nothing exactly on canonical bytes |
| WireFormat.RestoresIff | pkg/sol/token2022_new/accounts.go:43-104 | decoding into a used object restores a record exactly when the object held no option the record lacks |
| AccountCodec.Mint.MarshalWithEncoder | pkg/sol/token2022_new/accounts.go:106-164 | the fields are appended in the layout's order |
| AccountCodec.Mint.UnmarshalWithDecoder | pkg/sol/token2022_new/accounts.go:43-104 | the fields read so far overwrite the object, absent options leave it alone, and it fails exactly when some field cannot be read |
| AccountCodec.Account.MarshalWithEncoder | pkg/sol/token2022_new/accounts.go:291-386 | the same for token accounts |
| AccountCodec.Account.UnmarshalWithDecoder | pkg/sol/token2022_new/accounts.go:195-289 | the same for token accounts |
| AccountCodec.MintLayout | pkg/sol/token2022_new/accounts.go:106-164 | the bytes of a mint, field after field |
| AccountCodec.AccountLayout | pkg/sol/token2022_new/accounts.go:291-386 | the bytes of a token account, field after field |
| AccountCodec.CodecRoundTrip | pkg/sol/token2022_new/accounts.go:43-386 | a mint takes 82 bytes and an account 165, and both decode to what was encoded |
| AccountCodec.DecodesIff | pkg/sol/token2022_new/accounts.go:43-386 | decoding fails exactly on fewer bytes and ignores the rest |
| AccountCodec.MintBytesSurviveIff | pkg/sol/token2022_new/accounts.go:43-164 | re-encoding 82 bytes gives them back exactly when both option tags, their absent bodies and the flag byte are canonical |
| AccountCodec.AccountBytesSurviveIff | pkg/sol/token2022_new/accounts.go:195-386 | the same for 165 bytes and their three options |
| AccountCodec.ReloadMint | pkg/sol/token2022_new/accounts.go:43-164 | encoding one mint into another by the two methods: an authority the first lacks is not cleared |
| AccountCodec.CopyMint | pkg/sol/token2022_new/accounts.go:43-164 | into a new object the mint arrives whole |
| AccountCodec.ReloadAccount | pkg/sol/token2022_new/accounts.go:195-386 | the same for token accounts |
| AccountCodec.CopyAccount | pkg/sol/token2022_new/accounts.go:195-386 | the same for token accounts |
| InstructionCodec.Marshal | pkg/sol/token2022_new/instructions.go:317-339 | the data are the variant byte and the parameters of the variant |
| InstructionCodec.DataLayout | pkg/sol/token2022_new/instructions.go:317-339 | the data of all 21 variants byte by byte |
| InstructionCodec.SplitPoints | pkg/sol/token2022_new/instructions.go:329-361 | how many accounts each variant takes before the signers |
| InstructionCodec.DecodeInstruction | pkg/sol/token2022_new/instructions.go:329-361 | the variant byte picks the parameters to read and the accounts are split last; every failure is an error |
| InstructionCodec.InstructionRoundTrip | pkg/sol/token2022_new/instructions.go:313-361 | for all 21 variants decoding an instruction's own data and accounts restores variant, parameters and account list, and the instruction itself exactly when its accounts split back |
| InstructionCodec.ParsedIsFaithful | pkg/sol/token2022_new/instructions.go:349-361 | whatever decodes keeps the given accounts, re-encodes to the bytes read exactly when they were canonical, and decodes to itself again |
| InstructionCodec.DecodingFailsIff | pkg/sol/token2022_new/instructions.go:349-361 | decoding fails exactly on no data, an unknown variant, or too few parameter bytes |
| InstructionCodec.SplitRestores | pkg/sol/token2022_new/TransferChecked.go:60-69 | splitting after joining restores both lists exactly when every named account is there or no signer is |
| InstructionBuilders.SetAuthority.Validate | pkg/sol/token2022_new/SetAuthority.go:130-154 | the first parameter or account missing, by its position, then nobody signing, then too many signers |
| InstructionBuilders.SetAuthority.ValidateAndBuild | pkg/sol/token2022_new/SetAuthority.go:113-128 | an instruction is built exactly when validation finds nothing, and with no account beyond the two decodes to itself |
| InstructionBuilders.BuildSetAuthority | pkg/sol/token2022_new/SetAuthority.go:123-154 | validation turns down what the constructor returns exactly on more than eleven signers |
| InstructionBuilders.SetAuthorityDecodes | pkg/sol/token2022_new/SetAuthority.go:188-234 | what it builds is the variant byte, the type, a one and the key, with the account writable and the authority signing exactly without signers, and decodes to itself |
| InstructionBuilders.TransferChecked.Validate | pkg/sol/token2022_new/TransferChecked.go:169-202 | the first parameter or account missing, by its position, then nobody signing, then too many signers |
| InstructionBuilders.TransferChecked.ValidateAndBuild | pkg/sol/token2022_new/TransferChecked.go:152-167 | an instruction is built exactly when validation finds nothing, and with no account beyond the four decodes to itself |
| InstructionBuilders.BuildTransferChecked | pkg/sol/token2022_new/TransferChecked.go:162-202 | validation turns down what the constructor returns exactly on more than eleven signers |
| InstructionBuilders.TransferCheckedDecodes | pkg/sol/token2022_new/TransferChecked.go:238-264 | what it builds is the variant byte, eight bytes of amount and one of decimals, over its four accounts and their flags, and decodes to itself |
| InstructionBuilders.InitializeMint.ValidateAndBuild | pkg/sol/token2022_new/InitializeMint.go:118-146 | built exactly when both parameters and both accounts are set, otherwise the first one missing is reported; what is built takes 67 bytes with a freeze authority and 35 without, and always decodes to itself |
| InstructionBuilders.BuildInitializeMint | pkg/sol/token2022_new/InitializeMint.go:231-245 | what the one-call constructor returns can always be built and always names a freeze authority |
| InstructionBuilders.InitializeMintDecodes | pkg/sol/token2022_new/InitializeMint.go:172-228 | with or without a freeze authority the bytes are given and the instruction is restored |

## Left out

- RPC, websockets, HTTP, the SQL dialect, gRPC, caches, logging and service wiring: they appear only as tables and as parameters that succeed or fail.
- Signing, key handling, address derivation, text encodings of keys, bundle sending: external.
- Rounding of IEEE floats and of `big.Float`, and the logarithms of `priceToTick`: exact reals are used instead.
- `CalcMinAmountOutByPrice`: its factor of 1000 is marked temporary in the code.
- The scan of `GetBlockSolPrice` over the transactions of a block: its list of prices is an input of `BlockIngest`. It looks inner instructions up by program index rather than by position (`consumer/internal/logic/sol/block/price.go:82`), which the model does not reproduce.
- Wrap-around of `uint64` and `int64`: amounts are unbounded, except in the codecs and for the 32-bit slippage of an order.
- Interleavings inside one `ProcessBlock` call.
- Saving trades, tokens and accounts of a block, and the columns of pairs, trades and orders that no modelled rule reads.
- Sharing of trade objects between the saved trade and the list: trades are values, and the valuation is copied back.
- The conversion of a negative curve quote to an unsigned number.
- Fetching and saving the token row: its outcome is a parameter of `PairRow.PairModel.SavePairInfo`.
- Generated builders and bindings, error tables, protobuf files and the text trees of instructions: only easy members.
- Encoding an instruction whose parameters are not set: the builders' validation comes first.
- PumpEvents.DecodedTx.DecodeTx: events carry positive token amounts and the block's price is finite; a zero amount or an infinite price makes the decimal package panic.
- TokenAccounts.BlockKeepsUniform: known decimals are assumed to be the mint's own, as the chain guarantees.
- Of a request to the chain: user and wallet numbers, gas type, anti-MEV flag and the two decimals, which the code sets to 9 for every token.
