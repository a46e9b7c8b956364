/** ProcessBlock as a state machine over the block table
    (consumer/internal/logic/sol/block/block.go, price.go). One call is one atomic step. */
module BlockIngest {
  import opened Floats
  import opened Wrappers
  import opened BlockTable
  import TrimmedMean

  /** What the node answers for a slot: the prices are those found in the block's swaps. */
  datatype Reply = SlotSkipped | Unavailable | BlockInfo(parentSlot: int, height: Option<int>, time: Option<int>,
                                                         prices: TrimmedMean.Prices)

  /** One attempt's outside world: the node's answer, the clock, and whether each query and the write succeed. */
  datatype Attempt = Attempt(findOk: bool, reply: Reply, now: int, nearOk: bool, writeOk: bool)

  datatype Delivery = Delivery(slot: int, attempt: Attempt)

  predicate Final(t: Table, slot: int) {
    slot in t && t[slot].status != Failed
  }

  /** The block's own swaps, else the cached price, else the nearest processed block below the parent. */
  function GetBlockSolPrice(t: Table, cached: real, parentSlot: int, prices: TrimmedMean.Prices, nearOk: bool): Float {
    var price := TrimmedMean.AverageOf(prices);
    if Positive(price) then price
    else if cached > 0.0 then Finite(cached)
    else
      var near := FindOneByNearSlot(t, parentSlot);
      if !nearOk || near.None? then ZERO else near.value.solPrice
  }

  /** A row as read, or the fresh row of a new slot; ids follow the order of insertion. */
  function Loaded(t: Table, slot: int): (row: Row)
    ensures slot in t ==> row == t[slot]
    ensures slot !in t ==> row.height == 0 && row.time.None? && row.solPrice == ZERO
  {
    if slot in t then t[slot] else Row(|t| + 1, Failed, 0, None, ZERO)
  }

  /** The row an attempt wants to store, if any. */
  function Decided(t: Table, cached: real, slot: int, a: Attempt): Option<Row> {
    var row := Loaded(t, slot);
    match a.reply
    case SlotSkipped => Some(row.(status := Skipped))
    case Unavailable => Some(row.(status := Failed, time := if row.time.None? then Some(a.now) else row.time))
    case BlockInfo(parentSlot, height, time, prices) =>
      var price := GetBlockSolPrice(t, cached, parentSlot, prices, a.nearOk);
      if price == ZERO then None
      else Some(Row(row.id, Processed, if height.Some? then height.value else row.height,
                    if time.Some? then time else Some(a.now), price))
  }

  function Step(t: Table, cached: real, d: Delivery): Table {
    if d.slot == 0 || !d.attempt.findOk || Final(t, d.slot) then t
    else
      var row := Decided(t, cached, d.slot, d.attempt);
      if row.None? || !d.attempt.writeOk then t else t[d.slot := row.value]
  }

  class BlockService {
    var rows: Table
    const solPrice: real

    constructor (solPrice: real)
      ensures rows == map[] && this.solPrice == solPrice
    {
      this.rows, this.solPrice := map[], solPrice;
    }

    method ProcessBlock(slot: int, a: Attempt)
      modifies this`rows
      ensures rows == Step(old(rows), solPrice, Delivery(slot, a))
    {
      if slot == 0 {
        return;
      }
      if !a.findOk {
        return;
      }
      var block: Row;
      if slot in rows {
        block := rows[slot];
        if block.status == Processed || block.status == Skipped {
          return;
        }
      } else {
        block := Row(|rows| + 1, Failed, 0, None, ZERO);
      }
      match a.reply {
        case SlotSkipped =>
          block := block.(status := Skipped);
          Insert(slot, block, a.writeOk);
        case Unavailable =>
          block := block.(status := Failed);
          if block.time.None? {
            block := block.(time := Some(a.now));
          }
          Insert(slot, block, a.writeOk);
        case BlockInfo(parentSlot, height, time, prices) =>
          block := block.(time := if time.Some? then time else Some(a.now));
          if height.Some? {
            block := block.(height := height.value);
          }
          block := block.(status := Processed);
          var price := GetBlockSolPrice(rows, solPrice, parentSlot, prices, a.nearOk);
          if price == ZERO {
            return;
          }
          block := block.(solPrice := price);
          Insert(slot, block, a.writeOk);
      }
    }

    /** gorm's Save: insert or overwrite the slot's row, or nothing when the database fails. */
    method Insert(slot: int, block: Row, writeOk: bool)
      modifies this`rows
      ensures rows == if writeOk then old(rows)[slot := block] else old(rows)
    {
      if writeOk {
        rows := rows[slot := block];
      }
    }
  }

  // ---------- runs ----------

  function Run(t: Table, cached: real, ds: seq<Delivery>): Table
    decreases |ds|
  {
    if ds == [] then t else Run(Step(t, cached, ds[0]), cached, ds[1..])
  }

  /** The prices a block yields are positive: the scan keeps no others. */
  predicate PositivePrices(a: Attempt) {
    a.reply.BlockInfo? ==> forall i :: 0 <= i < |a.reply.prices| ==> Positive(a.reply.prices[i])
  }

  /** Every processed row carries a positive price, and nothing is stored for slot 0. */
  predicate Priced(t: Table) {
    && 0 !in t
    && forall s :: s in SlotsWith(t, Processed) ==> Positive(t[s].solPrice)
  }

  lemma PriceIsPositive(t: Table, cached: real, parentSlot: int, prices: TrimmedMean.Prices, nearOk: bool)
    requires Priced(t)
    ensures GetBlockSolPrice(t, cached, parentSlot, prices, nearOk) == ZERO
            || Positive(GetBlockSolPrice(t, cached, parentSlot, prices, nearOk))
    ensures GetBlockSolPrice(t, cached, parentSlot, prices, nearOk) == ZERO <==>
              && !Positive(TrimmedMean.AverageOf(prices))
              && cached <= 0.0
              && (nearOk ==> forall s :: s in SlotsWith(t, Processed) ==> s >= parentSlot)
  {
    NearSlotIsNearest(t, parentSlot);
  }

  lemma StepKeepsPriced(t: Table, cached: real, d: Delivery)
    requires Priced(t)
    ensures Priced(Step(t, cached, d))
  {
    var a := d.attempt;
    if a.reply.BlockInfo? {
      PriceIsPositive(t, cached, a.reply.parentSlot, a.reply.prices, a.nearOk);
    }
    var t' := Step(t, cached, d);
    forall s | s in SlotsWith(t', Processed)
      ensures Positive(t'[s].solPrice)
    {
      assert s != d.slot || t' == t ==> s in SlotsWith(t, Processed);
    }
  }

  /** A processed or skipped row is never touched again, no row disappears, and a delivery touches no other slot. */
  lemma StepFrame(t: Table, cached: real, d: Delivery)
    ensures var t' := Step(t, cached, d);
            && t.Keys <= t'.Keys <= t.Keys + {d.slot}
            && (forall s :: s in t && (s != d.slot || Final(t, s)) ==> t'[s] == t[s])
            && (forall s :: s in t ==> t'[s].id == t[s].id)
  {
  }

  /** Over any run, in any order and with any repetition of deliveries: final rows are absorbing,
      rows never disappear, and every processed row is priced. */
  lemma {:induction false} RunSafety(t: Table, cached: real, ds: seq<Delivery>)
    requires Priced(t)
    ensures var t' := Run(t, cached, ds);
            && Priced(t')
            && t.Keys <= t'.Keys
            && forall s :: Final(t, s) ==> t'[s] == t[s]
    decreases |ds|
  {
    if ds != [] {
      StepKeepsPriced(t, cached, ds[0]);
      StepFrame(t, cached, ds[0]);
      RunSafety(Step(t, cached, ds[0]), cached, ds[1..]);
    }
  }

  /** The attempt ends at "Sol Price not found": a block was fetched and no price source answered. */
  predicate PriceMissing(t: Table, cached: real, a: Attempt) {
    a.reply.BlockInfo? && GetBlockSolPrice(t, cached, a.reply.parentSlot, a.reply.prices, a.nearOk) == ZERO
  }

  /** Exactly when the price is missing: no swap in the block, no cached price, and no processed row below
      the parent (or the query for it failed). */
  lemma PriceMissingIff(t: Table, cached: real, a: Attempt)
    requires Priced(t) && PositivePrices(a)
    ensures PriceMissing(t, cached, a) <==>
              && a.reply.BlockInfo? && a.reply.prices == [] && cached <= 0.0
              && (a.nearOk ==> forall s :: s in SlotsWith(t, Processed) ==> s >= a.reply.parentSlot)
  {
    if a.reply.BlockInfo? {
      PriceIsPositive(t, cached, a.reply.parentSlot, a.reply.prices, a.nearOk);
      if a.reply.prices != [] {
        TrimmedMean.AverageOfPositive(a.reply.prices);
      }
    }
  }

  /** The order of the price sources: the block's swaps, the cached price, the nearest processed block. */
  lemma PriceSources(t: Table, cached: real, a: Attempt)
    requires Priced(t) && PositivePrices(a) && a.reply.BlockInfo?
    ensures var price := GetBlockSolPrice(t, cached, a.reply.parentSlot, a.reply.prices, a.nearOk);
            && (a.reply.prices != [] ==> Positive(price) && price == TrimmedMean.AverageOf(a.reply.prices))
            && (a.reply.prices == [] && cached > 0.0 ==> price == Finite(cached))
            && (a.reply.prices == [] && cached <= 0.0 && price != ZERO ==>
                  exists s :: s in SlotsWith(t, Processed) && s < a.reply.parentSlot && price == t[s].solPrice
                              && forall u :: u in SlotsWith(t, Processed) && u < a.reply.parentSlot ==> u <= s)
  {
    if a.reply.prices != [] {
      TrimmedMean.AverageOfPositive(a.reply.prices);
    }
    NearSlotIsNearest(t, a.reply.parentSlot);
  }

  /** The price found is a number: what the block's swaps average to is one, or without swaps the cached price answers,
      or the nearest processed row below the parent holds one, or no source answers. */
  predicate PriceFinite(t: Table, cached: real, a: Attempt)
    requires a.reply.BlockInfo?
  {
    if a.reply.prices != [] then FewInfinities(a.reply.prices)
    else cached > 0.0 || !a.nearOk
         || (var near := FindOneByNearSlot(t, a.reply.parentSlot); near.None? || near.value.solPrice.Finite?)
  }

  /** No swap moved dollars against no SOL, or one did among enough to be trimmed. */
  predicate FewInfinities(prices: TrimmedMean.Prices) {
    TrimmedMean.Infinities(prices) == 0 || (TrimmedMean.Infinities(prices) == 1 && |prices| >= 3)
  }

  /** A delivery stores an infinite price exactly when the first source that answers is infinite. */
  lemma StoredPriceFiniteIff(t: Table, cached: real, d: Delivery)
    requires Priced(t) && PositivePrices(d.attempt) && d.attempt.reply.BlockInfo?
    requires d.slot != 0 && d.attempt.findOk && d.attempt.writeOk && !Final(t, d.slot)
    requires !PriceMissing(t, cached, d.attempt)
    ensures var t' := Step(t, cached, d);
            d.slot in SlotsWith(t', Processed) && (t'[d.slot].solPrice.Finite? <==> PriceFinite(t, cached, d.attempt))
  {
    var a := d.attempt;
    TrimmedMean.AverageIsFiniteIff(a.reply.prices);
    PriceSources(t, cached, a);
  }

  /** Every processed row carries a number. */
  predicate FinitelyPriced(t: Table) {
    forall s :: s in SlotsWith(t, Processed) ==> t[s].solPrice.Finite?
  }

  /** What a run stores is infinite only if some block of it averages to an infinity: then no later fallback to an older
      row can meet one either. */
  lemma {:induction false} RunKeepsFinite(t: Table, cached: real, ds: seq<Delivery>)
    requires Priced(t) && FinitelyPriced(t)
    requires forall i :: 0 <= i < |ds| ==> PositivePrices(ds[i].attempt)
    requires forall i :: 0 <= i < |ds| && ds[i].attempt.reply.BlockInfo? ==> FewInfinities(ds[i].attempt.reply.prices)
    ensures FinitelyPriced(Run(t, cached, ds))
    decreases |ds|
  {
    if ds != [] {
      StepKeepsPriced(t, cached, ds[0]);
      StepKeepsFinite(t, cached, ds[0]);
      RunKeepsFinite(Step(t, cached, ds[0]), cached, ds[1..]);
    }
  }

  lemma StepKeepsFinite(t: Table, cached: real, d: Delivery)
    requires Priced(t) && FinitelyPriced(t) && PositivePrices(d.attempt)
    requires d.attempt.reply.BlockInfo? ==> FewInfinities(d.attempt.reply.prices)
    ensures FinitelyPriced(Step(t, cached, d))
  {
    var a, t' := d.attempt, Step(t, cached, d);
    if a.reply.BlockInfo? {
      NearSlotIsNearest(t, a.reply.parentSlot);
      TrimmedMean.AverageIsFiniteIff(a.reply.prices);
    }
    forall s | s in SlotsWith(t', Processed)
      ensures t'[s].solPrice.Finite?
    {
      assert s != d.slot || t' == t ==> s in SlotsWith(t, Processed);
    }
  }

  /** What an accepted delivery leaves behind: its slot becomes final, stays open, or, with no price, is not
      recorded at all. */
  lemma AcceptedDelivery(t: Table, cached: real, d: Delivery)
    requires Priced(t) && PositivePrices(d.attempt)
    requires d.slot != 0 && d.attempt.findOk && d.attempt.writeOk && !Final(t, d.slot)
    ensures var a, t' := d.attempt, Step(t, cached, d);
            && (a.reply.SlotSkipped? <==> d.slot in t' && t'[d.slot].status == Skipped)
            && (a.reply.BlockInfo? && !PriceMissing(t, cached, a) <==> d.slot in t' && t'[d.slot].status == Processed)
            && (a.reply.BlockInfo? && !PriceMissing(t, cached, a) ==>
                  && t'[d.slot].solPrice == GetBlockSolPrice(t, cached, a.reply.parentSlot, a.reply.prices, a.nearOk)
                  && t'[d.slot].time.Some?
                  && (a.reply.height.Some? ==> t'[d.slot].height == a.reply.height.value))
            && (a.reply.Unavailable? ==> d.slot in t' && t'[d.slot].status == Failed && t'[d.slot].time.Some?
                                         && (d.slot in t && t[d.slot].time.Some? ==> t'[d.slot] == t[d.slot]))
            && (PriceMissing(t, cached, a) ==> t' == t)
  {
  }

  /** What an accepted delivery writes, column by column. A block brings its own time, and the clock only when it has
      none; its height replaces the row's if it has one; a skip keeps height, time and price; an unavailable slot keeps
      them too, and gets the clock only while it has no time. */
  lemma DeliveredRow(t: Table, cached: real, d: Delivery)
    requires d.slot != 0 && d.attempt.findOk && d.attempt.writeOk && !Final(t, d.slot)
    requires !PriceMissing(t, cached, d.attempt)
    ensures var a, row, t' := d.attempt, Loaded(t, d.slot), Step(t, cached, d);
            d.slot in t' && t'[d.slot] ==
            match a.reply
            case SlotSkipped => Row(row.id, Skipped, row.height, row.time, row.solPrice)
            case Unavailable =>
              Row(row.id, Failed, row.height, if row.time.Some? then row.time else Some(a.now), row.solPrice)
            case BlockInfo(parentSlot, height, time, prices) =>
              Row(row.id, Processed, if height.Some? then height.value else row.height,
                  if time.Some? then time else Some(a.now),
                  GetBlockSolPrice(t, cached, parentSlot, prices, a.nearOk))
  {
    hide GetBlockSolPrice;
    assert d.slot in t && !Final(t, d.slot) ==> t[d.slot].status == Failed;
  }

  /** Slot zero, a failed lookup, a failed write and a final row each leave the table alone. */
  lemma RefusedDelivery(t: Table, cached: real, d: Delivery)
    requires d.slot == 0 || !d.attempt.findOk || !d.attempt.writeOk || Final(t, d.slot)
    ensures Step(t, cached, d) == t
  {
    hide GetBlockSolPrice;
  }

  /** The time of a processed slot over runs: whatever was delivered before, and whatever is delivered after, an
      accepted block leaves its own time on the row, or the clock of that attempt when it brings none. */
  lemma BlockTimeStays(t: Table, cached: real, ds: seq<Delivery>, d: Delivery, more: seq<Delivery>)
    requires Priced(t) && d.attempt.reply.BlockInfo?
    requires var before := Run(t, cached, ds);
             && d.slot != 0 && d.attempt.findOk && d.attempt.writeOk && !Final(before, d.slot)
             && !PriceMissing(before, cached, d.attempt)
    ensures var after, reply := Run(t, cached, ds + [d] + more), d.attempt.reply;
            && d.slot in SlotsWith(after, Processed)
            && after[d.slot].time == Some(if reply.time.Some? then reply.time.value else d.attempt.now)
            && (reply.height.Some? ==> after[d.slot].height == reply.height.value)
            && (reply.height.None? ==> after[d.slot].height == Loaded(Run(t, cached, ds), d.slot).height)
  {
    var before := Run(t, cached, ds);
    RunSafety(t, cached, ds);
    DeliveredRow(before, cached, d);
    StepKeepsPriced(before, cached, d);
    RunAppend(t, cached, ds, d);
    RunJoin(t, cached, ds + [d], more);
    RunSafety(Step(before, cached, d), cached, more);
  }

  /** While a slot stays failed its row keeps the clock of its first unavailable attempt, and neither height nor
      price. */
  lemma {:induction false} FirstFailureStamps(t: Table, cached: real, ds: seq<Delivery>, d: Delivery)
    requires d.slot != 0 && d.slot !in t && d.attempt.findOk && d.attempt.writeOk && d.attempt.reply.Unavailable?
    ensures var after := Run(t, cached, [d] + ds);
            d.slot in after && (after[d.slot].status == Failed ==>
              after[d.slot] == Row(|t| + 1, Failed, 0, Some(d.attempt.now), ZERO))
  {
    var row := Row(|t| + 1, Failed, 0, Some(d.attempt.now), ZERO);
    assert ([d] + ds)[1..] == ds;
    StillFailed(Step(t, cached, d), cached, ds, d.slot, row);
  }

  lemma {:induction false} StillFailed(t: Table, cached: real, ds: seq<Delivery>, slot: int, row: Row)
    requires slot in t && row.time.Some? && (t[slot].status == Failed ==> t[slot] == row)
    ensures var after := Run(t, cached, ds);
            slot in after && (after[slot].status == Failed ==> after[slot] == row)
    decreases |ds|
  {
    hide GetBlockSolPrice;
    if ds != [] {
      StillFailed(Step(t, cached, ds[0]), cached, ds[1..], slot, row);
    }
  }

  lemma {:induction false} RunJoin(t: Table, cached: real, ds: seq<Delivery>, more: seq<Delivery>)
    ensures Run(t, cached, ds + more) == Run(Run(t, cached, ds), cached, more)
    decreases |ds|
  {
    if ds == [] {
      assert ds + more == more;
    } else {
      assert (ds + more)[0] == ds[0] && (ds + more)[1..] == ds[1..] + more;
      RunJoin(Step(t, cached, ds[0]), cached, ds[1..], more);
    }
  }

  /** Once any slot is processed, no later block whose parent lies above it ends without a price, whatever
      was delivered in between. */
  lemma NoPriceGapAbove(t: Table, cached: real, ds: seq<Delivery>, anchor: int, d: Delivery)
    requires Priced(t) && anchor in SlotsWith(t, Processed)
    requires d.attempt.reply.BlockInfo? && d.attempt.reply.parentSlot > anchor && d.attempt.nearOk
    requires d.slot != 0 && d.attempt.findOk && d.attempt.writeOk
    ensures !PriceMissing(Run(t, cached, ds), cached, d.attempt)
    ensures Final(Run(t, cached, ds + [d]), d.slot)
  {
    RunSafety(t, cached, ds);
    var t' := Run(t, cached, ds);
    assert Final(t, anchor) && anchor in SlotsWith(t', Processed);
    PriceIsPositive(t', cached, d.attempt.reply.parentSlot, d.attempt.reply.prices, d.attempt.nearOk);
    RunAppend(t, cached, ds, d);
  }

  lemma {:induction false} RunAppend(t: Table, cached: real, ds: seq<Delivery>, d: Delivery)
    ensures Run(t, cached, ds + [d]) == Step(Run(t, cached, ds), cached, d)
    decreases |ds|
  {
    if ds == [] {
    } else {
      assert (ds + [d])[0] == ds[0] && (ds + [d])[1..] == ds[1..] + [d];
      RunAppend(Step(t, cached, ds[0]), cached, ds[1..], d);
    }
  }

  /** Fetching a block of a new slot records it exactly when some price source answers: a swap in the block, the cached
      price, or a processed block below the parent. A block without one leaves no row. */
  lemma BlockRecordedIff(t: Table, cached: real, d: Delivery)
    requires Priced(t) && PositivePrices(d.attempt) && d.attempt.reply.BlockInfo?
    requires d.slot != 0 && d.attempt.findOk && d.attempt.writeOk && d.slot !in t
    ensures d.slot in Step(t, cached, d) <==> !PriceMissing(t, cached, d.attempt)
    ensures d.slot in Step(t, cached, d) <==>
              || d.attempt.reply.prices != [] || cached > 0.0
              || (d.attempt.nearOk && exists s :: s in SlotsWith(t, Processed) && s < d.attempt.reply.parentSlot)
  {
    PriceMissingIff(t, cached, d.attempt);
  }

  /** A price source that answers on some table still answers on any later one. */
  lemma PriceStaysFound(t: Table, later: Table, cached: real, a: Attempt)
    requires Priced(t) && Priced(later) && PositivePrices(a)
    requires SlotsWith(t, Processed) <= SlotsWith(later, Processed)
    ensures !PriceMissing(t, cached, a) ==> !PriceMissing(later, cached, a)
  {
    PriceMissingIff(t, cached, a);
    PriceMissingIff(later, cached, a);
  }

  // ---------- ids ----------

  /** A save of a new slot takes the next id and a save of a known one keeps its id, so over every run the ids count
      the insertions: the row recorded first keeps the least one. */
  lemma {:induction false} IdsCountInsertions(t: Table, cached: real, ds: seq<Delivery>)
    requires Numbered(t)
    ensures Numbered(Run(t, cached, ds))
    ensures forall s :: s in t ==> s in Run(t, cached, ds) && Run(t, cached, ds)[s].id == t[s].id
    ensures forall s, u :: s in t && u in Run(t, cached, ds) && u !in t ==> t[s].id < Run(t, cached, ds)[u].id
    decreases |ds|
  {
    if ds != [] {
      var t1 := Step(t, cached, ds[0]);
      StepNumbers(t, cached, ds[0]);
      IdsCountInsertions(t1, cached, ds[1..]);
    }
  }

  lemma StepNumbers(t: Table, cached: real, d: Delivery)
    requires Numbered(t)
    ensures var t' := Step(t, cached, d);
            && Numbered(t') && t.Keys <= t'.Keys
            && (forall s :: s in t ==> t'[s].id == t[s].id)
            && (forall u :: u in t' && u !in t ==> t'[u].id == |t| + 1)
  {
    hide Step, Numbered;
    var row := StepShape(t, cached, d);
    WriteNumbers(t, d.slot, row);
  }

  lemma WriteNumbers(t: Table, slot: int, row: Row)
    requires Numbered(t) && row.id == if slot in t then t[slot].id else |t| + 1
    ensures Numbered(t[slot := row])
  {
    WrittenSize(t, slot, row);
    assert forall s :: s in t[slot := row] ==> s == slot || s in t;
  }

  lemma WrittenSize(t: Table, slot: int, row: Row)
    ensures |t[slot := row]| == |t| + (if slot in t then 0 else 1)
  {
    var t' := t[slot := row];
    assert t'.Keys == t.Keys + {slot};
    assert |t'| == |t'.Keys| && |t| == |t.Keys|;
    assert slot in t ==> t.Keys + {slot} == t.Keys;
  }

  /** A step writes one row at most, under the id it already has or the next one. */
  lemma StepShape(t: Table, cached: real, d: Delivery) returns (row: Row)
    ensures Step(t, cached, d) == t || Step(t, cached, d) == t[d.slot := row]
    ensures row.id == if d.slot in t then t[d.slot].id else |t| + 1
  {
    row := Loaded(t, d.slot);
    hide GetBlockSolPrice;
    if d.slot != 0 && d.attempt.findOk && !Final(t, d.slot) {
      var decided := Decided(t, cached, d.slot, d.attempt);
      row := if decided.None? then row else decided.value;
    }
  }
}
