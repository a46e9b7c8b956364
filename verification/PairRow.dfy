/** The pair row kept by SavePair and UpdatePairDBPoint (consumer/internal/logic/sol/block/db.go). Amounts and
    prices are exact reals; one SavePair call is one atomic step on the table. */
module PairRow {
  import opened Constants
  import opened Wrappers
  import opened Trades
  import Decimals
  import PairChoice
  import PumpEvents

  datatype Row = Row(
    name: string, tokenAddress: string, baseTokenAddress: string, tokenSymbol: string,
    initBaseTokenAmount: real, initTokenAmount: real,
    currentBaseTokenAmount: real, currentTokenAmount: real,
    fdv: real, mktCap: real, liquidity: real, tokenPrice: real, baseTokenPrice: real,
    blockNum: int, blockTime: int, latestTradeTime: int, slot: int,
    pumpPoint: real, pumpStatus: int, pumpVirtualBase: real, pumpVirtualToken: real)

  /** What SavePair reads of the token row. */
  datatype Token = Token(symbol: string, totalSupply: real)

  datatype SaveError = FindFailed | InsertFailed | UpdateFailed | TokenFailed

  /** How an insert goes: it works, it fails, or another worker has inserted its own row in between. */
  datatype InsertResult = InsertOk | InsertBroken | Raced(other: Row, againOk: bool)

  /** How the database calls go. */
  datatype Db = Db(findOk: bool, insert: InsertResult, updateOk: bool)

  /** The liquidity formula of an insert. */
  function InsertLiquidity(t: Trade): real {
    if t.swapName == PUMP_FUN then t.currentBaseTokenInPool * t.baseTokenPriceUSD * 2.0
    else t.currentBaseTokenInPool * t.baseTokenPriceUSD + t.currentTokenInPool * t.tokenPriceUSD
  }

  /** The liquidity formula of an update: it goes by the row's name, not the trade's. */
  function PointLiquidity(name: string, t: Trade, base: real, tokens: real): real {
    if name == PUMP_FUN then t.baseTokenPriceUSD * base * 2.0
    else t.tokenPriceUSD * tokens + t.baseTokenPriceUSD * base
  }

  function Supply(token: Option<Token>): real {
    if token.Some? then token.value.totalSupply else 0.0
  }

  function Symbol(t: Trade, token: Option<Token>): string {
    if token.Some? then token.value.symbol else t.pairInfo.tokenSymbol
  }

  predicate HasInit(t: Trade) {
    t.pairInfo.initBaseTokenAmount > 0.0 && t.pairInfo.initTokenAmount > 0.0
  }

  function Inserted(t: Trade, token: Option<Token>): Row {
    Row(PUMP_FUN, t.pairInfo.tokenAddr, t.pairInfo.baseTokenAddr, Symbol(t, token),
        if HasInit(t) then t.pairInfo.initBaseTokenAmount else 0.0,
        if HasInit(t) then t.pairInfo.initTokenAmount else 0.0,
        t.currentBaseTokenInPool, t.currentTokenInPool,
        Supply(token) * t.tokenPriceUSD, Supply(token) * t.tokenPriceUSD, InsertLiquidity(t),
        t.tokenPriceUSD, t.baseTokenPriceUSD,
        t.pairInfo.blockNum, t.pairInfo.blockTime, t.pairInfo.blockTime, t.slot,
        t.pumpPoint, t.pumpStatus, t.pumpVirtualBase, t.pumpVirtualToken)
  }

  /** The row with its initial amounts taken from the trade if they are not known yet. */
  function Filled(r: Row, t: Trade): Row {
    if (r.initTokenAmount == 0.0 || r.initBaseTokenAmount == 0.0) && HasInit(t) then
      r.(initTokenAmount := t.pairInfo.initTokenAmount, initBaseTokenAmount := t.pairInfo.initBaseTokenAmount)
    else r
  }

  /** Prices and valuation; a token price of zero and an unknown supply leave the old values. */
  function Priced(r: Row, t: Trade, supply: real): Row {
    r.(tokenPrice := if t.tokenPriceUSD > 0.0 then t.tokenPriceUSD else r.tokenPrice,
       baseTokenPrice := t.baseTokenPriceUSD,
       fdv := if supply > 0.0 then t.tokenPriceUSD * supply else r.fdv,
       mktCap := if supply > 0.0 then t.tokenPriceUSD * supply else r.mktCap)
  }

  /** Pool amounts, taken only when both are positive, and the liquidity they give. */
  function Pooled(r: Row, t: Trade): Row {
    var pooled := t.currentBaseTokenInPool > 0.0 && t.currentTokenInPool > 0.0;
    var base := if pooled then t.currentBaseTokenInPool else r.currentBaseTokenAmount;
    var tokens := if pooled then t.currentTokenInPool else r.currentTokenAmount;
    r.(currentBaseTokenAmount := base, currentTokenAmount := tokens,
       liquidity := PointLiquidity(r.name, t, base, tokens))
  }

  function Pumped(r: Row, t: Trade): Row {
    r.(pumpPoint := t.pumpPoint, pumpStatus := t.pumpStatus,
       pumpVirtualBase := t.pumpVirtualBase, pumpVirtualToken := t.pumpVirtualToken)
  }

  /** The row after UpdatePairDBPoint. */
  function Pointed(r: Row, t: Trade, supply: real): Row {
    Pooled(Priced(Pumped(Filled(r, t), t), t, supply), t).(latestTradeTime := t.blockTime)
  }

  /** Filling the initial amounts and the liquidity beforehand changes nothing. */
  lemma PrefillHarmless(r: Row, t: Trade, supply: real, liquidity: real)
    ensures Pointed(Filled(r, t).(liquidity := liquidity), t, supply) == Pointed(r, t, supply)
  {
  }

  function Updated(r: Row, t: Trade, token: Option<Token>): Row {
    Pointed(r.(name := PUMP_FUN, tokenSymbol := Symbol(t, token), slot := t.slot, blockNum := t.pairInfo.blockNum),
            t, Supply(token))
  }

  /** The row after a trade: a first trade inserts, a later one updates only from a greater slot. */
  function Saved(row: Option<Row>, t: Trade, token: Option<Token>): Row {
    match row
    case None => Inserted(t, token)
    case Some(r) => if t.slot > r.slot then Updated(r, t, token) else r
  }

  /** A pair row in memory. */
  class Pair {
    var name: string
    var tokenAddress: string
    var baseTokenAddress: string
    var tokenSymbol: string
    var initBaseTokenAmount: real
    var initTokenAmount: real
    var currentBaseTokenAmount: real
    var currentTokenAmount: real
    var fdv: real
    var mktCap: real
    var liquidity: real
    var tokenPrice: real
    var baseTokenPrice: real
    var blockNum: int
    var blockTime: int
    var latestTradeTime: int
    var slot: int
    var pumpPoint: real
    var pumpStatus: int
    var pumpVirtualBase: real
    var pumpVirtualToken: real

    function Value(): Row
      reads this
    {
      Row(name, tokenAddress, baseTokenAddress, tokenSymbol, initBaseTokenAmount, initTokenAmount,
          currentBaseTokenAmount, currentTokenAmount, fdv, mktCap, liquidity, tokenPrice, baseTokenPrice,
          blockNum, blockTime, latestTradeTime, slot, pumpPoint, pumpStatus, pumpVirtualBase, pumpVirtualToken)
    }

    constructor (r: Row)
      ensures Value() == r
    {
      name, tokenAddress, baseTokenAddress, tokenSymbol := r.name, r.tokenAddress, r.baseTokenAddress, r.tokenSymbol;
      initBaseTokenAmount, initTokenAmount := r.initBaseTokenAmount, r.initTokenAmount;
      currentBaseTokenAmount, currentTokenAmount := r.currentBaseTokenAmount, r.currentTokenAmount;
      fdv, mktCap, liquidity, tokenPrice, baseTokenPrice := r.fdv, r.mktCap, r.liquidity, r.tokenPrice,
          r.baseTokenPrice;
      blockNum, blockTime, latestTradeTime, slot := r.blockNum, r.blockTime, r.latestTradeTime, r.slot;
      pumpPoint, pumpStatus, pumpVirtualBase, pumpVirtualToken := r.pumpPoint, r.pumpStatus, r.pumpVirtualBase,
          r.pumpVirtualToken;
    }

    method FillInit(t: Trade)
      modifies this
      ensures Value() == Filled(old(Value()), t)
    {
      if initTokenAmount == 0.0 || initBaseTokenAmount == 0.0 {
        if t.pairInfo.initTokenAmount > 0.0 && t.pairInfo.initBaseTokenAmount > 0.0 {
          initTokenAmount := t.pairInfo.initTokenAmount;
          initBaseTokenAmount := t.pairInfo.initBaseTokenAmount;
        }
      }
    }

    method SetPrices(t: Trade, supply: real)
      modifies this
      ensures Value() == Priced(old(Value()), t, supply)
    {
      if t.tokenPriceUSD > 0.0 {
        tokenPrice := t.tokenPriceUSD;
      }
      baseTokenPrice := t.baseTokenPriceUSD;
      if supply > 0.0 {
        fdv := t.tokenPriceUSD * supply;
        mktCap := t.tokenPriceUSD * supply;
      }
    }

    method SetPool(t: Trade)
      modifies this
      ensures Value() == Pooled(old(Value()), t)
    {
      if t.currentBaseTokenInPool > 0.0 && t.currentTokenInPool > 0.0 {
        currentBaseTokenAmount := t.currentBaseTokenInPool;
        currentTokenAmount := t.currentTokenInPool;
      }
      if name == PUMP_FUN {
        liquidity := t.baseTokenPriceUSD * currentBaseTokenAmount * 2.0;
      } else {
        liquidity := t.tokenPriceUSD * currentTokenAmount + t.baseTokenPriceUSD * currentBaseTokenAmount;
      }
    }

    method UpdatePairDBPoint(t: Trade, supply: real)
      modifies this
      ensures Value() == Pointed(old(Value()), t, supply)
    {
      FillInit(t);
      pumpPoint := t.pumpPoint;
      pumpStatus := t.pumpStatus;
      pumpVirtualBase := t.pumpVirtualBase;
      pumpVirtualToken := t.pumpVirtualToken;
      assert Value() == Pumped(Filled(old(Value()), t), t);
      SetPrices(t, supply);
      SetPool(t);
      latestTradeTime := t.blockTime;
    }

    /** The branch of SavePair for a trade from a greater slot. */
    method TakeTrade(t: Trade, token: Option<Token>)
      modifies this
      ensures Value() == Updated(old(Value()), t, token)
    {
      FillInit(t);
      name := PUMP_FUN;
      tokenSymbol := Symbol(t, token);
      slot := t.slot;
      liquidity := InsertLiquidity(t);
      blockNum := t.pairInfo.blockNum;
      ghost var r := old(Value()).(name := PUMP_FUN, tokenSymbol := Symbol(t, token), slot := t.slot,
                                   blockNum := t.pairInfo.blockNum);
      assert Value() == Filled(r, t).(liquidity := InsertLiquidity(t));
      UpdatePairDBPoint(t, Supply(token));
      PrefillHarmless(r, t, Supply(token), InsertLiquidity(t));
    }
  }

  /** The pair table, by pair address. */
  type Table = map<string, Row>

  /** The table a save leaves: a failed call changes nothing, a lost race leaves the other worker's row. */
  function TableAfter(rows: Table, t: Trade, token: Option<Token>, db: Db): Table {
    if !db.findOk then rows
    else if t.pairAddr in rows then
      if t.slot > rows[t.pairAddr].slot && !db.updateOk then rows
      else rows[t.pairAddr := Saved(Some(rows[t.pairAddr]), t, token)]
    else
      match db.insert
      case InsertOk => rows[t.pairAddr := Inserted(t, token)]
      case InsertBroken => rows
      case Raced(other, _) => rows[t.pairAddr := other]
  }

  /** Every database call works. */
  const WORKING := Db(true, InsertOk, true)

  class PairModel {
    var rows: Table

    constructor ()
      ensures rows == map[]
    {
      rows := map[];
    }

    function Find(address: string): Option<Row>
      reads this
    {
      if address in rows then Some(rows[address]) else None
    }

    /** The trade carries the market value it would be saved with as soon as the row was looked up, whether or not the
        write works; a failed call leaves the table alone, and after a lost race it holds the other worker's row. */
    method SavePair(t: Trade, token: Option<Token>, db: Db) returns (out: Trade, error: Option<SaveError>)
      modifies this
      ensures !db.findOk ==> rows == old(rows) && out == t && error == Some(FindFailed)
      ensures db.findOk ==>
                var saved := Saved(old(Find(t.pairAddr)), t, token);
                out == t.(mcap := saved.mktCap, fdv := saved.fdv)
      ensures rows == TableAfter(old(rows), t, token, db)
      ensures db.findOk && t.pairAddr !in old(rows) ==>
                match db.insert
                case InsertOk => error == None
                case InsertBroken => error == Some(InsertFailed)
                case Raced(_, againOk) => error == if againOk then None else Some(FindFailed)
      ensures db.findOk && t.pairAddr in old(rows) ==>
                var broken := t.slot > old(rows)[t.pairAddr].slot && !db.updateOk;
                error == if broken then Some(UpdateFailed) else None
    {
      if !db.findOk {
        return t, Some(FindFailed);
      }
      out := t;
      var pair: Pair;
      if t.pairAddr !in rows {
        pair := new Pair(Inserted(t, token));
        out := out.(mcap := pair.mktCap, fdv := pair.fdv);
        match db.insert {
          case InsertOk =>
            rows := rows[t.pairAddr := pair.Value()];
          case InsertBroken =>
            return out, Some(InsertFailed);
          case Raced(other, againOk) =>
            rows := rows[t.pairAddr := other];
            return out, if againOk then None else Some(FindFailed);
        }
      } else {
        pair := new Pair(rows[t.pairAddr]);
      }
      out := out.(mcap := pair.mktCap, fdv := pair.fdv);
      if t.slot > pair.slot {
        pair.TakeTrade(t, token);
        out := out.(mcap := pair.mktCap, fdv := pair.fdv);
        if !db.updateOk {
          return out, Some(UpdateFailed);
        }
        rows := rows[t.pairAddr := pair.Value()];
      }
      return out, None;
    }

    /** One pair's trades of a block: only the last one is saved. Its market value, saved or not, is given to all of
        them, and so is the supply of their token; without a token row nothing happens. */
    method SavePairInfo(trades: seq<Trade>, saveToken: Result<Option<Token>, SaveError>, db: Db)
      returns (out: seq<Trade>, error: Option<SaveError>)
      modifies this
      ensures trades == [] ==> rows == old(rows) && out == [] && error == None
      ensures trades != [] && (saveToken.Failure? || saveToken.value.None?) ==>
                rows == old(rows) && out == trades && error == if saveToken.Failure? then Some(saveToken.error)
                    else None
      ensures trades != [] && saveToken.Success? && saveToken.value.Some? ==>
                var last, token := trades[|trades| - 1], saveToken.value;
                var saved := Saved(old(Find(last.pairAddr)), last, token);
                && |out| == |trades|
                && (forall i :: 0 <= i < |trades| ==>
                      out[i] == trades[i].(
                                  pairInfo := trades[i].pairInfo.(tokenTotalSupply := token.value.totalSupply),
                                  mcap := if db.findOk then saved.mktCap else last.mcap,
                                  fdv := if db.findOk then saved.fdv else last.fdv))
                && (error.None? && last.pairAddr in old(rows) ==> rows == old(rows)[last.pairAddr := saved])
                && (error.None? && last.pairAddr !in old(rows) && db.insert.InsertOk? ==>
                      rows == old(rows)[last.pairAddr := saved])
                && (error.Some? && !(last.pairAddr !in old(rows) && db.insert.Raced?) ==> rows == old(rows))
    {
      if |trades| == 0 {
        return [], None;
      }
      if saveToken.Failure? {
        return trades, Some(saveToken.error);
      }
      if saveToken.value.None? {
        return trades, None;
      }
      var token, last := saveToken.value, trades[|trades| - 1];
      var supplied := WithSupply(last, token.value.totalSupply);
      SupplyIsNotRead(old(Find(last.pairAddr)), last, token);
      var trade;
      trade, error := SavePair(supplied, token, db);
      out := [];
      for i := 0 to |trades|
        invariant |out| == i
        invariant forall k :: 0 <= k < i ==>
                    out[k] == WithSupply(trades[k], token.value.totalSupply).(mcap := trade.mcap, fdv := trade.fdv)
      {
        out := out + [WithSupply(trades[i], token.value.totalSupply).(mcap := trade.mcap, fdv := trade.fdv)];
      }
    }
  }

  function WithSupply(t: Trade, supply: real): Trade {
    t.(pairInfo := t.pairInfo.(tokenTotalSupply := supply))
  }

  lemma SupplyIsNotRead(row: Option<Row>, t: Trade, token: Option<Token>)
    requires token.Some?
    ensures Saved(row, WithSupply(t, token.value.totalSupply), token) == Saved(row, t, token)
  {
  }

  /** Two workers meet a new pair with the trades u and t, and u is inserted first. The save of t then leaves the table
      as u made it, which is the table of the two saves in turn exactly when t is not newer: a newer trade is lost. */
  lemma RacedTradeIsLostIff(rows: Table, u: Trade, uToken: Option<Token>, t: Trade, token: Option<Token>,
                            againOk: bool, updateOk: bool)
    requires u.pairAddr == t.pairAddr && t.pairAddr !in rows
    ensures var raced := TableAfter(rows, t, token, Db(true, Raced(Inserted(u, uToken), againOk), updateOk));
            var first := TableAfter(rows, u, uToken, WORKING);
            raced == first && (raced == TableAfter(first, t, token, WORKING) <==> t.slot <= u.slot)
  {
    var first := TableAfter(rows, u, uToken, WORKING);
    var inTurn := TableAfter(first, t, token, WORKING);
    assert first[t.pairAddr].slot == u.slot;
    if t.slot > u.slot {
      assert inTurn[t.pairAddr].slot == t.slot;
    } else {
      assert inTurn == first;
    }
  }

  // ---------- the row as a register ----------

  /** A pair's row after a sequence of trades of one token. */
  function SaveAll(row: Option<Row>, ts: seq<Trade>, token: Option<Token>): Option<Row> {
    if ts == [] then row else Some(Saved(SaveAll(row, ts[..|ts| - 1], token), ts[|ts| - 1], token))
  }

  /** The part of the row a trade decides. */
  datatype View = View(
    slot: int, blockNum: int, tokenPrice: real, baseTokenPrice: real, base: real, tokens: real,
    pumpPoint: real, pumpStatus: int, pumpVirtualBase: real, pumpVirtualToken: real,
    fdv: real, mktCap: real, liquidity: real)

  function ViewOf(r: Row): View {
    View(r.slot, r.blockNum, r.tokenPrice, r.baseTokenPrice, r.currentBaseTokenAmount, r.currentTokenAmount,
         r.pumpPoint, r.pumpStatus, r.pumpVirtualBase, r.pumpVirtualToken, r.fdv, r.mktCap, r.liquidity)
  }

  /** What the row should say when the trade is the latest. */
  function TradeView(t: Trade, supply: real): View {
    View(t.slot, t.pairInfo.blockNum, t.tokenPriceUSD, t.baseTokenPriceUSD, t.currentBaseTokenInPool,
         t.currentTokenInPool,
         t.pumpPoint, t.pumpStatus, t.pumpVirtualBase, t.pumpVirtualToken,
         t.tokenPriceUSD * supply, t.tokenPriceUSD * supply, t.baseTokenPriceUSD * t.currentBaseTokenInPool * 2.0)
  }

  /** A trade whose price and pool amounts pass the update's guards. */
  predicate Complete(t: Trade) {
    t.tokenPriceUSD > 0.0 && t.currentBaseTokenInPool > 0.0 && t.currentTokenInPool > 0.0
  }

  /** The two liquidity formulas give the same number. */
  predicate LiquidityAgrees(t: Trade) {
    t.swapName == PUMP_FUN || t.currentTokenInPool * t.tokenPriceUSD == t.currentBaseTokenInPool * t.baseTokenPriceUSD
  }

  lemma UpdateShows(r: Row, t: Trade, token: Option<Token>)
    requires Complete(t) && Supply(token) > 0.0
    ensures ViewOf(Updated(r, t, token)) == TradeView(t, Supply(token))
  {
  }

  /** An inserting trade shows what an updating one would exactly when the two liquidity formulas agree. */
  lemma InsertShowsIff(t: Trade, token: Option<Token>)
    ensures ViewOf(Inserted(t, token)) == TradeView(t, Supply(token)) <==> LiquidityAgrees(t)
  {
    var a, b := t.currentBaseTokenInPool * t.baseTokenPriceUSD, t.currentTokenInPool * t.tokenPriceUSD;
    assert t.baseTokenPriceUSD * t.currentBaseTokenInPool * 2.0 == a + a;
    assert a * 2.0 == a + a;
  }

  /** The position of the earliest trade of the greatest slot. */
  function Latest(ts: seq<Trade>): (k: nat)
    requires ts != []
    ensures k < |ts|
    ensures forall i :: 0 <= i < |ts| ==> ts[i].slot <= ts[k].slot
    ensures forall i :: 0 <= i < k ==> ts[i].slot < ts[k].slot
  {
    if |ts| == 1 then 0
    else
      var k := Latest(ts[..|ts| - 1]);
      if ts[|ts| - 1].slot > ts[k].slot then |ts| - 1 else k
  }

  lemma {:induction false} SlotIsLatest(ts: seq<Trade>, token: Option<Token>)
    requires ts != []
    ensures SaveAll(None, ts, token).Some? && SaveAll(None, ts, token).value.slot == ts[Latest(ts)].slot
  {
    hide Inserted, Updated;
    var last := |ts| - 1;
    SlotsTaken(ts[last], token);
    if last == 0 {
      assert SaveAll(None, ts[..0], token) == None;
    } else {
      SlotIsLatest(ts[..last], token);
    }
  }

  lemma SlotsTaken(t: Trade, token: Option<Token>)
    ensures Inserted(t, token).slot == t.slot
    ensures forall r: Row :: Updated(r, t, token).slot == t.slot
  {
  }

  /** The row of a first trade stands as it was inserted until a greater slot arrives. */
  lemma {:induction false} FirstStays(ts: seq<Trade>, token: Option<Token>)
    requires ts != [] && Latest(ts) == 0
    ensures SaveAll(None, ts, token) == Some(Inserted(ts[0], token))
  {
    hide Inserted, Updated;
    var last := |ts| - 1;
    if last == 0 {
      assert SaveAll(None, ts[..0], token) == None;
    } else {
      assert Latest(ts[..last]) == 0;
      FirstStays(ts[..last], token);
      SlotsTaken(ts[0], token);
    }
  }

  /** Last writer wins by slot, in any arrival order: the row shows the trade of the greatest slot, on a tie the one
      that arrived first, unless that trade opened the row and the two liquidity formulas differ on it; and then it
      does not. */
  lemma {:induction false} LatestSlotWinsIff(ts: seq<Trade>, token: Option<Token>)
    requires ts != [] && Supply(token) > 0.0
    requires forall i :: 1 <= i < |ts| ==> Complete(ts[i])
    ensures SaveAll(None, ts, token).Some?
    ensures ViewOf(SaveAll(None, ts, token).value) == TradeView(ts[Latest(ts)], Supply(token))
       <==> Latest(ts) != 0 || LiquidityAgrees(ts[0])
  {
    hide Inserted, Updated, ViewOf, TradeView, LiquidityAgrees, Complete;
    var last := |ts| - 1;
    SlotIsLatest(ts, token);
    InsertShowsIff(ts[0], token);
    if Latest(ts) == 0 {
      FirstStays(ts, token);
    } else {
      SlotIsLatest(ts[..last], token);
      var row := SaveAll(None, ts[..last], token).value;
      if Latest(ts) == last {
        UpdateShows(row, ts[last], token);
      } else {
        LatestSlotWinsIff(ts[..last], token);
      }
    }
  }

  /** With distinct slots two arrival orders end in the same row, except that a latest trade on which the formulas
      differ has to open the row in both or in neither. */
  lemma ArrivalOrderMattersIff(ts: seq<Trade>, us: seq<Trade>, token: Option<Token>)
    requires ts != [] && Supply(token) > 0.0 && multiset(ts) == multiset(us)
    requires forall i :: 0 <= i < |ts| ==> Complete(ts[i])
    requires forall i, j :: 0 <= i < j < |ts| ==> ts[i].slot != ts[j].slot
    ensures us != [] && SaveAll(None, ts, token).Some? && SaveAll(None, us, token).Some?
    ensures ViewOf(SaveAll(None, ts, token).value) == ViewOf(SaveAll(None, us, token).value)
       <==> LiquidityAgrees(ts[Latest(ts)]) || (Latest(ts) == 0 <==> Latest(us) == 0)
  {
    hide Inserted, Updated, ViewOf, TradeView, LiquidityAgrees, Complete, SaveAll;
    assert |multiset(ts)| == |multiset(us)|;
    forall i | 0 <= i < |us|
      ensures us[i] in ts
    {
      assert us[i] in multiset(ts);
    }
    SameLatest(ts, us);
    LatestSlotWinsIff(ts, token);
    LatestSlotWinsIff(us, token);
    if Latest(ts) == 0 && Latest(us) == 0 {
      FirstStays(ts, token);
      FirstStays(us, token);
    }
  }

  lemma SameLatest(ts: seq<Trade>, us: seq<Trade>)
    requires ts != [] && us != [] && multiset(ts) == multiset(us)
    requires forall i, j :: 0 <= i < j < |ts| ==> ts[i].slot != ts[j].slot
    ensures ts[Latest(ts)] == us[Latest(us)]
  {
    assert ts[Latest(ts)] in multiset(us) && us[Latest(us)] in multiset(ts);
    var i :| 0 <= i < |us| && us[i] == ts[Latest(ts)];
    var j :| 0 <= j < |ts| && ts[j] == us[Latest(us)];
    assert ts[j].slot == ts[Latest(ts)].slot;
  }

  /** The columns a row is recognised by, after any sequence of trades of a new pair: its name is the one the choice
      among pairs knows, its tokens and block time are those of the trade that opened it, its symbol is the token row's
      or else that of the latest trade, and it was last traded when that trade says. */
  lemma {:induction false} SavedRowShows(ts: seq<Trade>, token: Option<Token>)
    requires ts != []
    ensures SaveAll(None, ts, token).Some?
    ensures var r, first, latest := SaveAll(None, ts, token).value, ts[0].pairInfo, ts[Latest(ts)];
            && r.name == "PumpFun" && r.slot == latest.slot
            && r.tokenAddress == first.tokenAddr && r.baseTokenAddress == first.baseTokenAddr
            && r.blockTime == first.blockTime
            && r.tokenSymbol == (if token.Some? then token.value.symbol else latest.pairInfo.tokenSymbol)
            && r.latestTradeTime == if Latest(ts) == 0 then first.blockTime else latest.blockTime
  {
    hide Inserted, Updated;
    var last := |ts| - 1;
    InsertNames(ts[last], token);
    if last == 0 {
      assert SaveAll(None, ts[..0], token) == None;
    } else {
      SavedRowShows(ts[..last], token);
      UpdateNames(SaveAll(None, ts[..last], token).value, ts[last], token);
    }
  }

  lemma InsertNames(t: Trade, token: Option<Token>)
    ensures var r := Inserted(t, token);
            && r.name == "PumpFun" && r.slot == t.slot && r.tokenAddress == t.pairInfo.tokenAddr
            && r.baseTokenAddress == t.pairInfo.baseTokenAddr
            && r.blockTime == r.latestTradeTime == t.pairInfo.blockTime
            && r.tokenSymbol == if token.Some? then token.value.symbol else t.pairInfo.tokenSymbol
  {
  }

  lemma UpdateNames(r: Row, t: Trade, token: Option<Token>)
    ensures var u := Updated(r, t, token);
            && u.name == "PumpFun" && u.slot == t.slot && u.tokenAddress == r.tokenAddress
            && u.baseTokenAddress == r.baseTokenAddress && u.blockTime == r.blockTime
            && u.latestTradeTime == t.blockTime
            && u.tokenSymbol == if token.Some? then token.value.symbol else t.pairInfo.tokenSymbol
  {
  }

  /** What an update takes from a trade and what it leaves: a token price of zero, an unknown supply and a pool without
      one of its sides keep the old values, and initial amounts are taken once, from the first trade that has them. */
  lemma UpdateGuards(r: Row, t: Trade, token: Option<Token>)
    ensures var u := Updated(r, t, token);
            && u.blockNum == t.pairInfo.blockNum && u.baseTokenPrice == t.baseTokenPriceUSD
            && u.tokenPrice == (if t.tokenPriceUSD > 0.0 then t.tokenPriceUSD else r.tokenPrice)
            && (token.None? || token.value.totalSupply <= 0.0 ==> u.fdv == r.fdv && u.mktCap == r.mktCap)
            && (t.currentBaseTokenInPool > 0.0 && t.currentTokenInPool > 0.0 ==>
                  u.currentBaseTokenAmount == t.currentBaseTokenInPool && u.currentTokenAmount == t.currentTokenInPool)
            && (t.currentBaseTokenInPool <= 0.0 || t.currentTokenInPool <= 0.0 ==>
                  u.currentBaseTokenAmount == r.currentBaseTokenAmount && u.currentTokenAmount == r.currentTokenAmount)
            && (if (r.initTokenAmount == 0.0 || r.initBaseTokenAmount == 0.0)
                   && t.pairInfo.initTokenAmount > 0.0 && t.pairInfo.initBaseTokenAmount > 0.0
                then u.initTokenAmount == t.pairInfo.initTokenAmount
                     && u.initBaseTokenAmount == t.pairInfo.initBaseTokenAmount
                else u.initTokenAmount == r.initTokenAmount && u.initBaseTokenAmount == r.initBaseTokenAmount)
  {
    hide PointLiquidity;
  }

  /** The valuation and the liquidity an update writes, from the amounts the row ends with. */
  lemma UpdateValues(r: Row, t: Trade, token: Option<Token>)
    ensures var u := Updated(r, t, token);
            && (token.Some? && token.value.totalSupply > 0.0 ==>
                  u.fdv == u.mktCap == t.tokenPriceUSD * token.value.totalSupply)
            && u.liquidity == t.baseTokenPriceUSD * u.currentBaseTokenAmount * 2.0
    ensures r.name != "PumpFun" ==>
              var p := Pointed(r, t, Supply(token));
              p.liquidity == t.tokenPriceUSD * p.currentTokenAmount + t.baseTokenPriceUSD * p.currentBaseTokenAmount
  {
  }

  // ---------- the row as the choice sees it ----------

  function AsPair(id: int, r: Row): PairChoice.Pair {
    PairChoice.Pair(id, r.name, r.liquidity)
  }

  ghost predicate SavedAs(p: PairChoice.Pair, id: int, ts: seq<Trade>, token: Option<Token>) {
    ts != [] && SaveAll(None, ts, token).Some? && p == AsPair(id, SaveAll(None, ts, token).value)
  }

  /** Among pairs of one token that were all saved here, the choice is one of them and a most liquid one as soon as any
      has positive liquidity, whatever the iteration order: none is dropped for its name. */
  lemma SavedPairsCompete(res: seq<PairChoice.Pair>, order: seq<string>, best: PairChoice.Pair)
    requires forall p :: p in res ==> exists id: int, ts: seq<Trade>, token: Option<Token> :: SavedAs(p, id, ts, token)
    requires PairChoice.IsOrder(order, PairChoice.Names(res)) && best in res && best.liquidity > 0.0
    ensures var chosen := PairChoice.Choice(PairChoice.GroupBests(res, order));
            chosen in res && best.liquidity <= chosen.liquidity
  {
    hide SaveAll, PairChoice.Choice, PairChoice.GroupBests, PairChoice.IsOrder;
    forall p | p in res
      ensures p.name == "PumpFun"
    {
      var id: int, ts: seq<Trade>, token: Option<Token> :| SavedAs(p, id, ts, token);
      SavedRowShows(ts, token);
    }
    assert PairChoice.Names(res) == {"PumpFun"} by {
      assert best.name in PairChoice.Names(res);
    }
    PairChoice.ChoiceIsFlatMaximum(res, order);
    assert PairChoice.Eligible(res, best);
  }

  /** The pair a decoded trade opens is found by its token: with a SOL price and SOL in the pool it is the choice when
      the token has no other pair. */
  lemma DecodedPairIsFound(tx: PumpEvents.Tx, i: PumpEvents.Instruction, e: PumpEvents.Event, token: Option<Token>,
                           id: int, order: seq<string>)
    requires |i.accounts| >= 7 && i.accounts[5] in tx.decimals && e.tokenAmount > 0
    requires tx.solPrice > 0.0 && e.virtualSol > 0
    requires var p := AsPair(id, Inserted(PumpEvents.BuildTrade(tx, i, e), token));
             PairChoice.IsOrder(order, PairChoice.Names([p]))
    ensures var p := AsPair(id, Inserted(PumpEvents.BuildTrade(tx, i, e), token));
            PairChoice.Choice(PairChoice.GroupBests([p], order)) == p
  {
    var t := PumpEvents.BuildTrade(tx, i, e);
    var p := AsPair(id, Inserted(t, token));
    assert SaveAll(None, [t][..0], token) == None;
    assert SaveAll(None, [t], token) == Some(Inserted(t, token));
    DecodedLiquidity(tx, i, e);
    assert SavedAs(p, id, [t], token);
    hide Inserted, SaveAll, PairChoice.Choice, PairChoice.GroupBests, PairChoice.IsOrder;
    SavedPairsCompete([p], order, p);
  }

  lemma DecodedLiquidity(tx: PumpEvents.Tx, i: PumpEvents.Instruction, e: PumpEvents.Event)
    requires |i.accounts| >= 7 && i.accounts[5] in tx.decimals && e.tokenAmount > 0
    requires tx.solPrice > 0.0 && e.virtualSol > 0
    ensures InsertLiquidity(PumpEvents.BuildTrade(tx, i, e)) > 0.0
  {
    PumpEvents.TradeSigns(tx, i, e);
    hide PumpEvents.BuildTrade;
    var t := PumpEvents.BuildTrade(tx, i, e);
    Positive(t.currentBaseTokenInPool, t.baseTokenPriceUSD);
    NotNegative(t.currentTokenInPool, t.tokenPriceUSD);
  }

  lemma Positive(x: real, y: real)
    requires x > 0.0 && y > 0.0
    ensures x * y > 0.0 && x * y * 2.0 > 0.0
  {
  }

  lemma NotNegative(x: real, y: real)
    requires x >= 0.0 && y >= 0.0
    ensures x * y >= 0.0
  {
  }

  /** The stored slot never goes back, initial amounts once known are kept, and the row stays about the same tokens. */
  lemma {:induction false} SlotAndInitsKept(row: Row, ts: seq<Trade>, token: Option<Token>)
    ensures var r := SaveAll(Some(row), ts, token).value;
            && r.slot >= row.slot
            && r.tokenAddress == row.tokenAddress && r.baseTokenAddress == row.baseTokenAddress
            && r.blockTime == row.blockTime
            && (row.initBaseTokenAmount != 0.0 && row.initTokenAmount != 0.0 ==>
                  r.initBaseTokenAmount == row.initBaseTokenAmount && r.initTokenAmount == row.initTokenAmount)
    decreases |ts|
  {
    if ts != [] {
      SlotAndInitsKept(row, ts[..|ts| - 1], token);
    }
  }

  /** The pump decoder never sets a slot, so after its first trade the row of a pair is never updated again. */
  lemma {:induction false} DecodedTradesFreezeRow(first: Trade, ts: seq<Trade>, token: Option<Token>)
    requires first.slot == 0 && forall i :: 0 <= i < |ts| ==> ts[i].slot == 0
    ensures SaveAll(Some(Inserted(first, token)), ts, token) == Some(Inserted(first, token))
    decreases |ts|
  {
    if ts != [] {
      DecodedTradesFreezeRow(first, ts[..|ts| - 1], token);
    }
  }

  /** The row a decoded trade opens: the token of the event against SOL, at the event's reserves, from the block that
      carried it, with the fixed initial amounts of a new curve. */
  lemma DecodedTradeOpensRow(tx: PumpEvents.Tx, i: PumpEvents.Instruction, e: PumpEvents.Event, token: Option<Token>)
    requires |i.accounts| >= 7 && i.accounts[5] in tx.decimals && e.tokenAmount > 0
    ensures var r := Inserted(PumpEvents.BuildTrade(tx, i, e), token);
            && r.tokenAddress == e.mint && r.baseTokenAddress == PumpEvents.SOL_BASE_TOKEN
            && r.initTokenAmount == 1073000191.0 && r.initBaseTokenAmount == 0.015
            && r.pumpPoint == 0.0 && r.pumpStatus == 0 && r.pumpVirtualBase == 0.0 && r.pumpVirtualToken == 0.0
            && r.currentTokenAmount * Decimals.Pow10(tx.decimals[i.accounts[5]]) == e.virtualToken as real
            && r.currentBaseTokenAmount * Decimals.Pow10(PumpEvents.SOL_DECIMALS) == e.virtualSol as real
            && r.liquidity == r.currentBaseTokenAmount * r.baseTokenPrice + r.currentTokenAmount * r.tokenPrice
            && r.baseTokenPrice == tx.solPrice && r.blockNum == tx.blockSlot && r.blockTime == tx.blockTime
            && (token.Some? ==> r.fdv == r.mktCap == token.value.totalSupply * r.tokenPrice)
            && (token.None? ==> r.fdv == r.mktCap == 0.0)
  {
    hide PumpEvents.BuildTrade, Inserted, InsertLiquidity, Decimals.Pow10;
    PumpEvents.TradeValue(tx, i, e);
    PumpEvents.TradePair(tx, i, e);
    OpenedRow(PumpEvents.BuildTrade(tx, i, e), token);
  }

  lemma OpenedRow(t: Trade, token: Option<Token>)
    requires HasInit(t) && t.swapName != PUMP_FUN
    ensures var r := Inserted(t, token);
            && r.tokenAddress == t.pairInfo.tokenAddr && r.baseTokenAddress == t.pairInfo.baseTokenAddr
            && r.initTokenAmount == t.pairInfo.initTokenAmount
            && r.initBaseTokenAmount == t.pairInfo.initBaseTokenAmount
            && r.pumpPoint == t.pumpPoint && r.pumpStatus == t.pumpStatus
            && r.pumpVirtualBase == t.pumpVirtualBase && r.pumpVirtualToken == t.pumpVirtualToken
            && r.currentTokenAmount == t.currentTokenInPool && r.currentBaseTokenAmount == t.currentBaseTokenInPool
            && r.tokenPrice == t.tokenPriceUSD && r.baseTokenPrice == t.baseTokenPriceUSD
            && r.liquidity == r.currentBaseTokenAmount * r.baseTokenPrice + r.currentTokenAmount * r.tokenPrice
            && r.blockNum == t.pairInfo.blockNum && r.blockTime == t.pairInfo.blockTime
            && (token.Some? ==> r.fdv == r.mktCap == token.value.totalSupply * r.tokenPrice)
            && (token.None? ==> r.fdv == r.mktCap == 0.0)
  {
  }

  /** Every trade the pump decoder emits is of that kind: it carries neither a slot nor a swap name. */
  lemma DecodedTradesHaveNoSlot(tx: PumpEvents.Tx, n: nat)
    requires PumpEvents.WellFormed(tx) && PumpEvents.PositiveAmounts(tx) && n <= |tx.instructions|
    ensures forall t :: t in PumpEvents.Expected(tx, n) ==> t.slot == 0 && t.swapName == ""
  {
    hide Decimals.Div, Decimals.Pow10;
  }
}
