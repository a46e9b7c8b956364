/** A market order from its first log line to its final status (trade/internal/logic/createmarketorderlogic.go,
    model/trademodel/tradeordermodel.go, tradeorderlogmodel.go). */
module Orders {
  import opened Constants
  import opened Decimals
  import opened Wrappers

  const TRADE_MARKET := 1
  const TRADE_LIMIT := 2
  const TRADE_ONE_CLICK := 3
  const DEFAULT_SLIPPAGE := 5000
  const DIVISION_DIGITS := 18
  const STATUS_PROC := 2
  const STATUS_ONCHAIN := 3
  const STATUS_FAIL := 4
  const SWAP_SELL := 2
  const SOL_CHAIN := 100000
  const RAYDIUM_CLMM := "RaydiumClmm"
  const UINT32 := 0x1_0000_0000
  const MAX_HASH := 100

  /** A coded error prints its number, any other error its message. */
  datatype SwapError = Coded(code: string) | Raw(message: string)

  const REQUEST_ERR := Coded("400")
  const SERVER_ERR := Coded("500")
  const BALANCE_NOT_ENOUGH := Coded("6000")
  const TOKEN_ACCOUNT_FROZEN := Coded("6005")
  const AMOUNT_ERR := Coded("6007")
  const SLIPPAGE_LIMIT := Coded("6009")
  const PUMP_POOL_ZERO := Coded("6010")
  const POOL_LIQUIDITY_NOT_ENOUGH := Coded("6022")

  function Text(e: SwapError): string {
    match e
    case Coded(code) => code
    case Raw(message) => message
  }

  /** The columns of an order this flow never changes. */
  datatype Fixed = Fixed(uid: int, tradeType: int, chainId: int, tokenCa: string, swapType: int, walletAddress: string,
                         isAutoSlippage: bool, orderAmount: real, orderPriceBase: real)

  datatype Row = Row(fixed: Fixed, status: int, slippage: int, failReason: string, txHash: string, dexName: string,
                     pairCa: string)

  datatype Column = Status | Slippage | FailReason | TxHash | DexName | PairCa

  datatype PairInfo = PairInfo(name: string, address: string, baseToken: string, token: string,
                               baseTokenPrice: real, tokenPrice: real)

  /** A request to trade; the amount may not be a number. */
  datatype Request = Request(chainId: int, tokenCa: string, swapType: int, walletAddress: string,
                             amountIn: Result<real, SwapError>, isOneClick: bool)

  /** What is handed to the chain. */
  datatype Param = Param(chainId: int, wallet: string, isAutoSlippage: bool, slippage: nat, pool: string,
                         pairAddr: string, inToken: string, outToken: string, inProgram: string, outProgram: string,
                         usePriceLimit: bool, amountIn: real, price: real)

  /** The chain's answer to the n-th attempt with given parameters. */
  type Chain = (Param, nat) -> Result<string, SwapError>

  /** The program both tokens are traded under. */
  function ProgramOf(chainId: int): string {
    if chainId == SOL_CHAIN then PROGRAM_TOKEN else ""
  }

  function ParamOf(r: Row, pair: PairInfo): Param {
    var sell := r.fixed.swapType == SWAP_SELL;
    Param(r.fixed.chainId, r.fixed.walletAddress, r.fixed.isAutoSlippage, r.slippage % UINT32, pair.name, pair.address,
          if sell then pair.token else pair.baseToken, if sell then pair.baseToken else pair.token,
          ProgramOf(r.fixed.chainId), ProgramOf(r.fixed.chainId),
          r.fixed.tradeType == TRADE_LIMIT || r.dexName == RAYDIUM_CLMM,
          r.fixed.orderAmount, r.fixed.orderPriceBase)
  }

  predicate WordAt(s: string, word: string, i: int) {
    0 <= i <= |s| - |word| && s[i..i + |word|] == word
  }

  predicate Contains(s: string, word: string) {
    exists i :: 0 <= i <= |s| - |word| && WordAt(s, word, i)
  }

  function ConvertSwapErr(pool: string, e: SwapError): SwapError {
    var text := Text(e);
    if Contains(text, "liquidity") then POOL_LIQUIDITY_NOT_ENOUGH
    else if Contains(text, "insufficient") then BALANCE_NOT_ENOUGH
    else if Contains(text, "frozen") then TOKEN_ACCOUNT_FROZEN
    else if Contains(text, "slippage") || Contains(text, "TooLittleOutputReceived") then SLIPPAGE_LIMIT
    else if pool == RAYDIUM_CLMM && Contains(text, "InsufficientLiquidityForDirection") then POOL_LIQUIDITY_NOT_ENOUGH
    else if pool == PUMP_FUN
            && (Contains(text, "TooLittleSolReceived") || Contains(text, "attempt to subtract with overflow"))
    then PUMP_POOL_ZERO
    else e
  }

  /** One attempt, its error already translated. */
  function Attempt(p: Param, chain: Chain, n: nat): Result<string, SwapError> {
    var r := if p.chainId == SOL_CHAIN then chain(p, n) else Failure(REQUEST_ERR);
    if r.Failure? then Failure(ConvertSwapErr(p.pool, r.error)) else r
  }

  /** The slippage of the n-th attempt. */
  function SlippageAt(first: nat, n: nat): nat {
    if n == 2 then 4500 else if n == 3 then 7000 else first
  }

  predicate Retries(p: Param, r: Result<string, SwapError>, n: nat) {
    p.isAutoSlippage && r == Failure(SLIPPAGE_LIMIT) && n < 3
  }

  /** The attempt that decides, counted from 1. */
  function Deciding(p: Param, chain: Chain, n: nat): (last: nat)
    requires 1 <= n <= 3
    ensures n <= last <= 3
    ensures !Retries(p, Attempt(p.(slippage := SlippageAt(p.slippage, last)), chain, last), last)
    ensures forall k :: n <= k < last ==> Retries(p, Attempt(p.(slippage := SlippageAt(p.slippage, k)), chain, k), k)
    decreases 3 - n
  {
    if Retries(p, Attempt(p.(slippage := SlippageAt(p.slippage, n)), chain, n), n) then Deciding(p, chain, n + 1) else n
  }

  /** The final parameters and the final answer. */
  function Decided(p: Param, chain: Chain): (Param, Result<string, SwapError>) {
    var last := Deciding(p, chain, 1);
    var final := p.(slippage := SlippageAt(p.slippage, last));
    (final, Attempt(final, chain, last))
  }

  /** The order once the answer is known: on chain with its hash and venue, or failed with its reason. */
  function Settled(r: Row, p: Param, answer: Result<string, SwapError>): Row {
    match answer
    case Success(hash) =>
      r.(status := STATUS_ONCHAIN, txHash := hash, dexName := p.pool, pairCa := p.pairAddr, slippage := p.slippage)
    case Failure(e) =>
      r.(status := STATUS_FAIL, failReason := Text(e), slippage := p.slippage)
  }

  /** The row after writing only the selected columns. */
  function Select(stored: Row, order: Row, columns: set<Column>): Row {
    stored.(status := if Status in columns then order.status else stored.status,
            slippage := if Slippage in columns then order.slippage else stored.slippage,
            failReason := if FailReason in columns then order.failReason else stored.failReason,
            txHash := if TxHash in columns then order.txHash else stored.txHash,
            dexName := if DexName in columns then order.dexName else stored.dexName,
            pairCa := if PairCa in columns then order.pairCa else stored.pairCa)
  }

  /** An order in memory. */
  class Order {
    var id: int
    const fixed: Fixed
    var status: int
    var slippage: int
    var failReason: string
    var txHash: string
    var dexName: string
    var pairCa: string

    function Value(): Row
      reads this
    {
      Row(fixed, status, slippage, failReason, txHash, dexName, pairCa)
    }

    constructor (fixed: Fixed, slippage: int, dexName: string, pairCa: string)
      ensures id == 0 && Value() == Row(fixed, STATUS_PROC, slippage, "", "", dexName, pairCa)
    {
      this.fixed, this.slippage, this.dexName, this.pairCa := fixed, slippage, dexName, pairCa;
      id, status, failReason, txHash := 0, STATUS_PROC, "", "";
    }
  }

  /** The log after a sequence of lines, each an order's id and row: a line replaces the one of the same order and
      status. */
  function Upserts(log: map<(int, int), Row>, lines: seq<(int, Row)>): map<(int, int), Row> {
    if lines == [] then log
    else
      var line := lines[|lines| - 1];
      Upserts(log, lines[..|lines| - 1])[(line.0, line.1.status) := line.1]
  }

  predicate IsLineOf(line: (int, Row), id: int, status: int) {
    line.0 == id && line.1.status == status
  }

  /** The position of the last line of an order and status. */
  function LastLine(lines: seq<(int, Row)>, id: int, status: int): (at: Option<nat>)
    ensures at.None? ==> forall i :: 0 <= i < |lines| ==> !IsLineOf(lines[i], id, status)
    ensures at.Some? ==>
              && at.value < |lines| && IsLineOf(lines[at.value], id, status)
              && forall i :: at.value < i < |lines| ==> !IsLineOf(lines[i], id, status)
  {
    if lines == [] then None
    else if IsLineOf(lines[|lines| - 1], id, status) then Some(|lines| - 1)
    else LastLine(lines[..|lines| - 1], id, status)
  }

  /** However many lines are written, the log holds at most one for each order and status: the last of them. */
  lemma {:induction false} LogHoldsLatest(log: map<(int, int), Row>, lines: seq<(int, Row)>, id: int, status: int)
    ensures var after, last := Upserts(log, lines), LastLine(lines, id, status);
            && ((id, status) in after <==> (id, status) in log || last.Some?)
            && (last.Some? ==> after[(id, status)] == lines[last.value].1)
            && (last.None? && (id, status) in log ==> after[(id, status)] == log[(id, status)])
  {
    if lines != [] {
      LogHoldsLatest(log, lines[..|lines| - 1], id, status);
    }
  }

  /** The order table, and the log keyed by order and status. Each write is one transaction over both. */
  class OrderModel {
    var orders: map<int, Row>
    var log: map<(int, int), Row>
    var nextId: int

    ghost predicate Valid()
      reads this
    {
      && nextId > 0
      && (forall id :: id in orders ==> 0 < id < nextId)
      && (forall k :: k in log ==> 0 < k.0 < nextId)
    }

    constructor ()
      ensures Valid() && orders == map[] && log == map[]
    {
      orders, log, nextId := map[], map[], 1;
    }

    /** `on duplicate key update`: a second line for the same order and status replaces the first. */
    method InsertWithOrder(order: Order)
      requires Valid() && 0 < order.id < nextId
      modifies this`log
      ensures Valid() && log == Upserts(old(log), [(order.id, order.Value())])
      ensures log == old(log)[(order.id, order.status) := order.Value()]
    {
      assert [(order.id, order.Value())][..0] == [];
      log := log[(order.id, order.status) := order.Value()];
    }

    /** A new order and its first log line. */
    method InsertWithLog(order: Order, writeOk: bool) returns (ok: bool)
      requires Valid() && order.id == 0
      modifies this, order`id
      ensures Valid() && ok == writeOk
      ensures !ok ==> orders == old(orders) && log == old(log) && order.id == 0
      ensures ok ==> && order.id !in old(orders) && (forall s :: (order.id, s) !in old(log))
                     && order.id == old(nextId)
                     && orders == old(orders)[order.id := order.Value()]
                     && log == old(log)[(order.id, order.status) := order.Value()]
    {
      if !writeOk {
        return false;
      }
      order.id := nextId;
      nextId := nextId + 1;
      orders := orders[order.id := order.Value()];
      InsertWithOrder(order);
      return true;
    }

    /** A partial update and its log line, together or not at all. */
    method UpdateOrderBySelect(order: Order, columns: set<Column>, writeOk: bool) returns (ok: bool)
      requires Valid() && 0 < order.id < nextId
      modifies this`orders, this`log
      ensures Valid() && ok == writeOk
      ensures !ok ==> orders == old(orders) && log == old(log)
      ensures ok ==>
                && orders == (if order.id in old(orders)
                              then old(orders)[order.id := Select(old(orders)[order.id], order.Value(), columns)]
                              else old(orders))
                && log == old(log)[(order.id, order.status) := order.Value()]
    {
      if !writeOk {
        return false;
      }
      if order.id in orders {
        orders := orders[order.id := Select(orders[order.id], order.Value(), columns)];
      }
      InsertWithOrder(order);
      return true;
    }
  }

  class CreateMarketOrderLogic {
    const model: OrderModel
    /** How many database writes were asked for. */
    ghost var writes: nat

    constructor (model: OrderModel)
      ensures this.model == model && writes == 0
    {
      this.model := model;
      writes := 0;
    }

    /** The stored row is the one in memory. */
    ghost predicate Synced(order: Order)
      reads this, model, order
    {
      model.Valid() && order.id in model.orders && model.orders[order.id] == order.Value()
    }

    method MarkFailed(order: Order, param: Option<Param>, reason: SwapError, writeOk: bool) returns (ok: bool)
      requires Synced(order)
      modifies model`orders, model`log, order`status, order`slippage, order`failReason
      ensures model.Valid() && ok == writeOk
      ensures order.Value() == old(order.Value()).(status := STATUS_FAIL, failReason := Text(reason),
                                                  slippage := if param.Some? then param.value.slippage
                                                      else old(order.slippage))
      ensures model.orders == (if ok then old(model.orders)[order.id := order.Value()] else old(model.orders))
      ensures model.log == (if ok then old(model.log)[(order.id, order.status) := order.Value()] else old(model.log))
    {
      var columns := {Status, FailReason};
      if param.Some? && order.slippage != param.value.slippage {
        order.slippage := param.value.slippage;
        columns := columns + {Slippage};
      }
      order.status := STATUS_FAIL;
      order.failReason := Text(reason);
      ok := model.UpdateOrderBySelect(order, columns, writeOk);
    }

    method MarkOnChain(order: Order, param: Param, txHash: string, writeOk: bool) returns (ok: bool)
      requires Synced(order)
      modifies model`orders, model`log, order`status, order`slippage, order`txHash, order`dexName, order`pairCa
      ensures model.Valid() && ok == writeOk
      ensures order.Value() == Settled(old(order.Value()), param, Success(txHash))
      ensures model.orders == (if ok then old(model.orders)[order.id := order.Value()] else old(model.orders))
      ensures model.log == (if ok then old(model.log)[(order.id, order.status) := order.Value()] else old(model.log))
    {
      var columns := {Status};
      order.status := STATUS_ONCHAIN;
      order.txHash := txHash;
      columns := columns + {TxHash};
      if order.dexName != param.pool {
        order.dexName := param.pool;
        columns := columns + {DexName};
      }
      if order.pairCa != param.pairAddr {
        order.pairCa := param.pairAddr;
        columns := columns + {PairCa};
      }
      if order.slippage != param.slippage {
        order.slippage := param.slippage;
        columns := columns + {Slippage};
      }
      ok := model.UpdateOrderBySelect(order, columns, writeOk);
    }

    /** The final write: only the columns that changed are selected, yet the stored row ends equal to the order. */
    method UpdateDbByTxResult(order: Order, param: Option<Param>, answer: Result<string, SwapError>, writeOk: bool)
      returns (ok: bool)
      requires Synced(order) && (answer.Success? ==> param.Some?)
      modifies this`writes, model`orders, model`log, order`status, order`slippage, order`failReason, order`txHash,
               order`dexName, order`pairCa
      ensures model.Valid() && ok == writeOk && writes == old(writes) + 1
      ensures param.Some? ==> order.Value() == Settled(old(order.Value()), param.value, answer)
      ensures param.None?
              ==> order.Value() == old(order.Value()).(status := STATUS_FAIL, failReason := Text(answer.error))
      ensures ok ==> Synced(order)
      ensures model.orders == (if ok then old(model.orders)[order.id := order.Value()] else old(model.orders))
      ensures model.log == (if ok then old(model.log)[(order.id, order.status) := order.Value()] else old(model.log))
    {
      writes := writes + 1;
      if answer.Failure? {
        ok := MarkFailed(order, param, answer.error, writeOk);
      } else {
        ok := MarkOnChain(order, param.value, answer.value, writeOk);
      }
    }

    /** The retry loop and its final write; an answer longer than any hash is an unsigned transaction and
        bypasses the database. */
    method CreateMarketTxWithPairInfo(order: Order, pair: PairInfo, chain: Chain, writeOk: bool)
      returns (r: Result<string, SwapError>)
      requires Synced(order) && order.status == STATUS_PROC
      modifies this`writes, model`orders, model`log, order`status, order`slippage, order`failReason, order`txHash,
               order`dexName, order`pairCa
      ensures model.Valid()
      ensures var (param, answer) := Decided(ParamOf(old(order.Value()), pair), chain);
              if answer.Success? && |answer.value| > MAX_HASH then
                && r == answer && writes == old(writes) && order.Value() == old(order.Value())
                && model.orders == old(model.orders) && model.log == old(model.log)
              else
                && writes == old(writes) + 1
                && order.Value() == Settled(old(order.Value()), param, answer)
                && r == (if writeOk || answer.Failure? then answer else Success(""))
                && model.orders == (if writeOk then old(model.orders)[order.id := order.Value()] else old(model.orders))
                && model.log == (if writeOk then old(model.log)[(order.id, order.status) := order.Value()]
                                 else old(model.log))
    {
      var param := ParamOf(order.Value(), pair);
      ghost var first := param;
      var answer: Result<string, SwapError> := Success("");
      var tryTimes := 0;
      while tryTimes == 0 || (param.isAutoSlippage && answer == Failure(SLIPPAGE_LIMIT) && tryTimes < 3)
        invariant 0 <= tryTimes <= 3
        invariant param == first.(slippage := SlippageAt(first.slippage, tryTimes))
        invariant tryTimes > 0 ==> answer == Attempt(param, chain, tryTimes)
        invariant forall k :: 1 <= k < tryTimes ==>
                    Retries(first, Attempt(first.(slippage := SlippageAt(first.slippage, k)), chain, k), k)
        decreases 3 - tryTimes
      {
        tryTimes := tryTimes + 1;
        match tryTimes {
          case 2 => param := param.(slippage := 4500);
          case 3 => param := param.(slippage := 7000);
          case _ =>
        }
        answer := Attempt(param, chain, tryTimes);
      }
      DecidingUnique(first, chain, tryTimes);
      if answer.Success? && |answer.value| > MAX_HASH {
        return answer;
      }
      var ok := UpdateDbByTxResult(order, Some(param), answer, writeOk);
      if !ok {
        return if answer.Failure? then answer else Success("");
      }
      return answer;
    }

    /** The whole flow for one order: the pair is looked up when it is not given, and the deferred handler marks
        the order failed only if nothing else decided it. */
    method CreateMarketTx(order: Order, given: Option<PairInfo>, lookup: Result<PairInfo, SwapError>, chain: Chain,
                          writeOk: bool)
      returns (r: Result<string, SwapError>)
      requires Synced(order) && order.status == STATUS_PROC
      modifies this`writes, model`orders, model`log, order`status, order`slippage, order`failReason, order`txHash,
               order`dexName, order`pairCa
      ensures model.Valid()
      ensures var found := if given.Some? then Success(given.value) else lookup;
              var final := Outcome(old(order.Value()), found, chain);
              if final.None? then
                && r.Success? && |r.value| > MAX_HASH && writes == old(writes) && order.Value() == old(order.Value())
                && model.orders == old(model.orders) && model.log == old(model.log)
              else
                && writes == old(writes) + 1
                && order.Value() == final.value
                && (r.Success? <==> order.status == STATUS_ONCHAIN)
                && (r.Success? ==> r.value == if writeOk then order.txHash else "")
                && (r.Failure? ==> Text(r.error) == order.failReason)
                && model.orders == (if writeOk then old(model.orders)[order.id := order.Value()] else old(model.orders))
                && model.log == (if writeOk then old(model.log)[(order.id, order.status) := order.Value()]
                                 else old(model.log))
    {
      var pair := if given.Some? then Success(given.value) else lookup;
      if pair.Failure? {
        r := Failure(pair.error);
      } else {
        r := CreateMarketTxWithPairInfo(order, pair.value, chain, writeOk);
      }
      if order.status == STATUS_PROC && r.Failure? {
        var ok := UpdateDbByTxResult(order, None, Failure(r.error), writeOk);
      }
    }

    /** The checks before anything is written, and the order they lead to. */
    method Accept(req: Request, lookup: Result<Option<PairInfo>, SwapError>, nativePrice: Option<real>)
      returns (r: Result<Order, SwapError>)
      ensures r.Failure? <==> Refused(req, lookup, nativePrice).Some?
      ensures r.Failure? ==> Refused(req, lookup, nativePrice) == Some(r.error)
      ensures r.Success? ==> fresh(r.value) && r.value.id == 0
      ensures r.Success? ==> r.value.Value() == Placed(req, lookup.value.value, nativePrice)
    {
      if req.amountIn.Failure? {
        return Failure(req.amountIn.error);
      }
      if req.amountIn.value <= 0.0 {
        return Failure(AMOUNT_ERR);
      }
      if lookup.Failure? {
        return Failure(Raw("err is " + Text(lookup.error)));
      }
      if lookup.value.None? {
        return Failure(Raw("pair info is nil for token " + req.tokenCa));
      }
      var pair := lookup.value.value;
      var base := pair.baseTokenPrice;
      if base == 0.0 {
        if req.chainId != SOL_CHAIN {
          return Failure(Raw("invalid base token price (zero) for token " + req.tokenCa));
        }
        if nativePrice.None? || nativePrice.value <= 0.0 {
          return Failure(Raw("invalid base token price (zero) for token " + req.tokenCa
                             + " and unable to fetch current price"));
        }
        base := nativePrice.value;
      }
      var fixed := Fixed(0, if req.isOneClick then TRADE_ONE_CLICK else TRADE_MARKET, req.chainId, req.tokenCa,
                         req.swapType, req.walletAddress, false, req.amountIn.value,
                         Div(pair.tokenPrice, base, DIVISION_DIGITS));
      var order := new Order(fixed, DEFAULT_SLIPPAGE, pair.name, pair.address);
      return Success(order);
    }

    /** A request from its checks to its final status. A refused request and a failed insert leave no trace; otherwise a
        fresh id gets one row, and log lines for its first and its final status and no other. The caller is told of
        success exactly when the order ends on chain or its transaction is handed back unsigned. */
    method CreateMarketOrder(req: Request, lookup: Result<Option<PairInfo>, SwapError>, nativePrice: Option<real>,
                             chain: Chain, insertOk: bool, writeOk: bool)
      returns (r: Result<(), SwapError>, ghost id: int)
      requires model.Valid()
      modifies this`writes, model
      ensures model.Valid()
      ensures var refused := Refused(req, lookup, nativePrice);
              && (refused.Some? ==> r == Failure(refused.value))
              && (refused.None? && !insertOk ==> r == Failure(SERVER_ERR))
              && (refused.Some? || !insertOk ==>
                    writes == old(writes) && model.orders == old(model.orders) && model.log == old(model.log))
      ensures insertOk && Refused(req, lookup, nativePrice).None? ==>
                var pair := lookup.value.value;
                var first := Placed(req, pair, nativePrice);
                var final := Outcome(first, Success(pair), chain);
                && id !in old(model.orders) && (forall status :: (id, status) !in old(model.log))
                && (r.Success? <==> final.None? || final.value.status == STATUS_ONCHAIN)
                && (r.Failure? ==> Text(r.error) == final.value.failReason)
                && (final.Some? && writeOk ==>
                      && writes == old(writes) + 1
                      && model.orders == old(model.orders)[id := final.value]
                      && final.value.status in {STATUS_ONCHAIN, STATUS_FAIL}
                      && model.log == Upserts(old(model.log), [(id, first), (id, final.value)]))
                && (final.None? || !writeOk ==>
                      && model.orders == old(model.orders)[id := first]
                      && model.log == Upserts(old(model.log), [(id, first)]))
    {
      id := 0;
      var accepted := Accept(req, lookup, nativePrice);
      if accepted.Failure? {
        return Failure(accepted.error), 0;
      }
      var order, pair := accepted.value, lookup.value.value;
      ghost var first := order.Value();
      var ok := model.InsertWithLog(order, insertOk);
      if !ok {
        return Failure(SERVER_ERR), 0;
      }
      id := order.id;
      hide Upserts, Placed, Refused, Outcome;
      LinesOf(model.log, old(model.log), id, first);
      var txHash := CreateMarketTx(order, Some(pair), Success(pair), chain, writeOk);
      if order.status == STATUS_PROC {
        assert order.Value() == first;
      }
      TwoLines(old(model.log), id, first, order.Value());
      r := if txHash.Success? then Success(()) else Failure(txHash.error);
    }
  }

  lemma LinesOf(log: map<(int, int), Row>, before: map<(int, int), Row>, id: int, first: Row)
    requires log == before[(id, first.status) := first]
    ensures log == Upserts(before, [(id, first)])
  {
    assert [(id, first)][..0] == [];
  }

  lemma TwoLines(log: map<(int, int), Row>, id: int, first: Row, final: Row)
    ensures Upserts(log, [(id, first), (id, final)]) == log[(id, first.status) := first][(id, final.status) := final]
  {
    LinesOf(log[(id, first.status) := first], log, id, first);
    var lines: seq<(int, Row)> := [(id, first), (id, final)];
    assert lines[..1] == [(id, first)];
  }

  /** Why a request is turned down before anything is written. */
  function Refused(req: Request, lookup: Result<Option<PairInfo>, SwapError>,
                   nativePrice: Option<real>): (why: Option<SwapError>)
    ensures why.None? <==>
              && req.amountIn.Success? && req.amountIn.value > 0.0 && lookup.Success? && lookup.value.Some?
              && (lookup.value.value.baseTokenPrice != 0.0
                  || (req.chainId == 100000 && nativePrice.Some? && nativePrice.value > 0.0))
    ensures req.amountIn.Failure? ==> why == Some(req.amountIn.error)
    ensures req.amountIn.Success? ==> (req.amountIn.value <= 0.0 <==> why == Some(Coded("6007")))
  {
    if req.amountIn.Failure? then Some(req.amountIn.error)
    else if req.amountIn.value <= 0.0 then Some(AMOUNT_ERR)
    else if lookup.Failure? then Some(Raw("err is " + Text(lookup.error)))
    else if lookup.value.None? then Some(Raw("pair info is nil for token " + req.tokenCa))
    else if lookup.value.value.baseTokenPrice != 0.0 then None
    else if req.chainId != SOL_CHAIN then Some(Raw("invalid base token price (zero) for token " + req.tokenCa))
    else if nativePrice.None? || nativePrice.value <= 0.0 then
      Some(Raw("invalid base token price (zero) for token " + req.tokenCa + " and unable to fetch current price"))
    else None
  }

  function BasePrice(pair: PairInfo, nativePrice: Option<real>): real {
    if pair.baseTokenPrice == 0.0 && nativePrice.Some? then nativePrice.value else pair.baseTokenPrice
  }

  /** The first row of an accepted request. */
  function Placed(req: Request, pair: PairInfo, nativePrice: Option<real>): Row
    requires req.amountIn.Success? && BasePrice(pair, nativePrice) != 0.0
  {
    Row(Fixed(0, if req.isOneClick then TRADE_ONE_CLICK else TRADE_MARKET, req.chainId, req.tokenCa, req.swapType,
              req.walletAddress, false, req.amountIn.value,
              Div(pair.tokenPrice, BasePrice(pair, nativePrice), DIVISION_DIGITS)),
        STATUS_PROC, DEFAULT_SLIPPAGE, "", "", pair.name, pair.address)
  }

  /** The order's price is the token's in base tokens, off by half of the last digit kept at most. */
  lemma PlacedPrice(req: Request, lookup: Result<Option<PairInfo>, SwapError>, nativePrice: Option<real>)
    requires Refused(req, lookup, nativePrice).None?
    requires lookup.value.value.baseTokenPrice >= 0.0
    ensures var pair := lookup.value.value;
            var base, price := BasePrice(pair, nativePrice), Placed(req, pair, nativePrice).fixed.orderPriceBase;
            var slack := base * HalfUnit(18);
            && base > 0.0 && pair.tokenPrice - slack <= base * price <= pair.tokenPrice + slack
            && (price == 0.0 <==> -slack < pair.tokenPrice < slack)
  {
    hide Div, HalfUnit;
    DivTimes(lookup.value.value.tokenPrice, BasePrice(lookup.value.value, nativePrice), DIVISION_DIGITS);
  }

  /** A placed order never asks for auto slippage: whatever the chain answers, one attempt decides and the slippage
      stays at its default. */
  lemma PlacedOrderTriesOnce(req: Request, pair: PairInfo, nativePrice: Option<real>, chain: Chain)
    requires req.amountIn.Success? && BasePrice(pair, nativePrice) != 0.0
    ensures var first := Placed(req, pair, nativePrice);
            var final := Outcome(first, Success(pair), chain);
            && Deciding(ParamOf(first, pair), chain, 1) == 1
            && (final.Some? ==> final.value.slippage == DEFAULT_SLIPPAGE)
  {
    RetryOutcome(ParamOf(Placed(req, pair, nativePrice), pair), chain);
  }

  /** The row a run settles on; none when the answer is an unsigned transaction. */
  function Outcome(r: Row, pair: Result<PairInfo, SwapError>, chain: Chain): (final: Option<Row>)
    ensures final.Some? ==> final.value.status in {STATUS_ONCHAIN, STATUS_FAIL} && final.value.fixed == r.fixed
  {
    if pair.Failure? then Some(r.(status := STATUS_FAIL, failReason := Text(pair.error)))
    else
      var (param, answer) := Decided(ParamOf(r, pair.value), chain);
      if answer.Success? && |answer.value| > MAX_HASH then None else Some(Settled(r, param, answer))
  }

  /** The attempt at which the loop stops is the deciding one. */
  lemma DecidingUnique(p: Param, chain: Chain, n: nat)
    requires 1 <= n <= 3
    requires forall k :: 1 <= k < n ==> Retries(p, Attempt(p.(slippage := SlippageAt(p.slippage, k)), chain, k), k)
    requires !Retries(p, Attempt(p.(slippage := SlippageAt(p.slippage, n)), chain, n), n)
    ensures Deciding(p, chain, 1) == n
  {
  }

  // ---------- what the retries do ----------

  /** Attempts stop at the first answer that is not a slippage limit, after three at most, and without auto
      slippage after one; the parameters that decide are those of the last attempt. */
  lemma RetryOutcome(p: Param, chain: Chain)
    ensures var last := Deciding(p, chain, 1);
            var (final, answer) := Decided(p, chain);
            && 1 <= last <= 3
            && final == p.(slippage := SlippageAt(p.slippage, last)) && answer == Attempt(final, chain, last)
            && (!p.isAutoSlippage ==> last == 1)
            && (forall k :: 1 <= k < last ==>
                  Attempt(p.(slippage := SlippageAt(p.slippage, k)), chain, k) == Failure(SLIPPAGE_LIMIT))
            && (p.isAutoSlippage && answer == Failure(SLIPPAGE_LIMIT) ==> last == 3 && final.slippage == 7000)
  {
    var last := Deciding(p, chain, 1);
    if !p.isAutoSlippage {
      assert !Retries(p, Attempt(p.(slippage := SlippageAt(p.slippage, 1)), chain, 1), 1);
    }
    forall k | 1 <= k < last
      ensures Attempt(p.(slippage := SlippageAt(p.slippage, k)), chain, k) == Failure(SLIPPAGE_LIMIT)
    {
      assert Retries(p, Attempt(p.(slippage := SlippageAt(p.slippage, k)), chain, k), k);
    }
  }

  /** The chain that turns down the first attempt for its slippage and takes the second. */
  function PickyChain(p: Param, n: nat): Result<string, SwapError> {
    if n == 1 then Failure(SLIPPAGE_LIMIT) else Success("")
  }

  /** The retries are meant to raise the slippage. Over everything the chain can answer, the deciding attempt never has
      less than the order asked for exactly when the order is not an auto-slippage order of the one chain served, or
      starts from at most 4500. */
  lemma SlippageNeverLoweredIff(p: Param)
    ensures (forall chain: Chain :: Decided(p, chain).0.slippage >= p.slippage)
       <==> !p.isAutoSlippage || p.chainId != SOL_CHAIN || p.slippage <= 4500
  {
    forall chain: Chain | !p.isAutoSlippage || p.chainId != SOL_CHAIN || p.slippage <= 4500
      ensures Decided(p, chain).0.slippage >= p.slippage
    {
      RetryOutcome(p, chain);
      CodesPass(p.pool, "400");
      if p.chainId != SOL_CHAIN {
        assert Attempt(p.(slippage := SlippageAt(p.slippage, 1)), chain, 1) == Failure(REQUEST_ERR);
        assert Deciding(p, chain, 1) == 1;
      }
    }
    if p.isAutoSlippage && p.chainId == SOL_CHAIN && p.slippage > 4500 {
      CodesPass(p.pool, "6009");
      var first, second := p.(slippage := SlippageAt(p.slippage, 1)), p.(slippage := SlippageAt(p.slippage, 2));
      assert Attempt(first, PickyChain, 1) == Failure(SLIPPAGE_LIMIT);
      assert Attempt(second, PickyChain, 2) == Success("");
      DecidingUnique(p, PickyChain, 2);
      assert Decided(p, PickyChain).0.slippage == 4500;
    }
  }

  /** What the chain may be asked for an order: its amount at its price from its wallet, in the pool that was looked up,
      the base token for the token or, for a sell, the token for the base token, with a price limit for limit orders and
      on concentrated liquidity only. */
  predicate Asked(r: Row, pair: PairInfo, p: Param, n: nat) {
    && p.chainId == r.fixed.chainId && p.wallet == r.fixed.walletAddress
    && p.amountIn == r.fixed.orderAmount && p.price == r.fixed.orderPriceBase
    && p.pool == pair.name && p.pairAddr == pair.address
    && (r.fixed.swapType == 2 ==> p.inToken == pair.token && p.outToken == pair.baseToken)
    && (r.fixed.swapType != 2 ==> p.inToken == pair.baseToken && p.outToken == pair.token)
    && (p.usePriceLimit <==> r.fixed.tradeType == 2 || r.dexName == "RaydiumClmm")
    && p.isAutoSlippage == r.fixed.isAutoSlippage && (!p.isAutoSlippage ==> n == 1)
    && 1 <= n <= 3 && (n == 1 ==> p.slippage == r.slippage % UINT32) && (n == 2 ==> p.slippage == 4500)
    && (n == 3 ==> p.slippage == 7000)
    && (p.chainId == 100000 ==> p.inProgram == PROGRAM_TOKEN && p.outProgram == PROGRAM_TOKEN)
  }

  /** Nothing but those answers matters: two chains that agree on them lead an order to the same end. */
  lemma OnlyAskedMatters(r: Row, pair: PairInfo, chain: Chain, other: Chain)
    requires forall p, n :: Asked(r, pair, p, n) ==> chain(p, n) == other(p, n)
    ensures Outcome(r, Success(pair), chain) == Outcome(r, Success(pair), other)
  {
    var p := ParamOf(r, pair);
    var last := Deciding(p, chain, 1);
    RetryOutcome(p, chain);
    hide ConvertSwapErr, Deciding;
    forall k | 1 <= k <= last
      ensures Attempt(p.(slippage := SlippageAt(p.slippage, k)), chain, k)
           == Attempt(p.(slippage := SlippageAt(p.slippage, k)), other, k)
    {
      assert Asked(r, pair, p.(slippage := SlippageAt(p.slippage, k)), k);
    }
    forall k | 1 <= k < last
      ensures Retries(p, Attempt(p.(slippage := SlippageAt(p.slippage, k)), other, k), k)
    {
      assert Retries(p, Attempt(p.(slippage := SlippageAt(p.slippage, k)), chain, k), k);
    }
    DecidingUnique(p, other, last);
  }

  /** The row an order ends in, read off what the chain was asked last: on chain under the hash it answered, in the pool
      and pair it was asked to trade in, or failed for the reason it gave, and at the slippage of that attempt. */
  lemma FinalRow(r: Row, pair: PairInfo, chain: Chain)
    ensures exists p, n ::
              && Asked(r, pair, p, n)
              && var answer := if p.chainId == 100000 then chain(p, n) else Failure(REQUEST_ERR);
              && (answer.Success? && |answer.value| > 100 ==> Outcome(r, Success(pair), chain) == None)
              && (answer.Success? && |answer.value| <= 100 ==>
                    Outcome(r, Success(pair), chain)
                    == Some(Row(r.fixed, 3, p.slippage, r.failReason, answer.value, pair.name,
                                pair.address)))
              && (answer.Failure? ==>
                    Outcome(r, Success(pair), chain)
                    == Some(Row(r.fixed, 4, p.slippage, Text(ConvertSwapErr(pair.name, answer.error)), r.txHash,
                                r.dexName, r.pairCa)))
  {
    var first := ParamOf(r, pair);
    RetryOutcome(first, chain);
    var n := Deciding(first, chain, 1);
    hide ConvertSwapErr, Deciding;
    var p := first.(slippage := SlippageAt(first.slippage, n));
    assert Asked(r, pair, p, n);
  }

  /** The first row of a request, column by column. */
  lemma PlacedRow(req: Request, pair: PairInfo, nativePrice: Option<real>)
    requires req.amountIn.Success? && BasePrice(pair, nativePrice) != 0.0
    ensures var r := Placed(req, pair, nativePrice);
            && r.fixed.orderAmount == req.amountIn.value && r.fixed.walletAddress == req.walletAddress
            && r.fixed.tokenCa == req.tokenCa && r.fixed.chainId == req.chainId && r.fixed.swapType == req.swapType
            && !r.fixed.isAutoSlippage && r.slippage == 5000 && r.status == 2 && r.fixed.uid == 0
            && r.fixed.tradeType == (if req.isOneClick then 3 else 1)
            && r.txHash == "" && r.failReason == "" && r.dexName == pair.name && r.pairCa == pair.address
  {
  }

  /** What a request makes the chain do: one attempt with the requested amount from the requesting wallet at a
      slippage of 5000, and a price limit exactly on concentrated liquidity. */
  predicate AskedFor(req: Request, pair: PairInfo, price: real, p: Param) {
    && Success(p.amountIn) == req.amountIn && p.price == price && p.wallet == req.walletAddress
    && p.chainId == req.chainId && p.slippage == 5000 && !p.isAutoSlippage
    && p.pool == pair.name && p.pairAddr == pair.address
    && (p.inToken, p.outToken) == (if req.swapType == 2 then (pair.token, pair.baseToken)
                                   else (pair.baseToken, pair.token))
    && (p.usePriceLimit <==> pair.name == "RaydiumClmm")
  }

  /** So two chains that agree on it lead the request to the same row and result. */
  lemma OnlyAskedForMatters(req: Request, pair: PairInfo, nativePrice: Option<real>, chain: Chain, other: Chain)
    requires req.amountIn.Success? && BasePrice(pair, nativePrice) != 0.0
    requires var price := Div(pair.tokenPrice, BasePrice(pair, nativePrice), DIVISION_DIGITS);
             forall p :: AskedFor(req, pair, price, p) ==> chain(p, 1) == other(p, 1)
    ensures var first := Placed(req, pair, nativePrice);
            Outcome(first, Success(pair), chain) == Outcome(first, Success(pair), other)
  {
    var first := Placed(req, pair, nativePrice);
    var price := Div(pair.tokenPrice, BasePrice(pair, nativePrice), DIVISION_DIGITS);
    PlacedRow(req, pair, nativePrice);
    hide Div;
    forall p, n | Asked(first, pair, p, n)
      ensures chain(p, n) == other(p, n)
    {
      assert n == 1 && AskedFor(req, pair, price, p);
    }
    OnlyAskedMatters(first, pair, chain, other);
  }

  /** A sell hands the chain the two tokens of a buy exchanged and nothing else; a buy pays with the base token. */
  lemma SellMirrorsBuy(buy: Row, sell: Row, pair: PairInfo)
    requires buy.fixed.swapType != SWAP_SELL && sell == buy.(fixed := buy.fixed.(swapType := SWAP_SELL))
    ensures var b, s := ParamOf(buy, pair), ParamOf(sell, pair);
            && b.inToken == pair.baseToken && b.outToken == pair.token
            && s == b.(inToken := b.outToken, outToken := b.inToken, inProgram := b.outProgram,
                       outProgram := b.inProgram)
  {
  }

  predicate AllDigits(s: string) {
    forall i :: 0 <= i < |s| ==> '0' <= s[i] <= '9'
  }

  lemma DigitsHoldNoWord(s: string, word: string)
    requires AllDigits(s) && word != "" && !('0' <= word[0] <= '9')
    ensures !Contains(s, word)
  {
    forall i | 0 <= i <= |s| - |word|
      ensures !WordAt(s, word, i)
    {
      assert s[i..i + |word|][0] == s[i];
    }
  }

  /** A coded error passes through unchanged, so translating an error twice is translating it once. */
  lemma TranslatingTwice(pool: string, e: SwapError)
    requires e.Coded? ==> AllDigits(e.code)
    ensures e.Coded? ==> ConvertSwapErr(pool, e) == e
    ensures ConvertSwapErr(pool, ConvertSwapErr(pool, e)) == ConvertSwapErr(pool, e)
  {
    hide Contains;
    if e.Coded? {
      CodesPass(pool, e.code);
    } else {
      var once := ConvertSwapErr(pool, e);
      if once.Coded? {
        CodesPass(pool, once.code);
      }
    }
  }

  lemma CodesPass(pool: string, code: string)
    requires AllDigits(code)
    ensures ConvertSwapErr(pool, Coded(code)) == Coded(code)
  {
    hide Contains;
    DigitsHoldNoWord(code, "liquidity");
    DigitsHoldNoWord(code, "insufficient");
    DigitsHoldNoWord(code, "frozen");
    DigitsHoldNoWord(code, "slippage");
    DigitsHoldNoWord(code, "TooLittleOutputReceived");
    DigitsHoldNoWord(code, "InsufficientLiquidityForDirection");
    DigitsHoldNoWord(code, "TooLittleSolReceived");
    DigitsHoldNoWord(code, "attempt to subtract with overflow");
  }

  /** The code a message is translated to, by its number: the first word it holds decides, and two pools have words of
      their own. */
  lemma CodeOf(pool: string, message: string)
    ensures var e := ConvertSwapErr(pool, Raw(message));
            var liquidity, insufficient := Contains(message, "liquidity"), Contains(message, "insufficient");
            var frozen := Contains(message, "frozen");
            var slippage := Contains(message, "slippage") || Contains(message, "TooLittleOutputReceived");
            var none := !liquidity && !insufficient && !frozen && !slippage;
            var clmm := pool == RAYDIUM_CLMM && Contains(message, "InsufficientLiquidityForDirection");
            var pump := pool == PUMP_FUN && (Contains(message, "TooLittleSolReceived")
                                             || Contains(message, "attempt to subtract with overflow"));
            && (e == Coded("6022") <==> liquidity || (none && clmm))
            && (e == Coded("6000") <==> insufficient && !liquidity)
            && (e == Coded("6005") <==> frozen && !liquidity && !insufficient)
            && (e == Coded("6009") <==> slippage && !liquidity && !insufficient && !frozen)
            && (e == Coded("6010") <==> none && pump && !clmm)
            && (e == Raw(message) <==> none && !clmm && !pump)
  {
    hide Contains;
    Codes();
  }

  lemma Codes()
    ensures POOL_LIQUIDITY_NOT_ENOUGH == Coded("6022") && BALANCE_NOT_ENOUGH == Coded("6000")
    ensures TOKEN_ACCOUNT_FROZEN == Coded("6005") && SLIPPAGE_LIMIT == Coded("6009") && PUMP_POOL_ZERO == Coded("6010")
    ensures "6022"[2] != "6000"[2] && "6005"[3] != "6000"[3] && "6009"[3] != "6000"[3] && "6009"[3] != "6005"[3]
    ensures "6010"[2] != "6000"[2] && "6010"[2] != "6005"[2] && "6010"[2] != "6009"[2] && "6010"[2] != "6022"[2]
    ensures "6022"[2] != "6005"[2] && "6022"[2] != "6009"[2]
  {
  }

  /** Only a message about slippage, and about nothing recognised before it, asks for another attempt. */
  lemma SlippageLimitIff(pool: string, message: string)
    ensures ConvertSwapErr(pool, Raw(message)) == SLIPPAGE_LIMIT <==>
              && (Contains(message, "slippage") || Contains(message, "TooLittleOutputReceived"))
              && !Contains(message, "liquidity") && !Contains(message, "insufficient") && !Contains(message, "frozen")
  {
  }
}
