/** Pairing pump instructions with the pump events of a transaction's log
    (consumer/internal/logic/sol/block/pump.go, block.go). */
module PumpEvents {
  import opened Bytes
  import opened Decimals
  import opened Wrappers
  import opened Trades

  const PROGRAM_PUMP_FUN := "6EF8rrecthR5Dkzon8Nwu78hRvfCKubJ14M5uBEwF6P"
  const PUMP_BUY := 0xeaebda01123d0666
  const PUMP_SELL := 0xad837f01a485e633
  const SOL_BASE_TOKEN := "So11111111111111111111111111111111111111112"
  const SOL_DECIMALS := 9
  const DIVISION_DIGITS := 16
  const VIRTUAL_INIT_TOKENS := 1073000191.0
  const INIT_SOL := 0.015

  /** An event of the log. The emitter is the position of the top-level instruction under which it was logged; the log
      does not show it and the decoder does not read it. */
  datatype Event = Event(mint: string, solAmount: nat, tokenAmount: nat, isBuy: bool, virtualSol: nat,
                         virtualToken: nat, emitter: nat)

  /** A log line as the decoder sees it: nothing of interest, an event, or event data that does not decode. */
  datatype LogLine = OtherLine | EventLine(event: Event) | CorruptLine

  datatype Instruction = Instruction(program: string, accounts: seq<string>, data: seq<byte>)

  datatype DecodeError = AccountUnknown | EventMissing | CorruptEvent | NoLogs

  /** What the pump decoder reads of the transaction and its block. */
  datatype Tx = Tx(hash: string, failed: bool, logs: seq<LogLine>, instructions: seq<Instruction>,
                   decimals: map<string, nat>, solPrice: real, blockSlot: int, blockTime: int)

  function GetPumpInstruction(data: seq<byte>): nat {
    if |data| < 8 then 0 else FromLittleEndian(data[..8])
  }

  predicate IsPumpTrade(i: Instruction) {
    i.program == PROGRAM_PUMP_FUN && (GetPumpInstruction(i.data) == PUMP_BUY || GetPumpInstruction(i.data) == PUMP_SELL)
  }

  /** The decoder indexes the accounts of a pump trade up to the seventh. */
  predicate WellFormed(tx: Tx) {
    forall i :: 0 <= i < |tx.instructions| && IsPumpTrade(tx.instructions[i]) ==> |tx.instructions[i].accounts| >= 7
  }

  /** All events of the log, or none at all when one does not decode. */
  function Events(logs: seq<LogLine>): (r: Result<seq<Event>, DecodeError>) {
    if logs == [] then Success([])
    else
      var init := Events(logs[..|logs| - 1]);
      if init.Failure? || logs[|logs| - 1].CorruptLine? then Failure(CorruptEvent)
      else if logs[|logs| - 1].EventLine? then Success(init.value + [logs[|logs| - 1].event])
      else init
  }

  function EventList(logs: seq<LogLine>): seq<Event> {
    var r := Events(logs);
    if r.Success? then r.value else []
  }

  /** Decoding fails exactly on a corrupt line ... */
  lemma {:induction false} CorruptIffFails(logs: seq<LogLine>)
    ensures Events(logs).Failure? <==> CorruptLine in logs
  {
    if logs != [] {
      var last := |logs| - 1;
      CorruptIffFails(logs[..last]);
      assert logs == logs[..last] + [logs[last]];
    }
  }

  /** ... and otherwise every event line counts, in order. */
  lemma {:induction false} EventsOfLog(logs: seq<LogLine>, more: seq<LogLine>)
    ensures Events(logs + more).Success? <==> Events(logs).Success? && Events(more).Success?
    ensures Events(logs + more).Success? ==> Events(logs + more).value == Events(logs).value + Events(more).value
    decreases |more|
  {
    if more == [] {
      assert logs + more == logs;
    } else {
      var last := |more| - 1;
      EventsOfLog(logs, more[..last]);
      assert (logs + more)[..|logs| + last] == logs + more[..last];
    }
  }

  lemma EventsOfLine(line: LogLine)
    ensures line.OtherLine? ==> Events([line]) == Success([])
    ensures line.EventLine? ==> Events([line]) == Success([line.event])
  {
    assert [line][..0] == [];
    var none: seq<Event> := [];
    assert line.EventLine? ==> none + [line.event] == [line.event];
  }

  /** The trade built from an event and the instruction it is paired with; it carries no slot of its own and no
      swap name. */
  function BuildTrade(tx: Tx, i: Instruction, e: Event): (t: Trade)
    requires |i.accounts| >= 7 && i.accounts[5] in tx.decimals
    requires e.tokenAmount > 0
  {
    var decimals := tx.decimals[i.accounts[5]];
    var base := e.solAmount as real / Pow10(SOL_DECIMALS);
    var tokens := e.tokenAmount as real / Pow10(decimals);
    assert tokens > 0.0;
    var total := base * tx.solPrice;
    Trade(0, i.accounts[3], tx.hash, i.accounts[6], i.accounts[4], if e.isBuy then Buy else Sell,
          base, tokens, tx.solPrice, total, Div(total, tokens, DIVISION_DIGITS), 0, "",
          e.virtualToken as real / Pow10(decimals), e.virtualSol as real / Pow10(SOL_DECIMALS),
          0.0, 0.0, 0.0, 0, 0.0, 0.0,
          PairInfo(i.accounts[3], SOL_BASE_TOKEN, e.mint, "", 9, decimals, VIRTUAL_INIT_TOKENS, INIT_SOL, 0.0,
                   tx.blockSlot, tx.blockTime))
  }

  /** The pump trades whose token account is known, in instruction order. */
  function Resolved(tx: Tx, n: nat): (found: seq<Instruction>)
    requires n <= |tx.instructions|
    ensures forall i :: i in found ==> IsPumpTrade(i) && i in tx.instructions
    ensures WellFormed(tx) ==> forall i :: i in found ==> |i.accounts| >= 7 && i.accounts[5] in tx.decimals
  {
    if n == 0 then []
    else
      var i := tx.instructions[n - 1];
      if IsPumpTrade(i) && |i.accounts| >= 7 && i.accounts[5] in tx.decimals then Resolved(tx, n - 1) + [i]
      else Resolved(tx, n - 1)
  }

  predicate PositiveAmounts(tx: Tx) {
    forall i :: 0 <= i < |EventList(tx.logs)| ==> EventList(tx.logs)[i].tokenAmount > 0
  }

  function Min(a: nat, b: nat): nat {
    if a <= b then a else b
  }

  /** The trades of the first n instructions: the k-th resolved one takes the k-th event, until either runs out. */
  function Expected(tx: Tx, n: nat): (trades: seq<Trade>)
    requires WellFormed(tx) && PositiveAmounts(tx) && n <= |tx.instructions|
  {
    var resolved, events := Resolved(tx, n), EventList(tx.logs);
    seq(Min(|resolved|, |events|), k requires 0 <= k < |resolved| && k < |events| =>
      assert resolved[k] in resolved;
      BuildTrade(tx, resolved[k], events[k]))
  }

  method DecodePumpEvent(logs: seq<LogLine>) returns (r: Result<seq<Event>, DecodeError>)
    ensures r == Events(logs)
  {
    var events := [];
    for i := 0 to |logs|
      invariant Events(logs[..i]) == Success(events)
    {
      assert logs[..i + 1][..i] == logs[..i];
      match logs[i] {
        case OtherLine =>
        case EventLine(event) =>
          events := events + [event];
        case CorruptLine =>
          CorruptionSpreads(logs, i);
          return Failure(CorruptEvent);
      }
    }
    assert logs[..|logs|] == logs;
    return Success(events);
  }

  lemma {:induction false} CorruptionSpreads(logs: seq<LogLine>, i: nat)
    requires i < |logs| && logs[i].CorruptLine?
    ensures Events(logs) == Failure(CorruptEvent)
  {
    if i < |logs| - 1 {
      CorruptionSpreads(logs[..|logs| - 1], i);
    }
  }

  /** The decoding state of one transaction. */
  class DecodedTx {
    const tx: Tx
    var pumpEvents: seq<Event>
    var pumpEventIndex: nat

    constructor (tx: Tx)
      ensures this.tx == tx && pumpEventIndex == 0
    {
      this.tx, pumpEvents, pumpEventIndex := tx, [], 0;
    }

    /** One instruction: it takes the event under the cursor when it is a pump trade of a known token account. */
    method DecodePumpInstruction(i: Instruction) returns (r: Result<Option<Trade>, DecodeError>)
      requires WellFormed(tx) && PositiveAmounts(tx) && i in tx.instructions && i.program == PROGRAM_PUMP_FUN
      modifies this
      ensures var taken := IsPumpTrade(i) && i.accounts[5] in tx.decimals && old(pumpEventIndex) < |EventList(tx.logs)|;
              && pumpEventIndex == old(pumpEventIndex) + (if taken then 1 else 0)
              && (taken ==> r == Success(Some(BuildTrade(tx, i, EventList(tx.logs)[old(pumpEventIndex)]))))
              && (!taken ==> r.Failure? || r == Success(None))
              && (!IsPumpTrade(i) ==> r == Success(None))
    {
      var discriminator := GetPumpInstruction(i.data);
      if discriminator != PUMP_BUY && discriminator != PUMP_SELL {
        return Success(None);
      }
      if i.accounts[5] !in tx.decimals {
        return Failure(AccountUnknown);
      }
      var decoded := DecodePumpEvent(tx.logs);
      pumpEvents := if decoded.Success? then decoded.value else [];
      if pumpEventIndex >= |pumpEvents| {
        return Failure(EventMissing);
      }
      var event := pumpEvents[pumpEventIndex];
      assert pumpEvents == EventList(tx.logs) && event == EventList(tx.logs)[pumpEventIndex];
      pumpEventIndex := pumpEventIndex + 1;
      return Success(Some(BuildTrade(tx, i, event)));
    }

    /** The instruction loop: trades follow instruction order and events follow trade order. */
    method DecodeTx() returns (r: Result<seq<Trade>, DecodeError>)
      requires WellFormed(tx) && PositiveAmounts(tx) && pumpEventIndex == 0
      modifies this
      ensures tx.failed ==> r == Success([]) && pumpEventIndex == 0
      ensures !tx.failed && tx.logs == [] ==> r == Failure(NoLogs)
      ensures !tx.failed && tx.logs != [] ==>
                r == Success(Expected(tx, |tx.instructions|)) && pumpEventIndex == |r.value|
    {
      hide BuildTrade, GetPumpInstruction, Events, PositiveAmounts;
      if tx.failed {
        return Success([]);
      }
      if |tx.logs| == 0 {
        return Failure(NoLogs);
      }
      var trades := [];
      for i := 0 to |tx.instructions|
        invariant trades == Expected(tx, i)
        invariant pumpEventIndex == |trades|
      {
        var instruction := tx.instructions[i];
        if instruction.program == PROGRAM_PUMP_FUN {
          var trade := DecodePumpInstruction(instruction);
          if trade.Success? && trade.value.Some? {
            trades := trades + [trade.value.value];
          }
        }
        ExpectedStep(tx, i);
      }
      return Success(trades);
    }
  }

  lemma ExpectedStep(tx: Tx, n: nat)
    requires WellFormed(tx) && PositiveAmounts(tx) && n < |tx.instructions|
    ensures var i, k, events := tx.instructions[n], |Expected(tx, n)|, EventList(tx.logs);
            var taken := IsPumpTrade(i) && i.accounts[5] in tx.decimals && k < |events|;
            Expected(tx, n + 1) == Expected(tx, n) + (if taken then [BuildTrade(tx, i, events[k])] else [])
  {
  }

  // ---------- alignment ----------

  /** How many pump trades, resolved or not, come before instruction n. */
  function TradesBefore(tx: Tx, n: nat): nat
    requires n <= |tx.instructions|
  {
    if n == 0 then 0 else TradesBefore(tx, n - 1) + (if IsPumpTrade(tx.instructions[n - 1]) then 1 else 0)
  }

  /** How many of them have an unknown token account and are passed over. */
  function PassedOver(tx: Tx, n: nat): nat
    requires n <= |tx.instructions|
  {
    if n == 0 then 0
    else
      var i := tx.instructions[n - 1];
      PassedOver(tx, n - 1)
        + (if IsPumpTrade(i) && !(|i.accounts| >= 7 && i.accounts[5] in tx.decimals) then 1 else 0)
  }

  lemma {:induction false} Ranks(tx: Tx, n: nat)
    requires n <= |tx.instructions|
    ensures |Resolved(tx, n)| + PassedOver(tx, n) == TradesBefore(tx, n)
  {
    if n > 0 {
      Ranks(tx, n - 1);
    }
  }

  /** How many events were logged before instruction n. */
  function EmittedBefore(events: seq<Event>, n: nat): nat {
    if events == [] then 0
    else EmittedBefore(events[..|events| - 1], n) + (if events[|events| - 1].emitter < n then 1 else 0)
  }

  predicate InOrder(events: seq<Event>) {
    forall i, j :: 0 <= i < j < |events| ==> events[i].emitter <= events[j].emitter
  }

  /** What the chain guarantees: events are logged as instructions run, and every top-level pump trade logs one. Other
      instructions may log events of pump trades they make by inner calls. */
  predicate WellLogged(tx: Tx) {
    var events := EventList(tx.logs);
    && InOrder(events)
    && forall n :: 0 <= n < |tx.instructions| && IsPumpTrade(tx.instructions[n]) ==>
         EmittedBefore(events, n + 1) == EmittedBefore(events, n) + 1
  }

  /** Events before instruction n that no top-level pump trade logged. */
  function InnerBefore(tx: Tx, n: nat): int
    requires n <= |tx.instructions|
  {
    EmittedBefore(EventList(tx.logs), n) - TradesBefore(tx, n)
  }

  lemma {:induction false} EmittedGrow(events: seq<Event>, m: nat, n: nat)
    requires m <= n
    ensures EmittedBefore(events, m) <= EmittedBefore(events, n) <= |events|
  {
    if events != [] {
      EmittedGrow(events[..|events| - 1], m, n);
    }
  }

  lemma {:induction false} InnerGrow(tx: Tx, n: nat)
    requires WellLogged(tx) && n <= |tx.instructions|
    ensures InnerBefore(tx, n) >= 0
  {
    hide EventList;
    if n > 0 {
      InnerGrow(tx, n - 1);
      EmittedGrow(EventList(tx.logs), n - 1, n);
    }
  }

  /** In an ordered log the events before an instruction come first. */
  lemma {:induction false} EmittedFirst(events: seq<Event>, n: nat, k: nat)
    requires InOrder(events) && k < |events|
    ensures events[k].emitter < n <==> k < EmittedBefore(events, n)
  {
    var last := |events| - 1;
    var init := events[..last];
    EmittedGrow(init, n, n);
    if k < last {
      EmittedFirst(init, n, k);
      assert events[last].emitter < n ==> events[k].emitter < n;
      if last > 0 {
        EmittedFirst(init, n, last - 1);
      }
    } else if last > 0 {
      EmittedFirst(init, n, last - 1);
    }
  }

  /** The event a pump trade of a known account takes, if any is left, is one of its own instruction exactly when the
      events logged before that instruction are no more, and those logged up to it more, than the trades emitted so
      far. When every top-level pump trade logs its one event there always is one, and it is the trade's own exactly
      when no earlier pump trade was passed over and no event before it came from an inner call. */
  lemma OwnEventIff(tx: Tx, n: nat)
    requires WellFormed(tx) && PositiveAmounts(tx) && InOrder(EventList(tx.logs)) && n < |tx.instructions|
    requires IsPumpTrade(tx.instructions[n]) && tx.instructions[n].accounts[5] in tx.decimals
    ensures var taken, events := |Expected(tx, n)|, EventList(tx.logs);
            && taken <= |events|
            && Expected(tx, n + 1) == Expected(tx, n) + (if taken == |events| then []
                                                         else [BuildTrade(tx, tx.instructions[n], events[taken])])
            && (taken < |events| ==>
                  (events[taken].emitter == n <==> EmittedBefore(events, n) <= taken < EmittedBefore(events, n + 1)))
    ensures WellLogged(tx) ==>
              var taken, events := |Expected(tx, n)|, EventList(tx.logs);
              && taken < |events|
              && (events[taken].emitter == n <==> InnerBefore(tx, n) == 0 && PassedOver(tx, n) == 0)
  {
    hide Resolved, EventList, PassedOver, TradesBefore, BuildTrade, EmittedBefore;
    var events := EventList(tx.logs);
    ExpectedStep(tx, n);
    var taken := |Expected(tx, n)|;
    if WellLogged(tx) {
      Ranks(tx, n);
      InnerGrow(tx, n);
      EmittedGrow(events, n + 1, n + 1);
    }
    if taken < |events| {
      EmittedFirst(events, n, taken);
      EmittedFirst(events, n + 1, taken);
    }
  }

  /** A buy behind a router that buys through an inner call: the one trade emitted carries the router's event. */
  lemma InnerTradeShiftsEvents()
    ensures var router := Instruction("router", [], []);
            var buy := Instruction(PROGRAM_PUMP_FUN, ["", "", "", "pair", "to", "account", "maker"],
                                   LittleEndian(PUMP_BUY, 8));
            var inner, own := Event("first", 1, 1, true, 1, 1, 0), Event("second", 2, 2, true, 2, 2, 1);
            var tx := Tx("", false, [EventLine(inner), EventLine(own)], [router, buy], map["account" := 6], 1.0, 1, 1);
            && WellFormed(tx) && PositiveAmounts(tx) && WellLogged(tx)
            && Expected(tx, 2) == [BuildTrade(tx, buy, inner)]
            && Expected(tx, 2)[0].pairInfo.tokenAddr == "first"
  {
    var router := Instruction("router", [], []);
    var buy := Instruction(PROGRAM_PUMP_FUN, ["", "", "", "pair", "to", "account", "maker"], LittleEndian(PUMP_BUY, 8));
    var inner, own := Event("first", 1, 1, true, 1, 1, 0), Event("second", 2, 2, true, 2, 2, 1);
    var tx := Tx("", false, [EventLine(inner), EventLine(own)], [router, buy], map["account" := 6], 1.0, 1, 1);
    BuyIsTrade(buy);
    TwoEvents(inner, own);
    hide LittleEndian, FromLittleEndian, Pow10, Events;
    assert Resolved(tx, 1) == [];
    assert Resolved(tx, 2) == [buy];
  }

  /** The first eight bytes of the SHA-256 of `global:buy` and of `global:sell`. */
  const BUY_DISCRIMINATOR: seq<byte> := [0x66, 0x06, 0x3d, 0x12, 0x01, 0xda, 0xeb, 0xea]
  const SELL_DISCRIMINATOR: seq<byte> := [0x33, 0xe6, 0x85, 0xa4, 0x01, 0x7f, 0x83, 0xad]

  /** The trades are the instructions whose data start with one of them. */
  lemma TradesByDiscriminator(i: Instruction)
    ensures IsPumpTrade(i) <==>
              && i.program == PROGRAM_PUMP_FUN && |i.data| >= 8
              && (i.data[..8] == BUY_DISCRIMINATOR || i.data[..8] == SELL_DISCRIMINATOR)
  {
    Discriminators();
    hide FromLittleEndian, LittleEndian;
    BytesRoundTrip(BUY_DISCRIMINATOR);
    BytesRoundTrip(SELL_DISCRIMINATOR);
    if |i.data| >= 8 {
      BytesRoundTrip(i.data[..8]);
    }
  }

  lemma Discriminators()
    ensures FromLittleEndian(BUY_DISCRIMINATOR) == PUMP_BUY && FromLittleEndian(SELL_DISCRIMINATOR) == PUMP_SELL
  {
    Eight(BUY_DISCRIMINATOR);
    Eight(SELL_DISCRIMINATOR);
  }

  lemma Eight(bs: seq<byte>)
    requires |bs| == 8
    ensures FromLittleEndian(bs)
         == bs[0] as nat + 0x100 * bs[1] as nat + 0x1_0000 * bs[2] as nat + 0x100_0000 * bs[3] as nat
            + 0x1_0000_0000 * bs[4] as nat + 0x100_0000_0000 * bs[5] as nat + 0x1_0000_0000_0000 * bs[6] as nat
            + 0x100_0000_0000_0000 * bs[7] as nat
  {
    FirstByte(bs, 0);
    FirstByte(bs, 1);
    FirstByte(bs, 2);
    FirstByte(bs, 3);
    FirstByte(bs, 4);
    FirstByte(bs, 5);
    FirstByte(bs, 6);
    FirstByte(bs, 7);
    assert bs[0..] == bs && FromLittleEndian(bs[8..]) == 0;
  }

  lemma FirstByte(bs: seq<byte>, k: nat)
    requires k < |bs|
    ensures FromLittleEndian(bs[k..]) == bs[k] as nat + 256 * FromLittleEndian(bs[k + 1..])
  {
    assert bs[k..][1..] == bs[k + 1..];
  }

  lemma BuyIsTrade(i: Instruction)
    requires i.program == PROGRAM_PUMP_FUN && i.data == LittleEndian(PUMP_BUY, 8)
    ensures IsPumpTrade(i)
  {
    assert Radix(4) == 0x1_0000_0000 && Radix(6) == 0x1_0000_0000_0000 && Radix(8) == 0x1_0000_0000_0000_0000;
    NumberRoundTrip(PUMP_BUY, 8);
    assert i.data[..8] == i.data;
  }

  lemma TwoEvents(first: Event, second: Event)
    ensures EventList([EventLine(first), EventLine(second)]) == [first, second]
    ensures forall n: nat :: EmittedBefore([first, second], n)
                          == (if first.emitter < n then 1 else 0) + (if second.emitter < n then 1 else 0)
  {
    var one, two := [EventLine(first)], [EventLine(first), EventLine(second)];
    assert two[..1] == one && one[..0] == [];
    assert Events(one[..0]) == Success([]);
    assert Events(one).Success? && Events(one).value == [] + [first] == [first];
    assert Events(two).Success? && Events(two).value == [first] + [second] == [first, second];
    assert [first, second][..1] == [first] && [first][..0] == [];
    forall n: nat
      ensures EmittedBefore([first, second], n) == (if first.emitter < n then 1 else 0)
              + (if second.emitter < n then 1 else 0)
    {
      assert EmittedBefore([first], n) == if first.emitter < n then 1 else 0;
    }
  }

  lemma TradeSigns(tx: Tx, i: Instruction, e: Event)
    requires |i.accounts| >= 7 && i.accounts[5] in tx.decimals && e.tokenAmount > 0 && tx.solPrice >= 0.0
    ensures var t := BuildTrade(tx, i, e);
            && t.baseTokenPriceUSD == tx.solPrice && t.tokenPriceUSD >= 0.0 && t.currentTokenInPool >= 0.0
            && (e.virtualSol > 0 ==> t.currentBaseTokenInPool > 0.0) && t.swapName == ""
  {
    hide Pow10;
    var t := BuildTrade(tx, i, e);
    NotNegative(t.baseTokenAmount, tx.solPrice);
    DivNotNegative(t.totalUSD, t.tokenAmount, DIVISION_DIGITS);
  }

  /** The pair a decoded trade is about: the event's token against SOL, on a new curve, in the block that carried it. */
  lemma TradePair(tx: Tx, i: Instruction, e: Event)
    requires |i.accounts| >= 7 && i.accounts[5] in tx.decimals && e.tokenAmount > 0
    ensures var t := BuildTrade(tx, i, e);
            && t.pairInfo == PairInfo(i.accounts[3], SOL_BASE_TOKEN, e.mint, "", 9, tx.decimals[i.accounts[5]],
                                      1073000191.0, 0.015, 0.0, tx.blockSlot, tx.blockTime)
            && t.baseTokenPriceUSD == tx.solPrice && t.swapName == ""
            && t.pumpPoint == 0.0 && t.pumpStatus == 0 && t.pumpVirtualBase == 0.0 && t.pumpVirtualToken == 0.0
  {
    hide Pow10, Div;
  }

  lemma NotNegative(x: real, y: real)
    requires x >= 0.0 && y >= 0.0
    ensures x * y >= 0.0
  {
  }

  /** What a decoded trade says: its dollars are the SOL paid at the block's price; its token price spreads them over
      the tokens, off by half of the last digit kept for each token at most, and is zero exactly when the dollars of a
      token are less than that; amounts and reserves are the event's in whole units; the parties are the instruction's
      fourth, fifth and seventh accounts. */
  lemma TradeValue(tx: Tx, i: Instruction, e: Event)
    requires |i.accounts| >= 7 && i.accounts[5] in tx.decimals && e.tokenAmount > 0
    ensures var t := BuildTrade(tx, i, e);
            var slack := t.tokenAmount * HalfUnit(16);
            && t.totalUSD == t.baseTokenAmount * tx.solPrice
            && t.baseTokenAmount * Pow10(9) == e.solAmount as real
            && t.totalUSD - slack <= t.tokenAmount * t.tokenPriceUSD <= t.totalUSD + slack
            && (t.tokenPriceUSD == 0.0 <==> -slack < t.totalUSD < slack)
            && t.tokenAmount * Pow10(tx.decimals[i.accounts[5]]) == e.tokenAmount as real
            && t.currentTokenInPool * Pow10(tx.decimals[i.accounts[5]]) == e.virtualToken as real
            && t.currentBaseTokenInPool * Pow10(9) == e.virtualSol as real
            && t.pairAddr == i.accounts[3] && t.to == i.accounts[4] && t.maker == i.accounts[6]
            && t.txHash == tx.hash && t.pairInfo.addr == i.accounts[3]
            && t.pairInfo.tokenDecimal == tx.decimals[i.accounts[5]] && t.pairInfo.baseTokenDecimal == 9
            && (t.kind.Buy? <==> e.isBuy)
            && t.slot == 0 && t.swapName == ""
  {
    hide Div, HalfUnit, Pow10;
    var t := BuildTrade(tx, i, e);
    DivTimes(t.totalUSD, t.tokenAmount, DIVISION_DIGITS);
  }
}
