/** The retry loop for failed slots (consumer/internal/logic/sol/slot/not_complete.go). The ticker and the service
    context are one bound: the whole ticks before the service stops, and how many slots still go out in the pass after
    them. Every slot sent on the error channel is processed before the next one. */
module RetryLoop {
  import opened Floats
  import opened Sets
  import opened Wrappers
  import opened BlockTable
  import opened BlockIngest

  const LIMIT := 50
  const LOOKBACK := 100

  /** The outside world: whether the first lookup works, what every tick's query and every delivery meet, and when the
      service stops. */
  datatype World = World(firstOk: bool, queryOk: nat -> bool, attempt: (nat, int) -> Attempt, ticks: nat, sent: nat)

  datatype End = Returned | Cancelled

  /** Why and where the loop stopped, and how many whole passes it made. */
  datatype Outcome = Outcome(rows: Table, passes: nat, end: End)

  /** Where the window starts from: the configured slot, or the failed slot recorded first. */
  function Start(t: Table, startBlock: nat, w: World): Option<int>
    requires Numbered(t)
  {
    if startBlock != 0 then Some(startBlock) else if w.firstOk then FindFirstFailedBlock(t) else None
  }

  /** Sending the selected slots: each is processed in turn. */
  function Pass(t: Table, cached: real, slots: seq<int>, w: World, tick: nat): Table
    decreases |slots|
  {
    if slots == [] then t
    else Pass(Step(t, cached, Delivery(slots[0], w.attempt(tick, slots[0]))), cached, slots[1..], w, tick)
  }

  /** A failed query yields no slots, as an empty one does. */
  function Selected(t: Table, from: int, w: World, tick: nat): seq<int> {
    if w.queryOk(tick) then FindProcessingSlots(t, from, LIMIT) else []
  }

  /** What still goes out: the first slots, as many as the service leaves time for. */
  function Cut(slots: seq<int>, sent: nat): (cut: seq<int>)
    ensures cut <= slots && |cut| == if sent < |slots| then sent else |slots|
  {
    if sent <= |slots| then slots[..sent] else slots
  }

  /** The slots a tick sends: all selected ones, or those that go out before the service stops. */
  function Sends(t: Table, from: int, w: World, tick: nat): seq<int> {
    if tick < w.ticks then Selected(t, from, w, tick) else Cut(Selected(t, from, w, tick), w.sent)
  }

  /** The tick does nothing because the service has stopped before it. */
  predicate Stopped(w: World, tick: nat) {
    tick == w.ticks && w.sent == 0
  }

  /** The loop from one tick on, with the passes made so far. */
  function Retry(t: Table, cached: real, from: int, w: World, tick: nat, passes: nat): Outcome
    requires tick <= w.ticks
    decreases w.ticks - tick
  {
    if Stopped(w, tick) then Outcome(t, passes, Cancelled)
    else if Selected(t, from, w, tick) == [] then Outcome(t, passes, Returned)
    else
      var t' := Pass(t, cached, Sends(t, from, w, tick), w, tick);
      if tick == w.ticks then Outcome(t', passes, Cancelled) else Retry(t', cached, from, w, tick + 1, passes + 1)
  }

  /** The slots the loop sends from one tick on. */
  function SentSlots(t: Table, cached: real, from: int, w: World, tick: nat): set<int>
    requires tick <= w.ticks
    decreases w.ticks - tick
  {
    if Stopped(w, tick) then {}
    else
      var sends := Sends(t, from, w, tick);
      if tick == w.ticks || sends == [] then Members(sends)
      else Members(sends) + SentSlots(Pass(t, cached, sends, w, tick), cached, from, w, tick + 1)
  }

  /** The inner loop: one slot after another goes to the block service, until the service stops. */
  method Send(service: BlockService, slots: seq<int>, w: World, tick: nat) returns (stopped: bool)
    modifies service`rows
    ensures stopped == (tick >= w.ticks && w.sent < |slots|)
    ensures service.rows
         == Pass(old(service.rows), service.solPrice, if tick < w.ticks then slots else Cut(slots, w.sent), w, tick)
  {
    ghost var all := if tick < w.ticks then slots else Cut(slots, w.sent);
    for i := 0 to |slots|
      invariant tick >= w.ticks ==> i <= w.sent
      invariant i <= |all|
      invariant Pass(old(service.rows), service.solPrice, all, w, tick)
             == Pass(service.rows, service.solPrice, all[i..], w, tick)
    {
      if tick >= w.ticks && i == w.sent {
        return true;
      }
      service.ProcessBlock(slots[i], w.attempt(tick, slots[i]));
      assert all[i..][1..] == all[i + 1..];
    }
    return false;
  }

  /** The loop itself, over the block service's table. */
  method SlotNotCompleted(service: BlockService, startBlock: nat, w: World) returns (passes: nat, end: End)
    requires Numbered(service.rows)
    modifies service`rows
    ensures var start := Start(old(service.rows), startBlock, w);
            Outcome(service.rows, passes, end) == (
              if start.None? then Outcome(old(service.rows), 0, Returned)
              else Retry(old(service.rows), service.solPrice, start.value - LOOKBACK, w, 0, 0))
  {
    hide Pass, FindProcessingSlots, TopDescending;
    passes := 0;
    var slot := startBlock as int;
    if slot == 0 {
      var first := if w.firstOk then FindFirstFailedBlock(service.rows) else None;
      if first.None? {
        return 0, Returned;
      }
      slot := first.value;
    }
    var tick := 0;
    while true
      invariant 0 <= tick <= w.ticks
      invariant Retry(old(service.rows), service.solPrice, slot - LOOKBACK, w, 0, 0)
             == Retry(service.rows, service.solPrice, slot - LOOKBACK, w, tick, passes)
      decreases w.ticks - tick
    {
      if tick == w.ticks && w.sent == 0 {
        return passes, Cancelled;
      }
      var slots := if w.queryOk(tick) then FindProcessingSlots(service.rows, slot - LOOKBACK, LIMIT) else [];
      if |slots| == 0 {
        return passes, Returned;
      }
      var stopped := Send(service, slots, w, tick);
      if stopped || tick == w.ticks {
        return passes, Cancelled;
      }
      passes := passes + 1;
      tick := tick + 1;
    }
  }

  // ---------- safety ----------

  /** A pass can only take slots out of the failed window, and changes nothing but the slots it sends. */
  lemma {:induction false} PassShrinks(t: Table, cached: real, from: int, slots: seq<int>, w: World, tick: nat)
    requires forall x :: x in slots ==> x in t
    ensures var t' := Pass(t, cached, slots, w, tick);
            && FailedFrom(t', from) <= FailedFrom(t, from)
            && t'.Keys == t.Keys
            && forall s :: s in t && (s !in slots || t[s].status != Failed) ==> t'[s] == t[s]
    decreases |slots|
  {
    hide Step;
    if slots != [] {
      var d := Delivery(slots[0], w.attempt(tick, slots[0]));
      StepFrame(t, cached, d);
      var t1 := Step(t, cached, d);
      PassShrinks(t1, cached, from, slots[1..], w, tick);
      assert FailedFrom(t1, from) <= FailedFrom(t, from) by {
        assert slots[0] in t;
      }
    }
  }

  lemma SelectedInTable(t: Table, from: int, w: World, tick: nat)
    ensures forall x :: x in Selected(t, from, w, tick) ==> x in FailedFrom(t, from)
    ensures forall x :: x in Sends(t, from, w, tick) ==> x in Selected(t, from, w, tick)
    ensures Selected(t, from, w, tick) == [] <==> !w.queryOk(tick) || FailedFrom(t, from) == {}
  {
    ProcessingSlotsAreNewest(t, from, LIMIT);
  }

  lemma SendsShrink(t: Table, cached: real, from: int, w: World, tick: nat)
    ensures var sends := Sends(t, from, w, tick);
            var t' := Pass(t, cached, sends, w, tick);
            && FailedFrom(t', from) <= FailedFrom(t, from)
            && t'.Keys == t.Keys
            && forall s :: s in t && (s !in sends || t[s].status != Failed) ==> t'[s] == t[s]
  {
    SelectedInTable(t, from, w, tick);
    hide Sends, Selected;
    forall x | x in Sends(t, from, w, tick)
      ensures x in t
    {
      assert x in FailedFrom(t, from);
    }
    PassShrinks(t, cached, from, Sends(t, from, w, tick), w, tick);
  }

  /** No run of the loop adds a row, adds a failed row to the window or touches a row outside it. */
  lemma {:induction false} RetriesOnlyShrink(t: Table, cached: real, from: int, w: World, tick: nat, passes: nat)
    requires tick <= w.ticks
    ensures var t' := Retry(t, cached, from, w, tick, passes).rows;
            && t'.Keys == t.Keys
            && FailedFrom(t', from) <= FailedFrom(t, from)
            && (forall s :: s in t && s !in FailedFrom(t, from) ==> t'[s] == t[s])
    decreases w.ticks - tick
  {
    hide Pass, Sends, Selected, FailedFrom;
    SendsShrink(t, cached, from, w, tick);
    SelectedInTable(t, from, w, tick);
    if tick < w.ticks {
      RetriesOnlyShrink(Pass(t, cached, Sends(t, from, w, tick), w, tick), cached, from, w, tick + 1, passes + 1);
    }
  }

  lemma SentMembers(t: Table, from: int, w: World, tick: nat)
    ensures Members(Sends(t, from, w, tick)) <= Members(Selected(t, from, w, tick)) <= FailedFrom(t, from)
  {
    SelectedInTable(t, from, w, tick);
    hide Sends, Selected, FailedFrom;
    var sends, selected := Sends(t, from, w, tick), Selected(t, from, w, tick);
    forall x | x in Members(sends)
      ensures x in Members(selected)
    {
      assert x in sends && x in selected;
    }
    forall x | x in Members(selected)
      ensures x in FailedFrom(t, from)
    {
      assert x in selected;
    }
  }

  /** Only slots of the failed window are ever sent. */
  lemma {:induction false} SentAreFailed(t: Table, cached: real, from: int, w: World, tick: nat)
    requires tick <= w.ticks
    ensures SentSlots(t, cached, from, w, tick) <= FailedFrom(t, from)
    decreases w.ticks - tick
  {
    hide Pass, Sends, Selected, FailedFrom;
    SendsShrink(t, cached, from, w, tick);
    SelectedInTable(t, from, w, tick);
    SentMembers(t, from, w, tick);
    if tick < w.ticks {
      SentAreFailed(Pass(t, cached, Sends(t, from, w, tick), w, tick), cached, from, w, tick + 1);
    }
  }

  /** A block that is fetched but not recorded is lost to the retries: its slot is sent in no run and never gets a row;
      and it is not recorded exactly when no price source answers. */
  lemma UnrecordedBlockIsNeverRetried(t: Table, cached: real, d: Delivery, from: int, w: World)
    requires Priced(t) && PositivePrices(d.attempt) && d.attempt.reply.BlockInfo?
    requires d.slot != 0 && d.attempt.findOk && d.attempt.writeOk && d.slot !in t
    ensures var t' := Step(t, cached, d);
            && (PriceMissing(t, cached, d.attempt) <==> d.slot !in Retry(t', cached, from, w, 0, 0).rows)
            && (PriceMissing(t, cached, d.attempt) ==> d.slot !in SentSlots(t', cached, from, w, 0))
  {
    hide Step, PriceMissing, PositivePrices, Retry, SentSlots;
    BlockRecordedIff(t, cached, d);
    var t' := Step(t, cached, d);
    RetriesOnlyShrink(t', cached, from, w, 0, 0);
    SentAreFailed(t', cached, from, w, 0);
  }

  // ---------- how the loop ends ----------

  predicate QueriesWork(w: World, tick: nat) {
    forall k :: tick <= k <= w.ticks ==> w.queryOk(k)
  }

  lemma {:induction false} PassesGrow(t: Table, cached: real, from: int, w: World, tick: nat, passes: nat)
    requires tick <= w.ticks
    ensures Retry(t, cached, from, w, tick, passes).passes >= passes
    decreases w.ticks - tick
  {
    hide Pass, Sends, Selected;
    if tick < w.ticks {
      PassesGrow(Pass(t, cached, Sends(t, from, w, tick), w, tick), cached, from, w, tick + 1, passes + 1);
    }
  }

  /** A running tick ends the loop exactly when its query failed or no failed row is left: one failed query ends the
      retries for good, whatever remains. */
  lemma TickReturnsIff(t: Table, cached: real, from: int, w: World, tick: nat, passes: nat)
    requires tick <= w.ticks && !Stopped(w, tick)
    ensures Retry(t, cached, from, w, tick, passes) == Outcome(t, passes, Returned)
       <==> !w.queryOk(tick) || FailedFrom(t, from) == {}
  {
    SelectedInTable(t, from, w, tick);
    hide Pass, Sends, Selected;
    if Selected(t, from, w, tick) != [] && tick < w.ticks {
      PassesGrow(Pass(t, cached, Sends(t, from, w, tick), w, tick), cached, from, w, tick + 1, passes + 1);
    }
  }

  /** With working queries the loop returns on its own only when no failed row is left in the window. */
  lemma {:induction false} ReturnsWhenNoneRemain(t: Table, cached: real, from: int, w: World, tick: nat, passes: nat)
    requires tick <= w.ticks && QueriesWork(w, tick)
    ensures var o := Retry(t, cached, from, w, tick, passes);
            o.end.Returned? ==> FailedFrom(o.rows, from) == {}
    decreases w.ticks - tick
  {
    hide Pass, Sends, Selected, FailedFrom;
    SelectedInTable(t, from, w, tick);
    if tick < w.ticks {
      ReturnsWhenNoneRemain(Pass(t, cached, Sends(t, from, w, tick), w, tick), cached, from, w, tick + 1, passes + 1);
    }
  }

  // ---------- convergence ----------

  /** The attempt resolves its slot: the node skips it, or returns a block for which some price source answers. */
  predicate ResolvingAt(t: Table, cached: real, a: Attempt) {
    && a.findOk && a.writeOk && PositivePrices(a)
    && (a.reply.SlotSkipped? || (a.reply.BlockInfo? && !PriceMissing(t, cached, a)))
  }

  /** Every delivery of a failed slot of the window resolves it. */
  ghost predicate WindowResolves(t: Table, cached: real, from: int, w: World) {
    forall k: nat, s: int :: s in FailedFrom(t, from) ==> ResolvingAt(t, cached, w.attempt(k, s))
  }

  /** What resolves on some table resolves on any later one. */
  lemma StaysResolving(t: Table, later: Table, cached: real, a: Attempt)
    requires Priced(t) && Priced(later) && SlotsWith(t, Processed) <= SlotsWith(later, Processed)
    requires ResolvingAt(t, cached, a)
    ensures ResolvingAt(later, cached, a)
  {
    hide PriceMissing, Priced;
    PriceStaysFound(t, later, cached, a);
  }

  /** Enough passes of LIMIT slots each. */
  function PassesFor(failed: nat): nat {
    (failed + LIMIT - 1) / LIMIT
  }

  lemma OnePassLess(failed: nat, sent: nat)
    requires failed > 0 && sent == if failed < LIMIT then failed else LIMIT
    ensures PassesFor(failed) == PassesFor(failed - sent) + 1
  {
  }

  lemma ResolvingStep(t: Table, cached: real, d: Delivery)
    requires Priced(t) && d.slot in t && ResolvingAt(t, cached, d.attempt)
    ensures var t' := Step(t, cached, d);
            && Priced(t') && t'.Keys == t.Keys && Final(t', d.slot)
            && SlotsWith(t, Processed) <= SlotsWith(t', Processed)
            && forall s :: s in t && s != d.slot ==> t'[s] == t[s]
  {
    assert d.slot != 0;
    StepKeepsPriced(t, cached, d);
    StepFrame(t, cached, d);
    hide GetBlockSolPrice;
  }

  /** A resolving pass takes exactly the slots it sends out of the window. */
  lemma {:induction false} PassResolves(t: Table, cached: real, from: int, slots: seq<int>, w: World, tick: nat)
    requires Priced(t)
    requires forall x :: x in slots ==> x in t && ResolvingAt(t, cached, w.attempt(tick, x))
    ensures var t' := Pass(t, cached, slots, w, tick);
            && Priced(t') && SlotsWith(t, Processed) <= SlotsWith(t', Processed)
            && FailedFrom(t', from) == (set x | x in FailedFrom(t, from) && x !in slots)
    decreases |slots|
  {
    hide Step, ResolvingAt, Priced;
    if slots == [] {
      assert FailedFrom(t, from) == (set x | x in FailedFrom(t, from) && x !in slots);
    } else {
      var d := Delivery(slots[0], w.attempt(tick, slots[0]));
      assert slots[0] in t && ResolvingAt(t, cached, d.attempt);
      ResolvingStep(t, cached, d);
      var t1 := Step(t, cached, d);
      forall x | x in slots[1..]
        ensures x in t1 && ResolvingAt(t1, cached, w.attempt(tick, x))
      {
        assert x in slots;
        StaysResolving(t, t1, cached, w.attempt(tick, x));
      }
      PassResolves(t1, cached, from, slots[1..], w, tick);
      FirstOut(t, t1, from, slots);
    }
  }

  lemma FirstOut(t: Table, t1: Table, from: int, slots: seq<int>)
    requires slots != [] && t1.Keys == t.Keys && Final(t1, slots[0])
    requires forall s :: s in t && s != slots[0] ==> t1[s] == t[s]
    ensures (set x | x in FailedFrom(t1, from) && x !in slots[1..]) == (set x | x in FailedFrom(t, from) && x !in slots)
  {
    forall x
      ensures x in FailedFrom(t1, from) && x !in slots[1..] <==> x in FailedFrom(t, from) && x !in slots
    {
      assert x in slots <==> x == slots[0] || x in slots[1..];
    }
  }

  /** One resolving pass lowers the number of passes still needed by one, and leaves a window that resolves. */
  lemma ConvergingPass(t: Table, cached: real, from: int, w: World, tick: nat)
    requires Priced(t) && WindowResolves(t, cached, from, w) && w.queryOk(tick)
    requires FailedFrom(t, from) != {}
    ensures var slots := Selected(t, from, w, tick);
            var t' := Pass(t, cached, slots, w, tick);
            && slots != [] && Priced(t') && WindowResolves(t', cached, from, w)
            && PassesFor(|FailedFrom(t, from)|) == PassesFor(|FailedFrom(t', from)|) + 1
  {
    var failed := FailedFrom(t, from);
    var slots := Selected(t, from, w, tick);
    SelectedInTable(t, from, w, tick);
    TopIsDistinct(failed, LIMIT);
    OnePassLess(|failed|, |slots|);
    hide ResolvingAt, Priced, FindProcessingSlots, PassesFor;
    forall x | x in slots
      ensures x in t && ResolvingAt(t, cached, w.attempt(tick, x))
    {
      assert x in failed;
    }
    PassResolves(t, cached, from, slots, w, tick);
    var t' := Pass(t, cached, slots, w, tick);
    forall k: nat, s: int | s in FailedFrom(t', from)
      ensures ResolvingAt(t', cached, w.attempt(k, s))
    {
      assert s in failed;
      StaysResolving(t, t', cached, w.attempt(k, s));
    }
  }

  /** With working queries, and deliveries that resolve the failed slots of the window, these are gone after exactly as
      many passes as they fill, and the loop then returns. */
  lemma {:induction false} Converges(t: Table, cached: real, from: int, w: World, tick: nat, passes: nat)
    requires tick <= w.ticks && Priced(t) && WindowResolves(t, cached, from, w) && QueriesWork(w, tick)
    requires tick + PassesFor(|FailedFrom(t, from)|) < w.ticks + (if w.sent > 0 then 1 else 0)
    ensures var o := Retry(t, cached, from, w, tick, passes);
            && o.end == Returned
            && o.passes == passes + (|FailedFrom(t, from)| + 49) / 50
            && FailedFrom(o.rows, from) == {}
    decreases w.ticks - tick
  {
    hide Pass, Selected, WindowResolves, Priced, FailedFrom;
    SelectedInTable(t, from, w, tick);
    if FailedFrom(t, from) != {} {
      ConvergingPass(t, cached, from, w, tick);
      var t' := Pass(t, cached, Selected(t, from, w, tick), w, tick);
      Converges(t', cached, from, w, tick + 1, passes + 1);
    }
  }

  // ---------- what the window leaves out ----------

  /** A converging run started from a slot leaves failed exactly the slots more than LOOKBACK below it. */
  lemma RemainingLieBelow(t: Table, cached: real, start: int, w: World)
    requires Priced(t) && WindowResolves(t, cached, start - LOOKBACK, w) && QueriesWork(w, 0)
    requires PassesFor(|FailedFrom(t, start - LOOKBACK)|) < w.ticks
    ensures var t' := Retry(t, cached, start - LOOKBACK, w, 0, 0).rows;
            forall s :: s in SlotsWith(t', Failed) <==> s in SlotsWith(t, Failed) && s < start - 100
  {
    var from := start - LOOKBACK;
    var t' := Retry(t, cached, from, w, 0, 0).rows;
    hide Retry, Priced, WindowResolves, QueriesWork, PassesFor;
    Converges(t, cached, from, w, 0, 0);
    RetriesOnlyShrink(t, cached, from, w, 0, 0);
    forall s
      ensures s in SlotsWith(t', Failed) <==> s in SlotsWith(t, Failed) && s < from
    {
      assert s in FailedFrom(t', from) <==> s in SlotsWith(t', Failed) && s >= from;
      assert s in FailedFrom(t, from) <==> s in SlotsWith(t, Failed) && s >= from;
    }
  }

  /** Where a run starts: from the configured slot, whatever is recorded, otherwise from the failed slot with the least
      id; and nowhere exactly when nothing is configured and the lookup fails or finds nothing. */
  lemma StartOfRun(t: Table, startBlock: nat, w: World)
    requires Numbered(t)
    ensures var start := Start(t, startBlock, w);
            && (start.None? <==> startBlock == 0 && (!w.firstOk || SlotsWith(t, Failed) == {}))
            && (startBlock > 0 ==> start == Some(startBlock))
            && (start.Some? && startBlock == 0 ==>
                  start.value in SlotsWith(t, Failed)
                  && forall s :: s in SlotsWith(t, Failed) ==> t[start.value].id <= t[s].id)
  {
    hide SlotsWith, FindFirstFailedBlock, Numbered;
  }

  /** It sends failed slots from 100 below its start. */
  lemma RunWindow(t: Table, cached: real, start: int, w: World)
    ensures forall s :: s in SentSlots(t, cached, start - LOOKBACK, w, 0) ==>
              s in SlotsWith(t, Failed) && s >= start - 100
  {
    hide SentSlots, FailedFrom, SlotsWith;
    SentAreFailed(t, cached, start - LOOKBACK, w, 0);
    forall s | s in SentSlots(t, cached, start - LOOKBACK, w, 0)
      ensures s in SlotsWith(t, Failed) && s >= start - 100
    {
      assert s in FailedFrom(t, start - LOOKBACK);
      InWindow(t, start - LOOKBACK, s);
    }
  }

  /** The failed slot recorded first need not be the lowest: with slots 200 and then 50 delivered while the node is
      unavailable, the loop starts from 200 and its window begins above 50. */
  lemma LateLowSlotIsOutside(now: int, w: World)
    requires w.firstOk
    ensures var down := Attempt(true, Unavailable, now, true, true);
            var t := Run(map[], 0.0, [Delivery(200, down), Delivery(50, down)]);
            && Numbered(t) && 50 in SlotsWith(t, Failed)
            && Start(t, 0, w) == Some(200)
            && 50 !in SentSlots(t, 0.0, 200 - LOOKBACK, w, 0)
  {
    var down := Attempt(true, Unavailable, now, true, true);
    var ds := [Delivery(200, down), Delivery(50, down)];
    var row200 := Row(1, Failed, 0, Some(now), ZERO);
    var row50 := Row(2, Failed, 0, Some(now), ZERO);
    assert Step(map[], 0.0, ds[0]) == map[200 := row200];
    assert Step(map[200 := row200], 0.0, ds[1]) == map[200 := row200, 50 := row50];
    assert ds[1..] == [ds[1]] && ds[1..][1..] == [];
    var t := map[200 := row200, 50 := row50];
    assert Run(map[], 0.0, ds) == t by {
      assert Run(t, 0.0, []) == t;
      assert Run(map[200 := row200], 0.0, ds[1..]) == t;
    }
    assert Numbered(t);
    assert SlotsWith(t, Failed) == {200, 50};
    hide SentSlots, Run;
    SentAreFailed(t, 0.0, 200 - LOOKBACK, w, 0);
  }

  // ---------- starvation ----------

  lemma SubsetSize(a: set<int>, b: set<int>)
    requires a <= b
    ensures |a| <= |b|
    ensures |a| == |b| ==> a == b
  {
    assert b == a + (b - a);
    assert |b| == |a| + |b - a|;
  }

  /** The chosen members are the newest of the set, as many as one pass takes. */
  predicate Newest(chosen: set<int>, all: set<int>) {
    && chosen <= all && |chosen| == (if |all| < LIMIT then |all| else LIMIT)
    && forall x, y :: x in chosen && y in all && y !in chosen ==> y < x
  }

  /** When only chosen members leave a set, the newest of what is left reach below them exactly when one did leave. */
  lemma NewestOfTwo(all: set<int>, left: set<int>, s: set<int>, s': set<int>)
    requires left <= all && |all| > LIMIT && all - s <= left
    requires Newest(s, all) && Newest(s', left)
    ensures s' <= s <==> s <= left
  {
    if s <= left {
      SubsetSize(s, left);
      if !(s' <= s) {
        var x := Outsider(s', s);
        if s <= s' {
          SubsetSize(s, s');
        } else {
          var y := Outsider(s, s');
        }
      }
    } else if s' <= s {
      var x := Outsider(s, left);
      SubsetSize(s', s - {x});
      SubsetSize(s', left);
      SubsetSize(all, s);
    }
  }

  lemma SelectedAreNewest(t: Table, from: int, w: World, tick: nat)
    requires w.queryOk(tick)
    ensures Newest(Members(Selected(t, from, w, tick)), FailedFrom(t, from))
  {
    ProcessingSlotsAreNewest(t, from, LIMIT);
    TopCount(FailedFrom(t, from), LIMIT);
  }

  /** With more failed rows than one pass takes, an older slot is sent at the next tick exactly when one of the slots
      sent now leaves the failed window. */
  lemma OlderSentWhenOneLeaves(t: Table, cached: real, from: int, w: World, tick: nat)
    requires w.queryOk(tick) && w.queryOk(tick + 1) && |FailedFrom(t, from)| > LIMIT
    ensures var s := Selected(t, from, w, tick);
            var t' := Pass(t, cached, s, w, tick);
            (exists x :: x in Selected(t', from, w, tick + 1) && x !in s)
                <==> (exists x :: x in s && x !in FailedFrom(t', from))
  {
    var s := Selected(t, from, w, tick);
    var t' := Pass(t, cached, s, w, tick);
    SelectedInTable(t, from, w, tick);
    PassShrinks(t, cached, from, s, w, tick);
    assert FailedFrom(t, from) - Members(s) <= FailedFrom(t', from);
    hide Pass, Selected, FailedFrom;
    SelectedAreNewest(t, from, w, tick);
    SelectedAreNewest(t', from, w, tick + 1);
    var s' := Selected(t', from, w, tick + 1);
    hide Newest;
    NewestOfTwo(FailedFrom(t, from), FailedFrom(t', from), Members(s), Members(s'));
    MembersApart(s', s);
    MembersOutside(s, FailedFrom(t', from));
  }

  /** What a delivery does not resolve stays failed, and changes no price source. */
  lemma UnresolvedStep(t: Table, cached: real, d: Delivery)
    requires Priced(t) && d.slot in SlotsWith(t, Failed)
    requires PositivePrices(d.attempt) && !ResolvingAt(t, cached, d.attempt)
    ensures var t' := Step(t, cached, d);
            && Priced(t') && SlotsWith(t', Failed) == SlotsWith(t, Failed)
            && SlotsWith(t', Processed) == SlotsWith(t, Processed)
  {
    StepKeepsPriced(t, cached, d);
    StepFrame(t, cached, d);
    hide GetBlockSolPrice;
  }

  /** The deliveries of these failed slots carry the prices the scan keeps. */
  predicate FailedPositive(t: Table, slots: seq<int>, w: World, tick: nat) {
    forall x :: x in slots ==> x in SlotsWith(t, Failed) && PositivePrices(w.attempt(tick, x))
  }

  predicate SomeResolves(t: Table, cached: real, slots: seq<int>, w: World, tick: nat) {
    exists x :: x in slots && ResolvingAt(t, cached, w.attempt(tick, x))
  }

  predicate SomeLeaves(slots: seq<int>, failed: set<int>) {
    exists x :: x in slots && x !in failed
  }

  /** A pass takes some slot out of the failed ones exactly when some attempt resolves on the table it starts from: the
      slots processed before it can only add price sources once one of them has been resolved. */
  lemma {:induction false} PassResolvesIff(t: Table, cached: real, slots: seq<int>, w: World, tick: nat)
    requires Priced(t) && FailedPositive(t, slots, w, tick)
    ensures SomeLeaves(slots, SlotsWith(Pass(t, cached, slots, w, tick), Failed))
        <==> SomeResolves(t, cached, slots, w, tick)
    decreases |slots|
  {
    hide Step, ResolvingAt, Priced, PositivePrices;
    if slots != [] {
      var x, rest := slots[0], slots[1..];
      var d := Delivery(x, w.attempt(tick, x));
      assert x in slots;
      if ResolvingAt(t, cached, d.attempt) {
        ResolvedLeaves(t, cached, slots, w, tick);
      } else {
        UnresolvedStep(t, cached, d);
        var t1 := Step(t, cached, d);
        assert FailedPositive(t1, slots, w, tick) && FailedPositive(t1, rest, w, tick);
        SameResolving(t, t1, cached, rest, w, tick);
        PassResolvesIff(t1, cached, rest, w, tick);
        UnresolvedFirst(t, t1, cached, slots, w, tick);
      }
    }
  }

  /** A slot resolved first stays out of the failed ones for the rest of the pass. */
  lemma ResolvedLeaves(t: Table, cached: real, slots: seq<int>, w: World, tick: nat)
    requires slots != [] && Priced(t) && FailedPositive(t, slots, w, tick)
    requires ResolvingAt(t, cached, w.attempt(tick, slots[0]))
    ensures SomeLeaves(slots, SlotsWith(Pass(t, cached, slots, w, tick), Failed))
    ensures SomeResolves(t, cached, slots, w, tick)
  {
    hide Step, ResolvingAt, Priced, PositivePrices;
    var d := Delivery(slots[0], w.attempt(tick, slots[0]));
    assert slots[0] in slots;
    ResolvingStep(t, cached, d);
    var t1 := Step(t, cached, d);
    forall x | x in slots[1..]
      ensures x in t1
    {
      assert x in slots;
    }
    PassShrinks(t1, cached, 0, slots[1..], w, tick);
  }

  lemma SameResolving(t: Table, t1: Table, cached: real, slots: seq<int>, w: World, tick: nat)
    requires Priced(t) && Priced(t1) && SlotsWith(t1, Processed) == SlotsWith(t, Processed)
    ensures SomeResolves(t1, cached, slots, w, tick) <==> SomeResolves(t, cached, slots, w, tick)
  {
    hide ResolvingAt, Priced;
    forall x | x in slots
      ensures ResolvingAt(t, cached, w.attempt(tick, x)) <==> ResolvingAt(t1, cached, w.attempt(tick, x))
    {
      if ResolvingAt(t, cached, w.attempt(tick, x)) {
        StaysResolving(t, t1, cached, w.attempt(tick, x));
      }
      if ResolvingAt(t1, cached, w.attempt(tick, x)) {
        StaysResolving(t1, t, cached, w.attempt(tick, x));
      }
    }
  }

  lemma FirstOrRest<T>(x: T, slots: seq<T>)
    requires slots != []
    ensures x in slots <==> x == slots[0] || x in slots[1..]
  {
  }

  /** A first slot that is not resolved leaves both questions to the rest of the pass. */
  lemma UnresolvedFirst(t: Table, t1: Table, cached: real, slots: seq<int>, w: World, tick: nat)
    requires slots != [] && Priced(t1) && FailedPositive(t1, slots, w, tick)
    requires !ResolvingAt(t, cached, w.attempt(tick, slots[0]))
    ensures var failed := SlotsWith(Pass(t1, cached, slots[1..], w, tick), Failed);
            SomeLeaves(slots, failed) <==> SomeLeaves(slots[1..], failed)
    ensures SomeResolves(t, cached, slots, w, tick) <==> SomeResolves(t, cached, slots[1..], w, tick)
  {
    hide Step, ResolvingAt, Priced, PositivePrices;
    forall x | x in slots[1..]
      ensures x in t1
    {
      assert x in slots;
    }
    assert slots[0] in slots;
    PassShrinks(t1, cached, 0, slots[1..], w, tick);
    forall x: int
      ensures x in slots <==> x == slots[0] || x in slots[1..]
    {
      FirstOrRest(x, slots);
    }
  }

  /** With more failed rows than one pass takes, working queries and blocks whose prices the scan keeps, an older slot
      is sent at the next tick exactly when some slot sent now can be resolved: the node skips it, or returns its block
      while a swap in it, the cached price or a processed row below its parent gives a price. */
  lemma OlderSentNextIff(t: Table, cached: real, from: int, w: World, tick: nat)
    requires Priced(t) && w.queryOk(tick) && w.queryOk(tick + 1) && |FailedFrom(t, from)| > LIMIT
    requires forall x :: x in Selected(t, from, w, tick) ==> PositivePrices(w.attempt(tick, x))
    ensures var s := Selected(t, from, w, tick);
            var t' := Pass(t, cached, s, w, tick);
            (exists x :: x in Selected(t', from, w, tick + 1) && x !in s)
                <==> (exists x :: x in s && ResolvingAt(t, cached, w.attempt(tick, x)))
  {
    var s := Selected(t, from, w, tick);
    SelectedInTable(t, from, w, tick);
    hide Pass, Selected, Priced, ResolvingAt, PositivePrices;
    OlderSentWhenOneLeaves(t, cached, from, w, tick);
    PassResolvesIff(t, cached, s, w, tick);
    var t' := Pass(t, cached, s, w, tick);
    forall x | x in s
      ensures x in FailedFrom(t', from) <==> x in SlotsWith(t', Failed)
    {
      assert x in FailedFrom(t, from);
    }
  }

  lemma MembersApart(a: seq<int>, b: seq<int>)
    ensures Members(a) <= Members(b) <==> !exists x :: x in a && x !in b
  {
    MembersOutside(a, Members(b));
  }

  lemma MembersOutside(a: seq<int>, b: set<int>)
    ensures Members(a) <= b <==> !exists x :: x in a && x !in b
  {
    if Members(a) <= b {
      forall x | x in a
        ensures x in b
      {
        assert x in Members(a);
      }
    } else {
      var x := Outsider(Members(a), b);
      assert x in a && x !in b;
    }
  }

  /** While the selected slots of the window stay unavailable, no older one is ever sent: the table is the same after
      any number of ticks, however many failed rows lie below. */
  lemma {:induction false} NewestFailuresStarveOlder(t: Table, cached: real, from: int, w: World, tick: nat,
                                                     passes: nat)
    requires tick <= w.ticks
    requires forall s :: s in SlotsWith(t, Failed) ==> t[s].time.Some?
    requires forall k: nat, s: int :: s in FindProcessingSlots(t, from, LIMIT) ==> w.attempt(k, s).reply.Unavailable?
    ensures Retry(t, cached, from, w, tick, passes).rows == t
    ensures SentSlots(t, cached, from, w, tick) <= Members(FindProcessingSlots(t, from, LIMIT))
    decreases w.ticks - tick
  {
    hide Pass, FailedFrom, TopDescending;
    SelectedInTable(t, from, w, tick);
    var sends := Sends(t, from, w, tick);
    forall x | x in sends
      ensures x in t && t[x].status == Failed && t[x].time.Some? && w.attempt(tick, x).reply.Unavailable?
    {
      InWindow(t, from, x);
    }
    UnavailablePass(t, cached, sends, w, tick);
    SentMembers(t, from, w, tick);
    if tick < w.ticks {
      NewestFailuresStarveOlder(t, cached, from, w, tick + 1, passes + 1);
    }
  }

  lemma InWindow(t: Table, from: int, x: int)
    ensures x in FailedFrom(t, from) <==> x in SlotsWith(t, Failed) && x >= from
  {
  }

  /** A retried slot that is still unavailable leaves its row as it was. */
  lemma {:induction false} UnavailablePass(t: Table, cached: real, slots: seq<int>, w: World, tick: nat)
    requires forall x :: x in slots ==> x in t && t[x].status == Failed && t[x].time.Some?
    requires forall x :: x in slots ==> w.attempt(tick, x).reply.Unavailable?
    ensures Pass(t, cached, slots, w, tick) == t
    decreases |slots|
  {
    if slots != [] {
      var d := Delivery(slots[0], w.attempt(tick, slots[0]));
      assert Step(t, cached, d) == t;
      UnavailablePass(t, cached, slots[1..], w, tick);
    }
  }
}
