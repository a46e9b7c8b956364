/** Choosing one pair of a token: group by name, take the most liquid of each group, then the most liquid of
    those (model/solmodel/pairmodel.go). A map's iteration order is a parameter. */
module PairChoice {
  import opened Constants
  import opened Sets
  import opened Wrappers

  datatype Pair = Pair(id: int, name: string, liquidity: real)

  /** Go's zero value of a pair. */
  const EMPTY := Pair(0, "", 0.0)

  datatype QueryError = QueryFailed | NothingFound

  /** The most liquid pair of a list, the first of equals; the empty pair when none has positive liquidity. */
  function Best(pairs: seq<Pair>): (best: Pair)
    ensures best == EMPTY || (best in pairs && best.liquidity > 0.0)
    ensures forall p :: p in pairs && p.liquidity > 0.0 ==> p.liquidity <= best.liquidity
    ensures best.liquidity >= 0.0
  {
    if pairs == [] then EMPTY
    else
      var last := pairs[|pairs| - 1];
      var best := Best(pairs[..|pairs| - 1]);
      assert pairs == pairs[..|pairs| - 1] + [last];
      if last.liquidity > best.liquidity then last else best
  }

  function Named(res: seq<Pair>, name: string): (pairs: seq<Pair>)
    ensures forall p :: p in pairs <==> p in res && p.name == name
  {
    if res == [] then []
    else
      assert res == res[..|res| - 1] + [res[|res| - 1]];
      var init := Named(res[..|res| - 1], name);
      if res[|res| - 1].name == name then init + [res[|res| - 1]] else init
  }

  function Names(res: seq<Pair>): set<string> {
    set p | p in res && p.name != "" :: p.name
  }

  /** An order a Go map range may take over the names. */
  predicate IsOrder(order: seq<string>, names: set<string>) {
    && (forall i :: 0 <= i < |order| ==> order[i] in names)
    && (forall i, j :: 0 <= i < j < |order| ==> order[i] != order[j])
    && (forall n :: n in names ==> n in order)
  }

  /** The best pair of each group, in iteration order. */
  function GroupBests(res: seq<Pair>, order: seq<string>): (bests: seq<Pair>)
    ensures |bests| == |order|
    ensures forall i :: 0 <= i < |order| ==> bests[i] == Best(Named(res, order[i]))
  {
    if order == [] then []
    else GroupBests(res, order[..|order| - 1]) + [Best(Named(res, order[|order| - 1]))]
  }

  function NotPump(pairs: seq<Pair>): (kept: seq<Pair>)
    ensures forall p :: p in kept <==> p in pairs && p.name != PUMP_FUN
  {
    if pairs == [] then []
    else
      assert pairs == pairs[..|pairs| - 1] + [pairs[|pairs| - 1]];
      var init := NotPump(pairs[..|pairs| - 1]);
      if pairs[|pairs| - 1].name == PUMP_FUN then init else init + [pairs[|pairs| - 1]]
  }

  /** The choice among the group winners. */
  function Choice(bests: seq<Pair>): Pair {
    if |bests| == 1 then bests[0] else Best(NotPump(bests))
  }

  /** The inner loop. */
  method MostLiquid(pairs: seq<Pair>) returns (best: Pair)
    ensures best == Best(pairs)
  {
    var max := 0.0;
    best := EMPTY;
    for i := 0 to |pairs|
      invariant best == Best(pairs[..i]) && max == best.liquidity
    {
      assert pairs[..i + 1][..i] == pairs[..i];
      if pairs[i].liquidity > max {
        max, best := pairs[i].liquidity, pairs[i];
      }
    }
    assert pairs[..|pairs|] == pairs;
  }

  /** The grouping loop: rows without a name are dropped, each group keeps the rows' order. */
  method GroupByName(res: seq<Pair>) returns (categories: map<string, seq<Pair>>)
    ensures categories.Keys == Names(res)
    ensures forall n :: n in categories ==> categories[n] == Named(res, n)
  {
    categories := map[];
    for i := 0 to |res|
      invariant categories.Keys == Names(res[..i])
      invariant forall n :: n in categories ==> categories[n] == Named(res[..i], n)
    {
      assert res[..i + 1][..i] == res[..i];
      assert res[..i + 1] == res[..i] + [res[i]];
      var pair := res[i];
      if pair.name != "" {
        if pair.name !in categories {
          EmptyGroup(res[..i], pair.name);
        }
        var group := if pair.name in categories then categories[pair.name] else [];
        categories := categories[pair.name := group + [pair]];
      }
    }
    assert res[..|res|] == res;
  }

  lemma EmptyGroup(res: seq<Pair>, name: string)
    requires name != "" && name !in Names(res)
    ensures Named(res, name) == []
  {
    assert Named(res, name) == [] || Named(res, name)[0] in Named(res, name);
  }

  /** The two-level choice over the rows of a token, for one iteration order of the groups. */
  method FindOneByChainIdTokenAddress(rows: Option<seq<Pair>>, order: seq<string>) returns (r: Result<Pair, QueryError>)
    requires rows.Some? ==> IsOrder(order, Names(rows.value))
    ensures rows.None? ==> r == Failure(QueryFailed)
    ensures rows == Some([]) ==> r == Failure(NothingFound)
    ensures rows.Some? && rows.value != [] ==> r == Success(Choice(GroupBests(rows.value, order)))
  {
    if rows.None? {
      return Failure(QueryFailed);
    }
    var res := rows.value;
    if |res| == 0 {
      return Failure(NothingFound);
    }
    var categories := GroupByName(res);
    var bests: seq<Pair> := [];
    for i := 0 to |order|
      invariant bests == GroupBests(res, order[..i])
    {
      assert order[..i + 1][..i] == order[..i];
      var best := MostLiquid(categories[order[i]]);
      bests := bests + [best];
    }
    assert order[..|order|] == order;
    var chosen := MostLiquidWinner(bests);
    return Success(chosen);
  }

  /** The second level: a single winner stands as it is; among several the pump pair is passed over. */
  method MostLiquidWinner(bests: seq<Pair>) returns (chosen: Pair)
    ensures chosen == Choice(bests)
  {
    chosen := EMPTY;
    if |bests| == 1 {
      return bests[0];
    } else if |bests| > 1 {
      var max := 0.0;
      for i := 0 to |bests|
        invariant chosen == Best(NotPump(bests[..i])) && max == chosen.liquidity
      {
        assert bests[..i + 1][..i] == bests[..i];
        if bests[i].name == PUMP_FUN {
          continue;
        }
        BestPush(NotPump(bests[..i]), bests[i]);
        if bests[i].liquidity > max {
          max, chosen := bests[i].liquidity, bests[i];
        }
      }
      assert bests[..|bests|] == bests;
    }
  }

  lemma BestPush(pairs: seq<Pair>, p: Pair)
    ensures Best(pairs + [p]) == if p.liquidity > Best(pairs).liquidity then p else Best(pairs)
  {
    assert (pairs + [p])[..|pairs|] == pairs;
  }

  // ---------- the flat view ----------

  /** The rows that may be chosen: named ones, without the pump pairs when another name is there. */
  predicate Eligible(res: seq<Pair>, p: Pair) {
    p in res && p.name != "" && (p.name == PUMP_FUN ==> |Names(res)| == 1)
  }

  lemma {:induction false} OrderSize(order: seq<string>, names: set<string>)
    requires IsOrder(order, names)
    ensures |order| == |names|
    decreases |order|
  {
    if order == [] {
      assert forall n :: n !in names;
      assert names == {};
    } else {
      var last := order[|order| - 1];
      var rest := order[..|order| - 1];
      assert order == rest + [last];
      OrderSize(rest, names - {last});
    }
  }

  /** Whatever the iteration order, the two-level choice is a greatest eligible row of positive liquidity, and the
      empty pair exactly when there is none. */
  lemma ChoiceIsFlatMaximum(res: seq<Pair>, order: seq<string>)
    requires IsOrder(order, Names(res))
    ensures var chosen := Choice(GroupBests(res, order));
            && (chosen == EMPTY || (Eligible(res, chosen) && chosen.liquidity > 0.0))
            && (chosen == EMPTY <==> forall p :: Eligible(res, p) ==> p.liquidity <= 0.0)
            && (forall p :: Eligible(res, p) && p.liquidity > 0.0 ==> p.liquidity <= chosen.liquidity)
  {
    var bests := GroupBests(res, order);
    var chosen := Choice(bests);
    OrderSize(order, Names(res));
    ChosenIsEligible(res, order);
    forall p | Eligible(res, p) && p.liquidity > 0.0
      ensures p.liquidity <= chosen.liquidity
    {
      EligibleIsBeaten(res, order, p);
    }
  }

  lemma ChosenIsEligible(res: seq<Pair>, order: seq<string>)
    requires IsOrder(order, Names(res)) && |order| == |Names(res)|
    ensures var chosen := Choice(GroupBests(res, order));
            chosen == EMPTY || (Eligible(res, chosen) && chosen.liquidity > 0.0)
  {
    hide Named, GroupBests, Best, NotPump;
    var bests := GroupBests(res, order);
    var chosen := Choice(bests);
    if chosen != EMPTY {
      assert chosen in bests;
      var i :| 0 <= i < |bests| && bests[i] == chosen;
      assert chosen in Named(res, order[i]);
    }
  }

  lemma EligibleIsBeaten(res: seq<Pair>, order: seq<string>, p: Pair)
    requires IsOrder(order, Names(res)) && |order| == |Names(res)|
    requires Eligible(res, p) && p.liquidity > 0.0
    ensures p.liquidity <= Choice(GroupBests(res, order)).liquidity
  {
    var bests := GroupBests(res, order);
    assert p.name in Names(res);
    var i :| 0 <= i < |order| && order[i] == p.name;
    assert p in Named(res, order[i]);
    var b := bests[i];
    assert p.liquidity <= b.liquidity && b in bests;
    if |bests| == 1 {
      assert bests[0] == b;
    } else {
      assert b in Named(res, order[i]);
      assert b in NotPump(bests);
    }
  }

  /** Among equals the first one is taken. */
  lemma {:induction false} BestIsFirst(pairs: seq<Pair>, k: nat)
    requires k < |pairs| && pairs[k].liquidity > 0.0
    requires forall p :: p in pairs ==> p.liquidity <= pairs[k].liquidity
    requires forall j :: 0 <= j < k ==> pairs[j].liquidity < pairs[k].liquidity
    ensures Best(pairs) == pairs[k]
  {
    var init, last := pairs[..|pairs| - 1], pairs[|pairs| - 1];
    BestPush(init, last);
    assert pairs == init + [last];
    hide Best;
    if k < |pairs| - 1 {
      BestIsFirst(init, k);
      assert last in pairs;
    } else {
      assert Best(init) == EMPTY || Best(init) in init;
    }
  }

  /** A name whose best row is a greatest eligible one. */
  predicate TopName(res: seq<Pair>, n: string) {
    var best := Best(Named(res, n));
    && best.liquidity > 0.0 && Eligible(res, best)
    && forall p :: p in res && Eligible(res, p) ==> p.liquidity <= best.liquidity
  }

  /** The choice is the best row of its own name, which is a top name. */
  lemma ChoiceIsTop(res: seq<Pair>, order: seq<string>)
    requires IsOrder(order, Names(res))
    ensures var chosen := Choice(GroupBests(res, order));
            chosen != EMPTY ==> TopName(res, chosen.name) && chosen == Best(Named(res, chosen.name))
  {
    hide Named, GroupBests, Best, NotPump;
    var bests := GroupBests(res, order);
    var chosen := Choice(bests);
    ChoiceIsFlatMaximum(res, order);
    if chosen != EMPTY {
      assert chosen in bests;
      var i :| 0 <= i < |bests| && bests[i] == chosen;
      assert chosen in Named(res, order[i]);
    }
  }

  /** With at most one top name the iteration order does not matter ... */
  lemma ChoiceIgnoresOrder(res: seq<Pair>, order: seq<string>, other: seq<string>)
    requires IsOrder(order, Names(res)) && IsOrder(other, Names(res))
    requires forall m, n :: TopName(res, m) && TopName(res, n) ==> m == n
    ensures Choice(GroupBests(res, order)) == Choice(GroupBests(res, other))
  {
    ChoiceIsTop(res, order);
    ChoiceIsTop(res, other);
    ChoiceIsFlatMaximum(res, order);
    ChoiceIsFlatMaximum(res, other);
  }

  /** In particular when no two rows have the same liquidity ... */
  lemma DistinctLiquiditiesDecide(res: seq<Pair>, order: seq<string>, other: seq<string>)
    requires IsOrder(order, Names(res)) && IsOrder(other, Names(res))
    requires forall p, q :: p in res && q in res && p.liquidity == q.liquidity ==> p == q
    ensures Choice(GroupBests(res, order)) == Choice(GroupBests(res, other))
  {
    forall m, n | TopName(res, m) && TopName(res, n)
      ensures m == n
    {
      hide Named, Best;
      var p, q := Best(Named(res, m)), Best(Named(res, n));
      assert p in Named(res, m) && q in Named(res, n);
    }
    ChoiceIgnoresOrder(res, order, other);
  }

  /** ... and with several of them the one the range meets first is chosen. */
  lemma FirstTopNameWins(res: seq<Pair>, order: seq<string>, k: nat)
    requires IsOrder(order, Names(res)) && k < |order| && TopName(res, order[k])
    requires forall j :: 0 <= j < k ==> !TopName(res, order[j])
    ensures Choice(GroupBests(res, order)) == Best(Named(res, order[k]))
    ensures Choice(GroupBests(res, order)).name == order[k]
  {
    hide Named, GroupBests, Best, NotPump, IsOrder, Names, TopName;
    var bests := GroupBests(res, order);
    OrderSize(order, Names(res));
    TopBest(res, order[k]);
    if |bests| > 1 {
      WinnersWithinTop(res, order, k);
      EarlierWinnersBelow(res, order, k);
      NotPumpSplit(bests, k);
      BestIsFirst(NotPump(bests), |NotPump(bests[..k])|);
    }
  }

  lemma TopBest(res: seq<Pair>, n: string)
    requires TopName(res, n)
    ensures var best := Best(Named(res, n));
            best.name == n && best.liquidity > 0.0 && (|Names(res)| > 1 ==> n != PUMP_FUN)
  {
    hide Named, Best;
    assert Best(Named(res, n)) in Named(res, n);
  }

  /** With several names, no winner that may be chosen beats a top name. */
  lemma WinnersWithinTop(res: seq<Pair>, order: seq<string>, k: nat)
    requires IsOrder(order, Names(res)) && |order| > 1 && k < |order| && TopName(res, order[k])
    ensures forall p :: p in NotPump(GroupBests(res, order)) ==> p.liquidity <= Best(Named(res, order[k])).liquidity
  {
    hide Named, GroupBests, Best, NotPump;
    var bests := GroupBests(res, order);
    OrderSize(order, Names(res));
    forall p | p in NotPump(bests)
      ensures p.liquidity <= Best(Named(res, order[k])).liquidity
    {
      var i :| 0 <= i < |bests| && bests[i] == p;
      if p != EMPTY {
        assert p in Named(res, order[i]);
        assert order[i] in Names(res);
        assert Eligible(res, p);
      }
    }
  }

  /** A winner as liquid as a top name's would make its own name one. */
  lemma EarlierWinnersBelow(res: seq<Pair>, order: seq<string>, k: nat)
    requires IsOrder(order, Names(res)) && |order| > 1 && k < |order| && TopName(res, order[k])
    requires forall j :: 0 <= j < k ==> !TopName(res, order[j])
    ensures forall p :: p in NotPump(GroupBests(res, order)[..k]) ==>
              p.liquidity < Best(Named(res, order[k])).liquidity
  {
    hide Named, GroupBests, Best, NotPump;
    var bests := GroupBests(res, order);
    var best := Best(Named(res, order[k]));
    OrderSize(order, Names(res));
    forall p | p in NotPump(bests[..k])
      ensures p.liquidity < best.liquidity
    {
      var i :| 0 <= i < k && bests[i] == p;
      assert !TopName(res, order[i]);
      if p != EMPTY {
        assert p in Named(res, order[i]);
        assert order[i] in Names(res);
        assert Eligible(res, p);
      }
    }
  }

  lemma NotPumpPush(pairs: seq<Pair>, p: Pair)
    ensures NotPump(pairs + [p]) == NotPump(pairs) + (if p.name == PUMP_FUN then [] else [p])
  {
    assert (pairs + [p])[..|pairs|] == pairs;
  }

  lemma {:induction false} NotPumpSplit(pairs: seq<Pair>, k: nat)
    requires k < |pairs| && pairs[k].name != PUMP_FUN
    ensures var i, kept := |NotPump(pairs[..k])|, NotPump(pairs);
            i < |kept| && kept[i] == pairs[k] && kept[..i] == NotPump(pairs[..k])
    decreases |pairs|
  {
    hide NotPump;
    var last := |pairs| - 1;
    NotPumpPush(pairs[..last], pairs[last]);
    assert pairs == pairs[..last] + [pairs[last]];
    if k < last {
      NotPumpSplit(pairs[..last], k);
      assert pairs[..last][..k] == pairs[..k];
    }
  }

  /** Every set of names has an order, whichever name is to come first. */
  lemma {:induction false} AnyOrder(names: set<string>) returns (order: seq<string>)
    ensures IsOrder(order, names)
    decreases |names|
  {
    order := [];
    if names != {} {
      var n := AnyMember(names);
      var rest := AnyOrder(names - {n});
      order := [n] + rest;
      OrderCons(n, rest, names);
    }
  }

  lemma OrderCons(n: string, rest: seq<string>, names: set<string>)
    requires n in names && IsOrder(rest, names - {n})
    ensures IsOrder([n] + rest, names)
  {
    var order := [n] + rest;
    forall m | m in names
      ensures m in order
    {
      if m == n {
        assert order[0] == n;
      } else {
        assert m in rest;
      }
    }
  }

  lemma ChosenFirst(res: seq<Pair>, n: string) returns (order: seq<string>)
    requires TopName(res, n) && n in Names(res)
    ensures IsOrder(order, Names(res)) && Choice(GroupBests(res, order)).name == n
  {
    hide TopName, Names, Choice, GroupBests, IsOrder;
    var rest := AnyOrder(Names(res) - {n});
    OrderCons(n, rest, Names(res));
    order := [n] + rest;
    FirstTopNameWins(res, order, 0);
  }

  ghost predicate Chosen(res: seq<Pair>, p: Pair) {
    exists order :: IsOrder(order, Names(res)) && Choice(GroupBests(res, order)) == p
  }

  lemma TopNameIsName(res: seq<Pair>, n: string)
    requires TopName(res, n)
    ensures n in Names(res)
  {
    hide Named, Best;
    TopBest(res, n);
  }

  /** The iteration order can change the choice exactly when there are two top names. */
  lemma OrderMattersIff(res: seq<Pair>)
    ensures (exists p, q :: Chosen(res, p) && Chosen(res, q) && p != q)
       <==> (exists m, n :: TopName(res, m) && TopName(res, n) && m != n)
  {
    hide TopName, Names, Choice, GroupBests, IsOrder;
    if m, n :| TopName(res, m) && TopName(res, n) && m != n {
      TopNameIsName(res, m);
      TopNameIsName(res, n);
      var order := ChosenFirst(res, m);
      var other := ChosenFirst(res, n);
      var p, q := Choice(GroupBests(res, order)), Choice(GroupBests(res, other));
      assert Chosen(res, p) && Chosen(res, q) && p != q;
    } else {
      forall p, q | Chosen(res, p) && Chosen(res, q)
        ensures p == q
      {
        var order :| IsOrder(order, Names(res)) && Choice(GroupBests(res, order)) == p;
        var other :| IsOrder(other, Names(res)) && Choice(GroupBests(res, other)) == q;
        ChoiceIgnoresOrder(res, order, other);
      }
    }
  }
}
