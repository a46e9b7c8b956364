/** The block table and its queries (model/solmodel/blockmodel.go, blockmodel_gen.go): one row a slot. */
module BlockTable {
  import opened Floats
  import opened Sets
  import opened Wrappers

  /** pkg/constants/block.go: processed 1, failed 2, skipped 3. */
  datatype Status = Processed | Failed | Skipped

  datatype Row = Row(id: nat, status: Status, height: int, time: Option<int>, solPrice: Float)

  type Table = map<int, Row>

  function SlotsWith(t: Table, status: Status): (slots: set<int>) {
    set s | s in t && t[s].status == status
  }

  lemma {:induction false} Largest(s: set<int>) returns (m: int)
    requires s != {}
    ensures m in s && forall x :: x in s ==> x <= m
    decreases |s|
  {
    var any := AnyMember(s);
    var rest := s - {any};
    m := any;
    if rest != {} {
      var r := Largest(rest);
      m := if any <= r then r else any;
    }
    forall y | y in s
      ensures y <= m
    {
      assert y == any || y in rest;
    }
  }

  lemma MaxExists(s: set<int>)
    requires s != {}
    ensures exists m :: m in s && forall x :: x in s ==> x <= m
  {
    var m := Largest(s);
  }

  function Max(s: set<int>): (m: int)
    requires s != {}
    ensures m in s && forall x :: x in s ==> x <= m
  {
    MaxExists(s);
    var m :| m in s && forall x :: x in s ==> x <= m;
    m
  }

  // ---------- ids ----------

  /** The primary key counts insertions. */
  predicate Numbered(t: Table) {
    && (forall s :: s in t ==> 1 <= t[s].id <= |t|)
    && (forall s, u :: s in t && u in t && s != u ==> t[s].id != t[u].id)
  }

  lemma {:induction false} LeastId(t: Table, slots: set<int>) returns (m: int)
    requires slots != {} && forall s :: s in slots ==> s in t
    ensures m in slots && forall s :: s in slots ==> t[m].id <= t[s].id
    decreases |slots|
  {
    var any := AnyMember(slots);
    var rest := slots - {any};
    m := any;
    if rest != {} {
      var r := LeastId(t, rest);
      m := if t[any].id <= t[r].id then any else r;
    }
    forall s | s in slots
      ensures t[m].id <= t[s].id
    {
      assert s == any || s in rest;
    }
  }

  lemma LeastIdExists(t: Table, slots: set<int>)
    requires slots != {} && forall s :: s in slots ==> s in t
    ensures exists m :: m in slots && forall s :: s in slots ==> t[m].id <= t[s].id
  {
    var m := LeastId(t, slots);
  }

  /** `status = failed`, first row by primary key: the failed slot that was recorded first, not the lowest one. */
  function FindFirstFailedBlock(t: Table): (first: Option<int>)
    requires Numbered(t)
    ensures first.None? <==> SlotsWith(t, Failed) == {}
    ensures first.Some? ==>
              && first.value in SlotsWith(t, Failed)
              && forall s :: s in SlotsWith(t, Failed) ==> t[first.value].id <= t[s].id
  {
    var failed := SlotsWith(t, Failed);
    if failed == {} then None
    else
      LeastIdExists(t, failed);
      var m :| m in failed && forall s :: s in failed ==> t[m].id <= t[s].id;
      Some(m)
  }

  // ---------- queries by slot ----------

  /** `status = processed and slot < ? order by slot desc`, first row. */
  function FindOneByNearSlot(t: Table, slot: int): Option<Row> {
    var below := set s | s in SlotsWith(t, Processed) && s < slot;
    if below == {} then None else Some(t[Max(below)])
  }

  /** The n greatest members, greatest first. */
  function TopDescending(s: set<int>, n: nat): (top: seq<int>)
    ensures |top| == if |s| < n then |s| else n
    decreases n
  {
    if n == 0 || s == {} then []
    else
      var m := Max(s);
      assert |s - {m}| == |s| - 1;
      [m] + TopDescending(s - {m}, n - 1)
  }

  /** Failed rows at or above a slot. */
  function FailedFrom(t: Table, slot: int): set<int> {
    set s | s in SlotsWith(t, Failed) && s >= slot
  }

  /** `status = failed and slot >= ? order by slot desc limit ?`. */
  function FindProcessingSlots(t: Table, slot: int, limit: nat): seq<int> {
    TopDescending(FailedFrom(t, slot), limit)
  }

  lemma {:induction false} TopMembers(s: set<int>, n: nat)
    ensures forall x :: x in TopDescending(s, n) ==> x in s
    ensures forall x, y :: x in TopDescending(s, n) && y in s && y !in TopDescending(s, n) ==> y < x
    ensures |s| <= n ==> forall x :: x in s ==> x in TopDescending(s, n)
    decreases n
  {
    if n == 0 || s == {} {
    } else {
      var m := Max(s);
      assert |s - {m}| == |s| - 1;
      TopMembers(s - {m}, n - 1);
    }
  }

  predicate Descending(top: seq<int>) {
    forall i, j :: 0 <= i < j < |top| ==> top[i] > top[j]
  }

  lemma {:induction false} TopIsDescending(s: set<int>, n: nat)
    ensures Descending(TopDescending(s, n))
    decreases n
  {
    if n == 0 || s == {} {
    } else {
      var m := Max(s);
      TopIsDescending(s - {m}, n - 1);
      TopMembers(s - {m}, n - 1);
      DescendingCons(m, TopDescending(s - {m}, n - 1));
    }
  }

  lemma DescendingCons(m: int, rest: seq<int>)
    requires Descending(rest) && forall x :: x in rest ==> x < m
    ensures Descending([m] + rest)
  {
    forall j | 0 <= j < |rest|
      ensures rest[j] < m
    {
      assert rest[j] in rest;
    }
  }

  function Members(top: seq<int>): set<int> {
    set x | x in top
  }

  lemma {:induction false} TopCount(s: set<int>, n: nat)
    ensures Members(TopDescending(s, n)) <= s && |Members(TopDescending(s, n))| == if |s| < n then |s| else n
    decreases n
  {
    if n == 0 || s == {} {
      assert Members(TopDescending(s, n)) == {};
    } else {
      var m := Max(s);
      var rest := TopDescending(s - {m}, n - 1);
      assert |s - {m}| == |s| - 1;
      TopCount(s - {m}, n - 1);
      MembersOfCons(m, rest);
      assert |{m} + Members(rest)| == 1 + |Members(rest)|;
    }
  }

  lemma MembersOfCons(m: int, rest: seq<int>)
    ensures Members([m] + rest) == {m} + Members(rest)
  {
    forall x
      ensures x in Members([m] + rest) <==> x in {m} + Members(rest)
    {
      assert x in [m] + rest <==> x == m || x in rest;
    }
  }

  /** Removing the selected slots removes exactly as many members as were selected. */
  lemma {:induction false} TopIsDistinct(s: set<int>, n: nat)
    ensures var top := TopDescending(s, n);
            |(set x | x in s && x !in top)| == |s| - |top|
    decreases n
  {
    var top := TopDescending(s, n);
    if n == 0 || s == {} {
      assert (set x | x in s && x !in top) == s;
    } else {
      var m := Max(s);
      var rest := TopDescending(s - {m}, n - 1);
      TopIsDistinct(s - {m}, n - 1);
      assert |s - {m}| == |s| - 1;
      assert top == [m] + rest;
      var a, b := set x | x in s && x !in top, set x | x in s - {m} && x !in rest;
      forall x
        ensures x in a <==> x in b
      {
      }
      assert a == b;
    }
  }

  /** The retry query returns failed rows only, the newest ones in descending order, as many as fit. */
  lemma ProcessingSlotsAreNewest(t: Table, slot: int, limit: nat)
    ensures var r := FindProcessingSlots(t, slot, limit);
            && (forall x :: x in r ==> x in FailedFrom(t, slot))
            && (forall x, y :: x in r && y in FailedFrom(t, slot) && y !in r ==> y < x)
            && (r == [] <==> FailedFrom(t, slot) == {} || limit == 0)
            && (|FailedFrom(t, slot)| <= limit ==> forall x :: x in FailedFrom(t, slot) ==> x in r)
            && |r| == (if |FailedFrom(t, slot)| < limit then |FailedFrom(t, slot)| else limit)
            && Descending(r)
  {
    TopMembers(FailedFrom(t, slot), limit);
    TopIsDescending(FailedFrom(t, slot), limit);
  }

  /** The nearest processed row is the one no other processed row below the slot lies above. */
  lemma NearSlotIsNearest(t: Table, slot: int)
    ensures FindOneByNearSlot(t, slot).None? <==> forall s :: s in SlotsWith(t, Processed) ==> s >= slot
    ensures FindOneByNearSlot(t, slot).Some? ==>
              exists s :: s in SlotsWith(t, Processed) && s < slot && FindOneByNearSlot(t, slot) == Some(t[s])
                          && forall u :: u in SlotsWith(t, Processed) && u < slot ==> u <= s
  {
    var below := set s | s in SlotsWith(t, Processed) && s < slot;
    if below != {} {
      var s := Max(below);
      assert s in below;
      assert forall u :: u in SlotsWith(t, Processed) && u < slot ==> u in below;
    } else {
      assert forall s :: s in SlotsWith(t, Processed) ==> s !in below;
    }
  }
}
