/** The block-long map of token accounts (consumer/internal/logic/sol/block/price.go). The entries are objects
    updated in place; Go's map ranges are loops that pick any remaining key. */
module TokenAccounts {
  import opened Bytes
  import opened Constants
  import opened Sets
  import opened Wrappers
  import InstructionCodec
  import WireFormat

  const INITIALIZE_ACCOUNT: byte := 1
  const INITIALIZE_ACCOUNT_2: byte := 16
  const INITIALIZE_ACCOUNT_3: byte := 18

  /** The value of an entry. */
  datatype Account = Account(owner: string, address: string, mint: string, decimals: nat,
                             preValue: int, postValue: int, closed: bool, init: bool)

  type Accounts = map<string, Account>

  datatype Balance = Balance(account: string, mint: string, owner: string, decimals: nat, amount: int)

  datatype Instruction = Instruction(program: string, accounts: seq<string>, data: seq<byte>)

  /** A transaction: balances before and after, and its instructions, top-level ones first. `keyText` is the
      textual form of a raw public key. */
  datatype Tx = Tx(pre: seq<Balance>, post: seq<Balance>, instructions: seq<Instruction>, keyText: seq<byte> -> string)

  datatype Opened = Opened(account: string, mint: string, owner: string)

  /** The account an initialisation instruction opens. */
  function OpenedBy(i: Instruction, keyText: seq<byte> -> string): Option<Opened> {
    if i.program != PROGRAM_TOKEN || |i.data| == 0 then None
    else if i.data[0] == INITIALIZE_ACCOUNT then
      if |i.accounts| < 3 then None else Some(Opened(i.accounts[0], i.accounts[1], i.accounts[2]))
    else if i.data[0] == INITIALIZE_ACCOUNT_2 || i.data[0] == INITIALIZE_ACCOUNT_3 then
      if |i.accounts| < 2 || |i.data| < 33 then None
      else Some(Opened(i.accounts[0], i.accounts[1], keyText(i.data[1..])))
    else None
  }

  // ---------- the update on values ----------

  function FromPre(b: Balance): Account {
    Account(b.owner, b.account, b.mint, b.decimals, b.amount, 0, true, false)
  }

  function FromPost(b: Balance): Account {
    Account(b.owner, b.account, b.mint, b.decimals, 0, b.amount, false, true)
  }

  function FromOpened(o: Opened): Account {
    Account(o.owner, o.account, o.mint, 0, 0, 0, false, true)
  }

  function AfterPre(m: Accounts, pre: seq<Balance>): Accounts {
    if pre == [] then m
    else
      var b := pre[|pre| - 1];
      AfterPre(m, pre[..|pre| - 1])[b.account := FromPre(b)]
  }

  function AfterPost(m: Accounts, post: seq<Balance>): Accounts {
    if post == [] then m
    else
      var b, before := post[|post| - 1], AfterPost(m, post[..|post| - 1]);
      before[b.account := if b.account in before then before[b.account].(closed := false, postValue := b.amount)
                          else FromPost(b)]
  }

  /** Some balance moved: an account appeared, or its amount differs from the one recorded before. */
  function Moved(m: Accounts, post: seq<Balance>): bool {
    if post == [] then false
    else
      var b, before := post[|post| - 1], AfterPost(m, post[..|post| - 1]);
      Moved(m, post[..|post| - 1]) || b.account !in before || before[b.account].preValue != b.amount
  }

  function Open(m: Accounts, o: Option<Opened>): Accounts {
    if o.None? || (o.value.account in m && m[o.value.account].mint == o.value.mint) then m
    else m[o.value.account := FromOpened(o.value)]
  }

  function AfterOpened(m: Accounts, instructions: seq<Instruction>, keyText: seq<byte> -> string): Accounts {
    if instructions == [] then m
    else Open(AfterOpened(m, instructions[..|instructions| - 1], keyText),
              OpenedBy(instructions[|instructions| - 1], keyText))
  }

  function Recorded(m: Accounts, tx: Tx): Accounts {
    AfterOpened(AfterPost(AfterPre(m, tx.pre), tx.post), tx.instructions, tx.keyText)
  }

  /** The entry of a key shows these decimals for the mint. */
  predicate Shows(m: Accounts, k: string, mint: string, decimals: nat) {
    k in m && m[k].mint == mint && m[k].decimals == decimals && decimals != 0
  }

  /** An order a map range may take over the keys. */
  predicate IsKeyOrder(order: seq<string>, keys: set<string>) {
    && (forall i :: 0 <= i < |order| ==> order[i] in keys)
    && (forall i, j :: 0 <= i < j < |order| ==> order[i] != order[j])
    && (forall k :: k in keys ==> k in order)
  }

  /** The decimals collected along an order: of each mint, those of its last account that has any. */
  function Collected(m: Accounts, order: seq<string>): map<string, nat> {
    if order == [] then map[]
    else
      var before, k := Collected(m, order[..|order| - 1]), order[|order| - 1];
      if k in m && m[k].decimals != 0 then before[m[k].mint := m[k].decimals] else before
  }

  /** For every mint with known decimals, those of one of its accounts. */
  ghost predicate IsTable(m: Accounts, table: map<string, nat>) {
    && (forall k :: k in m && m[k].decimals != 0 ==> m[k].mint in table)
    && (forall mint :: mint in table ==> exists k :: Shows(m, k, mint, table[mint]))
  }

  function FillOne(a: Account, table: map<string, nat>): Account {
    if a.decimals == 0 && a.mint in table then a.(decimals := table[a.mint]) else a
  }

  function PartlyFilled(m: Accounts, table: map<string, nat>, remaining: set<string>): Accounts {
    map k | k in m :: if k in remaining then m[k] else FillOne(m[k], table)
  }

  lemma FillStep(m: Accounts, table: map<string, nat>, remaining: set<string>, k: string)
    requires k in remaining && k in m
    ensures PartlyFilled(m, table, remaining)[k := FillOne(PartlyFilled(m, table, remaining)[k], table)]
         == PartlyFilled(m, table, remaining - {k})
  {
  }

  function Filled(m: Accounts, table: map<string, nat>): Accounts {
    map k | k in m :: FillOne(m[k], table)
  }

  lemma FillEnds(m: Accounts, table: map<string, nat>)
    ensures PartlyFilled(m, table, m.Keys) == m && PartlyFilled(m, table, {}) == Filled(m, table)
  {
  }

  /** The map that filling in decimals makes of another when its ranges go along an order. */
  predicate Settles(m: Accounts, order: seq<string>, m': Accounts) {
    IsKeyOrder(order, m.Keys) && m' == Filled(m, Collected(m, order))
  }

  // ---------- the update on objects ----------

  class TokenAccount {
    var owner: string
    var address: string
    var mint: string
    var decimals: nat
    var preValue: int
    var postValue: int
    var closed: bool
    var init: bool

    function Value(): Account
      reads this
    {
      Account(owner, address, mint, decimals, preValue, postValue, closed, init)
    }

    constructor (a: Account)
      ensures Value() == a
    {
      owner, address, mint, decimals := a.owner, a.address, a.mint, a.decimals;
      preValue, postValue, closed, init := a.preValue, a.postValue, a.closed, a.init;
    }

    method Reopen(amount: int)
      modifies this
      ensures Value() == old(Value()).(closed := false, postValue := amount)
    {
      closed := false;
      postValue := amount;
    }

    method Fill(table: map<string, nat>)
      modifies this
      ensures Value() == FillOne(old(Value()), table)
    {
      if decimals == 0 {
        decimals := if mint in table then table[mint] else 0;
      }
    }
  }

  class AccountMap {
    var entries: map<string, TokenAccount>

    /** No object serves two keys. */
    ghost predicate Valid()
      reads this
    {
      forall k, l :: k in entries && l in entries && k != l ==> entries[k] != entries[l]
    }

    function Values(): Accounts
      reads this, entries.Values
    {
      map k | k in entries :: entries[k].Value()
    }

    constructor ()
      ensures Valid() && entries == map[]
    {
      entries := map[];
    }

    /** A new object for the key; the other keys keep theirs. */
    method Put(key: string, a: Account)
      requires Valid()
      modifies this
      ensures Valid() && Values() == old(Values())[key := a]
      ensures key in entries && fresh(entries[key]) && entries == old(entries)[key := entries[key]]
    {
      var account := new TokenAccount(a);
      entries := entries[key := account];
    }

    method RecordPre(pre: seq<Balance>)
      requires Valid()
      modifies this
      ensures Valid() && Values() == AfterPre(old(Values()), pre)
      ensures fresh(entries.Values - old(entries.Values))
    {
      for i := 0 to |pre|
        invariant Valid() && fresh(entries.Values - old(entries.Values))
        invariant Values() == AfterPre(old(Values()), pre[..i])
      {
        assert pre[..i + 1][..i] == pre[..i];
        Put(pre[i].account, FromPre(pre[i]));
      }
      assert pre[..|pre|] == pre;
    }

    /** The entry of a key in place. */
    method Close(key: string, amount: int)
      requires Valid() && key in entries
      modifies entries[key]
      ensures Valid() && Values() == old(Values())[key := old(Values())[key].(closed := false, postValue := amount)]
    {
      hide TokenAccount.Value;
      entries[key].Reopen(amount);
    }

    method RecordPost(post: seq<Balance>) returns (moved: bool)
      requires Valid()
      modifies this, entries.Values
      ensures Valid() && Values() == AfterPost(old(Values()), post) && moved == Moved(old(Values()), post)
      ensures fresh(entries.Values - old(entries.Values))
    {
      moved := false;
      for i := 0 to |post|
        invariant Valid() && fresh(entries.Values - old(entries.Values))
        invariant Values() == AfterPost(old(Values()), post[..i]) && moved == Moved(old(Values()), post[..i])
      {
        assert post[..i + 1][..i] == post[..i];
        var b := post[i];
        if b.account in entries {
          Close(b.account, b.amount);
          if entries[b.account].postValue != entries[b.account].preValue {
            moved := true;
          }
        } else {
          moved := true;
          Put(b.account, FromPost(b));
        }
      }
      assert post[..|post|] == post;
    }

    method DecodeInitAccountInstruction(i: Instruction, keyText: seq<byte> -> string)
      requires Valid()
      modifies this
      ensures Valid() && Values() == Open(old(Values()), OpenedBy(i, keyText))
      ensures fresh(entries.Values - old(entries.Values))
    {
      var o := OpenedBy(i, keyText);
      if o.None? {
        return;
      }
      if o.value.account in entries && entries[o.value.account].mint == o.value.mint {
        return;
      }
      Put(o.value.account, FromOpened(o.value));
    }

    method RecordOpened(instructions: seq<Instruction>, keyText: seq<byte> -> string)
      requires Valid()
      modifies this
      ensures Valid() && Values() == AfterOpened(old(Values()), instructions, keyText)
      ensures fresh(entries.Values - old(entries.Values))
    {
      for i := 0 to |instructions|
        invariant Valid() && fresh(entries.Values - old(entries.Values))
        invariant Values() == AfterOpened(old(Values()), instructions[..i], keyText)
      {
        assert instructions[..i + 1][..i] == instructions[..i];
        DecodeInitAccountInstruction(instructions[i], keyText);
      }
      assert instructions[..|instructions|] == instructions;
    }

    /** The first range: the last decimals seen of each mint. */
    method CollectDecimals() returns (table: map<string, nat>, ghost order: seq<string>)
      ensures IsKeyOrder(order, Values().Keys) && table == Collected(Values(), order)
      ensures IsTable(Values(), table)
    {
      hide IsTable;
      table, order := map[], [];
      ghost var m := Values();
      var remaining := entries.Keys;
      while remaining != {}
        invariant remaining <= entries.Keys && m == Values()
        invariant forall i :: 0 <= i < |order| ==> order[i] in entries.Keys - remaining
        invariant forall i, j :: 0 <= i < j < |order| ==> order[i] != order[j]
        invariant forall k :: k in entries.Keys - remaining ==> k in order
        invariant table == Collected(m, order)
        decreases |remaining|
      {
        var k :| k in remaining;
        remaining := remaining - {k};
        var account := entries[k];
        assert (order + [k])[..|order|] == order;
        order := order + [k];
        if account.decimals != 0 {
          table := table[account.mint := account.decimals];
        }
      }
      CollectedIsTable(m, order);
    }

    method FillEntry(key: string, table: map<string, nat>)
      requires Valid() && key in entries
      modifies entries[key]
      ensures Valid() && Values() == old(Values())[key := FillOne(old(Values())[key], table)]
    {
      hide TokenAccount.Value, FillOne;
      entries[key].Fill(table);
    }

    /** The second range: entries without decimals take those of their mint. */
    method FillDecimals(table: map<string, nat>)
      requires Valid()
      modifies entries.Values
      ensures Valid() && Values() == Filled(old(Values()), table)
    {
      hide FillOne, PartlyFilled, TokenAccount.Value, Filled;
      FillEnds(Values(), table);
      assert Values().Keys == entries.Keys;
      var remaining := entries.Keys;
      while remaining != {}
        invariant remaining <= entries.Keys && Valid()
        invariant Values() == PartlyFilled(old(Values()), table, remaining)
        decreases |remaining|
      {
        var k :| k in remaining;
        FillStep(old(Values()), table, remaining, k);
        remaining := remaining - {k};
        FillEntry(k, table);
      }
    }

    /** One transaction: the map afterwards is the recorded balances with the decimals collected in some order. */
    method FillTokenAccountMap(tx: Tx) returns (hasTokenChange: bool, ghost order: seq<string>)
      requires Valid()
      modifies this, entries.Values
      ensures Valid() && fresh(entries.Values - old(entries.Values))
      ensures Settles(Recorded(old(Values()), tx), order, Values())
      ensures hasTokenChange == Moved(AfterPre(old(Values()), tx.pre), tx.post)
    {
      hide AfterPre, AfterPost, AfterOpened, Moved, Collected, Filled, IsKeyOrder;
      RecordPre(tx.pre);
      hasTokenChange := RecordPost(tx.post);
      RecordOpened(tx.instructions, tx.keyText);
      var table;
      table, order := CollectDecimals();
      FillDecimals(table);
    }
  }

  // ---------- over a block ----------

  /** Decimals as the chain defines them: what is known of a mint is the truth. */
  ghost predicate Conforms(m: Accounts, truth: string -> nat) {
    forall k :: k in m ==> m[k].decimals == 0 || m[k].decimals == truth(m[k].mint)
  }

  ghost predicate BalancesConform(bs: seq<Balance>, truth: string -> nat) {
    forall i :: 0 <= i < |bs| ==> bs[i].decimals == 0 || bs[i].decimals == truth(bs[i].mint)
  }

  ghost predicate TxConforms(tx: Tx, truth: string -> nat) {
    BalancesConform(tx.pre, truth) && BalancesConform(tx.post, truth)
  }

  /** All entries of a mint carry the same decimals. */
  ghost predicate Uniform(m: Accounts) {
    forall k, l :: k in m && l in m && m[k].mint == m[l].mint ==> m[k].decimals == m[l].decimals
  }

  lemma {:induction false} PreConforms(m: Accounts, pre: seq<Balance>, truth: string -> nat)
    requires Conforms(m, truth) && BalancesConform(pre, truth)
    ensures Conforms(AfterPre(m, pre), truth) && m.Keys <= AfterPre(m, pre).Keys
    decreases |pre|
  {
    if pre != [] {
      PreConforms(m, pre[..|pre| - 1], truth);
    }
  }

  lemma {:induction false} PostConforms(m: Accounts, post: seq<Balance>, truth: string -> nat)
    requires Conforms(m, truth) && BalancesConform(post, truth)
    ensures Conforms(AfterPost(m, post), truth) && m.Keys <= AfterPost(m, post).Keys
    decreases |post|
  {
    if post != [] {
      PostConforms(m, post[..|post| - 1], truth);
    }
  }

  lemma {:induction false} OpenedConforms(m: Accounts, instructions: seq<Instruction>, keyText: seq<byte> -> string,
                                          truth: string -> nat)
    requires Conforms(m, truth)
    ensures Conforms(AfterOpened(m, instructions, keyText), truth)
            && m.Keys <= AfterOpened(m, instructions, keyText).Keys
    decreases |instructions|
  {
    if instructions != [] {
      OpenedConforms(m, instructions[..|instructions| - 1], keyText, truth);
    }
  }

  /** After one transaction every mint is uniform and no key is lost, whatever order the ranges take. */
  lemma FilledIsUniform(m: Accounts, tx: Tx, order: seq<string>, m': Accounts, truth: string -> nat)
    requires Conforms(m, truth) && TxConforms(tx, truth)
    requires Settles(Recorded(m, tx), order, m')
    ensures && Conforms(m', truth) && Uniform(m') && m.Keys <= m'.Keys
            && forall k :: k in m' && m'[k].decimals == 0 ==>
                 forall l :: l in Recorded(m, tx) && Recorded(m, tx)[l].mint == m'[k].mint
                     ==> Recorded(m, tx)[l].decimals == 0
  {
    RecordedConforms(m, tx, truth);
    hide Recorded, Collected, IsKeyOrder, IsTable, Conforms, Uniform, FillOne;
    var all := Recorded(m, tx);
    CollectedIsTable(all, order);
    TableFillsUniformly(all, Collected(all, order), truth);
  }

  lemma RecordedConforms(m: Accounts, tx: Tx, truth: string -> nat)
    requires Conforms(m, truth) && TxConforms(tx, truth)
    ensures Conforms(Recorded(m, tx), truth) && m.Keys <= Recorded(m, tx).Keys
  {
    hide Conforms, BalancesConform, AfterPre, AfterPost, AfterOpened;
    PreConforms(m, tx.pre, truth);
    PostConforms(AfterPre(m, tx.pre), tx.post, truth);
    OpenedConforms(AfterPost(AfterPre(m, tx.pre), tx.post), tx.instructions, tx.keyText, truth);
  }

  lemma TableFillsUniformly(m: Accounts, table: map<string, nat>, truth: string -> nat)
    requires Conforms(m, truth) && IsTable(m, table)
    ensures var m' := Filled(m, table);
            && Conforms(m', truth) && Uniform(m')
            && forall k :: k in m' && m'[k].decimals == 0 ==>
                 forall l :: l in m && m[l].mint == m'[k].mint ==> m[l].decimals == 0
  {
    TableIsTrue(m, table, truth);
  }

  /** Along any order, what is collected of a mint comes from one of its accounts. */
  lemma CollectedIsTable(m: Accounts, order: seq<string>)
    requires IsKeyOrder(order, m.Keys)
    ensures IsTable(m, Collected(m, order))
  {
    CollectedShows(m, order);
    forall k | k in m && m[k].decimals != 0
      ensures m[k].mint in Collected(m, order)
    {
      var i :| 0 <= i < |order| && order[i] == k;
      CollectedHas(m, order, i);
    }
  }

  lemma {:induction false} CollectedShows(m: Accounts, order: seq<string>)
    ensures forall mint :: mint in Collected(m, order) ==> exists k :: Shows(m, k, mint, Collected(m, order)[mint])
  {
    if order != [] {
      var init, k := order[..|order| - 1], order[|order| - 1];
      CollectedShows(m, init);
      forall mint | mint in Collected(m, order)
        ensures exists x :: Shows(m, x, mint, Collected(m, order)[mint])
      {
        if k in m && m[k].decimals != 0 && m[k].mint == mint {
          assert Shows(m, k, mint, Collected(m, order)[mint]);
        } else {
          var x :| Shows(m, x, mint, Collected(m, init)[mint]);
        }
      }
    }
  }

  lemma {:induction false} CollectedHas(m: Accounts, order: seq<string>, i: nat)
    requires i < |order| && order[i] in m && m[order[i]].decimals != 0
    ensures m[order[i]].mint in Collected(m, order)
  {
    if i < |order| - 1 {
      CollectedHas(m, order[..|order| - 1], i);
    }
  }

  lemma TableIsTrue(m: Accounts, table: map<string, nat>, truth: string -> nat)
    requires Conforms(m, truth) && IsTable(m, table)
    ensures forall mint :: mint in table ==> table[mint] == truth(mint) != 0
  {
    forall mint | mint in table
      ensures table[mint] == truth(mint) != 0
    {
      var k :| Shows(m, k, mint, table[mint]);
    }
  }

  // ---------- what is recorded ----------

  /** A transaction lists every account at most once. */
  predicate Distinct(bs: seq<Balance>) {
    forall i, j :: 0 <= i < j < |bs| ==> bs[i].account != bs[j].account
  }

  predicate Lists(bs: seq<Balance>, k: string) {
    exists i :: 0 <= i < |bs| && bs[i].account == k
  }

  function Listed(bs: seq<Balance>, k: string): (b: Balance)
    requires Lists(bs, k)
    ensures b in bs && b.account == k
  {
    if bs[|bs| - 1].account == k then bs[|bs| - 1]
    else
      assert Lists(bs[..|bs| - 1], k) by {
        var i :| 0 <= i < |bs| && bs[i].account == k;
        assert bs[..|bs| - 1][i] == bs[i];
      }
      Listed(bs[..|bs| - 1], k)
  }

  lemma ListsPush(bs: seq<Balance>, k: string)
    requires bs != []
    ensures Lists(bs, k) <==> Lists(bs[..|bs| - 1], k) || bs[|bs| - 1].account == k
  {
    if Lists(bs, k) && bs[|bs| - 1].account != k {
      var i :| 0 <= i < |bs| && bs[i].account == k;
      assert bs[..|bs| - 1][i].account == k;
    }
    if Lists(bs[..|bs| - 1], k) {
      var i :| 0 <= i < |bs| - 1 && bs[..|bs| - 1][i].account == k;
      assert bs[i].account == k;
    }
  }

  lemma LastIsNew(bs: seq<Balance>)
    requires Distinct(bs) && bs != []
    ensures !Lists(bs[..|bs| - 1], bs[|bs| - 1].account)
  {
    var init := bs[..|bs| - 1];
    forall i | 0 <= i < |init|
      ensures init[i].account != bs[|bs| - 1].account
    {
      assert init[i] == bs[i];
    }
  }

  lemma {:induction false} PreShown(m: Accounts, pre: seq<Balance>, k: string)
    ensures k in AfterPre(m, pre) <==> k in m || Lists(pre, k)
    ensures k in AfterPre(m, pre) ==> AfterPre(m, pre)[k] == if Lists(pre, k) then FromPre(Listed(pre, k)) else m[k]
  {
    if pre != [] {
      PreShown(m, pre[..|pre| - 1], k);
      ListsPush(pre, k);
    }
  }

  lemma {:induction false} PostShown(m: Accounts, post: seq<Balance>, k: string)
    requires Distinct(post)
    ensures k in AfterPost(m, post) <==> k in m || Lists(post, k)
    ensures k in AfterPost(m, post) ==>
              AfterPost(m, post)[k] == if !Lists(post, k) then m[k]
                                       else if k in m then m[k].(closed := false, postValue := Listed(post, k).amount)
                                       else FromPost(Listed(post, k))
  {
    if post != [] {
      var init, last := post[..|post| - 1], post[|post| - 1];
      PostShown(m, init, k);
      ListsPush(post, k);
      LastIsNew(post);
    }
  }

  /** What the balances of a transaction leave of an account: open with both amounts, closed with the one before, or
      newly seen with the one after; an account the map knew from earlier keeps its owner and mint. */
  lemma BalancesShown(m: Accounts, tx: Tx, k: string)
    requires Distinct(tx.post)
    ensures var m' := AfterPost(AfterPre(m, tx.pre), tx.post);
            && (k in m' <==> k in m || Lists(tx.pre, k) || Lists(tx.post, k))
            && (Lists(tx.pre, k) ==>
                  var b := Listed(tx.pre, k);
                  m'[k] == if Lists(tx.post, k)
                           then Account(b.owner, k, b.mint, b.decimals, b.amount, Listed(tx.post, k).amount, false,
                                        false)
                           else Account(b.owner, k, b.mint, b.decimals, b.amount, 0, true, false))
            && (!Lists(tx.pre, k) && Lists(tx.post, k) && k !in m ==>
                  var b := Listed(tx.post, k);
                  m'[k] == Account(b.owner, k, b.mint, b.decimals, 0, b.amount, false, true))
            && (!Lists(tx.pre, k) && Lists(tx.post, k) && k in m ==>
                  m'[k] == m[k].(closed := false, postValue := Listed(tx.post, k).amount))
            && (!Lists(tx.pre, k) && !Lists(tx.post, k) && k in m ==> m'[k] == m[k])
  {
    hide AfterPre, AfterPost, Lists, Listed;
    PreShown(m, tx.pre, k);
    PostShown(AfterPre(m, tx.pre), tx.post, k);
  }

  /** The flag is raised exactly when some account after the transaction is new to the map or holds another amount
      than the one recorded before. */
  lemma {:induction false} MovedIff(m: Accounts, post: seq<Balance>)
    requires Distinct(post)
    ensures Moved(m, post) <==>
              exists i :: 0 <= i < |post| && (post[i].account !in m || m[post[i].account].preValue != post[i].amount)
  {
    if post != [] {
      var init, last := post[..|post| - 1], post[|post| - 1];
      MovedIff(m, init);
      PostShown(m, init, last.account);
      LastIsNew(post);
      assert forall i :: 0 <= i < |init| ==> init[i] == post[i];
    }
  }

  /** The two ranges change nothing but decimals, and known ones stay. */
  lemma SettledKeeps(m: Accounts, order: seq<string>, m': Accounts, k: string)
    requires Settles(m, order, m')
    ensures m'.Keys == m.Keys
    ensures k in m ==> m'[k] == m[k].(decimals := m'[k].decimals)
                       && (m[k].decimals != 0 ==> m'[k] == m[k])
  {
    hide Collected, IsKeyOrder;
  }

  // ---------- what is opened ----------

  /** The instruction initialises a token account: variant 1 names mint and owner after the account, variants 16 and 18
      name the mint and carry the owner's key in their data. */
  predicate Initializes(i: Instruction, keyText: seq<byte> -> string, account: string, mint: string, owner: string) {
    && i.program == PROGRAM_TOKEN && |i.data| > 0 && |i.accounts| >= 2
    && i.accounts[0] == account && i.accounts[1] == mint
    && ((i.data[0] == 1 && |i.accounts| >= 3 && i.accounts[2] == owner)
        || (i.data[0] in {16, 18} && |i.data| >= 33 && keyText(i.data[1..]) == owner))
  }

  predicate InitializesAt(instructions: seq<Instruction>, j: int, keyText: seq<byte> -> string, account: string,
                          mint: string, owner: string) {
    0 <= j < |instructions| && Initializes(instructions[j], keyText, account, mint, owner)
  }

  lemma OpenStep(m: Accounts, i: Instruction, keyText: seq<byte> -> string, k: string)
    ensures var after := Open(m, OpenedBy(i, keyText));
            && (forall mint, owner :: Initializes(i, keyText, k, mint, owner) ==>
                  k in after && after[k] == if k in m && m[k].mint == mint then m[k]
                                            else Account(owner, k, mint, 0, 0, 0, false, true))
            && ((forall mint, owner :: !Initializes(i, keyText, k, mint, owner)) ==>
                  (k in after <==> k in m) && (k in m ==> after[k] == m[k]))
  {
    var o := OpenedBy(i, keyText);
    if o.Some? && o.value.account == k {
      assert Initializes(i, keyText, k, o.value.mint, o.value.owner);
    }
  }

  /** An account no instruction initialises stays as it is. */
  lemma {:induction false} NotInitialised(m: Accounts, instructions: seq<Instruction>, keyText: seq<byte> -> string,
                                          k: string)
    requires forall j, mint, owner :: !InitializesAt(instructions, j, keyText, k, mint, owner)
    ensures var after := AfterOpened(m, instructions, keyText);
            (k in after <==> k in m) && (k in m ==> after[k] == m[k])
    decreases |instructions|
  {
    if instructions != [] {
      var last := |instructions| - 1;
      forall j, mint, owner
        ensures !InitializesAt(instructions[..last], j, keyText, k, mint, owner)
      {
        assert !InitializesAt(instructions, j, keyText, k, mint, owner);
      }
      NotInitialised(m, instructions[..last], keyText, k);
      forall mint, owner
        ensures !Initializes(instructions[last], keyText, k, mint, owner)
      {
        assert !InitializesAt(instructions, last, keyText, k, mint, owner);
      }
      OpenStep(AfterOpened(m, instructions[..last], keyText), instructions[last], keyText, k);
    }
  }

  /** What a sequence of instructions leaves of an account that one of them initialises, when later ones name the same
      mint: the entry from before if that had the mint, otherwise a new and empty one; so an initialisation under
      another mint replaces the entry, and one under the same mint changes nothing. */
  lemma {:induction false} InitialisationShows(m: Accounts, instructions: seq<Instruction>,
                                               keyText: seq<byte> -> string, j: nat, k: string, mint: string,
                                               owner: string)
    requires InitializesAt(instructions, j, keyText, k, mint, owner)
    requires forall l, x, o :: j < l && InitializesAt(instructions, l, keyText, k, x, o) ==> x == mint
    ensures var before, after := AfterOpened(m, instructions[..j], keyText), AfterOpened(m, instructions, keyText);
            k in after && after[k] == if k in before && before[k].mint == mint then before[k]
                                      else Account(owner, k, mint, 0, 0, 0, false, true)
    decreases |instructions|
  {
    hide Open, OpenedBy, Initializes;
    var last := |instructions| - 1;
    var init := instructions[..last];
    OpenStep(AfterOpened(m, init, keyText), instructions[last], keyText, k);
    if j < last {
      assert InitializesAt(init, j, keyText, k, mint, owner);
      forall l, x, o | j < l && InitializesAt(init, l, keyText, k, x, o)
        ensures x == mint
      {
        assert InitializesAt(instructions, l, keyText, k, x, o);
      }
      assert init[..j] == instructions[..j];
      InitialisationShows(m, init, keyText, j, k, mint, owner);
      forall x, o | Initializes(instructions[last], keyText, k, x, o)
        ensures x == mint
      {
        assert InitializesAt(instructions, last, keyText, k, x, o);
      }
    }
  }

  /** An instruction changes nothing exactly when it initialises no account, or one the map has under that mint. */
  lemma OpensNothingIff(m: Accounts, i: Instruction, keyText: seq<byte> -> string)
    ensures AfterOpened(m, [i], keyText) == m
       <==> forall k, mint, owner :: Initializes(i, keyText, k, mint, owner) ==> k in m && m[k].mint == mint
  {
    var none: seq<Instruction> := [];
    assert [i][..0] == none && AfterOpened(m, none, keyText) == m;
    var after := AfterOpened(m, [i], keyText);
    assert after == Open(m, OpenedBy(i, keyText));
    var o := OpenedBy(i, keyText);
    if o.Some? {
      assert Initializes(i, keyText, o.value.account, o.value.mint, o.value.owner);
      OpenStep(m, i, keyText, o.value.account);
    }
  }

  /** An account first met in an initialisation of a transaction ends with its mint and its owner, empty, open and
      marked as new; only its decimals may have been filled in. */
  lemma OpenedInTransaction(m: Accounts, tx: Tx, order: seq<string>, m': Accounts, j: nat, k: string, mint: string,
                            owner: string)
    requires Settles(Recorded(m, tx), order, m') && Distinct(tx.post)
    requires k !in m && !Lists(tx.pre, k) && !Lists(tx.post, k)
    requires InitializesAt(tx.instructions, j, tx.keyText, k, mint, owner)
    requires forall l, x, o :: l < j ==> !InitializesAt(tx.instructions, l, tx.keyText, k, x, o)
    requires forall l, x, o :: j < l && InitializesAt(tx.instructions, l, tx.keyText, k, x, o) ==> x == mint
    ensures k in m' && m'[k] == Account(owner, k, mint, m'[k].decimals, 0, 0, false, true)
  {
    hide AfterPre, AfterPost, AfterOpened, Lists, Initializes, Collected, IsKeyOrder;
    BalancesShown(m, tx, k);
    var base := AfterPost(AfterPre(m, tx.pre), tx.post);
    forall l, x, o
      ensures !InitializesAt(tx.instructions[..j], l, tx.keyText, k, x, o)
    {
      if 0 <= l < j {
        assert !InitializesAt(tx.instructions, l, tx.keyText, k, x, o);
      }
    }
    NotInitialised(base, tx.instructions[..j], tx.keyText, k);
    InitialisationShows(base, tx.instructions, tx.keyText, j, k, mint, owner);
  }

  /** The three variants as the token program's own encoder writes them. */
  lemma BuiltInitialisationOpens(inst: InstructionCodec.Instruction, i: Instruction, keyText: seq<byte> -> string)
    requires InstructionCodec.WellTyped(inst) && inst.typeId in {1, 16, 18}
    requires i.program == PROGRAM_TOKEN && i.data == InstructionCodec.Data(inst)
    requires |i.accounts| >= if inst.typeId == 1 then 3 else 2
    ensures var owner := if inst.typeId == 1 then i.accounts[2] else keyText(inst.params[0].k);
            Initializes(i, keyText, i.accounts[0], i.accounts[1], owner)
  {
    if inst.typeId != 1 {
      assert InstructionCodec.Params(inst.typeId) == [WireFormat.PublicKey];
      InstructionCodec.DataLayout(inst);
    }
  }

  /** One of the maps a transaction can lead to. */
  ghost predicate Follows(m: Accounts, tx: Tx, m': Accounts) {
    exists order :: Settles(Recorded(m, tx), order, m')
  }

  /** The maps of a block, one before each transaction and one at the end. */
  ghost predicate BlockRun(ms: seq<Accounts>, txs: seq<Tx>) {
    |ms| == |txs| + 1 && forall i :: 0 <= i < |txs| ==> Follows(ms[i], txs[i], ms[i + 1])
  }

  /** Across any sequence of transactions: keys are never dropped and every map after the first is uniform. */
  lemma {:induction false} BlockKeepsUniform(ms: seq<Accounts>, txs: seq<Tx>, truth: string -> nat, i: nat, j: nat)
    requires BlockRun(ms, txs) && Conforms(ms[0], truth)
    requires forall k :: 0 <= k < |txs| ==> TxConforms(txs[k], truth)
    requires i <= j < |ms|
    ensures Conforms(ms[j], truth) && ms[i].Keys <= ms[j].Keys
    ensures j > 0 ==> Uniform(ms[j])
    decreases j
  {
    hide Recorded, Settles, Uniform, Conforms, TxConforms;
    if j > 0 {
      BlockKeepsUniform(ms, txs, truth, if i < j then i else j - 1, j - 1);
      assert Follows(ms[j - 1], txs[j - 1], ms[j]);
      var order :| Settles(Recorded(ms[j - 1], txs[j - 1]), order, ms[j]);
      FilledIsUniform(ms[j - 1], txs[j - 1], order, ms[j], truth);
    }
  }

  // ---------- iteration order ----------

  /** The mint has an entry to fill in and its known decimals disagree. */
  ghost predicate Contested(m: Accounts, mint: string) {
    && (exists k :: k in m && m[k].mint == mint && m[k].decimals == 0)
    && exists k, l, d, e :: Shows(m, k, mint, d) && Shows(m, l, mint, e) && d != e
  }

  /** Without a contested mint every iteration order fills in the same map ... */
  lemma OrderDoesNotMatter(m: Accounts, table: map<string, nat>, other: map<string, nat>)
    requires IsTable(m, table) && IsTable(m, other)
    requires forall mint :: !Contested(m, mint)
    ensures Filled(m, table) == Filled(m, other)
  {
    forall k | k in m && m[k].decimals == 0
      ensures FillOne(m[k], table) == FillOne(m[k], other)
    {
      var mint := m[k].mint;
      assert !Contested(m, mint);
      SameMints(m, table, other);
      if mint in table {
        var a :| Shows(m, a, mint, table[mint]);
        var b :| Shows(m, b, mint, other[mint]);
      }
    }
  }

  lemma SameMints(m: Accounts, table: map<string, nat>, other: map<string, nat>)
    requires IsTable(m, table) && IsTable(m, other)
    ensures forall mint :: mint in table <==> mint in other
  {
    forall mint
      ensures mint in table <==> mint in other
    {
      if mint in table {
        var a :| Shows(m, a, mint, table[mint]);
      }
      if mint in other {
        var b :| Shows(m, b, mint, other[mint]);
      }
    }
  }

  lemma {:induction false} SomeOrder(keys: set<string>) returns (order: seq<string>)
    ensures IsKeyOrder(order, keys)
    decreases |keys|
  {
    if keys == {} {
      order := [];
    } else {
      var k := AnyMember(keys);
      var rest := SomeOrder(keys - {k});
      order := rest + [k];
    }
  }

  /** An order that comes to a given account last leaves its decimals in the table. */
  lemma OrderEndingIn(m: Accounts, k: string, mint: string, decimals: nat) returns (order: seq<string>)
    requires Shows(m, k, mint, decimals)
    ensures IsKeyOrder(order, m.Keys) && mint in Collected(m, order) && Collected(m, order)[mint] == decimals
  {
    var rest := SomeOrder(m.Keys - {k});
    order := rest + [k];
    assert order[..|order| - 1] == rest;
  }

  /** ... and with one, two iteration orders disagree: they come last to accounts with different decimals. */
  lemma ContestedMintDependsOnOrder(m: Accounts, mint: string) returns (order: seq<string>, other: seq<string>)
    requires Contested(m, mint)
    ensures IsKeyOrder(order, m.Keys) && IsKeyOrder(other, m.Keys)
    ensures Filled(m, Collected(m, order)) != Filled(m, Collected(m, other))
  {
    var zero :| zero in m && m[zero].mint == mint && m[zero].decimals == 0;
    var k, l, d, e :| Shows(m, k, mint, d) && Shows(m, l, mint, e) && d != e;
    order := OrderEndingIn(m, k, mint, d);
    other := OrderEndingIn(m, l, mint, e);
    hide Collected;
    assert Filled(m, Collected(m, order))[zero].decimals == d;
    assert Filled(m, Collected(m, other))[zero].decimals == e;
  }

  /** The iteration order matters exactly when some mint is contested. */
  lemma OrderMattersIff(m: Accounts)
    ensures (exists order, other :: IsKeyOrder(order, m.Keys) && IsKeyOrder(other, m.Keys)
                                    && Filled(m, Collected(m, order)) != Filled(m, Collected(m, other)))
       <==> exists mint :: Contested(m, mint)
  {
    hide Collected, IsKeyOrder, Filled, Contested;
    if mint :| Contested(m, mint) {
      var order, other := ContestedMintDependsOnOrder(m, mint);
    } else {
      forall order, other | IsKeyOrder(order, m.Keys) && IsKeyOrder(other, m.Keys)
        ensures Filled(m, Collected(m, order)) == Filled(m, Collected(m, other))
      {
        CollectedIsTable(m, order);
        CollectedIsTable(m, other);
        OrderDoesNotMatter(m, Collected(m, order), Collected(m, other));
      }
    }
  }
}
