/** The search for a SOL/USD swap among inner token transfers
    (consumer/internal/logic/sol/block/price.go). */
module TransferScan {
  import opened Bytes
  import opened Constants
  import opened Floats
  import opened Wrappers
  import WireFormat
  import InstructionCodec
  import InstructionBuilders

  const PROGRAM_TOKEN_2022 := "TokenzQdBNbLqP5VEhdkAS6EPFLC1PHnBqCXEpPxuEb"
  const TRANSFER: byte := 3
  const TRANSFER_CHECKED: byte := 12
  const WRAP_SOL := "So11111111111111111111111111111111111111112"
  const USDC := "EPjFWdd5AufqSSqeM2qN1xzybapC8G4wEGGkZwyTDt1v"
  const USDT := "Es9vMFrzaCERmJfrF4H2FYD4KCoNkY11McCe8BenwNYB"

  datatype Instruction = Instruction(programIndex: nat, accounts: seq<nat>, data: seq<byte>)

  datatype Transfer = Transfer(from: string, to: string, auth: string, amount: nat)

  datatype DecodeError = NotTokenProgram | TooFewAccounts | BadDataLength | NotTransfer

  /** What the scan reads of a token account. */
  datatype Account = Account(owner: string, mint: string)

  /** A price as the code computes it: nothing found, or 1000 * dollars / sol with the operands kept. */
  datatype Price = Zero | Quotient(usd: nat, sol: nat)

  /** The float64 a price evaluates to: dividing by zero gives an infinity or no number at all. */
  function Evaluate(p: Price): Float {
    match p
    case Zero => Finite(0.0)
    case Quotient(usd, sol) =>
      if sol == 0 then (if usd == 0 then NotANumber else Infinite)
      else Finite(usd as real / sol as real * 1000.0)
  }

  /** Solana's guarantee that every index of an instruction points into the account keys. */
  predicate IndicesValid(keys: seq<string>, i: Instruction) {
    i.programIndex < |keys| && forall k :: 0 <= k < |i.accounts| ==> i.accounts[k] < |keys|
  }

  function DecodeTokenTransfer(keys: seq<string>, i: Instruction): (r: Result<Transfer, DecodeError>)
    requires IndicesValid(keys, i)
  {
    var is2022 := keys[i.programIndex] == PROGRAM_TOKEN_2022;
    if !is2022 && keys[i.programIndex] != PROGRAM_TOKEN then Failure(NotTokenProgram)
    else if |i.accounts| < 3 then Failure(TooFewAccounts)
    else if |i.data| < 1 then Failure(BadDataLength)
    else if i.data[0] == TRANSFER then
      if |i.data| != 9 then Failure(BadDataLength)
      else Success(Transfer(keys[i.accounts[0]], keys[i.accounts[1]], keys[i.accounts[2]],
                            FromLittleEndian(i.data[1..9])))
    else if i.data[0] == TRANSFER_CHECKED then
      if (if is2022 then |i.data| < 10 else |i.data| != 10) then Failure(BadDataLength)
      else if |i.accounts| < 4 then Failure(TooFewAccounts)
      else Success(Transfer(keys[i.accounts[0]], keys[i.accounts[2]], keys[i.accounts[3]],
                            FromLittleEndian(i.data[1..9])))
    else Failure(NotTransfer)
  }

  function IsSwapTransfer(a: Option<Transfer>, b: Option<Transfer>, accounts: map<string, Account>): bool {
    && a.Some? && b.Some?
    && a.value.from in accounts && a.value.to in accounts
    && b.value.from in accounts && b.value.to in accounts
    && (accounts[a.value.from].owner == accounts[b.value.to].owner
        || accounts[b.value.from].owner == accounts[a.value.to].owner)
  }

  /** What one instruction is to the scan. */
  datatype Leg = NoLeg | SolLeg(transfer: Transfer) | UsdLeg(transfer: Transfer)

  function LegOf(keys: seq<string>, i: Instruction, accounts: map<string, Account>): Leg
    requires IndicesValid(keys, i)
  {
    var d := DecodeTokenTransfer(keys, i);
    if d.Failure? || d.value.from !in accounts || d.value.to !in accounts then NoLeg
    else if accounts[d.value.from].mint == WRAP_SOL then SolLeg(d.value)
    else if accounts[d.value.from].mint in {USDC, USDT} then UsdLeg(d.value)
    else NoLeg
  }

  predicate AllValid(keys: seq<string>, inner: seq<Instruction>) {
    forall i :: 0 <= i < |inner| ==> IndicesValid(keys, inner[i])
  }

  function Legs(keys: seq<string>, inner: seq<Instruction>, accounts: map<string, Account>): (legs: seq<Leg>)
    requires AllValid(keys, inner)
    ensures |legs| == |inner|
  {
    if inner == [] then [] else [LegOf(keys, inner[0], accounts)] + Legs(keys, inner[1..], accounts)
  }

  lemma {:induction false} LegsAt(keys: seq<string>, inner: seq<Instruction>, accounts: map<string, Account>, j: nat)
    requires AllValid(keys, inner) && j < |inner|
    ensures Legs(keys, inner, accounts)[j] == LegOf(keys, inner[j], accounts)
  {
    if j > 0 {
      LegsAt(keys, inner[1..], accounts, j - 1);
    }
  }

  /** Two neighbours that move SOL one way and dollars the other between the same owners. */
  predicate SwapAt(legs: seq<Leg>, accounts: map<string, Account>, i: int) {
    && 0 <= i < |legs| - 1
    && match (legs[i], legs[i + 1])
       case (SolLeg(s), UsdLeg(u)) => IsSwapTransfer(Some(s), Some(u), accounts)
       case (UsdLeg(u), SolLeg(s)) => IsSwapTransfer(Some(s), Some(u), accounts)
       case _ => false
  }

  /** The caller keeps a price when it is above zero: that asks only for dollars moved, so a leg that
      moves no SOL enters the list as an infinity. */
  lemma KeptIffDollarsMoved(p: Price)
    ensures Positive(Evaluate(p)) <==> p.Quotient? && p.usd > 0
    ensures Evaluate(p).Infinite? <==> p.Quotient? && p.usd > 0 && p.sol == 0
  {
    if p.Quotient? && p.usd > 0 && p.sol > 0 {
      assert p.usd as real / p.sol as real > 0.0;
    }
  }

  function PriceAt(legs: seq<Leg>, accounts: map<string, Account>, i: int): Price
    requires SwapAt(legs, accounts, i)
  {
    if legs[i].SolLeg? then Quotient(legs[i + 1].transfer.amount, legs[i].transfer.amount)
    else Quotient(legs[i].transfer.amount, legs[i + 1].transfer.amount)
  }

  predicate FirstSwap(legs: seq<Leg>, accounts: map<string, Account>, i: int) {
    SwapAt(legs, accounts, i) && forall j :: 0 <= j < i ==> !SwapAt(legs, accounts, j)
  }

  /** The price of the first swap at or after position i, and zero when there is none. */
  function Scan(legs: seq<Leg>, accounts: map<string, Account>, i: nat): (price: Price)
    decreases |legs| - i
  {
    if i >= |legs| - 1 then Zero
    else if SwapAt(legs, accounts, i) then PriceAt(legs, accounts, i)
    else Scan(legs, accounts, i + 1)
  }

  /** The search returns the price of the first swap ... */
  lemma {:induction false} ScanFindsFirst(legs: seq<Leg>, accounts: map<string, Account>, i: nat, k: nat)
    requires i <= k && SwapAt(legs, accounts, k)
    requires forall j :: i <= j < k ==> !SwapAt(legs, accounts, j)
    ensures Scan(legs, accounts, i) == PriceAt(legs, accounts, k)
    decreases k - i
  {
    if i < k {
      ScanFindsFirst(legs, accounts, i + 1, k);
    }
  }

  /** ... and nothing exactly when no two neighbours form one. */
  lemma {:induction false} ScanFindsNone(legs: seq<Leg>, accounts: map<string, Account>, i: nat)
    ensures Scan(legs, accounts, i) == Zero <==> forall k :: i <= k ==> !SwapAt(legs, accounts, k)
    decreases |legs| - i
  {
    if i < |legs| - 1 && !SwapAt(legs, accounts, i) {
      ScanFindsNone(legs, accounts, i + 1);
    }
  }

  /** The instruction moves a token of these mints between two known accounts. */
  predicate Moves(keys: seq<string>, i: Instruction, accounts: map<string, Account>, t: Transfer, mints: set<string>)
    requires IndicesValid(keys, i)
  {
    && DecodeTokenTransfer(keys, i) == Success(t) && t.from in accounts && t.to in accounts
    && accounts[t.from].mint in mints
  }

  /** Two instructions that swap SOL for dollars, in either order: one side's payer owns the account the other side
      pays into. */
  predicate SwapOf(keys: seq<string>, a: Instruction, b: Instruction, accounts: map<string, Account>, sol: Transfer,
                   usd: Transfer)
    requires IndicesValid(keys, a) && IndicesValid(keys, b)
  {
    && ((Moves(keys, a, accounts, sol, {WRAP_SOL}) && Moves(keys, b, accounts, usd, {USDC, USDT}))
        || (Moves(keys, a, accounts, usd, {USDC, USDT}) && Moves(keys, b, accounts, sol, {WRAP_SOL})))
    && (accounts[sol.from].owner == accounts[usd.to].owner || accounts[usd.from].owner == accounts[sol.to].owner)
  }

  predicate SwapsAt(keys: seq<string>, inner: seq<Instruction>, accounts: map<string, Account>, k: nat, sol: Transfer,
                    usd: Transfer)
    requires AllValid(keys, inner)
  {
    k + 1 < |inner| && SwapOf(keys, inner[k], inner[k + 1], accounts, sol, usd)
  }

  lemma DifferentMints()
    ensures WRAP_SOL != USDC && WRAP_SOL != USDT
  {
    assert WRAP_SOL[0] == 'S' && USDC[0] == 'E' && USDT[0] == 'E';
  }

  /** What the legs call a swap is one of the two transfers themselves, and its price keeps their amounts. */
  lemma SwapAtShows(keys: seq<string>, inner: seq<Instruction>, accounts: map<string, Account>, k: nat, sol: Transfer,
                    usd: Transfer)
    requires AllValid(keys, inner) && SwapsAt(keys, inner, accounts, k, sol, usd)
    ensures var legs := Legs(keys, inner, accounts);
            SwapAt(legs, accounts, k) && PriceAt(legs, accounts, k) == Quotient(usd.amount, sol.amount)
  {
    DifferentMints();
    LegsAt(keys, inner, accounts, k);
    LegsAt(keys, inner, accounts, k + 1);
    hide Legs, DecodeTokenTransfer;
  }

  lemma SwapAtIsSwap(keys: seq<string>, inner: seq<Instruction>, accounts: map<string, Account>, k: nat)
    requires AllValid(keys, inner) && SwapAt(Legs(keys, inner, accounts), accounts, k)
    ensures exists sol, usd :: SwapsAt(keys, inner, accounts, k, sol, usd)
  {
    LegsAt(keys, inner, accounts, k);
    LegsAt(keys, inner, accounts, k + 1);
    hide Legs, DecodeTokenTransfer;
    var legs := Legs(keys, inner, accounts);
    var sol := if legs[k].SolLeg? then legs[k].transfer else legs[k + 1].transfer;
    var usd := if legs[k].SolLeg? then legs[k + 1].transfer else legs[k].transfer;
    assert SwapsAt(keys, inner, accounts, k, sol, usd);
  }

  /** No two of the first k + 1 instructions are a swap. */
  ghost predicate NoSwapBefore(keys: seq<string>, inner: seq<Instruction>, accounts: map<string, Account>, k: nat)
    requires AllValid(keys, inner)
  {
    forall j: nat, sol, usd :: j < k ==> !SwapsAt(keys, inner, accounts, j, sol, usd)
  }

  lemma NoLegsBefore(keys: seq<string>, inner: seq<Instruction>, accounts: map<string, Account>, k: nat)
    requires AllValid(keys, inner) && NoSwapBefore(keys, inner, accounts, k)
    ensures forall j :: 0 <= j < k ==> !SwapAt(Legs(keys, inner, accounts), accounts, j)
  {
    hide Legs, SwapsAt, SwapAt;
    forall j | 0 <= j < k
      ensures !SwapAt(Legs(keys, inner, accounts), accounts, j)
    {
      if SwapAt(Legs(keys, inner, accounts), accounts, j) {
        SwapAtIsSwap(keys, inner, accounts, j);
      }
    }
  }

  /** The price of the first swap among neighbouring instructions is a thousand times the dollars moved for one unit of
      SOL, whichever leg comes first; it is an infinity when no SOL moved for some dollars. */
  lemma FirstSwapPrices(keys: seq<string>, inner: seq<Instruction>, accounts: map<string, Account>, k: nat,
                        sol: Transfer, usd: Transfer)
    requires AllValid(keys, inner) && SwapsAt(keys, inner, accounts, k, sol, usd)
    requires NoSwapBefore(keys, inner, accounts, k)
    ensures var price := Evaluate(Scan(Legs(keys, inner, accounts), accounts, 0));
            && (sol.amount > 0 ==> price.Finite? && price.value * sol.amount as real == 1000.0 * usd.amount as real)
            && (sol.amount == 0 ==> price == if usd.amount == 0 then NotANumber else Infinite)
  {
    hide Legs, SwapsAt, SwapAt, PriceAt, Scan, Evaluate, NoSwapBefore, AllValid;
    SwapAtShows(keys, inner, accounts, k, sol, usd);
    NoLegsBefore(keys, inner, accounts, k);
    ScanFindsFirst(Legs(keys, inner, accounts), accounts, 0, k);
    QuotientPrices(usd.amount, sol.amount);
  }

  lemma QuotientPrices(usd: nat, sol: nat)
    ensures var price := Evaluate(Quotient(usd, sol));
            && (sol > 0 ==> price.Finite? && price.value * sol as real == 1000.0 * usd as real)
            && (sol == 0 ==> price == if usd == 0 then NotANumber else Infinite)
  {
    if sol > 0 {
      Proportion(usd as real, sol as real);
    }
  }

  lemma Proportion(x: real, y: real)
    requires y > 0.0
    ensures x / y * 1000.0 * y == 1000.0 * x
  {
    assert x / y * y == x;
  }

  /** Without such neighbours there is no price. */
  lemma NoSwapNoPrice(keys: seq<string>, inner: seq<Instruction>, accounts: map<string, Account>)
    requires AllValid(keys, inner) && NoSwapBefore(keys, inner, accounts, |inner|)
    ensures Evaluate(Scan(Legs(keys, inner, accounts), accounts, 0)) == ZERO
  {
    hide Legs, SwapsAt, PriceAt, Scan, NoSwapBefore, AllValid;
    NoLegsBefore(keys, inner, accounts, |inner|);
    ScanFindsNone(Legs(keys, inner, accounts), accounts, 0);
  }

  /** What is pending after a prefix that ends with the given leg: that leg alone, if it moves SOL or dollars. */
  predicate Pending(last: Leg, sol: Option<Transfer>, usd: Option<Transfer>, connect: bool) {
    match last
    case NoLeg => sol.None? && usd.None? && !connect
    case SolLeg(t) => sol == Some(t) && usd.None? && connect
    case UsdLeg(t) => sol.None? && usd == Some(t) && connect
  }

  /** The pending-transfer loop returns the price of the first swap among neighbours. */
  method GetBlockSolPriceByTransfer(keys: seq<string>, inner: Option<seq<Instruction>>, accounts: map<string, Account>)
    returns (solPrice: Price)
    requires inner.Some? ==> AllValid(keys, inner.value)
    ensures solPrice == if inner.None? then Zero else Scan(Legs(keys, inner.value, accounts), accounts, 0)
  {
    hide Legs, DecodeTokenTransfer, IsSwapTransfer;
    if inner.None? {
      return Zero;
    }
    ghost var legs := Legs(keys, inner.value, accounts);
    var transferSOL: Option<Transfer>, transferUSD: Option<Transfer>, connect := None, None, false;
    var j := 0;
    while j < |inner.value|
      invariant 0 <= j <= |inner.value|
      invariant Pending(if j == 0 then NoLeg else legs[j - 1], transferSOL, transferUSD, connect)
      invariant Scan(legs, accounts, 0) == Scan(legs, accounts, if j == 0 then 0 else j - 1)
    {
      LegsAt(keys, inner.value, accounts, j);
      var d := DecodeTokenTransfer(keys, inner.value[j]);
      if d.Failure? || d.value.from !in accounts || d.value.to !in accounts {
        transferSOL, transferUSD, connect := None, None, false;
        j := j + 1;
        continue;
      }
      var transfer := d.value;
      var mint := accounts[transfer.from].mint;
      if mint == WRAP_SOL {
        transferSOL := Some(transfer);
        if connect && transferUSD.Some? {
          solPrice := Quotient(transferUSD.value.amount, transferSOL.value.amount);
          if IsSwapTransfer(transferSOL, transferUSD, accounts) {
            break;
          } else {
            transferUSD := None;
          }
        }
        connect := true;
      } else if mint == USDC || mint == USDT {
        transferUSD := Some(transfer);
        if connect && transferSOL.Some? {
          solPrice := Quotient(transferUSD.value.amount, transferSOL.value.amount);
          if IsSwapTransfer(transferSOL, transferUSD, accounts) {
            break;
          } else {
            transferSOL := None;
          }
        }
        connect := true;
      } else {
        transferSOL, transferUSD, connect := None, None, false;
      }
      j := j + 1;
    }
    if transferSOL.Some? && transferUSD.Some? && connect {
      solPrice := Quotient(transferUSD.value.amount, transferSOL.value.amount);
    } else {
      solPrice := Zero;
    }
  }

  /** Once a swap is found, instructions appended after it never change the price. */
  lemma LaterLegsDoNotMatter(legs: seq<Leg>, more: seq<Leg>, accounts: map<string, Account>, i: int)
    requires FirstSwap(legs, accounts, i)
    ensures Scan(legs, accounts, 0) == PriceAt(legs, accounts, i) == Scan(legs + more, accounts, 0)
  {
    forall j | 0 <= j <= i
      ensures SwapAt(legs + more, accounts, j) == SwapAt(legs, accounts, j)
    {
      assert (legs + more)[j] == legs[j] && (legs + more)[j + 1] == legs[j + 1];
    }
    ScanFindsFirst(legs, accounts, 0, i);
    ScanFindsFirst(legs + more, accounts, 0, i);
  }

  /** Which side is called the first transfer does not matter to the owner test. */
  lemma SwapTransferSymmetric(a: Option<Transfer>, b: Option<Transfer>, accounts: map<string, Account>)
    ensures IsSwapTransfer(a, b, accounts) == IsSwapTransfer(b, a, accounts)
  {
  }

  /** What decodes as a transfer, exactly: three accounts and nine bytes for a plain one, four accounts and ten bytes
      for a checked one, which the newer program also takes longer. */
  lemma TransferDecodesIff(keys: seq<string>, i: Instruction)
    requires IndicesValid(keys, i)
    ensures var newer := keys[i.programIndex] == PROGRAM_TOKEN_2022;
            DecodeTokenTransfer(keys, i).Success? <==>
              && keys[i.programIndex] in {PROGRAM_TOKEN, PROGRAM_TOKEN_2022}
              && ((|i.data| == 9 && i.data[0] == 3 && |i.accounts| >= 3)
                  || (|i.data| >= 10 && i.data[0] == 12 && |i.accounts| >= 4 && (newer || |i.data| == 10)))
  {
  }

  /** The two token programs decode alike except for long checked transfers, which only the newer one takes. */
  lemma ProgramsDecodeAlike(keys: seq<string>, instr: Instruction, new2022: nat)
    requires IndicesValid(keys, instr) && new2022 < |keys|
    requires keys[instr.programIndex] == PROGRAM_TOKEN && keys[new2022] == PROGRAM_TOKEN_2022
    ensures var newer := instr.(programIndex := new2022);
            var a, b := DecodeTokenTransfer(keys, instr), DecodeTokenTransfer(keys, newer);
            (a == b <==> !(|instr.accounts| >= 3 && |instr.data| > 10 && instr.data[0] == TRANSFER_CHECKED))
            && (a.Success? ==> b == a)
  {
  }

  /** The checked transfer the builder makes is seen as moving its amount from the source to the destination on the
      owner's authority, under either token program. */
  lemma BuiltTransferIsSeen(keys: seq<string>, i: Instruction, amount: WireFormat.uint64, decimals: WireFormat.uint8,
                            source: WireFormat.Key, mint: WireFormat.Key, destination: WireFormat.Key,
                            owner: WireFormat.Key, signers: seq<WireFormat.Key>)
    requires IndicesValid(keys, i) && keys[i.programIndex] in {PROGRAM_TOKEN, PROGRAM_TOKEN_2022} && |i.accounts| >= 4
    requires var built := InstructionBuilders.TransferCheckedOf(amount, decimals, source, mint, destination, owner,
                                                                signers);
             InstructionCodec.WellTyped(built) && i.data == InstructionCodec.Data(built)
    ensures DecodeTokenTransfer(keys, i)
         == Success(Transfer(keys[i.accounts[0]], keys[i.accounts[2]], keys[i.accounts[3]], amount))
  {
    InstructionBuilders.TransferCheckedDecodes(amount, decimals, source, mint, destination, owner, signers);
    WireFormat.Widths();
    hide LittleEndian, FromLittleEndian, Radix, InstructionCodec.Data;
    assert i.data[1..9] == LittleEndian(amount, 8);
    NumberRoundTrip(amount, 8);
  }

  /** So is the plain transfer of an amount, with its three accounts. */
  lemma PlainTransferIsSeen(keys: seq<string>, i: Instruction, amount: WireFormat.uint64)
    requires IndicesValid(keys, i) && keys[i.programIndex] in {PROGRAM_TOKEN, PROGRAM_TOKEN_2022} && |i.accounts| >= 3
    requires i.data == [TRANSFER] + LittleEndian(amount, 8)
    ensures DecodeTokenTransfer(keys, i)
         == Success(Transfer(keys[i.accounts[0]], keys[i.accounts[1]], keys[i.accounts[2]], amount))
  {
    WireFormat.Widths();
    hide LittleEndian, FromLittleEndian, Radix;
    assert i.data[1..9] == LittleEndian(amount, 8);
    NumberRoundTrip(amount, 8);
  }
}
