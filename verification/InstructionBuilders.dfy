/** The builders of three instructions (pkg/sol/token2022_new/SetAuthority.go, TransferChecked.go, InitializeMint.go):
    setters assign pointers and append signers, validation looks for the first thing missing. */
module InstructionBuilders {
  import opened Bytes
  import opened Wrappers
  import opened WireFormat
  import opened InstructionCodec

  /** What validation reports; parameters and accounts are counted from 0. */
  datatype Invalid = ParameterNotSet(index: nat) | AccountNotSet(index: nat) | SignersNotSet | TooManySigners

  /** The account that authorises an instruction signs it itself exactly when no multisignature signers do. */
  function OwnerSlot(owner: Key, multisigSigners: seq<Key>): Slot {
    Some(Meta(owner, multisigSigners == [], false))
  }

  function SignerSlots(keys: seq<Key>): (slots: seq<Slot>)
    ensures |slots| == |keys|
  {
    if keys == [] then [] else SignerSlots(keys[..|keys| - 1]) + [Some(Meta(keys[|keys| - 1], true, false))]
  }

  function FirstFalse(flags: seq<bool>): (at: Option<nat>)
    ensures at.None? ==> forall i :: 0 <= i < |flags| ==> flags[i]
    ensures at.Some? ==> at.value < |flags| && !flags[at.value] && forall i :: 0 <= i < at.value ==> flags[i]
  {
    if flags == [] then None
    else
      var before := FirstFalse(flags[..|flags| - 1]);
      if before.Some? then before else if flags[|flags| - 1] then None else Some(|flags| - 1)
  }

  function AreSet(slots: seq<Slot>, n: nat): (flags: seq<bool>)
    requires n <= |slots|
    ensures |flags| == n && forall i :: 0 <= i < n ==> flags[i] == slots[i].Some?
  {
    seq(n, i requires 0 <= i < n => slots[i].Some?)
  }

  /** The first problem with an instruction: a parameter not set, one of its n named accounts not set, nobody signing,
      or too many signing. The last named account is the one that authorises. */
  function Problem(params: seq<bool>, accounts: seq<Slot>, n: nat, signers: seq<Slot>): (problem: Option<Invalid>)
    requires 0 < n <= |accounts|
    ensures problem.None? <==>
              && (forall i :: 0 <= i < |params| ==> params[i]) && (forall i :: 0 <= i < n ==> accounts[i].Some?)
              && (accounts[n - 1].value.isSigner || signers != []) && |signers| <= 11
    ensures forall i: nat :: problem == Some(ParameterNotSet(i)) ==>
              i < |params| && !params[i] && forall j :: 0 <= j < i ==> params[j]
    ensures forall i: nat :: problem == Some(AccountNotSet(i)) ==>
              && (forall j :: 0 <= j < |params| ==> params[j]) && i < n && accounts[i].None?
              && forall j :: 0 <= j < i ==> accounts[j].Some?
    ensures problem == Some(SignersNotSet) <==>
              && (forall i :: 0 <= i < |params| ==> params[i]) && (forall i :: 0 <= i < n ==> accounts[i].Some?)
              && !accounts[n - 1].value.isSigner && signers == []
    ensures problem == Some(TooManySigners) ==> |signers| > 11
  {
    var param, account := FirstFalse(params), FirstFalse(AreSet(accounts, n));
    if param.Some? then Some(ParameterNotSet(param.value))
    else if account.Some? then Some(AccountNotSet(account.value))
    else if !accounts[n - 1].value.isSigner && signers == [] then Some(SignersNotSet)
    else if |signers| > MAX_SIGNERS then Some(TooManySigners)
    else None
  }

  class SetAuthority {
    var authorityType: Option<uint8>
    var newAuthority: Option<Key>
    var accounts: seq<Slot>
    var signers: seq<Slot>

    constructor ()
      ensures authorityType == None && newAuthority == None && accounts == [None, None] && signers == []
    {
      authorityType, newAuthority, accounts, signers := None, None, [None, None], [];
    }

    method SetAuthorityType(authorityType: uint8)
      modifies this`authorityType
      ensures this.authorityType == Some(authorityType)
    {
      this.authorityType := Some(authorityType);
    }

    method SetNewAuthority(newAuthority: Key)
      modifies this`newAuthority
      ensures this.newAuthority == Some(newAuthority)
    {
      this.newAuthority := Some(newAuthority);
    }

    method SetSubjectAccount(subject: Key)
      requires |accounts| >= 2
      modifies this`accounts
      ensures accounts == old(accounts)[0 := Some(Meta(subject, false, true))]
    {
      accounts := accounts[0 := Some(Meta(subject, false, true))];
    }

    /** A second call replaces the authority but keeps the signers of the first. */
    method SetAuthorityAccount(authority: Key, multisigSigners: seq<Key>)
      requires |accounts| >= 2
      modifies this`accounts, this`signers
      ensures accounts == old(accounts)[1 := OwnerSlot(authority, multisigSigners)]
      ensures signers == old(signers) + SignerSlots(multisigSigners)
    {
      accounts := accounts[1 := Some(Meta(authority, false, false))];
      if |multisigSigners| == 0 {
        accounts := accounts[1 := Some(accounts[1].value.(isSigner := true))];
      }
      for i := 0 to |multisigSigners|
        invariant signers == old(signers) + SignerSlots(multisigSigners[..i])
        invariant accounts == old(accounts)[1 := OwnerSlot(authority, multisigSigners)]
      {
        assert multisigSigners[..i + 1][..i] == multisigSigners[..i];
        signers := signers + [Some(Meta(multisigSigners[i], true, false))];
      }
      assert multisigSigners[..|multisigSigners|] == multisigSigners;
    }

    method Validate() returns (problem: Option<Invalid>)
      requires |accounts| >= 2
      ensures problem == Problem([authorityType.Some?], accounts, 2, signers)
    {
      if authorityType.None? {
        return Some(ParameterNotSet(0));
      }
      if accounts[0].None? {
        return Some(AccountNotSet(0));
      }
      if accounts[1].None? {
        return Some(AccountNotSet(1));
      }
      if !accounts[1].value.isSigner && |signers| == 0 {
        return Some(SignersNotSet);
      }
      if |signers| > MAX_SIGNERS {
        return Some(TooManySigners);
      }
      return None;
    }

    /** An instruction is built exactly when validation finds nothing, and with no account beyond the two it decodes to
        itself from what it sends. */
    method ValidateAndBuild() returns (r: Result<Instruction, Invalid>)
      requires |accounts| >= 2
      ensures r.Success? <==> Problem([authorityType.Some?], accounts, 2, signers).None?
      ensures r.Failure? ==> Problem([authorityType.Some?], accounts, 2, signers) == Some(r.error)
      ensures r.Success? ==>
                && authorityType.Some? && WellTyped(r.value)
                && r.value == Instruction(SET_AUTHORITY, [Number(authorityType.value), MaybeKey(newAuthority)],
                                          accounts, signers)
                && (|accounts| == 2 ==> Parsed(Accounts(r.value), Data(r.value)) == Success(r.value))
    {
      var problem := Validate();
      if problem.Some? {
        return Failure(problem.value);
      }
      var inst := Instruction(SET_AUTHORITY, [Number(authorityType.value), MaybeKey(newAuthority)], accounts, signers);
      Widths();
      if |accounts| == 2 {
        OwnDataDecodes(inst);
      }
      return Success(inst);
    }
  }

  /** The instruction a call of the constructor and a validation lead to. */
  function SetAuthorityOf(authorityType: uint8, newAuthority: Key, subject: Key, authority: Key, signers: seq<Key>)
    : Instruction
  {
    Instruction(SET_AUTHORITY, [Number(authorityType), MaybeKey(Some(newAuthority))],
                [Some(Meta(subject, false, true)), OwnerSlot(authority, signers)], SignerSlots(signers))
  }

  /** The constructor: a builder with everything set. */
  method NewSetAuthorityInstruction(authorityType: uint8, newAuthority: Key, subject: Key, authority: Key,
                                    multisigSigners: seq<Key>)
    returns (inst: SetAuthority)
    ensures fresh(inst) && inst.authorityType == Some(authorityType) && inst.newAuthority == Some(newAuthority)
    ensures var of := SetAuthorityOf(authorityType, newAuthority, subject, authority, multisigSigners);
            inst.accounts == of.accounts && inst.signers == of.signers
  {
    inst := new SetAuthority();
    inst.SetAuthorityType(authorityType);
    inst.SetNewAuthority(newAuthority);
    inst.SetSubjectAccount(subject);
    inst.SetAuthorityAccount(authority, multisigSigners);
  }

  /** Only too many signers can keep what the constructor returns from being built. */
  method BuildSetAuthority(authorityType: uint8, newAuthority: Key, subject: Key, authority: Key,
                           multisigSigners: seq<Key>)
    returns (r: Result<Instruction, Invalid>)
    ensures r == if |multisigSigners| > 11 then Failure(TooManySigners)
                 else Success(SetAuthorityOf(authorityType, newAuthority, subject, authority, multisigSigners))
  {
    var inst := NewSetAuthorityInstruction(authorityType, newAuthority, subject, authority, multisigSigners);
    r := inst.ValidateAndBuild();
  }

  lemma SetAuthorityTyped(authorityType: uint8, newAuthority: Key, subject: Key, authority: Key, signers: seq<Key>)
    ensures WellTyped(SetAuthorityOf(authorityType, newAuthority, subject, authority, signers))
  {
    Widths();
  }

  lemma SetAuthorityData(authorityType: uint8, newAuthority: Key, subject: Key, authority: Key, signers: seq<Key>)
    ensures var inst := SetAuthorityOf(authorityType, newAuthority, subject, authority, signers);
            WellTyped(inst) && Data(inst) == [6, authorityType as byte, 1] + newAuthority
  {
    hide WellTyped, Data, OwnerSlot, SignerSlots;
    SetAuthorityTyped(authorityType, newAuthority, subject, authority, signers);
    DataLayout(SetAuthorityOf(authorityType, newAuthority, subject, authority, signers));
    OneByte(authorityType);
  }

  /** What is built takes 35 bytes and is restored by decoding them: variant, parameters, accounts and signers. */
  lemma SetAuthorityDecodes(authorityType: uint8, newAuthority: Key, subject: Key, authority: Key, signers: seq<Key>)
    ensures var inst := SetAuthorityOf(authorityType, newAuthority, subject, authority, signers);
            && WellTyped(inst) && Parsed(Accounts(inst), Data(inst)) == Success(inst)
            && Data(inst) == [6, authorityType as byte, 1] + newAuthority && |Data(inst)| == 35
            && inst.accounts == [Some(Meta(subject, false, true)), Some(Meta(authority, signers == [], false))]
            && |inst.signers| == |signers|
            && forall i :: 0 <= i < |signers| ==> inst.signers[i] == Some(Meta(signers[i], true, false))
  {
    hide WellTyped, Data, Parsed, SignerSlots;
    SetAuthorityData(authorityType, newAuthority, subject, authority, signers);
    OwnDataDecodes(SetAuthorityOf(authorityType, newAuthority, subject, authority, signers));
    SignersAt(signers);
  }

  lemma {:induction false} SignersAt(keys: seq<Key>)
    ensures forall i :: 0 <= i < |keys| ==> SignerSlots(keys)[i] == Some(Meta(keys[i], true, false))
  {
    if keys != [] {
      SignersAt(keys[..|keys| - 1]);
    }
  }

  class TransferChecked {
    var amount: Option<uint64>
    var decimals: Option<uint8>
    var accounts: seq<Slot>
    var signers: seq<Slot>

    constructor ()
      ensures amount == None && decimals == None && accounts == [None, None, None, None] && signers == []
    {
      amount, decimals, accounts, signers := None, None, [None, None, None, None], [];
    }

    method SetAmount(amount: uint64)
      modifies this`amount
      ensures this.amount == Some(amount)
    {
      this.amount := Some(amount);
    }

    method SetDecimals(decimals: uint8)
      modifies this`decimals
      ensures this.decimals == Some(decimals)
    {
      this.decimals := Some(decimals);
    }

    method SetSourceAccount(source: Key)
      requires |accounts| >= 4
      modifies this`accounts
      ensures accounts == old(accounts)[0 := Some(Meta(source, false, true))]
    {
      accounts := accounts[0 := Some(Meta(source, false, true))];
    }

    method SetMintAccount(mint: Key)
      requires |accounts| >= 4
      modifies this`accounts
      ensures accounts == old(accounts)[1 := Some(Meta(mint, false, false))]
    {
      accounts := accounts[1 := Some(Meta(mint, false, false))];
    }

    method SetDestinationAccount(destination: Key)
      requires |accounts| >= 4
      modifies this`accounts
      ensures accounts == old(accounts)[2 := Some(Meta(destination, false, true))]
    {
      accounts := accounts[2 := Some(Meta(destination, false, true))];
    }

    method SetOwnerAccount(owner: Key, multisigSigners: seq<Key>)
      requires |accounts| >= 4
      modifies this`accounts, this`signers
      ensures accounts == old(accounts)[3 := OwnerSlot(owner, multisigSigners)]
      ensures signers == old(signers) + SignerSlots(multisigSigners)
    {
      accounts := accounts[3 := Some(Meta(owner, false, false))];
      if |multisigSigners| == 0 {
        accounts := accounts[3 := Some(accounts[3].value.(isSigner := true))];
      }
      for i := 0 to |multisigSigners|
        invariant signers == old(signers) + SignerSlots(multisigSigners[..i])
        invariant accounts == old(accounts)[3 := OwnerSlot(owner, multisigSigners)]
      {
        assert multisigSigners[..i + 1][..i] == multisigSigners[..i];
        signers := signers + [Some(Meta(multisigSigners[i], true, false))];
      }
      assert multisigSigners[..|multisigSigners|] == multisigSigners;
    }

    method Validate() returns (problem: Option<Invalid>)
      requires |accounts| >= 4
      ensures problem == Problem([amount.Some?, decimals.Some?], accounts, 4, signers)
    {
      ghost var params, flags := [amount.Some?, decimals.Some?], AreSet(accounts, 4);
      assert params[0] == amount.Some? && params[1] == decimals.Some?;
      assert flags[0] == accounts[0].Some? && flags[1] == accounts[1].Some?;
      assert flags[2] == accounts[2].Some? && flags[3] == accounts[3].Some?;
      if amount.None? {
        return Some(ParameterNotSet(0));
      }
      if decimals.None? {
        return Some(ParameterNotSet(1));
      }
      if accounts[0].None? {
        return Some(AccountNotSet(0));
      }
      if accounts[1].None? {
        return Some(AccountNotSet(1));
      }
      if accounts[2].None? {
        return Some(AccountNotSet(2));
      }
      if accounts[3].None? {
        return Some(AccountNotSet(3));
      }
      if !accounts[3].value.isSigner && |signers| == 0 {
        return Some(SignersNotSet);
      }
      if |signers| > MAX_SIGNERS {
        return Some(TooManySigners);
      }
      return None;
    }

    method ValidateAndBuild() returns (r: Result<Instruction, Invalid>)
      requires |accounts| >= 4
      ensures r.Success? <==> Problem([amount.Some?, decimals.Some?], accounts, 4, signers).None?
      ensures r.Failure? ==> Problem([amount.Some?, decimals.Some?], accounts, 4, signers) == Some(r.error)
      ensures r.Success? ==>
                && amount.Some? && decimals.Some? && WellTyped(r.value)
                && r.value == Instruction(TRANSFER_CHECKED, [Number(amount.value), Number(decimals.value)],
                                          accounts, signers)
                && (|accounts| == 4 ==> Parsed(Accounts(r.value), Data(r.value)) == Success(r.value))
    {
      var problem := Validate();
      if problem.Some? {
        return Failure(problem.value);
      }
      assert [amount.Some?, decimals.Some?][0] && [amount.Some?, decimals.Some?][1];
      var inst := Instruction(TRANSFER_CHECKED, [Number(amount.value), Number(decimals.value)], accounts, signers);
      Widths();
      if |accounts| == 4 {
        OwnDataDecodes(inst);
      }
      return Success(inst);
    }
  }

  function TransferCheckedOf(amount: uint64, decimals: uint8, source: Key, mint: Key, destination: Key, owner: Key,
                             signers: seq<Key>)
    : Instruction
  {
    Instruction(TRANSFER_CHECKED, [Number(amount), Number(decimals)],
                [Some(Meta(source, false, true)), Some(Meta(mint, false, false)), Some(Meta(destination, false, true)),
                 OwnerSlot(owner, signers)],
                SignerSlots(signers))
  }

  method NewTransferCheckedInstruction(amount: uint64, decimals: uint8, source: Key, mint: Key, destination: Key,
                                       owner: Key, multisigSigners: seq<Key>)
    returns (inst: TransferChecked)
    ensures fresh(inst) && inst.amount == Some(amount) && inst.decimals == Some(decimals)
    ensures var of := TransferCheckedOf(amount, decimals, source, mint, destination, owner, multisigSigners);
            inst.accounts == of.accounts && inst.signers == of.signers
  {
    inst := new TransferChecked();
    inst.SetAmount(amount);
    inst.SetDecimals(decimals);
    inst.SetSourceAccount(source);
    inst.SetMintAccount(mint);
    inst.SetDestinationAccount(destination);
    inst.SetOwnerAccount(owner, multisigSigners);
  }

  method BuildTransferChecked(amount: uint64, decimals: uint8, source: Key, mint: Key, destination: Key, owner: Key,
                              multisigSigners: seq<Key>)
    returns (r: Result<Instruction, Invalid>)
    ensures r == if |multisigSigners| > 11 then Failure(TooManySigners)
                 else Success(TransferCheckedOf(amount, decimals, source, mint, destination, owner, multisigSigners))
  {
    var inst := NewTransferCheckedInstruction(amount, decimals, source, mint, destination, owner, multisigSigners);
    r := inst.ValidateAndBuild();
  }

  /** Variant byte, eight bytes of amount, one of decimals; and the accounts split back after the owner. */
  lemma TransferCheckedDecodes(amount: uint64, decimals: uint8, source: Key, mint: Key, destination: Key, owner: Key,
                               signers: seq<Key>)
    ensures var inst := TransferCheckedOf(amount, decimals, source, mint, destination, owner, signers);
            WellTyped(inst) && Parsed(Accounts(inst), Data(inst)) == Success(inst)
            && Data(inst) == [12] + LittleEndian(amount, 8) + [decimals as byte]
            && inst.accounts == [Some(Meta(source, false, true)), Some(Meta(mint, false, false)),
                                 Some(Meta(destination, false, true)), Some(Meta(owner, signers == [], false))]
            && |inst.signers| == |signers|
            && forall i :: 0 <= i < |signers| ==> inst.signers[i] == Some(Meta(signers[i], true, false))
  {
    hide WellTyped, Data, Parsed, SignerSlots;
    TransferCheckedData(amount, decimals, source, mint, destination, owner, signers);
    OwnDataDecodes(TransferCheckedOf(amount, decimals, source, mint, destination, owner, signers));
    SignersAt(signers);
  }

  lemma TransferCheckedTyped(amount: uint64, decimals: uint8, source: Key, mint: Key, destination: Key, owner: Key,
                             signers: seq<Key>)
    ensures WellTyped(TransferCheckedOf(amount, decimals, source, mint, destination, owner, signers))
  {
    Widths();
  }

  lemma TransferCheckedData(amount: uint64, decimals: uint8, source: Key, mint: Key, destination: Key, owner: Key,
                            signers: seq<Key>)
    ensures var inst := TransferCheckedOf(amount, decimals, source, mint, destination, owner, signers);
            WellTyped(inst) && Data(inst) == [12] + LittleEndian(amount, 8) + [decimals as byte]
  {
    hide WellTyped, Data, OwnerSlot, SignerSlots;
    TransferCheckedTyped(amount, decimals, source, mint, destination, owner, signers);
    DataLayout(TransferCheckedOf(amount, decimals, source, mint, destination, owner, signers));
    OneByte(decimals);
  }

  class InitializeMint {
    var decimals: Option<uint8>
    var mintAuthority: Option<Key>
    var freezeAuthority: Option<Key>
    var accounts: seq<Slot>

    /** The rent account is there from the start. */
    constructor (rent: Key)
      ensures decimals == None && mintAuthority == None && freezeAuthority == None
      ensures accounts == [None, Some(Meta(rent, false, false))]
    {
      decimals, mintAuthority, freezeAuthority := None, None, None;
      accounts := [None, Some(Meta(rent, false, false))];
    }

    method SetDecimals(decimals: uint8)
      modifies this`decimals
      ensures this.decimals == Some(decimals)
    {
      this.decimals := Some(decimals);
    }

    method SetMintAuthority(mintAuthority: Key)
      modifies this`mintAuthority
      ensures this.mintAuthority == Some(mintAuthority)
    {
      this.mintAuthority := Some(mintAuthority);
    }

    method SetFreezeAuthority(freezeAuthority: Key)
      modifies this`freezeAuthority
      ensures this.freezeAuthority == Some(freezeAuthority)
    {
      this.freezeAuthority := Some(freezeAuthority);
    }

    method SetMintAccount(mint: Key)
      requires |accounts| >= 2
      modifies this`accounts
      ensures accounts == old(accounts)[0 := Some(Meta(mint, false, true))]
    {
      accounts := accounts[0 := Some(Meta(mint, false, true))];
    }

    method SetSysVarRentPubkeyAccount(rent: Key)
      requires |accounts| >= 2
      modifies this`accounts
      ensures accounts == old(accounts)[1 := Some(Meta(rent, false, false))]
    {
      accounts := accounts[1 := Some(Meta(rent, false, false))];
    }

    /** The initialisation needs no signer: it is built exactly when both parameters and both accounts are set, with or
        without a freeze authority, and always decodes to itself from what it sends. */
    method ValidateAndBuild() returns (r: Result<Instruction, Invalid>)
      requires |accounts| >= 2
      ensures r.Success? <==> FirstFalse([decimals.Some?, mintAuthority.Some?] + AreSet(accounts, 2)).None?
      ensures r.Failure? ==>
                var at := FirstFalse([decimals.Some?, mintAuthority.Some?] + AreSet(accounts, 2)).value;
                r.error == if at < 2 then ParameterNotSet(at) else AccountNotSet(at - 2)
      ensures r.Success? ==>
                && decimals.Some? && mintAuthority.Some?
                && r.value == InitializeMintOf(decimals.value, mintAuthority.value, freezeAuthority, accounts)
                && WellTyped(r.value)
                && Parsed(accounts, Data(r.value)) == Success(r.value)
                && |Data(r.value)| == if freezeAuthority.Some? then 67 else 35
    {
      ghost var flags := [decimals.Some?, mintAuthority.Some?] + AreSet(accounts, 2);
      assert flags[0] == decimals.Some? && flags[1] == mintAuthority.Some?;
      assert flags[2] == accounts[0].Some? && flags[3] == accounts[1].Some?;
      hide FirstFalse;
      if decimals.None? {
        return Failure(ParameterNotSet(0));
      }
      if mintAuthority.None? {
        return Failure(ParameterNotSet(1));
      }
      if accounts[0].None? {
        return Failure(AccountNotSet(0));
      }
      if accounts[1].None? {
        return Failure(AccountNotSet(1));
      }
      InitializeMintDecodes(decimals.value, mintAuthority.value, freezeAuthority, accounts);
      return Success(InitializeMintOf(decimals.value, mintAuthority.value, freezeAuthority, accounts));
    }
  }

  function InitializeMintOf(decimals: uint8, mintAuthority: Key, freezeAuthority: Option<Key>, accounts: seq<Slot>)
    : Instruction
  {
    Instruction(INITIALIZE_MINT, [Number(decimals), RawKey(mintAuthority), MaybeKey(freezeAuthority)], accounts, [])
  }

  /** What the constructor returns can always be built; it always names a freeze authority. */
  method BuildInitializeMint(sysVarRent: Key, decimals: uint8, mintAuthority: Key, freezeAuthority: Key, mint: Key,
                             rent: Key)
    returns (r: Result<Instruction, Invalid>)
    ensures r == Success(InitializeMintOf(decimals, mintAuthority, Some(freezeAuthority),
                                          [Some(Meta(mint, false, true)), Some(Meta(rent, false, false))]))
  {
    var inst := new InitializeMint(sysVarRent);
    inst.SetDecimals(decimals);
    inst.SetMintAuthority(mintAuthority);
    inst.SetFreezeAuthority(freezeAuthority);
    inst.SetMintAccount(mint);
    inst.SetSysVarRentPubkeyAccount(rent);
    assert inst.accounts == [Some(Meta(mint, false, true)), Some(Meta(rent, false, false))];
    assert [true, true] + AreSet(inst.accounts, 2) == [true, true, true, true];
    r := inst.ValidateAndBuild();
  }

  lemma MintTyped(decimals: uint8, mintAuthority: Key, freezeAuthority: Option<Key>, accounts: seq<Slot>)
    ensures WellTyped(InitializeMintOf(decimals, mintAuthority, freezeAuthority, accounts))
  {
    Widths();
  }

  lemma MintData(decimals: uint8, mintAuthority: Key, freezeAuthority: Option<Key>, accounts: seq<Slot>)
    ensures var inst := InitializeMintOf(decimals, mintAuthority, freezeAuthority, accounts);
            WellTyped(inst) && Data(inst) == [0, decimals as byte] + mintAuthority + OptionBytes(freezeAuthority)
  {
    hide WellTyped, Data, OptionBytes;
    MintTyped(decimals, mintAuthority, freezeAuthority, accounts);
    DataLayout(InitializeMintOf(decimals, mintAuthority, freezeAuthority, accounts));
    OneByte(decimals);
  }

  lemma OneByte(n: uint8)
    ensures LittleEndian(n, 1) == [n as byte]
  {
  }

  /** With or without a freeze authority, a mint's initialisation is restored whole. */
  lemma InitializeMintDecodes(decimals: uint8, mintAuthority: Key, freezeAuthority: Option<Key>, accounts: seq<Slot>)
    ensures var inst := InitializeMintOf(decimals, mintAuthority, freezeAuthority, accounts);
            && WellTyped(inst) && Accounts(inst) == accounts && Parsed(accounts, Data(inst)) == Success(inst)
            && Data(inst) == [0, decimals as byte] + mintAuthority + OptionBytes(freezeAuthority)
            && |Data(inst)| == if freezeAuthority.Some? then 67 else 35
  {
    hide Data, Parsed, WellTyped, Radix;
    MintData(decimals, mintAuthority, freezeAuthority, accounts);
    OwnDataDecodes(InitializeMintOf(decimals, mintAuthority, freezeAuthority, accounts));
    assert accounts + [] == accounts;
  }
}
