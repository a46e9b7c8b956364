/** The token program's instructions (pkg/sol/token2022_new): a variant byte, the variant's parameters, and the
    accounts, which most variants split into named ones and multisignature signers. */
module InstructionCodec {
  import opened Bytes
  import opened Wrappers
  import opened WireFormat

  const VARIANTS: byte := 21
  const MAX_SIGNERS := 11

  const INITIALIZE_MINT: byte := 0
  const SET_AUTHORITY: byte := 6
  const TRANSFER_CHECKED: byte := 12

  datatype Meta = Meta(key: Key, isSigner: bool, isWritable: bool)

  /** A pointer to an account, possibly not set. */
  type Slot = Option<Meta>

  datatype Instruction = Instruction(typeId: byte, params: seq<Value>, accounts: seq<Slot>, signers: seq<Slot>)

  datatype DecodeError = UnableToDecode

  /** The parameters of each variant, in the order its codec writes them. */
  function Params(id: byte): seq<Kind> {
    match id
    case 0 => [Uint(1), PublicKey, OptionalKey]
    case 2 => [Uint(1)]
    case 3 => [Uint(8)]
    case 4 => [Uint(8)]
    case 6 => [Uint(1), OptionalKey]
    case 7 => [Uint(8)]
    case 8 => [Uint(8)]
    case 12 => [Uint(8), Uint(1)]
    case 13 => [Uint(8), Uint(1)]
    case 14 => [Uint(8), Uint(1)]
    case 15 => [Uint(8), Uint(1)]
    case 16 => [PublicKey]
    case 18 => [PublicKey]
    case 19 => [Uint(1)]
    case 20 => [Uint(1), PublicKey, OptionalKey]
    case _ => []
  }

  /** Where a variant splits its accounts from the signers; the initialisers without a multisignature do not. */
  function NamedAccounts(id: byte): Option<nat> {
    if id in {0, 1, 16, 17, 18, 20} then None
    else if id == 19 then Some(1)
    else if id in {2, 5, 6} then Some(2)
    else if id in {12, 13} then Some(4)
    else Some(3)
  }

  /** The SDK's split: the whole list and nothing when it is too short. */
  function SplitFrom(slots: seq<Slot>, n: nat): (seq<Slot>, seq<Slot>) {
    if n > |slots| - 1 then (slots, []) else (slots[..n], slots[n..])
  }

  function SplitAccounts(id: byte, slots: seq<Slot>): (seq<Slot>, seq<Slot>) {
    match NamedAccounts(id)
    case None => (slots, [])
    case Some(n) => SplitFrom(slots, n)
  }

  /** What the variant's type says of an instruction. */
  predicate WellTyped(inst: Instruction) {
    && inst.typeId < VARIANTS && FitsAll(inst.params, Params(inst.typeId))
    && (NamedAccounts(inst.typeId).None? ==> inst.signers == [])
  }

  function Accounts(inst: Instruction): seq<Slot> {
    inst.accounts + inst.signers
  }

  function Data(inst: Instruction): seq<byte>
    requires WellTyped(inst)
  {
    [inst.typeId] + Encode(inst.params, Params(inst.typeId))
  }

  function Parsed(accounts: seq<Slot>, data: seq<byte>): Result<Instruction, DecodeError> {
    if data == [] || data[0] >= VARIANTS then Failure(UnableToDecode)
    else
      var d := Decode(Params(data[0]), data[1..]);
      if d.rest.None? then Failure(UnableToDecode)
      else
        var (named, signers) := SplitAccounts(data[0], accounts);
        Success(Instruction(data[0], d.read, named, signers))
  }

  // ---------- the layout ----------

  function OptionBytes(key: Option<Key>): seq<byte> {
    if key.None? then [0] else [1] + key.value
  }

  /** The data of every variant, byte by byte: numbers lowest byte first, keys as they are, an optional key behind a
      byte that says whether it is there. */
  lemma DataLayout(inst: Instruction)
    requires WellTyped(inst)
    ensures var ps := inst.params;
            var body := Data(inst)[1..];
            && Data(inst) == [inst.typeId] + body
            && (inst.typeId in {0, 20} ==>
                  |ps| == 3 && body == LittleEndian(ps[0].n, 1) + ps[1].k + OptionBytes(ps[2].key))
            && (inst.typeId in {2, 19} ==> |ps| == 1 && body == LittleEndian(ps[0].n, 1))
            && (inst.typeId in {3, 4, 7, 8} ==> |ps| == 1 && body == LittleEndian(ps[0].n, 8))
            && (inst.typeId == 6 ==> |ps| == 2 && body == LittleEndian(ps[0].n, 1) + OptionBytes(ps[1].key))
            && (inst.typeId in {12, 13, 14, 15} ==>
                  |ps| == 2 && body == LittleEndian(ps[0].n, 8) + LittleEndian(ps[1].n, 1))
            && (inst.typeId in {16, 18} ==> |ps| == 1 && body == ps[0].k)
            && (inst.typeId in {1, 5, 9, 10, 11, 17} ==> ps == [] && body == [])
  {
    hide LittleEndian, Radix, EncodeFields;
    ShortRecord(inst.params, Params(inst.typeId));
  }

  /** The bytes of a record of at most three fields. */
  lemma ShortRecord(vs: seq<Value>, ks: seq<Kind>)
    requires FitsAll(vs, ks) && |ks| <= 3
    ensures |ks| == 0 ==> Encode(vs, ks) == []
    ensures |ks| == 1 ==> Encode(vs, ks) == EncodeValue(vs[0], ks[0])
    ensures |ks| == 2 ==> Encode(vs, ks) == EncodeValue(vs[0], ks[0]) + EncodeValue(vs[1], ks[1])
    ensures |ks| == 3 ==>
              Encode(vs, ks) == EncodeValue(vs[0], ks[0]) + EncodeValue(vs[1], ks[1]) + EncodeValue(vs[2], ks[2])
  {
    hide EncodeValue, Fits;
    assert EncodeFields(vs, ks, 0) == [];
    assert |ks| >= 1 ==> EncodeFields(vs, ks, 1) == EncodeValue(vs[0], ks[0]);
    assert |ks| >= 2 ==> EncodeFields(vs, ks, 2) == EncodeFields(vs, ks, 1) + EncodeValue(vs[1], ks[1]);
  }

  /** How many accounts of a long enough list every variant takes as its own before the signers. */
  lemma SplitPoints(id: byte, slots: seq<Slot>)
    requires |slots| > 4
    ensures var (named, signers) := SplitAccounts(id, slots);
            && named + signers == slots
            && (id in {0, 1, 16, 17, 18, 20} ==> signers == [])
            && (id == 19 ==> |named| == 1)
            && (id in {2, 5, 6} ==> |named| == 2)
            && (id in {3, 4, 7, 8, 9, 10, 11, 14, 15} ==> |named| == 3)
            && (id in {12, 13} ==> |named| == 4)
  {
    SplitKeepsAll(id, slots);
  }

  // ---------- the streams ----------

  method ReadOptionalKey(dec: Decoder) returns (r: Option<Option<Key>>)
    modifies dec
    ensures r.None? ==> DecodeValue(OptionalKey, old(dec.unread)).None?
    ensures r.Some? ==> DecodeValue(OptionalKey, old(dec.unread)) == Some((MaybeKey(r.value), dec.unread))
  {
    ghost var bs := dec.unread;
    var ok := dec.ReadBool();
    if ok.None? {
      return None;
    }
    if !ok.value {
      return Some(None);
    }
    var key := dec.ReadKey();
    if key.None? {
      return None;
    }
    assert bs[1..][..32] == bs[1..33] && bs[1..][32..] == bs[33..];
    return Some(Some(key.value));
  }

  /** One parameter, as its variant's codec reads it. */
  method ReadParam(dec: Decoder, k: Kind) returns (r: Option<Value>)
    requires k.Uint? || k.PublicKey? || k.OptionalKey?
    modifies dec
    ensures r.None? ==> DecodeValue(k, old(dec.unread)).None?
    ensures r.Some? ==> DecodeValue(k, old(dec.unread)) == Some((r.value, dec.unread))
  {
    match k {
      case Uint(w) =>
        var n := dec.ReadUint(w);
        r := if n.None? then None else Some(Number(n.value));
      case PublicKey =>
        var key := dec.ReadKey();
        r := if key.None? then None else Some(RawKey(key.value));
      case OptionalKey =>
        var key := ReadOptionalKey(dec);
        r := if key.None? then None else Some(MaybeKey(key.value));
    }
  }

  method WriteOptionalKey(encoder: Encoder, key: Option<Key>)
    modifies encoder
    ensures encoder.buf == old(encoder.buf) + EncodeValue(MaybeKey(key), OptionalKey)
  {
    if key.None? {
      encoder.WriteBool(false);
    } else {
      encoder.WriteBool(true);
      encoder.WriteKey(key.value);
    }
  }

  method WriteParam(encoder: Encoder, v: Value, k: Kind)
    requires Fits(v, k) && (k.Uint? || k.PublicKey? || k.OptionalKey?)
    modifies encoder
    ensures encoder.buf == old(encoder.buf) + EncodeValue(v, k)
  {
    match k {
      case Uint(w) => encoder.WriteUint(v.n, w);
      case PublicKey => encoder.WriteKey(v.k);
      case OptionalKey => WriteOptionalKey(encoder, v.key);
    }
  }

  lemma ParamKinds(id: byte, i: nat)
    requires i < |Params(id)|
    ensures var k := Params(id)[i]; k.Uint? || k.PublicKey? || k.OptionalKey?
  {
  }

  /** The variant byte and the parameters of the variant, written in turn. */
  method Marshal(inst: Instruction) returns (data: seq<byte>)
    requires WellTyped(inst)
    ensures data == Data(inst)
  {
    hide Params, EncodeValue;
    var encoder := new Encoder();
    encoder.WriteBytes([inst.typeId]);
    var ks := Params(inst.typeId);
    for i := 0 to |ks|
      invariant encoder.buf == [inst.typeId] + EncodeFields(inst.params, ks, i)
    {
      ParamKinds(inst.typeId, i);
      WriteParam(encoder, inst.params[i], ks[i]);
      Written(inst.params, ks, i, [inst.typeId], encoder.buf);
    }
    data := encoder.buf;
  }

  /** The variant byte picks the parameters to read; the accounts are split last. */
  method DecodeInstruction(accounts: seq<Slot>, data: seq<byte>) returns (r: Result<Instruction, DecodeError>)
    ensures r == Parsed(accounts, data)
  {
    hide Params, DecodeValue, Canonical, Consumed;
    var dec := new Decoder(data);
    var first := dec.ReadNBytes(1);
    if first.None? || first.value[0] >= VARIANTS {
      return Failure(UnableToDecode);
    }
    var id := first.value[0];
    var ks, params := Params(id), [];
    for i := 0 to |ks|
      invariant DecodeFields(ks, data[1..], i).read == params && DecodeFields(ks, data[1..], i).rest == Some(dec.unread)
    {
      ParamKinds(id, i);
      var v := ReadParam(dec, ks[i]);
      if v.None? {
        DecodeStuck(ks, data[1..], i + 1, |ks|);
        return Failure(UnableToDecode);
      }
      params := params + [v.value];
    }
    var (named, signers) := SplitAccounts(id, accounts);
    return Success(Instruction(id, params, named, signers));
  }

  // ---------- what decoding restores ----------

  /** The signers begin where the variant says: they do when every named account is there, or no signer is. */
  predicate SplitsBack(inst: Instruction) {
    match NamedAccounts(inst.typeId)
    case None => true
    case Some(n) => |inst.accounts| == n || (|inst.accounts| < n && inst.signers == [])
  }

  lemma SplitRestores(inst: Instruction)
    requires WellTyped(inst)
    ensures SplitAccounts(inst.typeId, Accounts(inst)) == (inst.accounts, inst.signers) <==> SplitsBack(inst)
  {
    var slots := Accounts(inst);
    match NamedAccounts(inst.typeId)
    case None => assert slots == inst.accounts;
    case Some(n) =>
      if n <= |slots| {
        assert slots == slots[..n] + slots[n..];
        assert |inst.accounts| == n ==> slots[..n] == inst.accounts && slots[n..] == inst.signers;
      }
      assert inst.signers == [] ==> slots == inst.accounts;
  }

  /** Decoding an instruction's own data and accounts restores the variant and the parameters whatever follows the
      data, and the whole instruction exactly when its accounts split back. */
  lemma InstructionRoundTrip(inst: Instruction, trailing: seq<byte>)
    requires WellTyped(inst)
    ensures var r := Parsed(Accounts(inst), Data(inst) + trailing);
            && r.Success? && WellTyped(r.value)
            && r.value.typeId == inst.typeId && r.value.params == inst.params
            && Accounts(r.value) == Accounts(inst)
            && (r.value == inst <==> SplitsBack(inst))
  {
    hide DecodeFields, EncodeFields, FitsAll, Params, NamedAccounts;
    var ks, bytes := Params(inst.typeId), Data(inst) + trailing;
    assert bytes[0] == inst.typeId && bytes[1..] == Encode(inst.params, ks) + trailing;
    RoundTrip(inst.params, ks, trailing);
    SplitRestores(inst);
    SplitKeepsAll(inst.typeId, Accounts(inst));
  }

  /** An instruction whose accounts split back is what its own data and accounts decode to. */
  lemma OwnDataDecodes(inst: Instruction)
    requires WellTyped(inst) && SplitsBack(inst)
    ensures Parsed(Accounts(inst), Data(inst)) == Success(inst)
  {
    InstructionRoundTrip(inst, []);
    assert Data(inst) + [] == Data(inst);
  }

  lemma SplitKeepsAll(id: byte, slots: seq<Slot>)
    ensures var (named, signers) := SplitAccounts(id, slots);
            named + signers == slots && (NamedAccounts(id).None? ==> signers == [])
  {
    match NamedAccounts(id)
    case None => assert slots + [] == slots;
    case Some(n) =>
      if n <= |slots| {
        assert slots[..n] + slots[n..] == slots;
      }
  }

  /** Whatever decodes is well typed, keeps the accounts, and once re-encoded decodes to itself; its data are the bytes
      read exactly when every parameter among them was canonical. */
  lemma ParsedIsFaithful(accounts: seq<Slot>, data: seq<byte>)
    requires Parsed(accounts, data).Success?
    ensures var inst := Parsed(accounts, data).value;
            && WellTyped(inst) && SplitsBack(inst) && Accounts(inst) == accounts
            && Parsed(Accounts(inst), Data(inst)) == Success(inst)
            && |Data(inst)| <= |data|
            && (Data(inst) == data[..|Data(inst)|] <==> Decode(Params(data[0]), data[1..]).canonical)
  {
    var inst := Parsed(accounts, data).value;
    var ks := Params(data[0]);
    ReencodedIsCanonical(ks, data[1..]);
    SplitKeepsAll(data[0], accounts);
    SplitRestores(inst);
    InstructionRoundTrip(inst, []);
    assert Data(inst) + [] == Data(inst);
    var encoded, rest := Encode(inst.params, ks), Decode(ks, data[1..]).rest.value;
    FieldsReencode(ks, data[1..], |ks|);
    PrefixOf(data, encoded, rest);
  }

  lemma PrefixOf(data: seq<byte>, encoded: seq<byte>, rest: seq<byte>)
    requires data != [] && |encoded| + |rest| == |data| - 1 && rest == data[1..][|encoded|..]
    ensures [data[0]] + encoded == data[..1 + |encoded|] <==> encoded == data[1..][..|encoded|]
  {
    assert data[..1 + |encoded|] == [data[0]] + data[1..][..|encoded|];
    assert ([data[0]] + encoded)[1..] == encoded;
  }

  /** The flag of a trailing optional key, zero when there is none. */
  function KeyFlag(ks: seq<Kind>, bs: seq<byte>): byte {
    if ks != [] && ks[|ks| - 1] == OptionalKey && 1 <= TotalSize(ks, |ks|) <= |bs| then
      bs[TotalSize(ks, |ks|) - 1]
    else
      0
  }

  /** Decoding fails exactly on an unknown variant or too few bytes: every parameter counts with its size, an optional
      key with its flag, and with the key only if the flag is set. */
  lemma DecodingFailsIff(accounts: seq<Slot>, data: seq<byte>)
    ensures Parsed(accounts, data).Failure? <==>
              || data == [] || data[0] >= 21
              || var ks := Params(data[0]);
                 |data| - 1 < TotalSize(ks, |ks|) + (if KeyFlag(ks, data[1..]) == 0 then 0 else 32)
  {
    if data != [] && data[0] < VARIANTS {
      var ks, bs := Params(data[0]), data[1..];
      hide DecodeValue;
      if ks != [] && ks[|ks| - 1] == OptionalKey {
        FixedSize(ks, bs, |ks| - 1);
        OptionalTail(ks, bs);
      } else {
        FixedSize(ks, bs, |ks|);
      }
    }
  }

  lemma OptionalTail(ks: seq<Kind>, bs: seq<byte>)
    requires ks != [] && ks[|ks| - 1] == OptionalKey
    requires var n := |ks| - 1;
             var rest := DecodeFields(ks, bs, n).rest;
             && (rest.Some? <==> |bs| >= TotalSize(ks, n))
             && (rest.Some? ==> rest.value == bs[TotalSize(ks, n)..])
    ensures Decode(ks, bs).rest.Some? <==> |bs| >= TotalSize(ks, |ks|) + (if KeyFlag(ks, bs) == 0 then 0 else 32)
  {
    hide Canonical, Consumed;
    var n := |ks| - 1;
    assert Decode(ks, bs) == DecodeNext(DecodeFields(ks, bs, n), OptionalKey);
    assert TotalSize(ks, |ks|) == TotalSize(ks, n) + 1;
  }
}
