/** The mint and token account codecs (pkg/sol/token2022_new/accounts.go): objects whose fields are written to and
    read from a stream one after another. */
module AccountCodec {
  import opened Bytes
  import opened Wrappers
  import opened WireFormat

  const MINT: seq<Kind> := [COptionKey, Uint(8), Uint(1), Flag, COptionKey]
  const ACCOUNT: seq<Kind> := [PublicKey, PublicKey, Uint(8), COptionKey, Uint(1), COptionUint(8), Uint(8), COptionKey]

  // ---------- options ----------

  method WriteOptionalKey(encoder: Encoder, key: Option<Key>)
    modifies encoder
    ensures encoder.buf == old(encoder.buf) + EncodeValue(MaybeKey(key), COptionKey)
  {
    hide LittleEndian, Radix;
    Widths();
    if key.None? {
      encoder.WriteUint(0, 4);
      encoder.WriteBytes(Zeros(32));
    } else {
      encoder.WriteUint(1, 4);
      encoder.WriteBytes(key.value);
    }
  }

  method WriteOptionalUint64(encoder: Encoder, num: Option<uint64>)
    modifies encoder
    ensures encoder.buf == old(encoder.buf) + EncodeValue(MaybeNumber(num), COptionUint(8))
  {
    hide LittleEndian, Radix;
    Widths();
    if num.None? {
      encoder.WriteUint(0, 4);
      encoder.WriteUint(0, 8);
    } else {
      encoder.WriteUint(1, 4);
      encoder.WriteUint(num.value, 8);
    }
  }

  /** The bytes of a tag and its body, read one after the other. */
  lemma TagThenBody(bs: seq<byte>, w: nat)
    ensures |bs| >= 4 ==> (|bs[4..]| < w <==> |bs| < 4 + w)
    ensures |bs| >= 4 + w ==> bs[4..][..w] == bs[4..4 + w] && bs[4..][w..] == bs[4 + w..]
  {
  }

  method ReadOptionalKey(dec: Decoder) returns (r: Option<Option<Key>>)
    modifies dec
    ensures r.None? ==> DecodeValue(COptionKey, old(dec.unread)).None?
    ensures r.Some? ==> DecodeValue(COptionKey, old(dec.unread)) == Some((MaybeKey(r.value), dec.unread))
    ensures r.Some? ==> Fits(MaybeKey(r.value), COptionKey)
  {
    hide Radix;
    Widths();
    TagThenBody(dec.unread, 32);
    var tag := dec.ReadUint(4);
    if tag.None? {
      return None;
    }
    var body := dec.ReadNBytes(32);
    if body.None? {
      return None;
    }
    if tag.value == 1 {
      return Some(Some(body.value));
    } else {
      return Some(None);
    }
  }

  method ReadOptionalUint64(dec: Decoder) returns (r: Option<Option<uint64>>)
    modifies dec
    ensures r.None? ==> DecodeValue(COptionUint(8), old(dec.unread)).None?
    ensures r.Some? ==> DecodeValue(COptionUint(8), old(dec.unread)) == Some((MaybeNumber(r.value), dec.unread))
    ensures r.Some? ==> Fits(MaybeNumber(r.value), COptionUint(8))
  {
    hide Radix;
    Widths();
    TagThenBody(dec.unread, 8);
    var tag := dec.ReadUint(4);
    if tag.None? {
      return None;
    }
    var body := dec.ReadUint(8);
    if body.None? {
      return None;
    }
    if tag.value == 1 {
      return Some(Some(body.value));
    } else {
      return Some(None);
    }
  }

  // ---------- mints ----------

  class Mint {
    var mintAuthority: Option<Key>
    var supply: uint64
    var decimals: uint8
    var isInitialized: bool
    var freezeAuthority: Option<Key>

    constructor ()
      ensures Fields() == [MaybeKey(None), Number(0), Number(0), Truth(false), MaybeKey(None)]
    {
      mintAuthority, supply, decimals, isInitialized, freezeAuthority := None, 0, 0, false, None;
    }

    function Fields(): (vs: seq<Value>)
      reads this
      ensures FitsAll(vs, MINT) && |vs| == |MINT|
    {
      Widths();
      [MaybeKey(mintAuthority), Number(supply), Number(decimals), Truth(isInitialized), MaybeKey(freezeAuthority)]
    }

    method MarshalWithEncoder(encoder: Encoder)
      modifies encoder
      ensures encoder.buf == old(encoder.buf) + Encode(Fields(), MINT)
    {
      ghost var vs, start := Fields(), encoder.buf;
      assert EncodeFields(vs, MINT, 0) == [];
      hide EncodeValue, EncodeFields, FitsAll, Radix;
      Widths();
      WriteOptionalKey(encoder, mintAuthority);
      Written(vs, MINT, 0, start, encoder.buf);
      encoder.WriteUint(supply, 8);
      Written(vs, MINT, 1, start, encoder.buf);
      encoder.WriteUint(decimals, 1);
      Written(vs, MINT, 2, start, encoder.buf);
      encoder.WriteBool(isInitialized);
      Written(vs, MINT, 3, start, encoder.buf);
      WriteOptionalKey(encoder, freezeAuthority);
      Written(vs, MINT, 4, start, encoder.buf);
    }

    /** Assigning one field: an absent option is not assigned. */
    method Store(i: nat, v: Value)
      requires i < |MINT| && Fits(v, MINT[i])
      modifies this
      ensures Fields() == old(Fields())[i := Overwrite(old(Fields())[i], v)]
    {
      Widths();
      if !Absent(v) {
        match i {
          case 0 => mintAuthority := v.key;
          case 1 => supply := v.n;
          case 2 => decimals := v.n;
          case 3 => isInitialized := v.b;
          case _ => freezeAuthority := v.key;
        }
      }
    }

    /** Every field that could be read overwrites the object's, except that an absent option leaves its field alone. */
    method UnmarshalWithDecoder(dec: Decoder) returns (ok: bool)
      modifies this, dec
      ensures Unmarshalled(old(Fields()), MINT, old(dec.unread), ok, dec.unread, Fields())
    {
      hide Fields, Fits, DecodeValue, Unmarshalled, Reading, Overwrite, FitsAll;
      ghost var p := Begin(Fields(), MINT, dec.unread);
      var key := ReadOptionalKey(dec);
      if key.None? {
        Stuck(p, dec.unread);
        return false;
      }
      Store(0, MaybeKey(key.value));
      p := Took(p, MaybeKey(key.value), dec.unread, Fields());
      var n := dec.ReadUint(8);
      if n.None? {
        Stuck(p, dec.unread);
        return false;
      }
      Store(1, Number(n.value));
      p := Took(p, Number(n.value), dec.unread, Fields());
      n := dec.ReadUint(1);
      if n.None? {
        Stuck(p, dec.unread);
        return false;
      }
      Store(2, Number(n.value));
      p := Took(p, Number(n.value), dec.unread, Fields());
      var b := dec.ReadBool();
      if b.None? {
        Stuck(p, dec.unread);
        return false;
      }
      Store(3, Truth(b.value));
      p := Took(p, Truth(b.value), dec.unread, Fields());
      key := ReadOptionalKey(dec);
      if key.None? {
        Stuck(p, dec.unread);
        return false;
      }
      Store(4, MaybeKey(key.value));
      p := Took(p, MaybeKey(key.value), dec.unread, Fields());
      Finished(p);
      return true;
    }
  }

  // ---------- token accounts ----------

  class Account {
    var mint: Key
    var owner: Key
    var amount: uint64
    var delegate: Option<Key>
    var state: uint8
    var isNative: Option<uint64>
    var delegatedAmount: uint64
    var closeAuthority: Option<Key>

    constructor ()
      ensures Fields() == [RawKey(Zeros(32)), RawKey(Zeros(32)), Number(0), MaybeKey(None),
                           Number(0), MaybeNumber(None), Number(0), MaybeKey(None)]
    {
      mint, owner, amount, delegate := Zeros(32), Zeros(32), 0, None;
      state, isNative, delegatedAmount, closeAuthority := 0, None, 0, None;
    }

    function Fields(): (vs: seq<Value>)
      reads this
      ensures FitsAll(vs, ACCOUNT) && |vs| == |ACCOUNT|
    {
      Widths();
      [RawKey(mint), RawKey(owner), Number(amount), MaybeKey(delegate),
       Number(state), MaybeNumber(isNative), Number(delegatedAmount), MaybeKey(closeAuthority)]
    }

    method MarshalWithEncoder(encoder: Encoder)
      modifies encoder
      ensures encoder.buf == old(encoder.buf) + Encode(Fields(), ACCOUNT)
    {
      ghost var vs, start := Fields(), encoder.buf;
      assert EncodeFields(vs, ACCOUNT, 0) == [];
      hide EncodeValue, EncodeFields, FitsAll, Radix;
      Widths();
      encoder.WriteKey(mint);
      Written(vs, ACCOUNT, 0, start, encoder.buf);
      encoder.WriteKey(owner);
      Written(vs, ACCOUNT, 1, start, encoder.buf);
      encoder.WriteUint(amount, 8);
      Written(vs, ACCOUNT, 2, start, encoder.buf);
      WriteOptionalKey(encoder, delegate);
      Written(vs, ACCOUNT, 3, start, encoder.buf);
      encoder.WriteUint(state, 1);
      Written(vs, ACCOUNT, 4, start, encoder.buf);
      WriteOptionalUint64(encoder, isNative);
      Written(vs, ACCOUNT, 5, start, encoder.buf);
      encoder.WriteUint(delegatedAmount, 8);
      Written(vs, ACCOUNT, 6, start, encoder.buf);
      WriteOptionalKey(encoder, closeAuthority);
      Written(vs, ACCOUNT, 7, start, encoder.buf);
    }

    /** Assigning one field: an absent option is not assigned. */
    method Store(i: nat, v: Value)
      requires i < |ACCOUNT| && Fits(v, ACCOUNT[i])
      modifies this
      ensures Fields() == old(Fields())[i := Overwrite(old(Fields())[i], v)]
    {
      Widths();
      if !Absent(v) {
        match i {
          case 0 => mint := v.k;
          case 1 => owner := v.k;
          case 2 => amount := v.n;
          case 3 => delegate := v.key;
          case 4 => state := v.n;
          case 5 => isNative := Some(v.num.value);
          case 6 => delegatedAmount := v.n;
          case _ => closeAuthority := v.key;
        }
      }
    }

    /** Every field that could be read overwrites the object's, except that an absent option leaves its field alone. */
    method UnmarshalWithDecoder(dec: Decoder) returns (ok: bool)
      modifies this, dec
      ensures Unmarshalled(old(Fields()), ACCOUNT, old(dec.unread), ok, dec.unread, Fields())
    {
      hide Fields, Fits, DecodeValue, Unmarshalled, Reading, Overwrite, FitsAll;
      ghost var p := Begin(Fields(), ACCOUNT, dec.unread);
      var raw := dec.ReadKey();
      if raw.None? {
        Stuck(p, dec.unread);
        return false;
      }
      Store(0, RawKey(raw.value));
      p := Took(p, RawKey(raw.value), dec.unread, Fields());
      raw := dec.ReadKey();
      if raw.None? {
        Stuck(p, dec.unread);
        return false;
      }
      Store(1, RawKey(raw.value));
      p := Took(p, RawKey(raw.value), dec.unread, Fields());
      var n := dec.ReadUint(8);
      if n.None? {
        Stuck(p, dec.unread);
        return false;
      }
      Store(2, Number(n.value));
      p := Took(p, Number(n.value), dec.unread, Fields());
      var key := ReadOptionalKey(dec);
      if key.None? {
        Stuck(p, dec.unread);
        return false;
      }
      Store(3, MaybeKey(key.value));
      p := Took(p, MaybeKey(key.value), dec.unread, Fields());
      n := dec.ReadUint(1);
      if n.None? {
        Stuck(p, dec.unread);
        return false;
      }
      Store(4, Number(n.value));
      p := Took(p, Number(n.value), dec.unread, Fields());
      var num := ReadOptionalUint64(dec);
      if num.None? {
        Stuck(p, dec.unread);
        return false;
      }
      Store(5, MaybeNumber(num.value));
      p := Took(p, MaybeNumber(num.value), dec.unread, Fields());
      n := dec.ReadUint(8);
      if n.None? {
        Stuck(p, dec.unread);
        return false;
      }
      Store(6, Number(n.value));
      p := Took(p, Number(n.value), dec.unread, Fields());
      key := ReadOptionalKey(dec);
      if key.None? {
        Stuck(p, dec.unread);
        return false;
      }
      Store(7, MaybeKey(key.value));
      p := Took(p, MaybeKey(key.value), dec.unread, Fields());
      Finished(p);
      return true;
    }
  }

  // ---------- what the codecs keep ----------

  lemma MintSizes()
    ensures TotalSize(MINT, 1) == 36 && TotalSize(MINT, 2) == 44 && TotalSize(MINT, 3) == 45 && TotalSize(MINT, 4) == 46
    ensures TotalSize(MINT, 5) == 82
  {
  }

  lemma AccountSizes()
    ensures TotalSize(ACCOUNT, 1) == 32 && TotalSize(ACCOUNT, 2) == 64 && TotalSize(ACCOUNT, 3) == 72
    ensures TotalSize(ACCOUNT, 4) == 108 && TotalSize(ACCOUNT, 5) == 109 && TotalSize(ACCOUNT, 6) == 121
    ensures TotalSize(ACCOUNT, 7) == 129 && TotalSize(ACCOUNT, 8) == 165
  {
  }

  function EncodedSize(ks: seq<Kind>): nat {
    if ks == MINT then 82 else 165
  }

  // ---------- the layout ----------

  /** An optional key: a tag of four bytes, then the key or zeros. */
  function KeyOption(key: Option<Key>): seq<byte> {
    if key.None? then [0, 0, 0, 0] + Zeros(32) else [1, 0, 0, 0] + key.value
  }

  function NumberOption(num: Option<nat>): seq<byte> {
    if num.None? then [0, 0, 0, 0] + Zeros(8) else [1, 0, 0, 0] + LittleEndian(num.value, 8)
  }

  function FlagByte(b: bool): seq<byte> {
    [if b then 1 else 0]
  }

  lemma OptionEncodings(key: Option<Key>, num: Option<nat>)
    requires num.Some? ==> num.value < Radix(8)
    ensures EncodeValue(MaybeKey(key), COptionKey) == KeyOption(key)
    ensures EncodeValue(MaybeNumber(num), COptionUint(8)) == NumberOption(num)
  {
    TagBytes(key.Some?);
    TagBytes(num.Some?);
    ZeroBytes(8);
    hide LittleEndian, Radix;
  }

  /** A record's bytes are those of its first fields and then of the next one. */
  lemma EncodePush(vs: seq<Value>, ks: seq<Kind>, n: nat, head: seq<byte>, next: seq<byte>)
    requires FitsAll(vs, ks) && n < |ks|
    requires EncodeFields(vs, ks, n) == head && EncodeValue(vs[n], ks[n]) == next
    ensures EncodeFields(vs, ks, n + 1) == head + next
  {
  }

  lemma EncodeFirst(vs: seq<Value>, ks: seq<Kind>)
    requires FitsAll(vs, ks) && ks != []
    ensures EncodeFields(vs, ks, 1) == EncodeValue(vs[0], ks[0])
  {
    assert EncodeFields(vs, ks, 0) == [];
  }

  /** The bytes of a mint: who may mint, the supply, the decimals, whether it is initialised, who may freeze. */
  lemma MintLayout(m: Mint)
    ensures Encode(m.Fields(), MINT)
         == KeyOption(m.mintAuthority) + LittleEndian(m.supply, 8) + LittleEndian(m.decimals, 1)
            + FlagByte(m.isInitialized) + KeyOption(m.freezeAuthority)
  {
    hide LittleEndian, Radix, KeyOption, EncodeFields, FitsAll, Tag, Zeros, Fits;
    var vs := m.Fields();
    OptionEncodings(m.mintAuthority, None);
    OptionEncodings(m.freezeAuthority, None);
    EncodeFirst(vs, MINT);
    var head := KeyOption(m.mintAuthority);
    EncodePush(vs, MINT, 1, head, LittleEndian(m.supply, 8));
    head := head + LittleEndian(m.supply, 8);
    EncodePush(vs, MINT, 2, head, LittleEndian(m.decimals, 1));
    head := head + LittleEndian(m.decimals, 1);
    EncodePush(vs, MINT, 3, head, FlagByte(m.isInitialized));
    head := head + FlagByte(m.isInitialized);
    EncodePush(vs, MINT, 4, head, KeyOption(m.freezeAuthority));
  }

  /** The bytes of a token account: its mint, owner and amount, its delegate, its state, the reserve of a native
      account, what the delegate may still move, who may close it. */
  lemma AccountLayout(a: Account)
    ensures Encode(a.Fields(), ACCOUNT)
         == a.mint + a.owner + LittleEndian(a.amount, 8) + KeyOption(a.delegate) + LittleEndian(a.state, 1)
            + NumberOption(a.isNative) + LittleEndian(a.delegatedAmount, 8) + KeyOption(a.closeAuthority)
  {
    hide LittleEndian, Radix, KeyOption, NumberOption, EncodeFields, FitsAll, Tag, Zeros, Fits;
    var vs := a.Fields();
    Widths();
    OptionEncodings(a.delegate, a.isNative);
    OptionEncodings(a.closeAuthority, None);
    EncodeFirst(vs, ACCOUNT);
    var head: seq<byte> := a.mint;
    EncodePush(vs, ACCOUNT, 1, head, a.owner);
    head := head + a.owner;
    EncodePush(vs, ACCOUNT, 2, head, LittleEndian(a.amount, 8));
    head := head + LittleEndian(a.amount, 8);
    EncodePush(vs, ACCOUNT, 3, head, KeyOption(a.delegate));
    head := head + KeyOption(a.delegate);
    EncodePush(vs, ACCOUNT, 4, head, LittleEndian(a.state, 1));
    head := head + LittleEndian(a.state, 1);
    EncodePush(vs, ACCOUNT, 5, head, NumberOption(a.isNative));
    head := head + NumberOption(a.isNative);
    EncodePush(vs, ACCOUNT, 6, head, LittleEndian(a.delegatedAmount, 8));
    head := head + LittleEndian(a.delegatedAmount, 8);
    EncodePush(vs, ACCOUNT, 7, head, KeyOption(a.closeAuthority));
  }

  /** A mint takes 82 bytes and a token account 165, and both decode to what was encoded, whatever follows. */
  lemma CodecRoundTrip(vs: seq<Value>, ks: seq<Kind>, rest: seq<byte>)
    requires (ks == MINT || ks == ACCOUNT) && FitsAll(vs, ks)
    ensures |Encode(vs, ks)| == EncodedSize(ks)
    ensures Decode(ks, Encode(vs, ks) + rest) == Decoded(vs, Some(rest), true)
  {
    MintSizes();
    AccountSizes();
    hide TotalSize, DecodeFields, EncodeFields, FitsAll;
    RoundTrip(vs, ks, rest);
    FixedSize(ks, Encode(vs, ks) + rest, |ks|);
  }

  /** Decoding fails exactly on too few bytes, and ignores whatever comes after the record. */
  lemma DecodesIff(ks: seq<Kind>, bs: seq<byte>)
    requires ks == MINT || ks == ACCOUNT
    ensures Decode(ks, bs).rest.Some? <==> |bs| >= EncodedSize(ks)
    ensures |bs| >= EncodedSize(ks) ==> Decode(ks, bs).rest.value == bs[EncodedSize(ks)..]
  {
    MintSizes();
    AccountSizes();
    FixedSize(ks, bs, |ks|);
  }

  /** Re-encoding a decoded mint gives the same bytes exactly when both option tags are 0 or 1, the bodies of absent
      options are zero, and the flag byte is 0 or 1. */
  lemma MintBytesSurviveIff(bs: seq<byte>)
    requires |bs| == 82
    ensures var vs := Decode(MINT, bs).read;
            && FitsAll(vs, MINT)
            && (Encode(vs, MINT) == bs <==> CanonicalOption(bs[..36]) && bs[45] <= 1 && CanonicalOption(bs[46..82]))
  {
    DecodesIff(MINT, bs);
    ReencodedIsCanonical(MINT, bs);
    assert Encode(Decode(MINT, bs).read, MINT) + [] == Encode(Decode(MINT, bs).read, MINT);
    hide Encode, Decode;
    MintPlaces(bs);
  }

  lemma MintPlaces(bs: seq<byte>)
    requires |bs| == 82
    ensures Decode(MINT, bs).canonical <==> CanonicalOption(bs[..36]) && bs[45] <= 1 && CanonicalOption(bs[46..82])
  {
    MintSizes();
    CanonicalByPlace(MINT, bs, 5);
    hide DecodeFields;
    assert PlacesCanonical(MINT, bs, 5)
      <==> (PlacesCanonical(MINT, bs, 3) && Canonical(Flag, bs[45..46]) && Canonical(COptionKey, bs[46..82]));
    assert PlacesCanonical(MINT, bs, 3) <==> PlacesCanonical(MINT, bs, 1);
    assert PlacesCanonical(MINT, bs, 0) && TotalSize(MINT, 0) == 0 && bs[0..36] == bs[..36];
    assert PlacesCanonical(MINT, bs, 1) <==> Canonical(COptionKey, bs[..36]);
  }

  /** Re-encoding a decoded token account gives the same bytes exactly when its three options are written canonically;
      any state byte is kept. */
  lemma AccountBytesSurviveIff(bs: seq<byte>)
    requires |bs| == 165
    ensures var vs := Decode(ACCOUNT, bs).read;
            && FitsAll(vs, ACCOUNT)
            && (Encode(vs, ACCOUNT) == bs <==>
                  CanonicalOption(bs[72..108]) && CanonicalOption(bs[109..121]) && CanonicalOption(bs[129..165]))
  {
    DecodesIff(ACCOUNT, bs);
    ReencodedIsCanonical(ACCOUNT, bs);
    assert Encode(Decode(ACCOUNT, bs).read, ACCOUNT) + [] == Encode(Decode(ACCOUNT, bs).read, ACCOUNT);
    hide Encode, Decode;
    AccountPlaces(bs);
  }

  lemma AccountPlaces(bs: seq<byte>)
    requires |bs| == 165
    ensures Decode(ACCOUNT, bs).canonical <==>
              CanonicalOption(bs[72..108]) && CanonicalOption(bs[109..121]) && CanonicalOption(bs[129..165])
  {
    AccountSizes();
    CanonicalByPlace(ACCOUNT, bs, 8);
    hide DecodeFields;
    assert PlacesCanonical(ACCOUNT, bs, 8) <==> PlacesCanonical(ACCOUNT, bs, 6) && Canonical(COptionKey, bs[129..165]);
    assert PlacesCanonical(ACCOUNT, bs, 6)
      <==> (PlacesCanonical(ACCOUNT, bs, 4) && Canonical(COptionUint(8), bs[109..121]));
    assert PlacesCanonical(ACCOUNT, bs, 4) <==> PlacesCanonical(ACCOUNT, bs, 2) && Canonical(COptionKey, bs[72..108]);
    assert PlacesCanonical(ACCOUNT, bs, 1);
  }

  /** Encoding one mint and decoding the bytes into another: every field arrives, but an authority the first
      lacks is not cleared in the second. */
  method ReloadMint(source: Mint, target: Mint) returns (ok: bool)
    modifies target
    ensures ok && target.Fields() == Overwritten(old(target.Fields()), old(source.Fields()))
  {
    var encoder := new Encoder();
    source.MarshalWithEncoder(encoder);
    assert encoder.buf == [] + Encode(source.Fields(), MINT) == Encode(source.Fields(), MINT) + [];
    CodecRoundTrip(source.Fields(), MINT, []);
    var dec := new Decoder(encoder.buf);
    ok := target.UnmarshalWithDecoder(dec);
  }

  /** Into a new object the mint arrives whole. */
  method CopyMint(source: Mint) returns (copy: Mint)
    ensures fresh(copy) && copy.Fields() == source.Fields()
  {
    copy := new Mint();
    RestoresIff(copy.Fields(), source.Fields());
    var ok := ReloadMint(source, copy);
  }

  method ReloadAccount(source: Account, target: Account) returns (ok: bool)
    modifies target
    ensures ok && target.Fields() == Overwritten(old(target.Fields()), old(source.Fields()))
  {
    var encoder := new Encoder();
    source.MarshalWithEncoder(encoder);
    assert encoder.buf == [] + Encode(source.Fields(), ACCOUNT) == Encode(source.Fields(), ACCOUNT) + [];
    CodecRoundTrip(source.Fields(), ACCOUNT, []);
    var dec := new Decoder(encoder.buf);
    ok := target.UnmarshalWithDecoder(dec);
  }

  method CopyAccount(source: Account) returns (copy: Account)
    ensures fresh(copy) && copy.Fields() == source.Fields()
  {
    copy := new Account();
    RestoresIff(copy.Fields(), source.Fields());
    var ok := ReloadAccount(source, copy);
  }
}
