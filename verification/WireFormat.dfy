/** Records of fields as the token program lays them out in bytes, and the streams its codecs advance.
    The streams are those of the binary library the codecs call. */
module WireFormat {
  import opened Bytes
  import opened Wrappers

  type Key = k: seq<byte> | |k| == 32 witness Zeros(32)

  type uint8 = n: nat | n < 0x100 witness 0
  type uint64 = n: nat | n < 0x1_0000_0000_0000_0000 witness 0

  lemma Widths()
    ensures Radix(1) == 0x100 && Radix(4) == 0x1_0000_0000 && Radix(8) == 0x1_0000_0000_0000_0000
  {
    assert Radix(2) == 0x1_0000 && Radix(3) == 0x100_0000;
    assert Radix(5) == 0x100_0000_0000 && Radix(6) == 0x1_0000_0000_0000 && Radix(7) == 0x100_0000_0000_0000;
  }

  /** Unsigned integers of some bytes; a flag byte; a public key; a key behind a flag byte; and the program's own
      options, a four-byte tag before a body that is always there. */
  datatype Kind = Uint(width: nat) | Flag | PublicKey | OptionalKey | COptionKey | COptionUint(width: nat)

  datatype Value =
    | Number(n: nat)
    | Truth(b: bool)
    | RawKey(k: Key)
    | MaybeKey(key: Option<Key>)
    | MaybeNumber(num: Option<nat>)

  predicate Fits(v: Value, k: Kind) {
    match k
    case Uint(w) => v.Number? && v.n < Radix(w)
    case Flag => v.Truth?
    case PublicKey => v.RawKey?
    case OptionalKey => v.MaybeKey?
    case COptionKey => v.MaybeKey?
    case COptionUint(w) => v.MaybeNumber? && (v.num.Some? ==> v.num.value < Radix(w))
  }

  function Tag(present: bool): (bs: seq<byte>)
    ensures |bs| == 4
  {
    LittleEndian(if present then 1 else 0, 4)
  }

  function EncodeValue(v: Value, k: Kind): seq<byte>
    requires Fits(v, k)
  {
    match k
    case Uint(w) => LittleEndian(v.n, w)
    case Flag => [if v.b then 1 else 0]
    case PublicKey => v.k
    case OptionalKey => if v.key.None? then [0] else [1] + v.key.value
    case COptionKey => Tag(v.key.Some?) + (if v.key.None? then Zeros(32) else v.key.value)
    case COptionUint(w) => Tag(v.num.Some?) + LittleEndian(if v.num.None? then 0 else v.num.value, w)
  }

  /** A field and the bytes after it, or nothing when the bytes run out. An option tag other than one reads as
      absent, whatever the body; a flag byte other than zero reads as true. */
  function DecodeValue(k: Kind, bs: seq<byte>): Option<(Value, seq<byte>)> {
    match k
    case Uint(w) => if |bs| < w then None else Some((Number(FromLittleEndian(bs[..w])), bs[w..]))
    case Flag => if |bs| < 1 then None else Some((Truth(bs[0] != 0), bs[1..]))
    case PublicKey => if |bs| < 32 then None else Some((RawKey(bs[..32]), bs[32..]))
    case OptionalKey =>
      if |bs| < 1 then None
      else if bs[0] == 0 then Some((MaybeKey(None), bs[1..]))
      else if |bs| < 33 then None
      else Some((MaybeKey(Some(bs[1..33])), bs[33..]))
    case COptionKey =>
      if |bs| < 36 then None
      else Some((MaybeKey(if FromLittleEndian(bs[..4]) == 1 then Some(bs[4..36]) else None), bs[36..]))
    case COptionUint(w) =>
      if |bs| < 4 + w then None
      else
        var present := FromLittleEndian(bs[..4]) == 1;
        Some((MaybeNumber(if present then Some(FromLittleEndian(bs[4..4 + w])) else None), bs[4 + w..]))
  }

  /** The bytes of a field are the ones the encoder would write: flags are 0 or 1, absent bodies are zero. */
  predicate Canonical(k: Kind, bs: seq<byte>) {
    match k
    case Uint(_) => true
    case PublicKey => true
    case Flag => |bs| == 1 && bs[0] <= 1
    case OptionalKey => |bs| > 0 && bs[0] <= 1
    case COptionKey => CanonicalOption(bs)
    case COptionUint(_) => CanonicalOption(bs)
  }

  predicate CanonicalOption(bs: seq<byte>) {
    |bs| >= 4 && (bs[..4] == Tag(true) || (bs[..4] == Tag(false) && forall i :: 4 <= i < |bs| ==> bs[i] == 0))
  }

  // ---------- one field ----------

  lemma TagValue(tag: seq<byte>)
    requires |tag| == 4
    ensures FromLittleEndian(tag) == 1 <==> tag == Tag(true)
    ensures FromLittleEndian(tag) == 0 <==> tag == Tag(false)
  {
    BytesRoundTrip(tag);
    NumberRoundTrip(1, 4);
    NumberRoundTrip(0, 4);
  }

  lemma {:induction false} ZeroBytes(n: nat)
    ensures LittleEndian(0, n) == Zeros(n)
  {
    if n > 0 {
      ZeroBytes(n - 1);
      assert Zeros(n) == [0] + Zeros(n - 1);
    }
  }

  /** What is encoded decodes to itself, whatever follows. */
  lemma ValueRoundTrip(v: Value, k: Kind, rest: seq<byte>)
    requires Fits(v, k)
    ensures DecodeValue(k, EncodeValue(v, k) + rest) == Some((v, rest))
    ensures Canonical(k, EncodeValue(v, k)) && Consumed(EncodeValue(v, k) + rest, rest) == EncodeValue(v, k)
  {
    hide LittleEndian, FromLittleEndian, Radix, Tag;
    var bs := EncodeValue(v, k) + rest;
    match k
    case Uint(w) =>
      NumberRoundTrip(v.n, w);
      assert bs[..w] == LittleEndian(v.n, w) && bs[w..] == rest;
    case Flag => assert bs[1..] == rest;
    case PublicKey => assert bs[..32] == v.k && bs[32..] == rest;
    case OptionalKey =>
      if v.key.None? {
        assert bs[1..] == rest;
      } else {
        assert bs[1..33] == v.key.value && bs[33..] == rest;
      }
    case COptionKey =>
      TagValue(Tag(true));
      TagValue(Tag(false));
      assert bs[..4] == Tag(v.key.Some?) && bs[36..] == rest;
      assert EncodeValue(v, k)[..4] == Tag(v.key.Some?);
      assert v.key.Some? ==> bs[4..36] == v.key.value;
    case COptionUint(w) =>
      TagValue(Tag(true));
      TagValue(Tag(false));
      var body := LittleEndian(if v.num.None? then 0 else v.num.value, w);
      assert bs[..4] == Tag(v.num.Some?) && bs[4..4 + w] == body && bs[4 + w..] == rest;
      assert EncodeValue(v, k)[..4] == Tag(v.num.Some?);
      ZeroBytes(w);
      if v.num.Some? {
        NumberRoundTrip(v.num.value, w);
      }
  }

  /** A decoded field fits its kind, and encoding it again gives as many bytes as were read, the same ones exactly
      when they were canonical. */
  lemma ValueReencode(k: Kind, bs: seq<byte>)
    requires DecodeValue(k, bs).Some?
    ensures var (v, rest) := DecodeValue(k, bs).value;
            var read := |bs| - |rest|;
            && 0 <= read <= |bs| && rest == bs[read..]
            && Fits(v, k) && |EncodeValue(v, k)| == read
            && (EncodeValue(v, k) == bs[..read] <==> Canonical(k, bs[..read]))
  {
    hide LittleEndian, FromLittleEndian, Radix, Tag, CanonicalOption;
    match k
    case Uint(w) =>
      FromLittleEndianBound(bs[..w]);
      BytesRoundTrip(bs[..w]);
    case Flag =>
    case PublicKey =>
    case OptionalKey =>
      if bs[0] != 0 {
        assert bs[..33] == [bs[0]] + bs[1..33];
      }
    case COptionKey =>
      assert bs[..36][..4] == bs[..4] && bs[..36][4..] == bs[4..36];
      OptionReencode(bs[..36], bs[4..36], Zeros(32));
    case COptionUint(w) =>
      FromLittleEndianBound(bs[4..4 + w]);
      BytesRoundTrip(bs[4..4 + w]);
      ZeroBytes(w);
      assert bs[..4 + w][..4] == bs[..4] && bs[..4 + w][4..] == bs[4..4 + w];
      OptionReencode(bs[..4 + w], bs[4..4 + w], Zeros(w));
  }

  lemma OptionReencode(bs: seq<byte>, body: seq<byte>, zeros: seq<byte>)
    requires |bs| >= 4 && body == bs[4..] && zeros == Zeros(|body|)
    ensures var present := FromLittleEndian(bs[..4]) == 1;
            Tag(present) + (if present then body else zeros) == bs <==> CanonicalOption(bs)
  {
    hide FromLittleEndian, LittleEndian;
    TagValue(bs[..4]);
    TagValue(Tag(false));
    var present := FromLittleEndian(bs[..4]) == 1;
    var again := Tag(present) + (if present then body else zeros);
    assert bs == bs[..4] + body;
    assert again[..4] == Tag(present) && again[4..] == if present then body else zeros;
    if again == bs {
      assert !present ==> forall i :: 4 <= i < |bs| ==> bs[i] == zeros[i - 4];
    }
    if CanonicalOption(bs) && !present {
      assert body == zeros;
    }
  }

  /** What unusual bytes read as: a flag other than zero is true, an option tag other than one is absent whatever its
      body, a flag byte other than zero announces a key. */
  lemma LenientReads(bs: seq<byte>)
    requires |bs| >= 36
    ensures DecodeValue(Flag, bs) == Some((Truth(bs[0] != 0), bs[1..]))
    ensures DecodeValue(OptionalKey, bs) == Some(if bs[0] == 0 then (MaybeKey(None), bs[1..])
                                                 else (MaybeKey(Some(bs[1..33])), bs[33..]))
    ensures DecodeValue(COptionKey, bs)
         == Some((MaybeKey(if bs[..4] == [1, 0, 0, 0] then Some(bs[4..36]) else None), bs[36..]))
    ensures DecodeValue(COptionUint(8), bs).Some?
    ensures DecodeValue(COptionUint(8), bs).value.0
         == MaybeNumber(if bs[..4] == [1, 0, 0, 0] then Some(FromLittleEndian(bs[4..12])) else None)
  {
    TagBytes(true);
    BytesRoundTrip(bs[..4]);
    Widths();
    NumberRoundTrip(1, 4);
  }

  lemma TagBytes(present: bool)
    ensures Tag(present) == [if present then 1 else 0, 0, 0, 0]
  {
    var one := if present then 1 else 0;
    assert LittleEndian(one, 4) == [one as byte] + LittleEndian(0, 3);
    assert LittleEndian(0, 3) == [0] + LittleEndian(0, 2);
    assert LittleEndian(0, 2) == [0] + LittleEndian(0, 1);
    assert LittleEndian(0, 1) == [0] + LittleEndian(0, 0);
  }

  // ---------- records ----------

  predicate FitsAll(vs: seq<Value>, ks: seq<Kind>) {
    |vs| == |ks| && forall i :: 0 <= i < |ks| ==> Fits(vs[i], ks[i])
  }

  /** The first n fields, one after another. */
  function EncodeFields(vs: seq<Value>, ks: seq<Kind>, n: nat): seq<byte>
    requires FitsAll(vs, ks) && n <= |ks|
  {
    if n == 0 then [] else EncodeFields(vs, ks, n - 1) + EncodeValue(vs[n - 1], ks[n - 1])
  }

  /** The fields read in order; the bytes left, or none of them when some field could not be read; and whether
      every field read was canonical. */
  datatype Decoded = Decoded(read: seq<Value>, rest: Option<seq<byte>>, canonical: bool)

  function DecodeFields(ks: seq<Kind>, bs: seq<byte>, n: nat): (d: Decoded)
    requires n <= |ks|
    ensures |d.read| <= n && (d.rest.Some? ==> |d.read| == n)
  {
    if n == 0 then Decoded([], Some(bs), true) else DecodeNext(DecodeFields(ks, bs, n - 1), ks[n - 1])
  }

  function DecodeNext(d: Decoded, k: Kind): Decoded {
    if d.rest.None? then d
    else match DecodeValue(k, d.rest.value)
      case None => Decoded(d.read, None, d.canonical)
      case Some((v, rest)) =>
        Decoded(d.read + [v], Some(rest), d.canonical && Canonical(k, Consumed(d.rest.value, rest)))
  }

  function Consumed(before: seq<byte>, after: seq<byte>): seq<byte> {
    if |after| <= |before| then before[..|before| - |after|] else []
  }

  function Encode(vs: seq<Value>, ks: seq<Kind>): seq<byte>
    requires FitsAll(vs, ks)
  {
    EncodeFields(vs, ks, |ks|)
  }

  function Decode(ks: seq<Kind>, bs: seq<byte>): Decoded {
    DecodeFields(ks, bs, |ks|)
  }

  /** A field that cannot be read ends the decoding. */
  lemma {:induction false} DecodeStuck(ks: seq<Kind>, bs: seq<byte>, i: nat, n: nat)
    requires i <= n <= |ks| && DecodeFields(ks, bs, i).rest.None?
    ensures DecodeFields(ks, bs, n) == DecodeFields(ks, bs, i)
    decreases n
  {
    if i < n {
      DecodeStuck(ks, bs, i, n - 1);
    }
  }

  /** A record decodes to itself, whatever follows it. */
  lemma {:induction false} FieldsRoundTrip(vs: seq<Value>, ks: seq<Kind>, n: nat, rest: seq<byte>)
    requires FitsAll(vs, ks) && n <= |ks|
    ensures DecodeFields(ks, EncodeFields(vs, ks, n) + rest, n) == Decoded(vs[..n], Some(rest), true)
    decreases n
  {
    hide EncodeValue, DecodeValue, Fits, Canonical, Consumed;
    if n == 0 {
      assert EncodeFields(vs, ks, n) + rest == rest;
    } else {
      var head, last := EncodeFields(vs, ks, n - 1), EncodeValue(vs[n - 1], ks[n - 1]);
      assert EncodeFields(vs, ks, n) + rest == head + (last + rest);
      FieldsRoundTrip(vs, ks, n - 1, last + rest);
      ValueRoundTrip(vs[n - 1], ks[n - 1], rest);
    }
  }

  /** Any record of the layout decodes to itself and its bytes are canonical. */
  lemma RoundTrip(vs: seq<Value>, ks: seq<Kind>, rest: seq<byte>)
    requires FitsAll(vs, ks)
    ensures Decode(ks, Encode(vs, ks) + rest) == Decoded(vs, Some(rest), true)
  {
    FieldsRoundTrip(vs, ks, |ks|, rest);
    assert vs[..|ks|] == vs;
  }

  lemma {:induction false} DecodedPrefix(ks: seq<Kind>, bs: seq<byte>, i: nat, n: nat)
    requires i <= n <= |ks| && DecodeFields(ks, bs, n).rest.Some?
    ensures DecodeFields(ks, bs, i).rest.Some? && DecodeFields(ks, bs, i).read == DecodeFields(ks, bs, n).read[..i]
    decreases n
  {
    hide DecodeValue, Canonical, Consumed;
    if i < n {
      DecodedPrefix(ks, bs, i, n - 1);
      assert DecodeFields(ks, bs, n).read[..i] == DecodeFields(ks, bs, n - 1).read[..i];
    }
  }

  lemma DecodedFieldFits(ks: seq<Kind>, bs: seq<byte>, i: nat)
    requires i < |ks| && DecodeFields(ks, bs, |ks|).rest.Some?
    ensures Fits(DecodeFields(ks, bs, |ks|).read[i], ks[i])
  {
    hide DecodeValue, Canonical, Consumed, Fits;
    DecodedPrefix(ks, bs, i, |ks|);
    DecodedPrefix(ks, bs, i + 1, |ks|);
    ValueReencode(ks[i], DecodeFields(ks, bs, i).rest.value);
    assert DecodeFields(ks, bs, i + 1).read[i] == DecodeFields(ks, bs, |ks|).read[i];
  }

  lemma DecodedFits(ks: seq<Kind>, bs: seq<byte>)
    requires Decode(ks, bs).rest.Some?
    ensures FitsAll(Decode(ks, bs).read, ks)
  {
    hide DecodeFields, Fits;
    forall i | 0 <= i < |ks|
      ensures Fits(Decode(ks, bs).read[i], ks[i])
    {
      DecodedFieldFits(ks, bs, i);
    }
  }

  /** Decoding and encoding again rewrites a record in place: same length, and the same bytes exactly when
      every field was canonical. */
  lemma {:induction false} FieldsReencode(ks: seq<Kind>, bs: seq<byte>, n: nat)
    requires n <= |ks| && Decode(ks, bs).rest.Some? && FitsAll(Decode(ks, bs).read, ks)
    ensures var vs, d := Decode(ks, bs).read, DecodeFields(ks, bs, n);
            && d.rest.Some?
            && var read := |bs| - |d.rest.value|;
            && 0 <= read <= |bs| && d.rest.value == bs[read..]
            && |EncodeFields(vs, ks, n)| == read
            && (EncodeFields(vs, ks, n) == bs[..read] <==> d.canonical)
    decreases n
  {
    hide DecodeValue, EncodeValue, Fits, FitsAll, Canonical, Consumed, Decode;
    var vs := Decode(ks, bs).read;
    NthRead(ks, bs, n);
    if n > 0 {
      FieldsReencode(ks, bs, n - 1);
      ReencodeChunk(ks[n - 1], bs, EncodeFields(vs, ks, n - 1), |bs| - |DecodeFields(ks, bs, n - 1).rest.value|);
    }
  }

  lemma NthRead(ks: seq<Kind>, bs: seq<byte>, n: nat)
    requires n <= |ks| && Decode(ks, bs).rest.Some?
    ensures |Decode(ks, bs).read| == |ks| && DecodeFields(ks, bs, n).rest.Some?
    ensures n > 0 ==>
              && DecodeFields(ks, bs, n - 1).rest.Some?
              && var before := DecodeValue(ks[n - 1], DecodeFields(ks, bs, n - 1).rest.value);
              && before.Some? && before.value.0 == Decode(ks, bs).read[n - 1]
  {
    hide DecodeValue, Canonical, Consumed;
    var vs := Decode(ks, bs).read;
    DecodedPrefix(ks, bs, n, |ks|);
    if n > 0 {
      DecodedPrefix(ks, bs, n - 1, |ks|);
      assert vs[n - 1] == vs[..n][n - 1];
    }
  }

  lemma ReencodeChunk(k: Kind, bs: seq<byte>, head: seq<byte>, mid: nat)
    requires |head| == mid <= |bs| && DecodeValue(k, bs[mid..]).Some?
    ensures var (v, rest) := DecodeValue(k, bs[mid..]).value;
            var end := |bs| - |rest|;
            && mid <= end <= |bs| && rest == bs[end..]
            && Fits(v, k) && |head + EncodeValue(v, k)| == end
            && (head + EncodeValue(v, k) == bs[..end] <==> head == bs[..mid] && Canonical(k, Consumed(bs[mid..], rest)))
  {
    hide EncodeValue, DecodeValue, Fits, Canonical;
    ValueReencode(k, bs[mid..]);
    var (v, rest) := DecodeValue(k, bs[mid..]).value;
    var end := |bs| - |rest|;
    assert bs[mid..][..end - mid] == bs[..end][mid..] && bs[..end][..mid] == bs[..mid];
    SplitEquality(head, EncodeValue(v, k), bs[..end], mid);
  }

  lemma SplitEquality(a: seq<byte>, b: seq<byte>, whole: seq<byte>, mid: nat)
    requires |a| == mid <= |whole|
    ensures a + b == whole <==> a == whole[..mid] && b == whole[mid..]
  {
    assert (a + b)[..mid] == a && (a + b)[mid..] == b;
    assert whole == whole[..mid] + whole[mid..];
  }

  /** Re-encoding is a canonical form: as many bytes, which decode to the same record, are canonical themselves, and
      are the original ones exactly when those were canonical already. */
  lemma ReencodedIsCanonical(ks: seq<Kind>, bs: seq<byte>)
    requires Decode(ks, bs).rest.Some?
    ensures var d := Decode(ks, bs);
            && FitsAll(d.read, ks)
            && var again := Encode(d.read, ks) + d.rest.value;
            && |again| == |bs|
            && Decode(ks, again) == d.(canonical := true)
            && (again == bs <==> d.canonical)
  {
    DecodedFits(ks, bs);
    FieldsReencode(ks, bs, |ks|);
    hide DecodeFields, EncodeFields, FitsAll;
    var d := Decode(ks, bs);
    RoundTrip(d.read, ks, d.rest.value);
    var read := |bs| - |d.rest.value|;
    SplitEquality(Encode(d.read, ks), d.rest.value, bs, read);
  }

  // ---------- records of fixed size ----------

  function Size(k: Kind): nat {
    match k
    case Uint(w) => w
    case Flag => 1
    case PublicKey => 32
    case OptionalKey => 1
    case COptionKey => 36
    case COptionUint(w) => 4 + w
  }

  function TotalSize(ks: seq<Kind>, n: nat): nat
    requires n <= |ks|
  {
    if n == 0 then 0 else TotalSize(ks, n - 1) + Size(ks[n - 1])
  }

  lemma FixedValue(k: Kind, bs: seq<byte>)
    requires k != OptionalKey
    ensures DecodeValue(k, bs).Some? <==> |bs| >= Size(k)
    ensures |bs| >= Size(k) ==> DecodeValue(k, bs).value.1 == bs[Size(k)..]
  {
  }

  /** Without flag-byte options a record has one size, and decodes exactly when that many bytes are there. */
  lemma {:induction false} FixedSize(ks: seq<Kind>, bs: seq<byte>, n: nat)
    requires n <= |ks| && forall i :: 0 <= i < n ==> ks[i] != OptionalKey
    ensures var rest := DecodeFields(ks, bs, n).rest;
            && (rest.Some? <==> |bs| >= TotalSize(ks, n))
            && (rest.Some? ==> rest.value == bs[TotalSize(ks, n)..])
    decreases n
  {
    hide DecodeValue, Canonical, Consumed, Size;
    if n > 0 {
      FixedSize(ks, bs, n - 1);
      var at := TotalSize(ks, n - 1);
      if |bs| >= at {
        FixedValue(ks[n - 1], bs[at..]);
        assert |bs[at..]| >= Size(ks[n - 1]) ==> bs[at..][Size(ks[n - 1])..] == bs[at + Size(ks[n - 1])..];
      }
    }
  }

  /** Such a record is canonical exactly when each field is, at its fixed place. */
  lemma {:induction false} CanonicalByPlace(ks: seq<Kind>, bs: seq<byte>, n: nat)
    requires OptionalKey !in ks && n <= |ks| && |bs| >= TotalSize(ks, n)
    ensures DecodeFields(ks, bs, n).canonical <==> PlacesCanonical(ks, bs, n)
    decreases n
  {
    hide Canonical, DecodeValue, Size;
    if n > 0 {
      var at, size := TotalSize(ks, n - 1), Size(ks[n - 1]);
      assert ks[n - 1] in ks;
      FixedSize(ks, bs, n - 1);
      FixedSize(ks, bs, n);
      CanonicalByPlace(ks, bs, n - 1);
      assert Consumed(bs[at..], bs[at + size..]) == bs[at..at + size];
    }
  }

  predicate PlacesCanonical(ks: seq<Kind>, bs: seq<byte>, n: nat)
    requires n <= |ks| && |bs| >= TotalSize(ks, n)
  {
    n == 0 ||
    var at, size := TotalSize(ks, n - 1), Size(ks[n - 1]);
    PlacesCanonical(ks, bs, n - 1) && Canonical(ks[n - 1], bs[at..at + size])
  }

  // ---------- decoding into a used object ----------

  /** An absent option leaves the field as it was; everything else overwrites it. */
  function Overwrite(held: Value, v: Value): Value {
    if Absent(v) then held else v
  }

  predicate Absent(v: Value) {
    v == MaybeKey(None) || v == MaybeNumber(None)
  }

  /** The fields of an object after the first of them were read into it. */
  function Overwritten(fields: seq<Value>, read: seq<Value>): seq<Value>
    requires |read| <= |fields|
  {
    seq(|fields|, i requires 0 <= i < |fields| => if i < |read| then Overwrite(fields[i], read[i]) else fields[i])
  }

  /** Decoding restores a record in an object exactly when the object held no option that the record lacks. */
  lemma RestoresIff(fields: seq<Value>, record: seq<Value>)
    requires |fields| == |record|
    ensures Overwritten(fields, record) == record <==>
              forall i :: 0 <= i < |record| && Absent(record[i]) ==> fields[i] == record[i]
  {
    var result := Overwritten(fields, record);
    if result == record {
      assert forall i :: 0 <= i < |record| ==> result[i] == record[i];
    }
  }

  // ---------- an object written or filled field by field ----------

  /** One more field behind what was written since the start. */
  lemma Written(vs: seq<Value>, ks: seq<Kind>, i: nat, start: seq<byte>, buf: seq<byte>)
    requires FitsAll(vs, ks) && i < |ks|
    requires buf == start + EncodeFields(vs, ks, i) + EncodeValue(vs[i], ks[i])
    ensures buf == start + EncodeFields(vs, ks, i + 1)
  {
  }

  /** What a decoding of the bytes has made of the object and the stream. */
  predicate Unmarshalled(into: seq<Value>, ks: seq<Kind>, bs: seq<byte>, ok: bool, unread: seq<byte>,
                         fields: seq<Value>)
    requires |ks| <= |into|
  {
    var d := Decode(ks, bs);
    && ok == d.rest.Some? && (ok ==> unread == d.rest.value)
    && fields == Overwritten(into, d.read)
  }

  /** An object into which the first `done` fields of a record have been read. */
  datatype Progress = Progress(into: seq<Value>, ks: seq<Kind>, bs: seq<byte>, done: nat, unread: seq<byte>,
                               fields: seq<Value>)

  predicate Reading(p: Progress) {
    && p.done <= |p.ks| <= |p.into|
    && var d := DecodeFields(p.ks, p.bs, p.done);
       d.rest == Some(p.unread) && p.fields == Overwritten(p.into, d.read)
  }

  lemma Begin(into: seq<Value>, ks: seq<Kind>, bs: seq<byte>) returns (p: Progress)
    requires |ks| <= |into|
    ensures p == Progress(into, ks, bs, 0, bs, into) && Reading(p)
  {
    p := Progress(into, ks, bs, 0, bs, into);
  }

  lemma Took(p: Progress, v: Value, rest: seq<byte>, now: seq<Value>) returns (q: Progress)
    requires Reading(p) && p.done < |p.ks| && p.done < |p.fields|
    requires DecodeValue(p.ks[p.done], p.unread) == Some((v, rest))
    requires now == p.fields[p.done := Overwrite(p.fields[p.done], v)]
    ensures Reading(q) && q == Progress(p.into, p.ks, p.bs, p.done + 1, rest, now)
  {
    hide DecodeValue, Canonical, Consumed;
    q := Progress(p.into, p.ks, p.bs, p.done + 1, rest, now);
  }

  lemma Stuck(p: Progress, left: seq<byte>)
    requires Reading(p) && p.done < |p.ks|
    requires DecodeValue(p.ks[p.done], p.unread).None?
    ensures |p.ks| <= |p.into| && Unmarshalled(p.into, p.ks, p.bs, false, left, p.fields)
  {
    hide DecodeValue, Canonical, Consumed;
    DecodeStuck(p.ks, p.bs, p.done + 1, |p.ks|);
  }

  lemma Finished(p: Progress)
    requires Reading(p) && p.done == |p.ks|
    ensures |p.ks| <= |p.into| && Unmarshalled(p.into, p.ks, p.bs, true, p.unread, p.fields)
  {
  }

  // ---------- streams ----------

  class Encoder {
    var buf: seq<byte>

    constructor ()
      ensures buf == []
    {
      buf := [];
    }

    method WriteBytes(bs: seq<byte>)
      modifies this
      ensures buf == old(buf) + bs
    {
      buf := buf + bs;
    }

    method WriteKey(k: Key)
      modifies this
      ensures buf == old(buf) + EncodeValue(RawKey(k), PublicKey)
    {
      buf := buf + k;
    }

    method WriteUint(n: nat, width: nat)
      requires n < Radix(width)
      modifies this
      ensures buf == old(buf) + EncodeValue(Number(n), Uint(width))
    {
      buf := buf + LittleEndian(n, width);
    }

    method WriteBool(b: bool)
      modifies this
      ensures buf == old(buf) + EncodeValue(Truth(b), Flag)
    {
      buf := buf + [if b then 1 else 0];
    }
  }

  class Decoder {
    var unread: seq<byte>

    constructor (data: seq<byte>)
      ensures unread == data
    {
      unread := data;
    }

    method ReadNBytes(n: nat) returns (r: Option<seq<byte>>)
      modifies this
      ensures r.None? <==> |old(unread)| < n
      ensures r.None? ==> unread == old(unread)
      ensures r.Some? ==> r.value == old(unread)[..n] && unread == old(unread)[n..]
    {
      if |unread| < n {
        return None;
      }
      r := Some(unread[..n]);
      unread := unread[n..];
    }

    method ReadUint(width: nat) returns (r: Option<nat>)
      modifies this
      ensures r.None? ==> DecodeValue(Uint(width), old(unread)).None?
      ensures r.Some? ==> DecodeValue(Uint(width), old(unread)) == Some((Number(r.value), unread))
      ensures r.Some? ==> Fits(Number(r.value), Uint(width))
    {
      var bs := ReadNBytes(width);
      if bs.None? {
        return None;
      }
      FromLittleEndianBound(bs.value);
      return Some(FromLittleEndian(bs.value));
    }

    method ReadBool() returns (r: Option<bool>)
      modifies this
      ensures r.None? ==> DecodeValue(Flag, old(unread)).None?
      ensures r.Some? ==> DecodeValue(Flag, old(unread)) == Some((Truth(r.value), unread))
      ensures r.Some? ==> Fits(Truth(r.value), Flag)
    {
      var bs := ReadNBytes(1);
      if bs.None? {
        return None;
      }
      return Some(bs.value[0] != 0);
    }

    method ReadKey() returns (r: Option<Key>)
      modifies this
      ensures r.None? ==> DecodeValue(PublicKey, old(unread)).None?
      ensures r.Some? ==> DecodeValue(PublicKey, old(unread)) == Some((RawKey(r.value), unread))
      ensures r.Some? ==> Fits(RawKey(r.value), PublicKey)
    {
      var bs := ReadNBytes(32);
      if bs.None? {
        return None;
      }
      return Some(bs.value);
    }
  }
}
