/** Bytes and little-endian numbers. */
module Bytes {
  import opened Rounding

  newtype byte = x: int | 0 <= x < 256

  /** 256 to the power n: the numbers that fit in n bytes are the ones below it. */
  function Radix(n: nat): (r: nat)
    ensures r > 0
  {
    if n == 0 then 1 else 256 * Radix(n - 1)
  }

  function LittleEndian(v: nat, n: nat): (bs: seq<byte>)
    ensures |bs| == n
  {
    if n == 0 then [] else [(v % 256) as byte] + LittleEndian(v / 256, n - 1)
  }

  function FromLittleEndian(bs: seq<byte>): nat {
    if bs == [] then 0 else bs[0] as nat + 256 * FromLittleEndian(bs[1..])
  }

  /** The byte at a position is that digit to the base 256, the lowest one first. */
  lemma {:induction false} DigitAt(v: nat, n: nat, i: nat)
    requires i < n
    ensures LittleEndian(v, n)[i] as nat == v / Radix(i) % 256
    decreases i
  {
    if i > 0 {
      DigitAt(v / 256, n - 1, i - 1);
      DivDiv(v, 256, Radix(i - 1));
    }
  }

  lemma {:induction false} FromLittleEndianBound(bs: seq<byte>)
    ensures FromLittleEndian(bs) < Radix(|bs|)
  {
    if bs != [] {
      FromLittleEndianBound(bs[1..]);
    }
  }

  lemma {:induction false} NumberRoundTrip(v: nat, n: nat)
    requires v < Radix(n)
    ensures FromLittleEndian(LittleEndian(v, n)) == v
  {
    if n > 0 {
      NumberRoundTrip(v / 256, n - 1);
      assert LittleEndian(v, n)[1..] == LittleEndian(v / 256, n - 1);
    }
  }

  lemma {:induction false} BytesRoundTrip(bs: seq<byte>)
    ensures LittleEndian(FromLittleEndian(bs), |bs|) == bs
  {
    if bs != [] {
      BytesRoundTrip(bs[1..]);
      var rest := FromLittleEndian(bs[1..]);
      var v := bs[0] as nat + 256 * rest;
      assert v % 256 == bs[0] as nat && v / 256 == rest;
      assert bs == [bs[0]] + bs[1..];
    }
  }

  function Zeros(n: nat): (bs: seq<byte>)
    ensures |bs| == n
  {
    seq(n, i => 0 as byte)
  }
}
