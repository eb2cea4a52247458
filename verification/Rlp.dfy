/** RLP values with the length of their encoding (Appendix B of the Ethereum Yellow Paper). */
module Rlp {
  import opened Hex

  datatype Item = Str(bytes: Bytes) | List(items: seq<Item>)

  type Hash = h: Bytes | |h| == 32 witness seq(32, i => 0)

  /** Bytes in the big-endian form of n without leading zeros. */
  function ByteLength(n: nat): nat {
    if n == 0 then 0 else 1 + ByteLength(n / 256)
  }

  function HeadSize(content: nat): nat {
    if content < 56 then 1 else 1 + ByteLength(content)
  }

  /** Length of the encoding of an item. */
  function Size(x: Item): (n: nat)
    ensures n >= 1
    decreases x, 1
  {
    match x
    case Str(b) => if |b| == 1 && b[0] < 0x80 then 1 else HeadSize(|b|) + |b|
    case List(xs) => HeadSize(SizeAll(xs)) + SizeAll(xs)
  }

  function SizeAll(xs: seq<Item>): nat
    decreases xs, 0
  {
    if xs == [] then 0 else Size(xs[0]) + SizeAll(xs[1..])
  }

  lemma {:induction false} SizeAllHas(xs: seq<Item>, i: nat)
    requires i < |xs|
    ensures Size(xs[i]) <= SizeAll(xs)
    decreases i
  {
    if i > 0 { SizeAllHas(xs[1..], i - 1); }
  }

  /** A list is longer than each of its members. */
  lemma ListLonger(xs: seq<Item>, i: nat)
    requires i < |xs|
    ensures Size(xs[i]) < Size(List(xs))
  {
    SizeAllHas(xs, i);
  }

  /** No list shorter than a hash can hold a hash: 33 bytes would be needed. */
  lemma ShortListHoldsNoHash(xs: seq<Item>, i: nat)
    requires i < |xs| && Size(List(xs)) < 32
    ensures xs[i].Str? ==> |xs[i].bytes| != 32
  {
    ListLonger(xs, i);
  }
}
