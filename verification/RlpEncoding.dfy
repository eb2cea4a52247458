/**
  The byte strings behind RLP values (Appendix B of the Ethereum Yellow Paper): their
  length is the size that decides whether a node is embedded or hashed, and no two
  values share one.
 */
module RlpEncoding {
  import opened Hex
  import opened Rlp
  import opened PatriciaTree
  import opened TrieNode
  import opened Proof

  const Two64: nat := 0x1_0000_0000_0000_0000

  // ----- lengths -----

  /** n without leading zeros, most significant byte first. */
  function BigEndian(n: nat): (b: Bytes)
    ensures |b| == ByteLength(n)
  {
    if n == 0 then [] else BigEndian(n / 256) + [(n % 256) as Byte]
  }

  function Value(b: Bytes): nat {
    if b == [] then 0 else 256 * Value(b[..|b| - 1]) + b[|b| - 1] as nat
  }

  lemma {:induction false} ValueOfBigEndian(n: nat)
    ensures Value(BigEndian(n)) == n
  {
    if n > 0 {
      var b := BigEndian(n);
      assert b[..|b| - 1] == BigEndian(n / 256);
      ValueOfBigEndian(n / 256);
    }
  }

  lemma {:induction false} ByteLengthGrows(n: nat, bound: nat)
    requires n <= bound
    ensures ByteLength(n) <= ByteLength(bound)
  {
    if n > 0 { ByteLengthGrows(n / 256, bound / 256); }
  }

  lemma EightBytes(n: nat)
    requires n < Two64
    ensures ByteLength(n) <= 8
  {
    ByteLengthGrows(n, Two64 - 1);
    assert ByteLength(0xff) == 1 && ByteLength(0xffff) == 2 && ByteLength(0xff_ffff) == 3 && ByteLength(0xffff_ffff) == 4;
    assert ByteLength(0xff_ffff_ffff) == 5 && ByteLength(0xffff_ffff_ffff) == 6 && ByteLength(0xff_ffff_ffff_ffff) == 7;
  }

  // ----- heads -----

  const StrHead: nat := 0x80
  const ListHead: nat := 0xc0

  predicate IsHead(kind: nat) {
    kind == StrHead || kind == ListHead
  }

  /** What comes before n bytes of content. */
  function Head(kind: nat, n: nat): (b: Bytes)
    requires IsHead(kind) && n < Two64
    ensures |b| == HeadSize(n) && kind <= b[0] as nat < kind + 0x40
  {
    EightBytes(n);
    if n < 56 then [(kind + n) as Byte] else [(kind + 55 + ByteLength(n)) as Byte] + BigEndian(n)
  }

  /** A head can be told from what follows it. */
  lemma {:induction false} OneHead(k1: nat, n1: nat, r1: Bytes, k2: nat, n2: nat, r2: Bytes)
    requires IsHead(k1) && IsHead(k2) && n1 < Two64 && n2 < Two64 && Head(k1, n1) + r1 == Head(k2, n2) + r2
    ensures k1 == k2 && n1 == n2 && r1 == r2
  {
    var h1, h2 := Head(k1, n1), Head(k2, n2);
    EightBytes(n1);
    EightBytes(n2);
    assert h1[0] == (h1 + r1)[0] == (h2 + r2)[0] == h2[0];
    assert k1 == k2;
    assert |h1| == |h2| && (n1 < 56 <==> n2 < 56);
    Parts(h1, r1, h2, r2);
    if n1 >= 56 {
      assert h1[1..] == BigEndian(n1) && h2[1..] == BigEndian(n2);
      ValueOfBigEndian(n1);
      ValueOfBigEndian(n2);
    }
  }

  lemma {:induction false} Parts(h1: Bytes, r1: Bytes, h2: Bytes, r2: Bytes)
    requires h1 + r1 == h2 + r2 && |h1| == |h2|
    ensures h1 == h2 && r1 == r2
  {
    assert h1 == (h1 + r1)[..|h1|] && h2 == (h2 + r2)[..|h2|];
    assert r1 == (h1 + r1)[|h1|..] && r2 == (h2 + r2)[|h2|..];
  }

  // ----- items -----

  /** The encoding of an item whose length fits 64 bits. */
  function Serialised(x: Item): (b: Bytes)
    requires Size(x) < Two64
    ensures |b| == Size(x)
    decreases x, 1
  {
    match x
    case Str(s) => if |s| == 1 && s[0] < 0x80 then s else Head(StrHead, |s|) + s
    case List(xs) => Head(ListHead, SizeAll(xs)) + SerialisedAll(xs)
  }

  function SerialisedAll(xs: seq<Item>): (b: Bytes)
    requires SizeAll(xs) < Two64
    ensures |b| == SizeAll(xs)
    decreases xs, 0
  {
    if xs == [] then [] else Serialised(xs[0]) + SerialisedAll(xs[1..])
  }

  /** A single small byte stands for itself; all else has a head. */
  predicate Bare(x: Item) {
    x.Str? && |x.bytes| == 1 && x.bytes[0] < 0x80
  }

  function KindOf(x: Item): nat {
    if x.Str? then StrHead else ListHead
  }

  function Content(x: Item): Bytes
    requires Size(x) < Two64
  {
    if x.Str? then x.bytes else SerialisedAll(x.items)
  }

  lemma HeadAndContent(x: Item)
    requires Size(x) < Two64 && !Bare(x)
    ensures |Content(x)| < Two64 && Serialised(x) == Head(KindOf(x), |Content(x)|) + Content(x)
  {
  }

  lemma FirstByte(x: Item)
    requires Size(x) < Two64
    ensures Bare(x) <==> Serialised(x)[0] < 0x80
  {
  }

  /** An encoding can be told from what follows it, and determines its item. */
  lemma {:induction false} OneItem(x: Item, r: Bytes, y: Item, s: Bytes)
    requires Size(x) < Two64 && Size(y) < Two64 && Serialised(x) + r == Serialised(y) + s
    ensures x == y && r == s
    decreases x, 1
  {
    var b, c := Serialised(x), Serialised(y);
    assert b[0] == (b + r)[0] == (c + s)[0] == c[0];
    FirstByte(x);
    FirstByte(y);
    if Bare(x) {
      Parts(b, r, c, s);
    } else {
      HeadAndContent(x);
      HeadAndContent(y);
      Regroup(Head(KindOf(x), |Content(x)|), Content(x), r);
      Regroup(Head(KindOf(y), |Content(y)|), Content(y), s);
      OneHead(KindOf(x), |Content(x)|, Content(x) + r, KindOf(y), |Content(y)|, Content(y) + s);
      Parts(Content(x), r, Content(y), s);
      if x.List? { OneList(x.items, y.items); }
    }
  }

  lemma Regroup(a: Bytes, b: Bytes, c: Bytes)
    ensures (a + b) + c == a + (b + c)
  {
  }

  lemma {:induction false} OneList(xs: seq<Item>, ys: seq<Item>)
    requires SizeAll(xs) < Two64 && SizeAll(ys) < Two64 && SerialisedAll(xs) == SerialisedAll(ys)
    ensures xs == ys
    decreases xs, 0
  {
    if xs != [] && ys != [] {
      OneItem(xs[0], SerialisedAll(xs[1..]), ys[0], SerialisedAll(ys[1..]));
      OneList(xs[1..], ys[1..]);
      assert xs == [xs[0]] + xs[1..] && ys == [ys[0]] + ys[1..];
    }
  }

  /** Different items have different encodings. */
  lemma {:induction false} SerialisedOnce(x: Item, y: Item)
    requires Size(x) < Two64 && Size(y) < Two64
    ensures Serialised(x) == Serialised(y) <==> x == y
  {
    if Serialised(x) == Serialised(y) { OneItem(x, [], y, []); }
  }

  /** A child is referred to by its hash exactly if its encoding has 32 bytes or more, and is embedded otherwise. */
  lemma EmbeddedIff(t: Tree, hash: Item -> Hash)
    requires Inner(t) && Size(Encode(t, hash)) < Two64
    ensures |Serialised(Encode(t, hash))| >= 32 ==> Reference(t, hash) == Str(hash(Encode(t, hash))) && Standalone(t, hash)
    ensures |Serialised(Encode(t, hash))| < 32 ==> Reference(t, hash) == Encode(t, hash) && !Standalone(t, hash)
  {
  }

  /** The hash of an item is the digest of its encoding. */
  function HashBy(digest: Bytes -> Hash): Item -> Hash {
    (x: Item) => digest(if Size(x) < Two64 then Serialised(x) else [])
  }

  /** So hashes of items differ as long as digests of their encodings do. */
  lemma {:induction false} HashesDiffer(digest: Bytes -> Hash, items: iset<Item>)
    requires forall x :: x in items ==> Size(x) < Two64
    requires forall x, y :: x in items && y in items && digest(Serialised(x)) == digest(Serialised(y)) ==> Serialised(x) == Serialised(y)
    ensures Injective(HashBy(digest), items)
  {
    forall x, y | x in items && y in items && HashBy(digest)(x) == HashBy(digest)(y) ensures x == y {
      SerialisedOnce(x, y);
    }
  }
}
