/** Root hashes: without collisions a root hash determines the whole trie, and with it its key/value map. */
module Roots {
  import opened Hex
  import opened Rlp
  import opened PatriciaTree
  import opened TrieNode
  import opened Proof
  import opened History
  import opened Canonicity

  lemma CompactInjective(a: Path, b: Path)
    requires IsSegment(a) && IsSegment(b) && CompactOf(a) == CompactOf(b)
    ensures a == b
  {
    CompactRoundTrip(a);
    CompactRoundTrip(b);
  }

  /** Different well-formed trees have different encodings. */
  lemma {:induction false} EncodeInjective(a: Tree, b: Tree, hash: Item -> Hash, items: iset<Item>)
    requires WellFormed(a, false) && WellFormed(b, false)
    requires Injective(hash, items) && Within(a, hash, items) && Within(b, hash, items)
    requires Encode(a, hash) == Encode(b, hash)
    ensures a == b
    decreases a, 0
  {
    if a.Ext? {
      assert b.Ext?;
      CompactInjective(a.key, b.key);
      ReferenceInjective(a.child, b.child, HasTerm(a.key), hash, items);
    } else {
      assert |Encode(a, hash).items| == 17;
      assert b.Branch?;
      forall i: Byte | i < 17 ensures a.children[i] == b.children[i] {
        assert References(a.children, hash)[i] == References(b.children, hash)[i];
        ReferenceInjective(a.children[i], b.children[i], i == 16, hash, items);
      }
      SameSeq(a.children, b.children);
    }
  }

  lemma SameSeq(a: seq<Tree>, b: seq<Tree>)
    requires |a| == |b| == 17 && forall i: Byte :: i < 17 ==> a[i] == b[i]
    ensures a == b
  {
    forall j | 0 <= j < 17 ensures a[j] == b[j] { assert a[j as Byte] == b[j as Byte]; }
  }

  lemma {:induction false} ReferenceInjective(a: Tree, b: Tree, end: bool, hash: Item -> Hash, items: iset<Item>)
    requires (a.Nil? || WellFormed(a, end)) && (b.Nil? || WellFormed(b, end))
    requires Injective(hash, items) && Within(a, hash, items) && Within(b, hash, items)
    requires Reference(a, hash) == Reference(b, hash)
    ensures a == b
    decreases a, 1
  {
    if Inner(a) && Inner(b) {
      EncodeInjective(a, b, hash, items);
    }
  }

  /** Equal roots mean equal tries, and so equal maps. */
  lemma RootDeterminesTrie(a: Tree, b: Tree, hash: Item -> Hash, items: iset<Item>)
    requires Canonical(a) && Canonical(b)
    requires Injective(hash, items) && Within(a, hash, items) && Within(b, hash, items) && Str([]) in items
    ensures RootHash(a, hash) == RootHash(b, hash) <==> a == b
    ensures RootHash(a, hash) == RootHash(b, hash) <==> SameLookups(a, b, false)
  {
    if RootHash(a, hash) == RootHash(b, hash) && Inner(a) && Inner(b) {
      EncodeInjective(a, b, hash, items);
    }
    if SameLookups(a, b, false) { SameAnswersSameTree(a, b); }
  }
}
