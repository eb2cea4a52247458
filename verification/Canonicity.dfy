/**
  Canonicity: a well-formed tree is determined by what its lookups answer, so
  every history of updates that ends in the same key/value map ends in the same
  tree and in the same root.
 */
module Canonicity {
  import opened Hex
  import opened PatriciaTree
  import opened PatriciaTreeProofs

  /** A key the tree holds. */
  lemma {:induction false} SomeKey(t: Tree, end: bool) returns (k: Path)
    requires WellFormed(t, end)
    ensures KeyAt(k, end) && Get(t, k).Some?
    decreases t
  {
    match t
    case Leaf(_) => k := [];
    case Ext(key, child) =>
      var rest := SomeKey(child, key[|key| - 1] == TERM);
      k := Under(key, child, rest);
    case Branch(cs) =>
      var a, b :| 0 <= a < b < 17 && !cs[a].Nil? && !cs[b].Nil?;
      k := SomeKeyFrom(t, a);
  }

  /** A key of a branch that starts with the index of a given child. */
  lemma {:induction false} SomeKeyFrom(t: Tree, i: nat) returns (k: Path)
    requires WellFormed(t, false) && t.Branch? && i < 17 && !t.children[i].Nil?
    ensures KeyAt(k, false) && k[0] as int == i && Get(t, k).Some?
    decreases t, 0
  {
    var rest := SomeKey(t.children[i], i == 16);
    k := [i as Byte] + rest;
    assert k[1..] == rest;
  }

  lemma Under(p: Path, t: Tree, rest: Path) returns (k: Path)
    requires |p| > 0 && IsSegment(p) && KeyAt(rest, p[|p| - 1] == TERM)
    ensures k == p + rest && KeyAt(k, false) && Get(Ext(p, t), k) == Get(t, rest)
  {
    k := p + rest;
    assert k[|p|..] == rest;
    assert rest != [] ==> k[|k| - 1] == rest[|rest| - 1];
  }

  ghost predicate SameLookups(a: Tree, b: Tree, end: bool) {
    forall k :: KeyAt(k, end) ==> Get(a, k) == Get(b, k)
  }

  /** Well-formed trees with the same lookups are the same tree. */
  lemma {:induction false} LookupsDetermineTree(a: Tree, b: Tree, end: bool)
    requires WellFormed(a, end) && WellFormed(b, end)
    requires SameLookups(a, b, end)
    ensures a == b
    decreases a
  {
    if end {
      assert Get(a, []) == Get(b, []);
    } else if a.Ext? && b.Ext? {
      SameExtKey(a, b);
      forall k | KeyAt(k, a.key[|a.key| - 1] == TERM) ensures Get(a.child, k) == Get(b.child, k) {
        var ka := Under(a.key, a.child, k);
        var kb := Under(b.key, b.child, k);
      }
      LookupsDetermineTree(a.child, b.child, a.key[|a.key| - 1] == TERM);
    } else if a.Branch? && b.Branch? {
      forall i | 0 <= i < 17 ensures a.children[i] == b.children[i] {
        SameChild(a, b, i);
        if !a.children[i].Nil? { LookupsDetermineTree(a.children[i], b.children[i], i == 16); }
      }
    } else if a.Branch? {
      var k := BranchIsNoExt(a, b);
    } else {
      var k := BranchIsNoExt(b, a);
    }
  }

  lemma SameChild(a: Tree, b: Tree, i: nat)
    requires WellFormed(a, false) && WellFormed(b, false) && a.Branch? && b.Branch? && i < 17
    requires SameLookups(a, b, false)
    ensures a.children[i].Nil? <==> b.children[i].Nil?
    ensures SameLookups(a.children[i], b.children[i], i == 16)
  {
    if !a.children[i].Nil? {
      var k := SomeKeyFrom(a, i);
      assert Get(b, k).Some?;
    }
    if !b.children[i].Nil? {
      var k := SomeKeyFrom(b, i);
      assert Get(a, k).Some?;
    }
    forall k | KeyAt(k, i == 16) ensures Get(a.children[i], k) == Get(b.children[i], k) {
      var key := [i as Byte] + k;
      assert key[1..] == k && KeyAt(key, false);
      assert Get(a, key) == Get(b, key);
    }
  }

  lemma SomeKeyUnder(t: Tree) returns (k: Path)
    requires WellFormed(t, false) && t.Ext?
    ensures KeyAt(k, false) && t.key <= k && Get(t, k).Some?
  {
    k := SomeKey(t, false);
  }

  /** Of two keys of a branch, one leaves the path of any Ext. */
  lemma BranchIsNoExt(a: Tree, b: Tree) returns (k: Path)
    requires WellFormed(a, false) && WellFormed(b, false) && a.Branch? && b.Ext?
    ensures KeyAt(k, false) && Get(a, k).Some? && Get(b, k).None?
  {
    k := SomeKeyAvoiding(a, b.key[0]);
  }

  lemma SomeKeyAvoiding(t: Tree, i: Byte) returns (k: Path)
    requires WellFormed(t, false) && t.Branch?
    ensures KeyAt(k, false) && k[0] != i && Get(t, k).Some?
  {
    var x, y :| 0 <= x < y < 17 && !t.children[x].Nil? && !t.children[y].Nil?;
    k := SomeKeyFrom(t, if x == i as int then y else x);
  }

  lemma SameExtKey(a: Tree, b: Tree)
    requires WellFormed(a, false) && WellFormed(b, false) && a.Ext? && b.Ext?
    requires SameLookups(a, b, false)
    ensures a.key == b.key
  {
    if |a.key| < |b.key| {
      var k := ShorterKeyDiffers(a, b);
    } else if |b.key| < |a.key| {
      var k := ShorterKeyDiffers(b, a);
    } else {
      var k := SomeKeyUnder(a);
      assert Get(b, k).Some?;
      assert a.key == k[..|a.key|] == b.key;
    }
  }

  lemma ShorterKeyDiffers(a: Tree, b: Tree) returns (k: Path)
    requires WellFormed(a, false) && WellFormed(b, false) && a.Ext? && b.Ext?
    requires |a.key| < |b.key|
    ensures KeyAt(k, false) && Get(a, k).Some? && Get(b, k).None?
  {
    var n := |a.key|;
    if a.key == b.key[..n] {
      assert a.key[n - 1] == b.key[n - 1];
      var rest := SomeKeyAvoiding(a.child, b.key[n]);
      k := Under(a.key, a.child, rest);
      assert k[n] == rest[0];
    } else {
      k := SomeKeyUnder(a);
      assert k[..n] == a.key;
      PrefixTransitive(b.key[..n], b.key, k);
    }
  }
}
