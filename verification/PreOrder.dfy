/**
  What a node iterator visits (trie/iterator.go): the nodes of a trie in
  pre-order, which is the lexicographic order of their paths.
 */
module PreOrder {
  import opened Hex
  import opened Rlp
  import opened PatriciaTree
  import opened TrieNode
  import opened Proof

  /** A visited node: its path, its hash if it is standalone or the root, its value if it is a leaf. */
  datatype Entry = Entry(path: Path, hash: Option<Hash>, blob: Option<Bytes>)

  function EntryOf(t: Tree, path: Path, hash: Item -> Hash, root: bool): Entry {
    Entry(path,
          if Inner(t) && (root || Standalone(t, hash)) then Some(hash(Encode(t, hash))) else None,
          if t.Leaf? then Some(t.value) else None)
  }

  function Entries(t: Tree, path: Path, hash: Item -> Hash, root: bool): seq<Entry>
    decreases t, 1
  {
    [EntryOf(t, path, hash, root)] + Below(t, path, hash, 0)
  }

  /** The entries under the children of t from number i on. */
  function Below(t: Tree, path: Path, hash: Item -> Hash, i: nat): seq<Entry>
    decreases t, 0, if t.Branch? && i < |t.children| then |t.children| - i else 0
  {
    match t
    case Ext(key, child) => if i == 0 then Entries(child, path + key, hash, false) else []
    case Branch(cs) =>
      if i < |cs| && i < 17 then
        (if cs[i].Nil? then [] else Entries(cs[i], path + [i as Byte], hash, false)) + Below(t, path, hash, i + 1)
      else []
    case _ => []
  }

  // ----- the order of paths -----

  /** bytes.Compare(p, q) < 0. */
  predicate Less(p: Path, q: Path) {
    if q == [] then false
    else if p == [] then true
    else p[0] < q[0] || (p[0] == q[0] && Less(p[1..], q[1..]))
  }

  lemma {:induction false} LessTransitive(p: Path, q: Path, r: Path)
    requires Less(p, q) && Less(q, r)
    ensures Less(p, r)
    decreases |p|
  {
    if p != [] && p[0] == q[0] == r[0] { LessTransitive(p[1..], q[1..], r[1..]); }
  }

  lemma {:induction false} LessTotal(p: Path, q: Path)
    ensures Less(p, q) || p == q || Less(q, p)
    ensures Less(p, q) ==> !Less(q, p) && p != q
    decreases |p|
  {
    if p != [] && q != [] {
      LessTotal(p[1..], q[1..]);
      assert p == [p[0]] + p[1..] && q == [q[0]] + q[1..];
    }
  }

  lemma {:induction false} LessAppend(p: Path, x: Path, y: Path)
    ensures Less(p + x, p + y) == Less(x, y)
    decreases |p|
  {
    if p == [] {
      assert p + x == x && p + y == y;
    } else {
      assert (p + x)[1..] == p[1..] + x && (p + y)[1..] == p[1..] + y;
      LessAppend(p[1..], x, y);
    }
  }

  /** A proper extension comes later. */
  lemma PrefixLess(p: Path, q: Path)
    requires p < q
    ensures Less(p, q)
  {
    LessAppend(p, [], q[|p|..]);
    assert p + [] == p && p + q[|p|..] == q;
  }

  /** Below different children the smaller child number decides. */
  lemma SiblingLess(p: Path, i: Byte, j: Byte, q: Path, r: Path)
    requires i < j && p + [i] <= q && p + [j] <= r
    ensures Less(q, r)
    ensures !(q <= r)
  {
    LessAppend(p, q[|p|..], r[|p|..]);
    assert p + q[|p|..] == q && p + r[|p|..] == r;
    assert q[|p|] == (p + [i])[|p|] && r[|p|] == (p + [j])[|p|];
  }

  /** What comes after p without extending it comes after every extension of p. */
  lemma {:induction false} AfterSubtree(p: Path, x: Path, q: Path)
    requires Less(p, q) && !(p <= q) && p <= x
    ensures Less(x, q)
    decreases |p|
  {
    assert p != [] && x[0] == p[0];
    if p[0] == q[0] {
      assert p == [p[0]] + p[1..] && q == [q[0]] + q[1..];
      assert p[1..] <= x[1..];
      AfterSubtree(p[1..], x[1..], q[1..]);
    }
  }

  ghost predicate Sorted(es: seq<Entry>) {
    forall i, j :: 0 <= i < j < |es| ==> Less(es[i].path, es[j].path)
  }

  lemma SortedConcat(a: seq<Entry>, b: seq<Entry>)
    requires Sorted(a) && Sorted(b)
    requires forall x, y :: x in a && y in b ==> Less(x.path, y.path)
    ensures Sorted(a + b)
  {
    forall i, j | 0 <= i < j < |a + b| ensures Less((a + b)[i].path, (a + b)[j].path) {
      if i < |a| && j >= |a| { assert a[i] in a && b[j - |a|] in b; }
    }
  }

  // ----- entries are sorted, and nested as the tree is -----

  lemma {:induction false} EntriesExtend(t: Tree, path: Path, hash: Item -> Hash, root: bool)
    ensures forall e :: e in Entries(t, path, hash, root) ==> path <= e.path
    decreases t, 1
  {
    BelowExtend(t, path, hash, 0);
  }

  lemma {:induction false} BelowExtend(t: Tree, path: Path, hash: Item -> Hash, i: nat)
    ensures forall e :: e in Below(t, path, hash, i) ==> path <= e.path
    ensures t.Ext? ==> forall e :: e in Below(t, path, hash, i) ==> path + t.key <= e.path
    ensures t.Branch? ==> forall e :: e in Below(t, path, hash, i) ==>
              |e.path| > |path| && i <= e.path[|path|] as int < 17 && path + [e.path[|path|]] <= e.path
    decreases t, 0, if t.Branch? && i < |t.children| then |t.children| - i else 0
  {
    if t.Ext? {
      EntriesExtend(t.child, path + t.key, hash, false);
      forall e | e in Below(t, path, hash, i) ensures path <= e.path {
        assert path <= path + t.key <= e.path;
      }
    } else if t.Branch? && i < |t.children| && i < 17 {
      EntriesExtend(t.children[i], path + [i as Byte], hash, false);
      BelowExtend(t, path, hash, i + 1);
      forall e | e in Entries(t.children[i], path + [i as Byte], hash, false)
        ensures path <= e.path && |e.path| > |path| && e.path[|path|] as int == i
      {
        assert path <= path + [i as Byte] <= e.path;
        assert e.path[|path|] == (path + [i as Byte])[|path|];
      }
    }
  }

  lemma BelowProper(t: Tree, path: Path, hash: Item -> Hash, i: nat, end: bool)
    requires t.Nil? || WellFormed(t, end)
    ensures forall e :: e in Below(t, path, hash, i) ==> path < e.path
  {
    BelowExtend(t, path, hash, i);
    if t.Ext? {
      forall e | e in Below(t, path, hash, i) ensures path < e.path { assert path + t.key <= e.path; }
    }
  }

  /** The iterator visits nodes in strictly increasing order of their paths. */
  lemma {:induction false} EntriesSorted(t: Tree, path: Path, hash: Item -> Hash, root: bool, end: bool)
    requires t.Nil? || WellFormed(t, end)
    ensures Sorted(Entries(t, path, hash, root))
    decreases t, 1
  {
    BelowSorted(t, path, hash, 0, end);
    BelowProper(t, path, hash, 0, end);
    var first := [EntryOf(t, path, hash, root)];
    forall x, y | x in first && y in Below(t, path, hash, 0) ensures Less(x.path, y.path) {
      PrefixLess(x.path, y.path);
    }
    SortedConcat(first, Below(t, path, hash, 0));
  }

  lemma {:induction false} BelowSorted(t: Tree, path: Path, hash: Item -> Hash, i: nat, end: bool)
    requires t.Nil? || WellFormed(t, end)
    ensures Sorted(Below(t, path, hash, i))
    decreases t, 0, if t.Branch? && i < |t.children| then |t.children| - i else 0
  {
    if t.Ext? {
      EntriesSorted(t.child, path + t.key, hash, false, t.key[|t.key| - 1] == TERM);
    } else if t.Branch? && i < 17 {
      BelowSorted(t, path, hash, i + 1, end);
      if !t.children[i].Nil? {
        var a, b := Entries(t.children[i], path + [i as Byte], hash, false), Below(t, path, hash, i + 1);
        EntriesSorted(t.children[i], path + [i as Byte], hash, false, i == 16);
        EntriesExtend(t.children[i], path + [i as Byte], hash, false);
        BelowExtend(t, path, hash, i + 1);
        forall x, y | x in a && y in b ensures Less(x.path, y.path) {
          SiblingLess(path, i as Byte, y.path[|path|], x.path, y.path);
        }
        SortedConcat(a, b);
      }
    }
  }

  /** An entry below a branch belongs to the child its path goes through, and conversely. */
  lemma {:induction false} BelowChild(t: Tree, path: Path, hash: Item -> Hash, i: nat, e: Entry)
    requires t.Branch? && |t.children| == 17
    ensures e in Below(t, path, hash, i) <==>
              && |e.path| > |path| && i <= e.path[|path|] as int < 17 && !t.children[e.path[|path|]].Nil?
              && e in Entries(t.children[e.path[|path|]], path + [e.path[|path|]], hash, false)
    decreases 17 - i
  {
    if i < 17 {
      BelowChild(t, path, hash, i + 1, e);
      EntriesExtend(t.children[i], path + [i as Byte], hash, false);
      if e in Entries(t.children[i], path + [i as Byte], hash, false) {
        assert e.path[|path|] == (path + [i as Byte])[|path|];
      }
    }
  }

  /** The subtree behind an entry with a hash: the later entries extending its path are those below that subtree. */
  lemma {:induction false} SubtreeOf(t: Tree, path: Path, hash: Item -> Hash, root: bool, end: bool, e: Entry,
                                      items: iset<Item>)
    returns (sub: Tree)
    requires (t.Nil? || WellFormed(t, end)) && Within(t, hash, items)
    requires e in Entries(t, path, hash, root) && e.hash.Some?
    ensures WellFormed(sub, false) && e.hash.value == hash(Encode(sub, hash))
    ensures Within(sub, hash, items)
    ensures forall x :: x in Entries(t, path, hash, root) && e.path < x.path <==> x in Below(sub, e.path, hash, 0)
    decreases t
  {
    BelowProper(t, path, hash, 0, end);
    if e == EntryOf(t, path, hash, root) {
      sub := t;
    } else if t.Ext? {
      sub := SubtreeOf(t.child, path + t.key, hash, false, t.key[|t.key| - 1] == TERM, e, items);
      EntriesExtend(t.child, path + t.key, hash, false);
    } else {
      BelowChild(t, path, hash, 0, e);
      var j := e.path[|path|];
      sub := SubtreeOf(t.children[j], path + [j], hash, false, j == 16, e, items);
      forall x: Entry | e.path < x.path
        ensures x in Entries(t, path, hash, root) <==> x in Entries(t.children[j], path + [j], hash, false)
      {
        BelowChild(t, path, hash, 0, x);
        assert x.path[|path|] == e.path[|path|];
      }
      BelowProper(sub, e.path, hash, 0, false);
    }
  }

  /** The first position from i on whose path does not extend p. */
  function NextOutside(es: seq<Entry>, p: Path, i: nat): (r: nat)
    requires i <= |es|
    ensures i <= r <= |es|
    ensures forall q :: i <= q < r ==> p <= es[q].path
    ensures r < |es| ==> !(p <= es[r].path)
    decreases |es| - i
  {
    if i == |es| || !(p <= es[i].path) then i else NextOutside(es, p, i + 1)
  }

  /** Where an iterator at position p goes next. */
  function NextPos(es: seq<Entry>, p: int, descend: bool): (r: nat)
    requires -1 <= p < |es|
    ensures p < r <= |es|
  {
    if p == -1 || descend then p + 1 else NextOutside(es, es[p].path, p + 1)
  }
}
