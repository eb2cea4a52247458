/**
  The Merkle Patricia trie without its storage: fully expanded trees, with the
  insertion and deletion of trie/trie.go on them (Appendix D of the Ethereum
  Yellow Paper). Loaded nodes (module TrieNode) are proved to behave like these.
 */
module PatriciaTree {
  import opened Hex

  datatype Tree =
    | Nil
    | Leaf(value: Bytes)
    | Ext(key: Path, child: Tree)
    | Branch(children: seq<Tree>)

  /** The children of an empty full node. */
  function NoChildren(): (cs: seq<Tree>)
    ensures |cs| == 17 && forall i :: 0 <= i < 17 ==> cs[i] == Nil
  {
    seq(17, i => Nil)
  }

  // ----- operations -----

  /** The value under key k, if any. */
  function Get(t: Tree, k: Path): (r: Option<Bytes>)
    decreases t
  {
    match t
    case Nil => None
    case Leaf(v) => Some(v)
    case Ext(key, child) => if key <= k then Get(child, k[|key|..]) else None
    case Branch(cs) => if |k| > 0 && k[0] as int < |cs| then Get(cs[k[0]], k[1..]) else None
  }

  /** A tree holding `t` below the path `k`: insertion into an empty place. */
  function Attach(k: Path, t: Tree): Tree {
    if |k| == 0 then t else Ext(k, t)
  }

  function Insert(t: Tree, k: Path, v: Bytes): (r: Tree)
    requires t.Nil? || WellFormed(t, |k| == 0)
    requires IsKey(k)
    decreases t
  {
    match t
    case Nil => Attach(k, Leaf(v))
    case Leaf(_) => Leaf(v)
    case Ext(key, child) =>
      var m := PrefixLen(k, key);
      if m == |key| then Ext(key, Insert(child, k[m..], v)) else Split(key, child, k, v, m)
    case Branch(cs) =>
      Branch(cs[k[0] := Insert(cs[k[0]], k[1..], v)])
  }

  function Fork(i: Byte, a: Tree, j: Byte, b: Tree): Tree
    requires i < 17 && j < 17
  {
    Branch(NoChildren()[i := a][j := b])
  }

  /** Where key and k part after m nibbles, fork. */
  function Split(key: Path, child: Tree, k: Path, v: Bytes, m: nat): Tree
    requires m < |key| && m < |k| && key[m] < 17 && k[m] < 17
  {
    var branch := Fork(key[m], Attach(key[m + 1..], child), k[m], Attach(k[m + 1..], Leaf(v)));
    if m == 0 then branch else Ext(k[..m], branch)
  }

  function Delete(t: Tree, k: Path): (r: Tree)
    requires t.Nil? || WellFormed(t, |k| == 0)
    requires IsKey(k)
    decreases t
  {
    match t
    case Nil => Nil
    case Leaf(_) => Nil
    case Ext(key, child) =>
      var m := PrefixLen(k, key);
      if m < |key| then t
      else if m == |k| then Nil
      else Prepend(key, Delete(child, k[m..]))
    case Branch(cs) =>
      Shrink(cs[k[0] := Delete(cs[k[0]], k[1..])])
  }

  /** Put a path in front of a tree, merging it with the path of an Ext. */
  function Prepend(k: Path, t: Tree): Tree {
    if t.Ext? then Ext(k + t.key, t.child) else Ext(k, t)
  }

  /** A branch whose last but one child went away becomes an Ext. */
  function Shrink(cs: seq<Tree>): Tree
    requires |cs| == 17
  {
    var pos := OnlyIndex(Present(cs));
    if pos < 0 then Branch(cs)
    else if pos != 16 then Prepend([pos as Byte], cs[pos])
    else Ext([pos as Byte], cs[pos])
  }

  /** Which children are there. */
  function Present(cs: seq<Tree>): (r: seq<bool>)
    ensures |r| == |cs| && forall i :: 0 <= i < |r| ==> r[i] == !cs[i].Nil?
  {
    seq(|cs|, i requires 0 <= i < |cs| => !cs[i].Nil?)
  }

  /** Index of the only true entry, -1 if there is none, -2 if there are two or more. */
  function OnlyIndex(present: seq<bool>): (pos: int)
    ensures -2 <= pos < |present|
    ensures pos >= 0 ==> present[pos] && forall j :: 0 <= j < |present| && j != pos ==> !present[j]
    ensures pos == -1 ==> forall j :: 0 <= j < |present| ==> !present[j]
    ensures pos == -2 ==> exists a, b :: 0 <= a < b < |present| && present[a] && present[b]
  {
    OnlyIndexFrom(present, 0, -1)
  }

  /** The rest of the search: `pos` is the index seen before i, or -1. */
  function OnlyIndexFrom(present: seq<bool>, i: nat, pos: int): (r: int)
    requires i <= |present| && -1 <= pos < i
    requires pos >= 0 ==> present[pos]
    requires forall j :: 0 <= j < i && j != pos ==> !present[j]
    ensures -2 <= r < |present|
    ensures r >= 0 ==> present[r] && forall j :: 0 <= j < |present| && j != r ==> !present[j]
    ensures r == -1 ==> forall j :: 0 <= j < |present| ==> !present[j]
    ensures r == -2 ==> exists a, b :: 0 <= a < b < |present| && present[a] && present[b]
    decreases |present| - i
  {
    if i == |present| then pos
    else if !present[i] then OnlyIndexFrom(present, i + 1, pos)
    else if pos == -1 then OnlyIndexFrom(present, i + 1, i)
    else -2
  }

  // ----- canonical form -----

  /**
    The canonical form. `end` says that the terminator has been passed: a value
    stands there and nowhere else. No Ext below an Ext, and every branch forks.
   */
  ghost predicate WellFormed(t: Tree, end: bool)
    decreases t
  {
    match t
    case Nil => false
    case Leaf(v) => end && |v| > 0
    case Ext(key, child) =>
      && !end && |key| > 0 && IsSegment(key)
      && !child.Ext? && WellFormed(child, key[|key| - 1] == TERM)
    case Branch(_) =>
      && !end && |t.children| == 17 && Forks(t.children)
      && (forall i :: 0 <= i < 16 ==> t.children[i].Nil? || WellFormed(t.children[i], false))
      && (t.children[16].Nil? || WellFormed(t.children[16], true))
  }

  ghost predicate Forks(cs: seq<Tree>) {
    exists a, b :: 0 <= a < b < |cs| && !cs[a].Nil? && !cs[b].Nil?
  }

  ghost predicate Canonical(t: Tree) {
    t.Nil? || WellFormed(t, false)
  }

  // ----- insertion is map update and keeps the form -----

  lemma GetAttach(path: Path, t: Tree, k: Path)
    ensures Get(Attach(path, t), k) == if path <= k then Get(t, k[|path|..]) else None
  {
    if path == [] { assert k[0..] == k; }
  }
}
