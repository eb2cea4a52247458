/**
  Trie nodes as they live in memory and in the database (trie/node.go): nodes
  carry cache flags, subtrees may still be unloaded, and small nodes are embedded
  in the encoding of their parent.
 */
module TrieNode {
  import opened Hex
  import opened Rlp
  import opened PatriciaTree

  /** Cached hash, and whether the node still has to be written. */
  datatype Flags = Flags(hash: Option<Hash>, dirty: bool)

  datatype Node =
    | NilNode
    | ValueNode(value: Bytes)
    | ShortNode(key: Path, val: Node, flags: Flags)
    | FullNode(children: seq<Node>, flags: Flags)
    | HashNode(hash: Hash)

  const NewFlag := Flags(None, true)

  /** A database reader and the hash function it is addressed by. */
  datatype Db = Db(get: (Path, Hash) -> Option<Item>, hash: Item -> Hash)

  // ----- decoding -----

  /** decodeNode; None is a decode error. */
  function Decode(h: Option<Hash>, x: Item): (r: Option<Node>)
    ensures r.Some? ==> r.value.ShortNode? || r.value.FullNode?
    decreases x, 1
  {
    if x.Str? then None
    else if |x.items| == 2 then DecodeShort(h, x)
    else if |x.items| == 17 then DecodeFull(h, x)
    else None
  }

  function DecodeShort(h: Option<Hash>, x: Item): (r: Option<Node>)
    requires x.List? && |x.items| == 2
    ensures r.Some? ==> r.value.ShortNode?
    decreases x, 0
  {
    if x.items[0].List? then None
    else
      var key := HexOfCompact(x.items[0].bytes);
      if HasTerm(key) then
        if x.items[1].List? then None
        else Some(ShortNode(key, ValueNode(x.items[1].bytes), Flags(h, false)))
      else
        var r := DecodeRef(x.items[1]);
        if r.None? then None else Some(ShortNode(key, r.value, Flags(h, false)))
  }

  function DecodeFull(h: Option<Hash>, x: Item): (r: Option<Node>)
    requires x.List? && |x.items| == 17
    ensures r.Some? ==> r.value.FullNode?
    decreases x, 0
  {
    var refs := DecodeRefs(x.items[..16]);
    if refs.None? || x.items[16].List? then None
    else
      var v := x.items[16].bytes;
      Some(FullNode(refs.value + [if v == [] then NilNode else ValueNode(v)], Flags(h, false)))
  }

  function DecodeRefs(xs: seq<Item>): (r: Option<seq<Node>>)
    ensures r.Some? ==> |r.value| == |xs|
    decreases xs, 0
  {
    if xs == [] then Some([])
    else
      var first := DecodeRef(xs[0]);
      var rest := DecodeRefs(xs[1..]);
      if first.None? || rest.None? then None else Some([first.value] + rest.value)
  }

  function DecodeRef(x: Item): Option<Node>
    decreases x, 2
  {
    match x
    case List(_) => if Size(x) > 32 then None else Decode(None, x)
    case Str(b) => if b == [] then Some(NilNode) else if |b| == 32 then Some(HashNode(b)) else None
  }

  // ----- encoding of an expanded tree -----

  function EncodedKey(key: Path): Bytes {
    if IsSegment(key) then CompactOf(key) else []
  }

  /** The database encoding of an inner tree: children are embedded or replaced by their hash. */
  function Encode(t: Tree, hash: Item -> Hash): Item
    requires t.Ext? || t.Branch?
    decreases t, 0
  {
    match t
    case Ext(key, child) => List([Str(EncodedKey(key)), Reference(child, hash)])
    case Branch(cs) => List(References(cs, hash))
  }

  /** How a parent refers to a subtree. */
  function Reference(t: Tree, hash: Item -> Hash): Item
    decreases t, 1
  {
    match t
    case Nil => Str([])
    case Leaf(v) => Str(v)
    case _ => var x := Encode(t, hash); if Size(x) < 32 then x else Str(hash(x))
  }

  function References(cs: seq<Tree>, hash: Item -> Hash): (xs: seq<Item>)
    ensures |xs| == |cs|
    ensures forall i :: 0 <= i < |cs| ==> xs[i] == Reference(cs[i], hash)
    decreases cs, 2
  {
    if cs == [] then [] else [Reference(cs[0], hash)] + References(cs[1..], hash)
  }

  predicate Inner(t: Tree) {
    t.Ext? || t.Branch?
  }

  /** Whether a non-root subtree is stored under its own hash. */
  predicate Standalone(t: Tree, hash: Item -> Hash) {
    Inner(t) && Size(Encode(t, hash)) >= 32
  }

  function RootHash(t: Tree, hash: Item -> Hash): Hash {
    if Inner(t) then hash(Encode(t, hash)) else hash(Str([]))
  }

  // ----- what the database holds of a tree -----

  ghost predicate Held(t: Tree, path: Path, db: Db) {
    Inner(t) && db.get(path, db.hash(Encode(t, db.hash))) == Some(Encode(t, db.hash))
  }

  /** Every standalone node of t is in the database, under its path and hash. */
  ghost predicate Stored(t: Tree, path: Path, db: Db)
    decreases t
  {
    && (Standalone(t, db.hash) ==> Held(t, path, db))
    && (t.Ext? ==> Stored(t.child, path + t.key, db))
    && (t.Branch? ==> forall i: Byte :: i as int < |t.children| ==> Stored(t.children[i], path + [i], db))
  }

  // ----- nodes standing for trees -----

  /**
    A cached hash is the right one, is absent from embedded nodes, and unless dirty
    is backed by the database. A clean node without a hash is an embedded one.
   */
  ghost predicate FlagsOk(f: Flags, t: Tree, path: Path, db: Db, root: bool)
    requires Inner(t)
  {
    match f.hash
    case Some(h) =>
      && h == db.hash(Encode(t, db.hash))
      && (root || Standalone(t, db.hash))
      && (!f.dirty ==> Held(t, path, db) && Stored(t, path, db))
    case None =>
      f.dirty || (!root && !Standalone(t, db.hash))
  }

  /** Below n, every node in memory carries a hash exactly if it is standalone. */
  ghost predicate Tagged(n: Node, t: Tree, hash: Item -> Hash)
    decreases n, 1
  {
    match n
    case ShortNode(_, _, flags) => (flags.hash.Some? <==> Standalone(t, hash)) && TaggedBelow(n, t, hash)
    case FullNode(_, flags) => (flags.hash.Some? <==> Standalone(t, hash)) && TaggedBelow(n, t, hash)
    case _ => true
  }

  ghost predicate TaggedBelow(n: Node, t: Tree, hash: Item -> Hash)
    decreases n, 0
  {
    match n
    case ShortNode(_, val, _) => t.Ext? && Tagged(val, t.child, hash)
    case FullNode(_, _) =>
      && t.Branch? && |n.children| == |t.children| == 17
      && forall i: Byte :: i < 17 ==> Tagged(n.children[i], t.children[i], hash)
    case _ => true
  }

  /** Node n, found at `path`, stands for tree t; `root` says that it is the root of its trie. */
  ghost predicate Rep(n: Node, t: Tree, path: Path, db: Db, root: bool)
    decreases n
  {
    match n
    case NilNode => t.Nil?
    case ValueNode(v) => t == Leaf(v)
    case ShortNode(key, val, flags) =>
      && t.Ext? && t.key == key
      && Rep(val, t.child, path + key, db, false)
      && FlagsOk(flags, t, path, db, root)
      && (flags.hash.Some? ==> TaggedBelow(n, t, db.hash))
    case FullNode(_, flags) =>
      && t.Branch? && |n.children| == |t.children| == 17
      && (forall i: Byte :: i < 17 ==> Rep(n.children[i], t.children[i], path + [i], db, false))
      && FlagsOk(flags, t, path, db, root)
      && (flags.hash.Some? ==> TaggedBelow(n, t, db.hash))
    case HashNode(h) =>
      && Inner(t) && h == db.hash(Encode(t, db.hash))
      && (root || Standalone(t, db.hash))
      && Held(t, path, db) && Stored(t, path, db)
  }

  // ----- decoding undoes encoding -----

  /** Decoding the encoding of a stored tree gives a node for that tree. */
  lemma {:induction false} DecodeEncode(h: Option<Hash>, t: Tree, path: Path, db: Db, root: bool)
    requires WellFormed(t, false) && Stored(t, path, db)
    requires FlagsOk(Flags(h, false), t, path, db, root)
    ensures Decode(h, Encode(t, db.hash)).Some?
    ensures Rep(Decode(h, Encode(t, db.hash)).value, t, path, db, root)
    ensures TaggedBelow(Decode(h, Encode(t, db.hash)).value, t, db.hash)
    decreases t, 1
  {
    if t.Ext? {
      DecodeEncodeExt(h, t, path, db, root);
    } else {
      DecodeEncodeBranch(h, t, path, db, root);
    }
  }

  lemma {:induction false} DecodeEncodeExt(h: Option<Hash>, t: Tree, path: Path, db: Db, root: bool)
    requires WellFormed(t, false) && Stored(t, path, db) && t.Ext?
    requires FlagsOk(Flags(h, false), t, path, db, root)
    ensures Decode(h, Encode(t, db.hash)).Some?
    ensures Rep(Decode(h, Encode(t, db.hash)).value, t, path, db, root)
    ensures TaggedBelow(Decode(h, Encode(t, db.hash)).value, t, db.hash)
    decreases t, 0
  {
    CompactRoundTrip(t.key);
    if !HasTerm(t.key) {
      DecodeReference(t.child, path + t.key, db);
    }
  }

  lemma {:induction false} DecodeEncodeBranch(h: Option<Hash>, t: Tree, path: Path, db: Db, root: bool)
    requires WellFormed(t, false) && Stored(t, path, db) && t.Branch?
    requires FlagsOk(Flags(h, false), t, path, db, root)
    ensures Decode(h, Encode(t, db.hash)).Some?
    ensures Rep(Decode(h, Encode(t, db.hash)).value, t, path, db, root)
    ensures TaggedBelow(Decode(h, Encode(t, db.hash)).value, t, db.hash)
    decreases t, 0
  {
    var xs := References(t.children, db.hash);
    forall i: Byte | i < 16 ensures ChildDecodes(xs[i], t.children[i], path + [i], db) {
      DecodeReference(t.children[i], path + [i], db);
    }
    BranchOfChildren(h, t, path, db, root);
  }

  /** A child reference decodes to a node for the child. */
  ghost predicate ChildDecodes(x: Item, t: Tree, path: Path, db: Db) {
    DecodeRef(x).Some? && Rep(DecodeRef(x).value, t, path, db, false) && Tagged(DecodeRef(x).value, t, db.hash)
  }

  lemma BranchOfChildren(h: Option<Hash>, t: Tree, path: Path, db: Db, root: bool)
    requires WellFormed(t, false) && t.Branch? && FlagsOk(Flags(h, false), t, path, db, root)
    requires forall i: Byte :: i < 16 ==> ChildDecodes(References(t.children, db.hash)[i], t.children[i], path + [i], db)
    ensures Decode(h, Encode(t, db.hash)).Some?
    ensures Rep(Decode(h, Encode(t, db.hash)).value, t, path, db, root)
    ensures TaggedBelow(Decode(h, Encode(t, db.hash)).value, t, db.hash)
  {
    var xs := References(t.children, db.hash);
    LastChild(t, db.hash);
    forall i: Byte | i < 16 ensures DecodeRef(xs[i]).Some? {
      assert ChildDecodes(xs[i], t.children[i], path + [i], db);
    }
    var cs := DecodeFullOf(h, xs);
    forall i: Byte | i < 17 ensures Rep(cs[i], t.children[i], path + [i], db, false) && Tagged(cs[i], t.children[i], db.hash) {
      if i < 16 { assert ChildDecodes(xs[i], t.children[i], path + [i], db); }
    }
    FullRep(cs, Flags(h, false), t, path, db, root);
  }

  lemma DecodeFullOf(h: Option<Hash>, xs: seq<Item>) returns (cs: seq<Node>)
    requires |xs| == 17 && xs[16].Str? && forall i: Byte :: i < 16 ==> DecodeRef(xs[i]).Some?
    ensures Decode(h, List(xs)) == Some(FullNode(cs, Flags(h, false))) && |cs| == 17
    ensures forall i: Byte :: i < 16 ==> cs[i] == DecodeRef(xs[i]).value
    ensures cs[16] == if xs[16].bytes == [] then NilNode else ValueNode(xs[16].bytes)
  {
    forall i | 0 <= i < 16 ensures DecodeRef(xs[..16][i]).Some? { assert xs[..16][i] == xs[i as Byte]; }
    DecodeRefsEach(xs[..16]);
    var x := List(xs);
    assert Decode(h, x) == DecodeFull(h, x) && x.items == xs;
    var refs := DecodeRefs(xs[..16]).value;
    forall i: Byte | i < 16 ensures refs[i] == DecodeRef(xs[i]).value { assert refs[i as int] == DecodeRef(xs[..16][i as int]).value; }
    cs := refs + [if xs[16].bytes == [] then NilNode else ValueNode(xs[16].bytes)];
  }

  lemma FullRep(cs: seq<Node>, flags: Flags, t: Tree, path: Path, db: Db, root: bool)
    requires t.Branch? && |cs| == |t.children| == 17 && FlagsOk(flags, t, path, db, root)
    requires forall i: Byte :: i < 17 ==> Rep(cs[i], t.children[i], path + [i], db, false)
    requires forall i: Byte :: i < 17 ==> Tagged(cs[i], t.children[i], db.hash)
    ensures Rep(FullNode(cs, flags), t, path, db, root) && TaggedBelow(FullNode(cs, flags), t, db.hash)
  {
    var n := FullNode(cs, flags);
    assert n.children == cs;
    assert TaggedBelow(n, t, db.hash);
  }

  /** The value of a branch is encoded as it is. */
  lemma LastChild(t: Tree, hash: Item -> Hash)
    requires WellFormed(t, false) && t.Branch?
    ensures t.children[16].Nil? || (t.children[16].Leaf? && t.children[16].value != [])
    ensures References(t.children, hash)[16] == Str(if t.children[16].Nil? then [] else t.children[16].value)
  {
  }

  lemma {:induction false} DecodeRefsEach(xs: seq<Item>)
    requires forall i :: 0 <= i < |xs| ==> DecodeRef(xs[i]).Some?
    ensures DecodeRefs(xs).Some?
    ensures forall i :: 0 <= i < |xs| ==> DecodeRefs(xs).value[i] == DecodeRef(xs[i]).value
  {
    if xs != [] { DecodeRefsEach(xs[1..]); }
  }

  lemma {:induction false} DecodeReference(t: Tree, path: Path, db: Db)
    requires t.Nil? || WellFormed(t, false)
    requires Stored(t, path, db)
    ensures DecodeRef(Reference(t, db.hash)).Some?
    ensures Rep(DecodeRef(Reference(t, db.hash)).value, t, path, db, false)
    ensures Tagged(DecodeRef(Reference(t, db.hash)).value, t, db.hash)
    decreases t, 2
  {
    if Inner(t) && !Standalone(t, db.hash) {
      DecodeEncode(None, t, path, db, false);
    }
  }
}
