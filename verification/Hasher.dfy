/**
  Hashing and committing a trie (trie/hasher.go): children are collapsed to their
  encodings or hashes, clean subtrees are not visited again, and every dirty node
  of 32 bytes or more is written under its hash and path.
 */
module Hasher {
  import opened Hex
  import opened Rlp
  import opened PatriciaTree
  import opened TrieNode

  datatype Write = Write(path: Path, hash: Hash, item: Item)

  /** How the parent refers to a node, the node to keep, and the database writes. */
  datatype Hashed = Hashed(ref: Item, cached: Node, writes: seq<Write>)

  /** hasher.hash; `commit` says whether there is a database to write to. */
  function HashNodes(n: Node, path: Path, force: bool, commit: bool, hash: Item -> Hash): Hashed
    decreases n, 1
  {
    match n
    case NilNode => Hashed(Str([]), n, [])
    case ValueNode(v) => Hashed(Str(v), n, [])
    case HashNode(h) => Hashed(Str(h), n, [])
    case _ =>
      if n.flags.hash.Some? && !commit then Hashed(Str(n.flags.hash.value), n, [])
      else if n.flags.hash.Some? && !n.flags.dirty
      then Hashed(Str(n.flags.hash.value), HashNode(n.flags.hash.value), [])
      else Store(HashChildren(n, path, commit, hash), path, force, commit, hash)
  }

  /** hashChildren: the collapsed node, the node with its children replaced, and their writes. */
  function HashChildren(n: Node, path: Path, commit: bool, hash: Item -> Hash): (r: Hashed)
    requires n.ShortNode? || n.FullNode?
    ensures r.cached.ShortNode? || r.cached.FullNode?
    ensures r.cached.flags == n.flags
    decreases n, 0
  {
    match n
    case ShortNode(key, val, flags) =>
      var c := HashNodes(val, path + key, false, commit, hash);
      Hashed(List([Str(EncodedKey(key)), c.ref]), ShortNode(key, c.cached, flags), c.writes)
    case FullNode(cs, flags) =>
      var c := HashAll(cs, path, 0, commit, hash);
      Hashed(List(c.refs), FullNode(c.cached, flags), c.writes)
  }

  datatype HashedAll = HashedAll(refs: seq<Item>, cached: seq<Node>, writes: seq<Write>)

  /** The loop over the children of a full node, from child number i on. */
  function HashAll(cs: seq<Node>, path: Path, i: nat, commit: bool, hash: Item -> Hash): (r: HashedAll)
    ensures |r.refs| == |r.cached| == |cs|
    decreases cs, 2
  {
    if cs == [] then HashedAll([], [], [])
    else
      var c := HashNodes(cs[0], path + [ChildIndex(i)], false, commit, hash);
      var rest := HashAll(cs[1..], path, i + 1, commit, hash);
      HashedAll([c.ref] + rest.refs, [c.cached] + rest.cached, c.writes + rest.writes)
  }

  function ChildIndex(i: nat): Byte {
    if i < 17 then i as Byte else TERM
  }

  /** store: embed a small node, hash and write a large one. */
  function Store(c: Hashed, path: Path, force: bool, commit: bool, hash: Item -> Hash): Hashed
    requires c.cached.ShortNode? || c.cached.FullNode?
  {
    var dirty := c.cached.flags.dirty && !commit;
    if Size(c.ref) < 32 && !force then c.(cached := c.cached.(flags := Flags(None, dirty)))
    else
      var h := if c.cached.flags.hash.Some? then c.cached.flags.hash.value else hash(c.ref);
      Hashed(Str(h), c.cached.(flags := Flags(Some(h), dirty)),
             if commit then c.writes + [Write(path, h, c.ref)] else c.writes)
  }

  // ----- growing databases -----

  ghost predicate Extends(db: Db, db': Db) {
    && db'.hash == db.hash
    && forall p, h :: db.get(p, h).Some? ==> db'.get(p, h) == db.get(p, h)
  }

  /** db' holds everything db does, and the writes. */
  ghost predicate Absorbs(db: Db, ws: seq<Write>, db': Db) {
    Extends(db, db') && forall w :: w in ws ==> db'.get(w.path, w.hash) == Some(w.item)
  }

  lemma {:induction false} StoredExtends(t: Tree, path: Path, db: Db, db': Db)
    requires Extends(db, db') && Stored(t, path, db)
    ensures Stored(t, path, db')
    ensures Held(t, path, db) ==> Held(t, path, db')
    decreases t
  {
    if t.Ext? {
      StoredExtends(t.child, path + t.key, db, db');
    } else if t.Branch? {
      forall i: Byte | i as int < |t.children| ensures Stored(t.children[i], path + [i], db') {
        StoredExtends(t.children[i], path + [i], db, db');
      }
    }
  }

  /** A node keeps standing for its tree when the database grows. */
  lemma {:induction false} RepExtends(n: Node, t: Tree, path: Path, db: Db, db': Db, root: bool)
    requires Extends(db, db') && Rep(n, t, path, db, root)
    ensures Rep(n, t, path, db', root)
    decreases n
  {
    if Inner(t) && Stored(t, path, db) { StoredExtends(t, path, db, db'); }
    match n
    case ShortNode(key, val, _) => RepExtends(val, t.child, path + key, db, db', false);
    case FullNode(cs, _) =>
      forall i: Byte | i < 17 ensures Rep(cs[i], t.children[i], path + [i], db', false) {
        RepExtends(cs[i], t.children[i], path + [i], db, db', false);
      }
    case _ =>
  }

  // ----- correctness -----

  /** The reference a hashed node gets: forced hash at the root, embedding or hash elsewhere. */
  function RefOf(t: Tree, force: bool, hash: Item -> Hash): Item {
    if force && Inner(t) then Str(hash(Encode(t, hash))) else Reference(t, hash)
  }

  /** The reference computed for a node, with or without a database, is that of its tree. */
  lemma {:induction false} HashRef(n: Node, t: Tree, path: Path, force: bool, commit: bool, db: Db)
    requires Rep(n, t, path, db, force)
    ensures HashNodes(n, path, force, commit, db.hash).ref == RefOf(t, force, db.hash)
    decreases n, 1
  {
    if n.ShortNode? || n.FullNode? {
      HashChildrenRef(n, t, path, force, commit, db);
      HashRefOfNode(n, t, path, force, commit, db);
    }
  }

  lemma HashRefOfNode(n: Node, t: Tree, path: Path, force: bool, commit: bool, db: Db)
    requires (n.ShortNode? || n.FullNode?) && Inner(t) && FlagsOk(n.flags, t, path, db, force)
    requires HashChildren(n, path, commit, db.hash).ref == Encode(t, db.hash)
    ensures HashNodes(n, path, force, commit, db.hash).ref == RefOf(t, force, db.hash)
  {
    var c := HashChildren(n, path, commit, db.hash);
    assert c.cached.flags.hash == n.flags.hash;
  }

  lemma {:induction false} HashChildrenRef(n: Node, t: Tree, path: Path, force: bool, commit: bool, db: Db)
    requires Rep(n, t, path, db, force) && (n.ShortNode? || n.FullNode?)
    ensures HashChildren(n, path, commit, db.hash).ref == Encode(t, db.hash)
    decreases n, 0
  {
    if n.ShortNode? {
      HashRef(n.val, t.child, path + n.key, false, commit, db);
    } else {
      var c := HashAll(n.children, path, 0, commit, db.hash);
      forall i: Byte | i < 17 ensures c.refs[i] == Reference(t.children[i], db.hash) {
        HashAllAt(n.children, path, 0, commit, db.hash, i as int);
        HashRef(n.children[i], t.children[i], path + [i], false, commit, db);
      }
      assert c.refs == References(t.children, db.hash);
    }
  }

  /** Each child of a full node is hashed for itself, and its writes are among those of the node. */
  lemma {:induction false} HashAllAt(cs: seq<Node>, path: Path, i: nat, commit: bool, hash: Item -> Hash, j: nat)
    requires j < |cs|
    ensures var all := HashAll(cs, path, i, commit, hash);
            var c := HashNodes(cs[j], path + [ChildIndex(i + j)], false, commit, hash);
            && all.refs[j] == c.ref && all.cached[j] == c.cached
            && forall w :: w in c.writes ==> w in all.writes
    decreases j
  {
    if j > 0 { HashAllAt(cs[1..], path, i + 1, commit, hash, j - 1); }
  }

  /** Conversely every write of a full node's children is the write of one of them. */
  lemma {:induction false} HashAllWrites(cs: seq<Node>, path: Path, i: nat, commit: bool, hash: Item -> Hash, w: Write)
    returns (j: nat)
    requires w in HashAll(cs, path, i, commit, hash).writes
    ensures j < |cs| && w in HashNodes(cs[j], path + [ChildIndex(i + j)], false, commit, hash).writes
    decreases |cs|
  {
    if w in HashNodes(cs[0], path + [ChildIndex(i)], false, commit, hash).writes {
      j := 0;
    } else {
      j := HashAllWrites(cs[1..], path, i + 1, commit, hash, w);
      j := j + 1;
    }
  }

  /** After hashing, and after the writes of a commit, the node kept still stands for the tree, now stored. */
  lemma {:induction false} HashRep(n: Node, t: Tree, path: Path, force: bool, commit: bool, db: Db, db': Db)
    requires Rep(n, t, path, db, force)
    requires Absorbs(db, HashNodes(n, path, force, commit, db.hash).writes, db')
    ensures Rep(HashNodes(n, path, force, commit, db.hash).cached, t, path, db', force)
    ensures TaggedBelow(HashNodes(n, path, force, commit, db.hash).cached, t, db.hash)
    ensures !force ==> Tagged(HashNodes(n, path, force, commit, db.hash).cached, t, db.hash)
    ensures commit ==> Stored(t, path, db') && (force && Inner(t) ==> Held(t, path, db'))
    decreases n, 1
  {
    RepExtends(n, t, path, db, db', force);
    if n.ShortNode? || n.FullNode? {
      if n.flags.hash.Some? && (!commit || !n.flags.dirty) {
        if commit { StoredExtends(t, path, db, db'); }
      } else {
        var c := HashChildren(n, path, commit, db.hash);
        HashChildrenRef(n, t, path, force, commit, db);
        assert Absorbs(db, c.writes, db');
        HashChildrenRep(n, t, path, force, commit, db, db');
        StoreRep(c, t, path, force, commit, db');
      }
    } else if n.HashNode? {
      StoredExtends(t, path, db, db');
    }
  }

  /** The children of t are stored. */
  ghost predicate StoredBelow(t: Tree, path: Path, db: Db) {
    && (t.Ext? ==> Stored(t.child, path + t.key, db))
    && (t.Branch? ==> forall i: Byte :: i as int < |t.children| ==> Stored(t.children[i], path + [i], db))
  }

  lemma StoreRep(c: Hashed, t: Tree, path: Path, force: bool, commit: bool, db': Db)
    requires Inner(t) && c.ref == Encode(t, db'.hash)
    requires (c.cached.ShortNode? || c.cached.FullNode?) && Rep(c.cached.(flags := NewFlag), t, path, db', force)
    requires c.cached.flags.hash.Some? ==>
               commit && c.cached.flags.hash.value == db'.hash(c.ref) && (force || Standalone(t, db'.hash))
    requires c.cached.flags == Flags(None, false) ==> !force && !Standalone(t, db'.hash)
    requires commit ==> StoredBelow(t, path, db')
    requires forall w :: w in Store(c, path, force, commit, db'.hash).writes ==> db'.get(w.path, w.hash) == Some(w.item)
    requires TaggedBelow(c.cached, t, db'.hash)
    ensures Rep(Store(c, path, force, commit, db'.hash).cached, t, path, db', force)
    ensures TaggedBelow(Store(c, path, force, commit, db'.hash).cached, t, db'.hash)
    ensures !force ==> Tagged(Store(c, path, force, commit, db'.hash).cached, t, db'.hash)
    ensures commit ==> Stored(t, path, db') && (force ==> Held(t, path, db'))
  {
    var r := Store(c, path, force, commit, db'.hash);
    var h := db'.hash(c.ref);
    if commit && (force || Standalone(t, db'.hash)) {
      assert Write(path, h, c.ref) in r.writes;
    }
  }

  lemma {:induction false} HashChildrenRep(n: Node, t: Tree, path: Path, force: bool, commit: bool, db: Db, db': Db)
    requires Rep(n, t, path, db, force) && (n.ShortNode? || n.FullNode?)
    requires Absorbs(db, HashChildren(n, path, commit, db.hash).writes, db')
    ensures Rep(HashChildren(n, path, commit, db.hash).cached.(flags := NewFlag), t, path, db', force)
    ensures TaggedBelow(HashChildren(n, path, commit, db.hash).cached, t, db.hash)
    ensures commit ==> StoredBelow(t, path, db')
    decreases n, 0
  {
    if n.ShortNode? {
      HashRep(n.val, t.child, path + n.key, false, commit, db, db');
    } else {
      var c := HashAll(n.children, path, 0, commit, db.hash);
      forall i: Byte | i < 17 ensures
        && Rep(c.cached[i], t.children[i], path + [i], db', false)
        && Tagged(c.cached[i], t.children[i], db.hash)
        && (commit ==> Stored(t.children[i], path + [i], db'))
      {
        HashAllAt(n.children, path, 0, commit, db.hash, i as int);
        HashRep(n.children[i], t.children[i], path + [i], false, commit, db, db');
      }
    }
  }
}
