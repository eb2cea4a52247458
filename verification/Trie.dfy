/** The trie object (trie/trie.go): a root node replaced in place over a hash-keyed database. */
module TrieObject {
  import opened Hex
  import opened Rlp
  import opened PatriciaTree
  import opened TrieNode
  import opened TrieOps
  import opened Hasher
  import opened Commit
  import opened History
  import Proof
  import Iterator

  class Trie {
    const hash: Item -> Hash
    var root: Node
    var store: map<Hash, Item>
    /** The fully expanded tree the object stands for. */
    ghost var tree: Tree

    /** The database holds all of the tree that is not in memory. */
    ghost predicate Valid()
      reads this
    {
      && Canonical(tree)
      && Rep(root, tree, [], PlainDb(store, hash), true)
      && ContentAddressed(store, hash)
    }

    constructor (root: Node, store: map<Hash, Item>, hash: Item -> Hash, ghost tree: Tree)
      ensures this.root == root && this.store == store && this.hash == hash && this.tree == tree
    {
      this.root, this.store, this.hash, this.tree := root, store, hash, tree;
    }

    method TryGet(key: Bytes) returns (r: Result<Option<Bytes>>)
      modifies this`root
      ensures old(Valid()) ==> Valid() && r == Ok(Get(tree, HexOf(key)))
      ensures r.Err? ==> root == old(root)
    {
      var k := KeybytesToHex(key);
      var found := TrieOps.TryGet(root, [], k, PlainDb(store, hash));
      ghost var valid := Valid();
      if valid { TryGetRep(root, tree, [], k, PlainDb(store, hash), true); }
      if found.Err? { return Err(found.error); }
      if found.value.didResolve {
        root := found.value.node;
      }
      return Ok(found.value.value);
    }

    /** An empty value deletes. On error the trie is left as it was. */
    method TryUpdate(key: Bytes, value: Bytes) returns (err: Option<Error>)
      modifies this`root, this`tree
      ensures old(Valid()) ==> Valid() && err.None? && tree == Apply(old(tree), Update(key, value))
      ensures err.Some? ==> root == old(root)
    {
      var k := KeybytesToHex(key);
      var db := PlainDb(store, hash);
      var r: Result<Change>;
      ghost var valid := Valid();
      if value != [] {
        r := InsertNode(root, [], k, value, db);
        if valid { InsertRep(root, tree, [], k, value, db, true); }
      } else {
        r := DeleteNode(root, [], k, db);
        if valid { DeleteRep(root, tree, [], k, db, true); }
      }
      if r.Err? { return Some(r.error); }
      root := r.value.node;
      if valid { tree := Apply(tree, Update(key, value)); }
      return None;
    }

    /** The root hash, without writing. */
    method Hash() returns (h: Hash)
      modifies this`root
      ensures old(Valid()) ==> Valid() && h == RootHash(tree, hash) && Hashed()
    {
      if root == NilNode { return hash(Str([])); }
      var r := HashNodes(root, [], true, false, hash);
      ghost var db := PlainDb(store, hash);
      ghost var valid := Valid();
      if valid {
        HashRef(root, tree, [], true, false, db);
        NoWritesWithoutDatabase(root, [], true, hash);
        HashRep(root, tree, [], true, false, db, db);
      }
      root := r.cached;
      return AsHash(r.ref);
    }

    /** Hashes are cached wherever a node in memory has one. */
    ghost predicate Hashed()
      reads this
    {
      TaggedBelow(root, tree, hash) && (root.ShortNode? || root.FullNode? ==> root.flags.hash.Some?)
    }

    /** An iterator over the nodes of the trie, hashed first. */
    method NodeIterator(ghost items: iset<Item>) returns (it: Iterator.NodeIterator)
      requires Valid() && Proof.Within(tree, hash, items)
      modifies this`root
      ensures Valid() && fresh(it) && it.Valid() && it.pos == -1
      ensures it.tree == tree && it.db == PlainDb(store, hash) && it.items == items
    {
      var h := Hash();
      it := new Iterator.NodeIterator(root, PlainDb(store, hash), tree, items);
    }

    /** Write all new nodes to the database; afterwards the whole tree can be loaded from it. */
    method Commit() returns (h: Hash)
      requires Valid() && CollisionFree(store, tree, hash)
      modifies this`root, this`store
      ensures Valid() && h == RootHash(tree, hash)
      ensures Stored(tree, [], PlainDb(store, hash))
      ensures Inner(tree) ==> Held(tree, [], PlainDb(store, hash))
      ensures forall k :: k in old(store) ==> k in store && store[k] == old(store)[k]
    {
      if root == NilNode { return hash(Str([])); }
      var r := HashNodes(root, [], true, true, hash);
      ghost var db, db' := PlainDb(store, hash), PlainDb(PutAll(store, r.writes), hash);
      forall w | w in r.writes ensures NodeOf(w, tree, [], hash, true) {
        WritesAreNodes(root, tree, [], true, true, db, w);
      }
      PlainAbsorbs(store, tree, r.writes, hash);
      HashRef(root, tree, [], true, true, db);
      HashRep(root, tree, [], true, true, db, db');
      forall k | k in store ensures k in PutAll(store, r.writes) && PutAll(store, r.writes)[k] == store[k] {
        assert db.get([], k) == Some(store[k]);
      }
      root, store := r.cached, PutAll(store, r.writes);
      return AsHash(r.ref);
    }
  }

  /** The database holds all of t under the root h. */
  ghost predicate Opens(t: Tree, h: Hash, store: map<Hash, Item>, hash: Item -> Hash) {
    && ContentAddressed(store, hash) && Canonical(t)
    && if h == ZeroHash() || h == hash(Str([])) then t == Nil
       else h == RootHash(t, hash) && Stored(t, [], PlainDb(store, hash)) && Held(t, [], PlainDb(store, hash))
  }

  /**
    New: the trie at a root. Opening fails exactly if the root node cannot be loaded;
    if all of a tree with that root is in the database, the trie stands for that tree.
   */
  method New(h: Hash, store: map<Hash, Item>, hash: Item -> Hash, ghost t: Tree) returns (r: Result<Trie>)
    ensures r.Err? <==> Open(h, PlainDb(store, hash)).Err?
    ensures r.Ok? ==> fresh(r.value) && r.value.store == store && r.value.hash == hash
    ensures Opens(t, h, store, hash) ==> r.Ok? && r.value.Valid() && r.value.tree == t
  {
    var db := PlainDb(store, hash);
    if h == ZeroHash() || h == hash(Str([])) {
      var trie := new Trie(NilNode, store, hash, t);
      return Ok(trie);
    }
    var root := ResolveHash(h, [], db);
    if Opens(t, h, store, hash) { OpenStored(t, db); }
    if root.Err? { return Err(root.error); }
    var trie := new Trie(root.value, store, hash, t);
    return Ok(trie);
  }

  /** hash.(hashNode): the root reference is always a hash. */
  function AsHash(x: Item): Hash {
    if x.Str? && |x.bytes| == 32 then x.bytes else ZeroHash()
  }

  lemma {:induction false} NoWritesWithoutDatabase(n: Node, path: Path, force: bool, hash: Item -> Hash)
    ensures HashNodes(n, path, force, false, hash).writes == []
    decreases n, 1
  {
    if n.ShortNode? {
      NoWritesWithoutDatabase(n.val, path + n.key, false, hash);
    } else if n.FullNode? {
      NoWritesOfAll(n.children, path, 0, hash);
    }
  }

  lemma {:induction false} NoWritesOfAll(cs: seq<Node>, path: Path, i: nat, hash: Item -> Hash)
    ensures HashAll(cs, path, i, false, hash).writes == []
    decreases cs, 0
  {
    if cs != [] {
      NoWritesWithoutDatabase(cs[0], path + [ChildIndex(i)], false, hash);
      NoWritesOfAll(cs[1..], path, i + 1, hash);
    }
  }
}
