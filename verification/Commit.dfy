/**
  Commit and reload: what CommitTo writes (trie/hasher.go, trie/trie.go), and that
  a trie reopened at the returned root answers every key as before.
 */
module Commit {
  import opened Hex
  import opened Rlp
  import opened PatriciaTree
  import opened TrieNode
  import opened TrieOps
  import opened Hasher

  /** w is the database entry of some node of t: of a standalone one, or of the root. */
  ghost predicate NodeOf(w: Write, t: Tree, path: Path, hash: Item -> Hash, root: bool)
    decreases t
  {
    && Inner(t)
    && (|| ((root || Standalone(t, hash)) && w == Write(path, hash(Encode(t, hash)), Encode(t, hash)))
        || (t.Ext? && NodeOf(w, t.child, path + t.key, hash, false))
        || (t.Branch? && exists i: Byte :: i as int < |t.children| && NodeOf(w, t.children[i], path + [i], hash, false)))
  }

  lemma {:induction false} NodeOfHash(w: Write, t: Tree, path: Path, hash: Item -> Hash, root: bool)
    requires NodeOf(w, t, path, hash, root)
    ensures w.hash == hash(w.item)
    decreases t
  {
    if w != Write(path, hash(Encode(t, hash)), Encode(t, hash)) {
      if t.Ext? {
        NodeOfHash(w, t.child, path + t.key, hash, false);
      } else {
        var i: Byte :| i as int < |t.children| && NodeOf(w, t.children[i], path + [i], hash, false);
        NodeOfHash(w, t.children[i], path + [i], hash, false);
      }
    }
  }

  /** Being stored means that every node is in the database. */
  lemma {:induction false} StoredMeansEveryNode(t: Tree, path: Path, db: Db, w: Write)
    requires Stored(t, path, db) && NodeOf(w, t, path, db.hash, false)
    ensures db.get(w.path, w.hash) == Some(w.item)
    decreases t
  {
    if !(Standalone(t, db.hash) && w == Write(path, db.hash(Encode(t, db.hash)), Encode(t, db.hash))) {
      if t.Ext? {
        StoredMeansEveryNode(t.child, path + t.key, db, w);
      } else {
        var i: Byte :| i as int < |t.children| && NodeOf(w, t.children[i], path + [i], db.hash, false);
        StoredMeansEveryNode(t.children[i], path + [i], db, w);
      }
    }
  }

  /** And every node being in the database means being stored. */
  lemma {:induction false} EveryNodeMeansStored(t: Tree, path: Path, db: Db)
    requires forall w :: NodeOf(w, t, path, db.hash, false) ==> db.get(w.path, w.hash) == Some(w.item)
    ensures Stored(t, path, db)
    decreases t
  {
    if Standalone(t, db.hash) {
      assert NodeOf(Write(path, db.hash(Encode(t, db.hash)), Encode(t, db.hash)), t, path, db.hash, false);
    }
    if t.Ext? {
      assert forall w :: NodeOf(w, t.child, path + t.key, db.hash, false) ==> NodeOf(w, t, path, db.hash, false);
      EveryNodeMeansStored(t.child, path + t.key, db);
    } else if t.Branch? {
      forall i: Byte | i as int < |t.children| ensures Stored(t.children[i], path + [i], db) {
        assert forall w :: NodeOf(w, t.children[i], path + [i], db.hash, false) ==> NodeOf(w, t, path, db.hash, false);
        EveryNodeMeansStored(t.children[i], path + [i], db);
      }
    }
  }

  /** Committing writes only nodes of the tree, at their own paths. */
  lemma {:induction false} WritesAreNodes(n: Node, t: Tree, path: Path, force: bool, commit: bool, db: Db, w: Write)
    requires Rep(n, t, path, db, force)
    requires w in HashNodes(n, path, force, commit, db.hash).writes
    ensures NodeOf(w, t, path, db.hash, force)
    decreases n, 1
  {
    var c := HashChildren(n, path, commit, db.hash);
    if w in c.writes {
      if n.ShortNode? {
        WritesAreNodes(n.val, t.child, path + n.key, false, commit, db, w);
      } else {
        var j := HashAllWrites(n.children, path, 0, commit, db.hash, w);
        WritesAreNodes(n.children[j], t.children[j], path + [j as Byte], false, commit, db, w);
      }
    } else {
      HashChildrenRef(n, t, path, force, commit, db);
    }
  }

  // ----- the plain, hash-keyed database -----

  function PlainDb(store: map<Hash, Item>, hash: Item -> Hash): Db {
    Db((p, h) => if h in store then Some(store[h]) else None, hash)
  }

  function PutAll(store: map<Hash, Item>, ws: seq<Write>): map<Hash, Item>
    decreases |ws|
  {
    if ws == [] then store else PutAll(store[ws[0].hash := ws[0].item], ws[1..])
  }

  ghost predicate ContentAddressed(store: map<Hash, Item>, hash: Item -> Hash) {
    forall h :: h in store ==> hash(store[h]) == h
  }

  /** The items that occur: those in the store, the nodes of t, and the empty item. */
  ghost predicate Occurs(x: Item, store: map<Hash, Item>, t: Tree, hash: Item -> Hash) {
    || x == Str([])
    || (exists h :: h in store && store[h] == x)
    || (exists w :: NodeOf(w, t, [], hash, true) && w.item == x)
  }

  /** No two items that occur have the same hash. */
  ghost predicate CollisionFree(store: map<Hash, Item>, t: Tree, hash: Item -> Hash) {
    forall x, y :: Occurs(x, store, t, hash) && Occurs(y, store, t, hash) && hash(x) == hash(y) ==> x == y
  }

  /** Writing entries under their hashes keeps the store content-addressed, and adds nothing else. */
  lemma {:induction false} PutAllAddressed(store: map<Hash, Item>, ws: seq<Write>, hash: Item -> Hash)
    requires ContentAddressed(store, hash) && forall w :: w in ws ==> w.hash == hash(w.item)
    ensures ContentAddressed(PutAll(store, ws), hash)
    ensures forall h :: h in store ==> h in PutAll(store, ws)
    ensures forall w :: w in ws ==> w.hash in PutAll(store, ws)
    ensures forall h :: h in PutAll(store, ws) ==>
              (h in store && PutAll(store, ws)[h] == store[h]) || exists w :: w in ws && w.item == PutAll(store, ws)[h]
    decreases |ws|
  {
    if ws != [] {
      assert forall w :: w in ws <==> w == ws[0] || w in ws[1..];
      PutAllAddressed(store[ws[0].hash := ws[0].item], ws[1..], hash);
    }
  }

  /** A store without collisions absorbs the writes of a commit. */
  lemma PlainAbsorbs(store: map<Hash, Item>, t: Tree, ws: seq<Write>, hash: Item -> Hash)
    requires ContentAddressed(store, hash) && CollisionFree(store, t, hash)
    requires forall w :: w in ws ==> NodeOf(w, t, [], hash, true)
    ensures Absorbs(PlainDb(store, hash), ws, PlainDb(PutAll(store, ws), hash))
    ensures ContentAddressed(PutAll(store, ws), hash)
  {
    var store' := PutAll(store, ws);
    forall w | w in ws ensures w.hash == hash(w.item) { NodeOfHash(w, t, [], hash, true); }
    PutAllAddressed(store, ws, hash);
    forall h | h in store' ensures Occurs(store'[h], store, t, hash) {
      if !(h in store && store'[h] == store[h]) {
        var w :| w in ws && w.item == store'[h];
        assert NodeOf(w, t, [], hash, true);
      }
    }
    forall h | h in store ensures store'[h] == store[h] {
      assert Occurs(store[h], store, t, hash);
    }
    forall w | w in ws ensures store'[w.hash] == w.item {
      assert Occurs(w.item, store, t, hash);
      assert hash(store'[w.hash]) == w.hash == hash(w.item);
    }
  }

  function ZeroHash(): (h: Hash)
    ensures forall i :: 0 <= i < 32 ==> h[i] == 0
  {
    seq(32, i => 0)
  }

  /** trie.New: the node to start from at a given root. */
  function Open(h: Hash, db: Db): Result<Node> {
    if h == ZeroHash() || h == db.hash(Str([])) then Ok(NilNode) else ResolveHash(h, [], db)
  }

  /** A stored tree opens at its root hash. */
  lemma OpenStored(t: Tree, db: Db)
    requires Canonical(t)
    requires Inner(t) ==> Held(t, [], db) && Stored(t, [], db)
    requires Inner(t) ==> RootHash(t, db.hash) != ZeroHash() && RootHash(t, db.hash) != db.hash(Str([]))
    ensures Open(RootHash(t, db.hash), db).Ok?
    ensures Rep(Open(RootHash(t, db.hash), db).value, t, [], db, true)
  {
    if Inner(t) { ResolveRep(RootHash(t, db.hash), t, [], db, true); }
  }

  /** CommitTo on a plain store. */
  function CommitStore(root: Node, store: map<Hash, Item>, hash: Item -> Hash): map<Hash, Item> {
    PutAll(store, HashNodes(root, [], true, true, hash).writes)
  }

  /** Reopened after a commit, a trie answers every key as before. */
  lemma CommitReload(root: Node, t: Tree, store: map<Hash, Item>, hash: Item -> Hash, key: Bytes)
    requires Rep(root, t, [], PlainDb(store, hash), true) && Canonical(t)
    requires ContentAddressed(store, hash) && CollisionFree(store, t, hash)
    requires Inner(t) ==> RootHash(t, hash) != ZeroHash()
    ensures Inner(t) ==> HashNodes(root, [], true, true, hash).ref == Str(RootHash(t, hash))
    ensures var db := PlainDb(CommitStore(root, store, hash), hash);
            var n := Open(RootHash(t, hash), db);
            && n.Ok?
            && TryGet(n.value, [], HexOf(key), db).Ok?
            && TryGet(n.value, [], HexOf(key), db).value.value == Get(t, HexOf(key))
  {
    var r := HashNodes(root, [], true, true, hash);
    var db, db' := PlainDb(store, hash), PlainDb(PutAll(store, r.writes), hash);
    forall w | w in r.writes ensures NodeOf(w, t, [], hash, true) {
      WritesAreNodes(root, t, [], true, true, db, w);
    }
    PlainAbsorbs(store, t, r.writes, hash);
    HashRef(root, t, [], true, true, db);
    HashRep(root, t, [], true, true, db, db');
    if Inner(t) {
      RootIsNotEmptyRoot(t, store, hash);
    }
    OpenStored(t, db');
    TryGetRep(Open(RootHash(t, hash), db').value, t, [], HexOf(key), db', true);
  }

  lemma RootIsNotEmptyRoot(t: Tree, store: map<Hash, Item>, hash: Item -> Hash)
    requires Inner(t) && CollisionFree(store, t, hash)
    ensures RootHash(t, hash) != hash(Str([]))
  {
    var w := Write([], RootHash(t, hash), Encode(t, hash));
    assert NodeOf(w, t, [], hash, true);
    assert Occurs(w.item, store, t, hash) && Occurs(Str([]), store, t, hash);
  }
}
