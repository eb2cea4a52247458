/**
  A trie opened, updated any number of times and committed (muxdb/trie.go over
  trie/trie.go): what it reads and what it writes. Results from an incomplete
  database are those of a complete one, and a commit adds, to the nodes the trie
  was opened on, exactly what the new trie needs.
 */
module Session {
  import opened Hex
  import opened Rlp
  import opened PatriciaTree
  import opened TrieNode
  import opened TrieOps
  import opened Hasher
  import opened Commit
  import opened Proof
  import opened History

  lemma ResolveExtends(h: Hash, prefix: Path, db: Db, db': Db)
    requires Extends(db, db') && ResolveHash(h, prefix, db).Ok?
    ensures ResolveHash(h, prefix, db') == ResolveHash(h, prefix, db)
  {
  }

  lemma {:induction false} InsertExtends(n: Node, prefix: Path, key: Path, v: Bytes, db: Db, db': Db)
    requires Extends(db, db') && InsertNode(n, prefix, key, v, db).Ok?
    ensures InsertNode(n, prefix, key, v, db') == InsertNode(n, prefix, key, v, db)
    decreases |key|, n.HashNode?
  {
    if |key| > 0 {
      match n
      case ShortNode(nk, val, _) =>
        var m := PrefixLen(key, nk);
        if m == |nk| { InsertExtends(val, prefix + key[..m], key[m..], v, db, db'); }
      case FullNode(cs, _) => InsertExtends(cs[key[0]], prefix + [key[0]], key[1..], v, db, db');
      case HashNode(h) =>
        ResolveExtends(h, prefix, db, db');
        InsertExtends(ResolveHash(h, prefix, db).value, prefix, key, v, db, db');
      case _ =>
    }
  }

  lemma {:induction false} DeleteExtends(n: Node, prefix: Path, key: Path, db: Db, db': Db)
    requires Extends(db, db') && DeleteNode(n, prefix, key, db).Ok?
    ensures DeleteNode(n, prefix, key, db') == DeleteNode(n, prefix, key, db)
    decreases |key|, n.HashNode?
  {
    match n
    case ShortNode(nk, val, _) =>
      var m := PrefixLen(key, nk);
      if m == |nk| && m < |key| { DeleteExtends(val, prefix + key[..m], key[m..], db, db'); }
    case FullNode(cs, _) => DeleteExtends(cs[key[0]], prefix + [key[0]], key[1..], db, db');
    case HashNode(h) =>
      ResolveExtends(h, prefix, db, db');
      DeleteExtends(ResolveHash(h, prefix, db).value, prefix, key, db, db');
    case _ =>
  }

  // ----- sessions -----

  /** TryUpdate on a loaded root. */
  function UpdateNode(n: Node, u: Update, db: Db): Result<Node> {
    var r := if u.value != [] then InsertNode(n, [], HexOf(u.key), u.value, db)
             else DeleteNode(n, [], HexOf(u.key), db);
    if r.Err? then Err(r.error) else Ok(r.value.node)
  }

  function UpdateNodes(n: Node, us: seq<Update>, db: Db): Result<Node>
    decreases |us|
  {
    if us == [] then Ok(n)
    else
      var r := UpdateNode(n, us[0], db);
      if r.Err? then r else UpdateNodes(r.value, us[1..], db)
  }

  /** Updates read nothing but nodes of the trie they started from. */
  lemma {:induction false} UpdateNodesRep(n: Node, t: Tree, us: seq<Update>, db: Db, db': Db)
    requires Rep(n, t, [], db, true) && Canonical(t) && Extends(db, db')
    ensures UpdateNodes(n, us, db').Ok?
    ensures Rep(UpdateNodes(n, us, db').value, Run(t, us), [], db, true)
    decreases |us|
  {
    if us != [] {
      var u := us[0];
      var k := HexOf(u.key);
      if u.value != [] {
        InsertRep(n, t, [], k, u.value, db, true);
        InsertExtends(n, [], k, u.value, db, db');
      } else {
        DeleteRep(n, t, [], k, db, true);
        DeleteExtends(n, [], k, db, db');
      }
      UpdateNodesRep(UpdateNode(n, u, db').value, Apply(t, u), us[1..], db, db');
    }
  }

  /** The database that holds the nodes of t and nothing else. */
  ghost function OnlyNodesOf(t: Tree, hash: Item -> Hash): Db {
    Db((p, h: Hash) => NodeAt(p, h, t, hash), hash)
  }

  ghost function NodeAt(p: Path, h: Hash, t: Tree, hash: Item -> Hash): Option<Item> {
    if exists x :: NodeOf(Write(p, h, x), t, [], hash, true) then
      var x :| NodeOf(Write(p, h, x), t, [], hash, true); Some(x)
    else None
  }

  lemma {:induction false} NodeOfWithin(w: Write, t: Tree, path: Path, hash: Item -> Hash, root: bool, items: iset<Item>)
    requires NodeOf(w, t, path, hash, root) && Within(t, hash, items)
    ensures w.item in items
    decreases t
  {
    if w.item != Encode(t, hash) {
      if t.Ext? {
        NodeOfWithin(w, t.child, path + t.key, hash, false, items);
      } else {
        var i: Byte :| i as int < |t.children| && NodeOf(w, t.children[i], path + [i], hash, false);
        NodeOfWithin(w, t.children[i], path + [i], hash, false, items);
      }
    }
  }

  /** Among items without collisions a hash determines the node. */
  lemma SameHashSameItem(v: Write, tv: Tree, w: Write, tw: Tree, hash: Item -> Hash, items: iset<Item>)
    requires NodeOf(v, tv, [], hash, true) && NodeOf(w, tw, [], hash, true) && v.hash == w.hash
    requires Injective(hash, items) && Within(tv, hash, items) && Within(tw, hash, items)
    ensures v.item == w.item
  {
    NodeOfHash(v, tv, [], hash, true);
    NodeOfHash(w, tw, [], hash, true);
    NodeOfWithin(v, tv, [], hash, true, items);
    NodeOfWithin(w, tw, [], hash, true, items);
  }

  lemma OnlyNodesOfAt(w: Write, t: Tree, hash: Item -> Hash, items: iset<Item>)
    requires NodeOf(w, t, [], hash, true) && Injective(hash, items) && Within(t, hash, items)
    ensures OnlyNodesOf(t, hash).get(w.path, w.hash) == Some(w.item)
  {
    assert NodeOf(Write(w.path, w.hash, w.item), t, [], hash, true);
    var x :| NodeAt(w.path, w.hash, t, hash) == Some(x) && NodeOf(Write(w.path, w.hash, x), t, [], hash, true);
    SameHashSameItem(w, t, Write(w.path, w.hash, x), t, hash, items);
  }

  lemma OnlyNodesOfHolds(t: Tree, hash: Item -> Hash, items: iset<Item>)
    requires Injective(hash, items) && Within(t, hash, items)
    ensures Stored(t, [], OnlyNodesOf(t, hash))
    ensures Inner(t) ==> Held(t, [], OnlyNodesOf(t, hash))
  {
    var db := OnlyNodesOf(t, hash);
    forall w | NodeOf(w, t, [], hash, true) ensures db.get(w.path, w.hash) == Some(w.item) {
      OnlyNodesOfAt(w, t, hash, items);
    }
    NodeOfAnyRoot(t, hash);
    EveryNodeMeansStored(t, [], db);
    if Inner(t) { assert NodeOf(Write([], hash(Encode(t, hash)), Encode(t, hash)), t, [], hash, true); }
  }

  /** The nodes of t and the writes together. */
  ghost function NodesAndWrites(t: Tree, ws: seq<Write>, hash: Item -> Hash): Db {
    Db((p, h: Hash) => var x := NodeAt(p, h, t, hash); if x.Some? then x else WriteAt(p, h, ws), hash)
  }

  ghost function WriteAt(p: Path, h: Hash, ws: seq<Write>): Option<Item> {
    if exists w :: w in ws && w.path == p && w.hash == h then
      var w :| w in ws && w.path == p && w.hash == h; Some(w.item)
    else None
  }

  lemma NodesAndWritesAbsorb(t0: Tree, t: Tree, ws: seq<Write>, hash: Item -> Hash, items: iset<Item>)
    requires forall w :: w in ws ==> NodeOf(w, t, [], hash, true)
    requires Injective(hash, items) && Within(t0, hash, items) && Within(t, hash, items)
    ensures Absorbs(OnlyNodesOf(t0, hash), ws, NodesAndWrites(t0, ws, hash))
  {
    var db' := NodesAndWrites(t0, ws, hash);
    forall w | w in ws ensures db'.get(w.path, w.hash) == Some(w.item) {
      var x := NodeAt(w.path, w.hash, t0, hash);
      if x.Some? {
        SameHashSameItem(Write(w.path, w.hash, x.value), t0, w, t, hash, items);
      } else {
        var v :| v in ws && v.path == w.path && v.hash == w.hash && WriteAt(w.path, w.hash, ws) == Some(v.item);
        SameHashSameItem(v, t, w, t, hash, items);
      }
    }
  }

  /**
    Untouched subtrees keep their absolute path: every node of a trie reached by
    updates from t0 is either written by the commit or a node of t0 at the same path.
   */
  lemma CommitWritesTheRest(n: Node, t0: Tree, t: Tree, hash: Item -> Hash, items: iset<Item>, w: Write)
    requires Rep(n, t, [], OnlyNodesOf(t0, hash), true)
    requires Injective(hash, items) && Within(t0, hash, items) && Within(t, hash, items)
    requires NodeOf(w, t, [], hash, true)
    ensures w in HashNodes(n, [], true, true, hash).writes || NodeOf(w, t0, [], hash, true)
  {
    var ws := HashNodes(n, [], true, true, hash).writes;
    var db' := NodesAndWrites(t0, ws, hash);
    StoredAfterCommit(n, t0, t, hash, items, w);
    if NodeAt(w.path, w.hash, t0, hash).Some? {
      assert NodeOf(Write(w.path, w.hash, w.item), t0, [], hash, true);
    } else {
      var v :| v in ws && v.path == w.path && v.hash == w.hash && v.item == w.item;
      assert v == w;
    }
  }

  /** The nodes of the old tree together with the writes hold every node of the new one. */
  lemma StoredAfterCommit(n: Node, t0: Tree, t: Tree, hash: Item -> Hash, items: iset<Item>, w: Write)
    requires Rep(n, t, [], OnlyNodesOf(t0, hash), true)
    requires Injective(hash, items) && Within(t0, hash, items) && Within(t, hash, items)
    requires NodeOf(w, t, [], hash, true)
    ensures NodesAndWrites(t0, HashNodes(n, [], true, true, hash).writes, hash).get(w.path, w.hash) == Some(w.item)
  {
    var db := OnlyNodesOf(t0, hash);
    var ws := HashNodes(n, [], true, true, hash).writes;
    forall v | v in ws ensures NodeOf(v, t, [], hash, true) {
      WritesAreNodes(n, t, [], true, true, db, v);
    }
    NodesAndWritesAbsorb(t0, t, ws, hash, items);
    var db' := NodesAndWrites(t0, ws, hash);
    HashRep(n, t, [], true, true, db, db');
    if w != Write([], hash(Encode(t, hash)), Encode(t, hash)) {
      StoredMeansEveryNode(t, [], db', w);
    }
  }

  lemma NodeOfAnyRoot(t: Tree, hash: Item -> Hash)
    ensures forall w :: NodeOf(w, t, [], hash, false) ==> NodeOf(w, t, [], hash, true)
  {
  }
}
