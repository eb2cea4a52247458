/**
  The trie store with its garbage collector (muxdb): nodes live in a permanent
  space P and two live spaces A and B. Commits write to the active live space;
  the pruner switches the live spaces, archives the difference of two tries into
  P, and drops the stale space.
 */
module Pruner {
  import opened Hex
  import opened Rlp
  import opened PatriciaTree
  import opened TrieNode
  import opened TrieOps
  import opened Hasher
  import opened Commit
  import opened Proof
  import opened History
  import opened PreOrder
  import opened Session
  import opened NodeKeys

  datatype NodeKey = NodeKey(path: Bytes, hash: Hash)

  function KeyFor(path: Path, h: Hash): NodeKey {
    NodeKey(if IsNibbles(path) then CompactPath(path) else [], h)
  }

  /** Nodes have one key exactly if they have one hash, and their paths agree up to the first fifteen nibbles. */
  lemma KeysDiffer(p: Path, g: Hash, q: Path, h: Hash)
    requires IsNibbles(p) && IsNibbles(q)
    ensures KeyFor(p, g) == KeyFor(q, h) <==> g == h && (if |p| > 15 then p[..15] else p) == if |q| > 15 then q[..15] else q
  {
    CompactPathInjective(p, q);
  }

  type NodeMap = map<NodeKey, Item>

  /** `activeA` says which live space is active. */
  datatype Store = Store(p: NodeMap, a: NodeMap, b: NodeMap, activeA: bool) {
    function Active(): NodeMap {
      if activeA then a else b
    }

    function WithActive(m: NodeMap): Store {
      if activeA then this.(a := m) else this.(b := m)
    }

    function WithoutStale(): Store {
      if activeA then this.(b := map[]) else this.(a := map[])
    }

    /** trieNodeKeyBuf.Get: permanent space first, then A, then B. */
    function Get(path: Path, h: Hash): Option<Item> {
      var k := KeyFor(path, h);
      if k in p then Some(p[k]) else if k in a then Some(a[k]) else if k in b then Some(b[k]) else None
    }
  }

  function Reader(s: Store, hash: Item -> Hash): Db {
    Db((path, h: Hash) => s.Get(path, h), hash)
  }

  function PutNodes(m: NodeMap, ws: seq<Write>): NodeMap
    decreases |ws|
  {
    if ws == [] then m else PutNodes(m[KeyFor(ws[0].path, ws[0].hash) := ws[0].item], ws[1..])
  }

  /** Open the trie at a root, update it, and commit it to the active space. */
  function CommitTrie(s: Store, root: Hash, us: seq<Update>, hash: Item -> Hash): Result<Store> {
    var n := Open(root, Reader(s, hash));
    if n.Err? then Err(n.error)
    else
      var m := UpdateNodes(n.value, us, Reader(s, hash));
      if m.Err? then Err(m.error)
      else Ok(s.WithActive(PutNodes(s.Active(), HashNodes(m.value, [], true, true, hash).writes)))
  }

  // ----- what the spaces hold -----

  /** Every entry has the hash of its key, and is among the items. */
  ghost predicate GoodSpace(m: NodeMap, hash: Item -> Hash, items: iset<Item>) {
    forall k :: k in m ==> hash(m[k]) == k.hash && m[k] in items
  }

  predicate Has(m: NodeMap, w: Write) {
    KeyFor(w.path, w.hash) in m
  }

  /** A canonical trie over the items, with a usable root hash. */
  ghost predicate GoodTrie(t: Tree, hash: Item -> Hash, items: iset<Item>) {
    && Canonical(t) && Within(t, hash, items)
    && (Inner(t) ==> RootHash(t, hash) != ZeroHash() && RootHash(t, hash) != hash(Str([])))
  }

  ghost predicate InP(t: Tree, s: Store, hash: Item -> Hash) {
    forall w :: NodeOf(w, t, [], hash, true) ==> Has(s.p, w)
  }

  ghost predicate Somewhere(t: Tree, s: Store, hash: Item -> Hash) {
    forall w :: NodeOf(w, t, [], hash, true) ==> Has(s.p, w) || Has(s.a, w) || Has(s.b, w)
  }

  /** t needs nothing but nodes of base and what is in the permanent and the active space. */
  ghost predicate BasedOn(t: Tree, base: Tree, s: Store, hash: Item -> Hash) {
    forall w :: NodeOf(w, t, [], hash, true) ==> NodeOf(w, base, [], hash, true) || Has(s.p, w) || Has(s.Active(), w)
  }

  ghost predicate GoodStore(s: Store, hash: Item -> Hash, items: iset<Item>) {
    GoodSpace(s.p, hash, items) && GoodSpace(s.a, hash, items) && GoodSpace(s.b, hash, items)
  }

  lemma {:induction false} PutNodesGood(m: NodeMap, ws: seq<Write>, t: Tree, hash: Item -> Hash, items: iset<Item>)
    requires GoodSpace(m, hash, items) && Within(t, hash, items)
    requires forall w :: w in ws ==> NodeOf(w, t, [], hash, true)
    ensures GoodSpace(PutNodes(m, ws), hash, items)
    ensures forall k :: k in m ==> k in PutNodes(m, ws)
    ensures forall w :: w in ws ==> Has(PutNodes(m, ws), w)
    decreases |ws|
  {
    if ws != [] {
      assert ws[0] in ws;
      NodeOfHash(ws[0], t, [], hash, true);
      NodeOfWithin(ws[0], t, [], hash, true, items);
      assert forall w :: w in ws <==> w == ws[0] || w in ws[1..];
      PutNodesGood(m[KeyFor(ws[0].path, ws[0].hash) := ws[0].item], ws[1..], t, hash, items);
    }
  }

  /** What is found under the key of a node is that node. */
  lemma GetNode(s: Store, w: Write, t: Tree, hash: Item -> Hash, items: iset<Item>)
    requires GoodStore(s, hash, items) && Injective(hash, items) && Within(t, hash, items)
    requires NodeOf(w, t, [], hash, true) && (Has(s.p, w) || Has(s.a, w) || Has(s.b, w))
    ensures s.Get(w.path, w.hash) == Some(w.item)
  {
    NodeOfHash(w, t, [], hash, true);
    NodeOfWithin(w, t, [], hash, true, items);
  }

  /** Every node of a trie that is somewhere in the store is found there. */
  lemma SomewhereMeansFound(t: Tree, s: Store, hash: Item -> Hash, items: iset<Item>)
    requires GoodStore(s, hash, items) && Injective(hash, items) && Within(t, hash, items) && Somewhere(t, s, hash)
    ensures forall w :: NodeOf(w, t, [], hash, true) ==> Reader(s, hash).get(w.path, w.hash) == Some(w.item)
  {
    forall w | NodeOf(w, t, [], hash, true) ensures Reader(s, hash).get(w.path, w.hash) == Some(w.item) {
      GetNode(s, w, t, hash, items);
    }
  }

  /** A trie whose nodes are somewhere in the store can be read from it. */
  lemma SomewhereMeansStored(t: Tree, s: Store, hash: Item -> Hash, items: iset<Item>)
    requires GoodStore(s, hash, items) && Injective(hash, items) && Within(t, hash, items) && Somewhere(t, s, hash)
    ensures Stored(t, [], Reader(s, hash)) && (Inner(t) ==> Held(t, [], Reader(s, hash)))
  {
    SomewhereMeansFound(t, s, hash, items);
    NodeOfAnyRoot(t, hash);
    EveryNodeMeansStored(t, [], Reader(s, hash));
    if Inner(t) { assert NodeOf(Write([], hash(Encode(t, hash)), Encode(t, hash)), t, [], hash, true); }
  }

  /** And the store has all that a database of its nodes alone would have. */
  lemma SomewhereExtends(t: Tree, s: Store, hash: Item -> Hash, items: iset<Item>)
    requires GoodStore(s, hash, items) && Injective(hash, items) && Within(t, hash, items) && Somewhere(t, s, hash)
    ensures Extends(OnlyNodesOf(t, hash), Reader(s, hash))
  {
    SomewhereMeansFound(t, s, hash, items);
    forall p, h: Hash | OnlyNodesOf(t, hash).get(p, h).Some?
      ensures Reader(s, hash).get(p, h) == OnlyNodesOf(t, hash).get(p, h)
    {
      var x := NodeAt(p, h, t, hash).value;
      assert NodeOf(Write(p, h, x), t, [], hash, true);
    }
  }

  /** And every key of it gets its answer. */
  lemma Readable(t: Tree, s: Store, hash: Item -> Hash, items: iset<Item>, key: Bytes)
    requires GoodStore(s, hash, items) && Injective(hash, items) && GoodTrie(t, hash, items) && Somewhere(t, s, hash)
    ensures var db := Reader(s, hash);
            var n := Open(RootHash(t, hash), db);
            && n.Ok? && TryGet(n.value, [], HexOf(key), db).Ok?
            && TryGet(n.value, [], HexOf(key), db).value.value == PatriciaTree.Get(t, HexOf(key))
  {
    var db := Reader(s, hash);
    SomewhereMeansStored(t, s, hash, items);
    OpenStored(t, db);
    TryGetRep(Open(RootHash(t, hash), db).value, t, [], HexOf(key), db, true);
  }

  // ----- commits -----

  /** The node a commit hashes stands for the updated trie, over the nodes of the old one alone. */
  lemma CommitNode(s: Store, base: Tree, us: seq<Update>, hash: Item -> Hash, items: iset<Item>) returns (m: Node)
    requires GoodStore(s, hash, items) && Injective(hash, items) && GoodTrie(base, hash, items) && Somewhere(base, s, hash)
    ensures CommitTrie(s, RootHash(base, hash), us, hash) ==
            Ok(s.WithActive(PutNodes(s.Active(), HashNodes(m, [], true, true, hash).writes)))
    ensures Rep(m, Run(base, us), [], OnlyNodesOf(base, hash), true)
  {
    var db, db0 := Reader(s, hash), OnlyNodesOf(base, hash);
    SomewhereMeansStored(base, s, hash, items);
    SomewhereExtends(base, s, hash, items);
    OnlyNodesOfHolds(base, hash, items);
    OpenStored(base, db);
    OpenStored(base, db0);
    var n := Open(RootHash(base, hash), db0).value;
    assert Open(RootHash(base, hash), db) == Ok(n) by {
      if Inner(base) { ResolveExtends(RootHash(base, hash), [], db0, db); }
    }
    UpdateNodesRep(n, base, us, db0, db);
    m := UpdateNodes(n, us, db).value;
  }

  /** A commit on top of a readable trie succeeds, and stores the new trie on the old one. */
  lemma CommitOk(s: Store, base: Tree, us: seq<Update>, hash: Item -> Hash, items: iset<Item>)
    requires GoodStore(s, hash, items) && Injective(hash, items) && GoodTrie(base, hash, items) && Somewhere(base, s, hash)
    requires Within(Run(base, us), hash, items)
    ensures var r := CommitTrie(s, RootHash(base, hash), us, hash);
            && r.Ok? && GoodStore(r.value, hash, items)
            && r.value.p == s.p && r.value.activeA == s.activeA
            && (forall k :: k in s.a ==> k in r.value.a) && (forall k :: k in s.b ==> k in r.value.b)
            && forall w :: NodeOf(w, Run(base, us), [], hash, true) ==>
                 NodeOf(w, base, [], hash, true) || Has(r.value.Active(), w)
  {
    var t := Run(base, us);
    var m := CommitNode(s, base, us, hash, items);
    var ws := HashNodes(m, [], true, true, hash).writes;
    forall w | w in ws ensures NodeOf(w, t, [], hash, true) {
      WritesAreNodes(m, t, [], true, true, OnlyNodesOf(base, hash), w);
    }
    PutNodesGood(s.Active(), ws, t, hash, items);
    forall w | NodeOf(w, t, [], hash, true)
      ensures NodeOf(w, base, [], hash, true) || Has(PutNodes(s.Active(), ws), w)
    {
      CommitWritesTheRest(m, base, t, hash, items, w);
    }
  }

  // ----- archiving -----

  /** What the difference iterator shows of a stored node. */
  function Mark(w: Write): Entry {
    Entry(w.path, Some(w.hash), None)
  }

  lemma {:induction false} NodeHasEntry(w: Write, t: Tree, path: Path, hash: Item -> Hash, root: bool, end: bool)
    requires NodeOf(w, t, path, hash, root) && WellFormed(t, end)
    ensures Mark(w) in Entries(t, path, hash, root)
    decreases t
  {
    if (root || Standalone(t, hash)) && w == Write(path, hash(Encode(t, hash)), Encode(t, hash)) {
      assert Entries(t, path, hash, root)[0] == Mark(w);
    } else if t.Ext? {
      NodeHasEntry(w, t.child, path + t.key, hash, false, t.key[|t.key| - 1] == TERM);
    } else {
      var i: Byte :| i as int < |t.children| && NodeOf(w, t.children[i], path + [i], hash, false);
      NodeHasEntry(w, t.children[i], path + [i], hash, false, i == 16);
      BelowHasChild(t, path, hash, 0, i, Mark(w));
    }
  }

  lemma {:induction false} BelowHasChild(t: Tree, path: Path, hash: Item -> Hash, from: nat, i: Byte, e: Entry)
    requires t.Branch? && from <= i as int < |t.children| && i < 17 && !t.children[i].Nil?
    requires e in Entries(t.children[i], path + [i], hash, false)
    ensures e in Below(t, path, hash, from)
    decreases i as int - from
  {
    if from < i as int { BelowHasChild(t, path, hash, from + 1, i, e); }
  }

  lemma {:induction false} EntryHasNode(e: Entry, t: Tree, path: Path, hash: Item -> Hash, root: bool) returns (w: Write)
    requires e in Entries(t, path, hash, root) && e.hash.Some?
    ensures NodeOf(w, t, path, hash, root) && w.path == e.path && w.hash == e.hash.value
    decreases t, 1
  {
    if e == EntryOf(t, path, hash, root) {
      w := Write(path, hash(Encode(t, hash)), Encode(t, hash));
    } else {
      w := EntryBelowHasNode(e, t, path, hash, 0);
    }
  }

  lemma {:induction false} EntryBelowHasNode(e: Entry, t: Tree, path: Path, hash: Item -> Hash, i: nat) returns (w: Write)
    requires e in Below(t, path, hash, i) && e.hash.Some?
    ensures Inner(t) && w.path == e.path && w.hash == e.hash.value
    ensures forall root :: NodeOf(w, t, path, hash, root)
    decreases t, 0, if t.Branch? && i < |t.children| then |t.children| - i else 0
  {
    if t.Ext? {
      w := EntryHasNode(e, t.child, path + t.key, hash, false);
    } else if !t.children[i].Nil? && e in Entries(t.children[i], path + [i as Byte], hash, false) {
      w := EntryHasNode(e, t.children[i], path + [i as Byte], hash, false);
      assert NodeOf(w, t.children[i as Byte], path + [i as Byte], hash, false);
    } else {
      w := EntryBelowHasNode(e, t, path, hash, i + 1);
    }
  }

  /** The nodes of base that the difference iterator does not find in prev. */
  ghost predicate DiffWrites(ws: seq<Write>, prev: Tree, base: Tree, hash: Item -> Hash) {
    && (forall w :: w in ws ==> NodeOf(w, base, [], hash, true))
    && (forall w :: NodeOf(w, base, [], hash, true) && Mark(w) !in Entries(prev, [], hash, true) ==> w in ws)
  }

  /** Archiving the difference to an archived trie archives the whole trie. */
  lemma ArchiveOk(s: Store, prev: Tree, base: Tree, ws: seq<Write>, hash: Item -> Hash, items: iset<Item>)
    requires GoodStore(s, hash, items) && Within(base, hash, items)
    requires InP(prev, s, hash) && DiffWrites(ws, prev, base, hash)
    ensures var s' := s.(p := PutNodes(s.p, ws));
            GoodStore(s', hash, items) && InP(base, s', hash) && forall k :: k in s.p ==> k in s'.p
  {
    PutNodesGood(s.p, ws, base, hash, items);
    forall w | NodeOf(w, base, [], hash, true) ensures Has(PutNodes(s.p, ws), w) {
      if Mark(w) in Entries(prev, [], hash, true) {
        var v := EntryHasNode(Mark(w), prev, [], hash, true);
        assert Has(s.p, v);
      }
    }
  }

  // ----- whole runs -----

  /** A step of the database. The writes of an archival are the nodes its difference iterator returned. */
  datatype Step =
    | Commit(base: Tree, us: seq<Update>)
    | Switch
    | Archive(prev: Tree, base: Tree, ws: seq<Write>)
    | DropStale

  /**
    The store with its history: the tries archived so far, the tries that have to be
    readable, and for each of these the tries it was derived from since the last switch.
   */
  datatype State = State(store: Store, archived: set<Tree>, alive: set<Tree>, derived: set<(Tree, Tree)>)

  const Init := State(Store(map[], map[], map[], true), {Nil}, {Nil}, {(Nil, Nil)})

  ghost predicate Enabled(s: State, step: Step, hash: Item -> Hash, items: iset<Item>) {
    match step
    case Commit(base, us) => base in s.alive && GoodTrie(base, hash, items) && GoodTrie(Run(base, us), hash, items)
    case Archive(prev, base, ws) => prev in s.archived && base in s.alive && DiffWrites(ws, prev, base, hash)
    case _ => true
  }

  ghost function Next(s: State, step: Step, hash: Item -> Hash, items: iset<Item>): State
    requires Enabled(s, step, hash, items)
  {
    match step
    case Commit(base, us) =>
      var t := Run(base, us);
      var r := CommitTrie(s.store, RootHash(base, hash), us, hash);
      if r.Err? then s
      else State(r.value, s.archived, s.alive + {t}, DerivedBy(s.derived, base, t))
    case Switch =>
      s.(store := s.store.(activeA := !s.store.activeA), derived := set t | t in s.alive :: (t, t))
    case Archive(prev, base, ws) =>
      s.(store := s.store.(p := PutNodes(s.store.p, ws)), archived := s.archived + {base})
    case DropStale =>
      var kept := s.archived + set d | d in s.derived && d.0 in s.archived :: d.1;
      State(s.store.WithoutStale(), s.archived, kept, set d | d in s.derived && d.0 in kept && d.1 in kept)
  }

  ghost predicate Inv(s: State, hash: Item -> Hash, items: iset<Item>) {
    && GoodStore(s.store, hash, items)
    && s.archived <= s.alive
    && (forall t :: t in s.alive ==> GoodTrie(t, hash, items) && Somewhere(t, s.store, hash))
    && (forall t :: t in s.archived ==> InP(t, s.store, hash))
    && (forall d :: d in s.derived ==> d.1 in s.alive && BasedOn(d.1, d.0, s.store, hash))
  }

  lemma InitInv(hash: Item -> Hash, items: iset<Item>)
    ensures Inv(Init, hash, items)
  {
  }

  /** The store only gains nodes, and the active space stays the same. */
  ghost predicate Grows(s: Store, s': Store) {
    && s.activeA == s'.activeA
    && (forall w :: Has(s.p, w) ==> Has(s'.p, w))
    && (forall w :: Has(s.a, w) ==> Has(s'.a, w))
    && (forall w :: Has(s.b, w) ==> Has(s'.b, w))
  }

  lemma GrowthKeeps(s: Store, s': Store, t: Tree, base: Tree, hash: Item -> Hash)
    requires Grows(s, s')
    ensures Somewhere(t, s, hash) ==> Somewhere(t, s', hash)
    ensures InP(t, s, hash) ==> InP(t, s', hash)
    ensures BasedOn(t, base, s, hash) ==> BasedOn(t, base, s', hash)
  {
  }

  /** The new trie is readable, and based on whatever its base was based on. */
  lemma CommitBased(s: Store, s': Store, base: Tree, t: Tree, origin: Tree, hash: Item -> Hash)
    requires Grows(s, s')
    requires forall w :: NodeOf(w, t, [], hash, true) ==> NodeOf(w, base, [], hash, true) || Has(s'.Active(), w)
    ensures Somewhere(base, s, hash) ==> Somewhere(t, s', hash)
    ensures BasedOn(base, origin, s, hash) ==> BasedOn(t, origin, s', hash)
  {
    GrowthKeeps(s, s', base, origin, hash);
  }

  lemma {:induction false} GrowthKeepsAll(s: State, s': Store, hash: Item -> Hash, items: iset<Item>)
    requires Inv(s, hash, items) && Grows(s.store, s')
    ensures (forall u :: u in s.alive ==> Somewhere(u, s', hash)) && (forall u :: u in s.archived ==> InP(u, s', hash))
  {
    forall u | u in s.alive ensures Somewhere(u, s', hash) { GrowthKeeps(s.store, s', u, u, hash); }
    forall u | u in s.archived ensures InP(u, s', hash) { GrowthKeeps(s.store, s', u, u, hash); }
  }

  /** The derivations after a commit of t on base: those before, and whatever base was derived from. */
  function DerivedBy(derived: set<(Tree, Tree)>, base: Tree, t: Tree): set<(Tree, Tree)> {
    derived + {(t, t)} + set d | d in derived && d.1 == base :: (d.0, t)
  }

  lemma {:induction false} CommitDerived(s: State, store': Store, base: Tree, t: Tree, hash: Item -> Hash, items: iset<Item>)
    requires Inv(s, hash, items) && Grows(s.store, store')
    requires forall w :: NodeOf(w, t, [], hash, true) ==> NodeOf(w, base, [], hash, true) || Has(store'.Active(), w)
    ensures forall d :: d in DerivedBy(s.derived, base, t) ==> d.1 in s.alive + {t} && BasedOn(d.1, d.0, store', hash)
  {
    forall d | d in DerivedBy(s.derived, base, t) ensures d.1 in s.alive + {t} && BasedOn(d.1, d.0, store', hash) {
      if d in s.derived {
        GrowthKeeps(s.store, store', d.1, d.0, hash);
      } else if d == (t, t) {
        assert forall w :: NodeOf(w, t, [], hash, true) ==> NodeOf(w, t, [], hash, true);
      } else {
        assert (d.0, base) in s.derived;
        CommitBased(s.store, store', base, t, d.0, hash);
      }
    }
  }

  lemma {:induction false} GrownInv(s: State, store': Store, base: Tree, t: Tree, hash: Item -> Hash, items: iset<Item>)
    requires Inv(s, hash, items) && Grows(s.store, store') && GoodStore(store', hash, items) && base in s.alive && GoodTrie(t, hash, items)
    requires forall w :: NodeOf(w, t, [], hash, true) ==> NodeOf(w, base, [], hash, true) || Has(store'.Active(), w)
    ensures Inv(State(store', s.archived, s.alive + {t}, DerivedBy(s.derived, base, t)), hash, items)
  {
    CommitBased(s.store, store', base, t, base, hash);
    CommitDerived(s, store', base, t, hash, items);
    GrowthKeepsAll(s, store', hash, items);
  }

  lemma {:induction false} CommitInv(s: State, base: Tree, us: seq<Update>, hash: Item -> Hash, items: iset<Item>)
    requires Inv(s, hash, items) && Injective(hash, items) && Enabled(s, Commit(base, us), hash, items)
    ensures Inv(Next(s, Commit(base, us), hash, items), hash, items)
    ensures Run(base, us) in Next(s, Commit(base, us), hash, items).alive
  {
    CommitOk(s.store, base, us, hash, items);
    var store' := CommitTrie(s.store, RootHash(base, hash), us, hash).value;
    assert Grows(s.store, store');
    GrownInv(s, store', base, Run(base, us), hash, items);
  }

  lemma {:induction false} ArchiveInv(s: State, prev: Tree, base: Tree, ws: seq<Write>, hash: Item -> Hash, items: iset<Item>)
    requires Inv(s, hash, items) && Enabled(s, Archive(prev, base, ws), hash, items)
    ensures Inv(Next(s, Archive(prev, base, ws), hash, items), hash, items)
  {
    var store' := s.store.(p := PutNodes(s.store.p, ws));
    ArchiveOk(s.store, prev, base, ws, hash, items);
    assert Grows(s.store, store');
    GrowthKeepsAll(s, store', hash, items);
    forall d | d in s.derived ensures BasedOn(d.1, d.0, store', hash) { GrowthKeeps(s.store, store', d.1, d.0, hash); }
    assert Inv(s.(store := store', archived := s.archived + {base}), hash, items);
  }

  /** Dropping the stale space loses nothing of the archived tries and of those derived from them since the switch. */
  lemma DropInv(s: State, hash: Item -> Hash, items: iset<Item>)
    requires Inv(s, hash, items)
    ensures Inv(Next(s, DropStale, hash, items), hash, items)
    ensures forall d :: d in s.derived && d.0 in s.archived ==> d.1 in Next(s, DropStale, hash, items).alive
  {
    var s' := Next(s, DropStale, hash, items);
    forall t | t in s'.alive ensures GoodTrie(t, hash, items) && Somewhere(t, s'.store, hash) {
      if t !in s.archived {
        var d :| d in s.derived && d.0 in s.archived && d.1 == t;
        assert BasedOn(t, d.0, s.store, hash) && InP(d.0, s.store, hash);
      }
    }
  }

  lemma StepInv(s: State, step: Step, hash: Item -> Hash, items: iset<Item>)
    requires Inv(s, hash, items) && Injective(hash, items) && Enabled(s, step, hash, items)
    ensures Inv(Next(s, step, hash, items), hash, items)
  {
    match step
    case Commit(base, us) => CommitInv(s, base, us, hash, items);
    case Switch =>
    case Archive(prev, base, ws) => ArchiveInv(s, prev, base, ws, hash, items);
    case DropStale => DropInv(s, hash, items);
  }

  ghost predicate Runs(s: State, steps: seq<Step>, hash: Item -> Hash, items: iset<Item>)
    decreases |steps|
  {
    steps != [] ==> Enabled(s, steps[0], hash, items) && Runs(Next(s, steps[0], hash, items), steps[1..], hash, items)
  }

  ghost function Final(s: State, steps: seq<Step>, hash: Item -> Hash, items: iset<Item>): State
    requires Runs(s, steps, hash, items)
    decreases |steps|
  {
    if steps == [] then s else Final(Next(s, steps[0], hash, items), steps[1..], hash, items)
  }

  lemma {:induction false} RunInv(s: State, steps: seq<Step>, hash: Item -> Hash, items: iset<Item>)
    requires Inv(s, hash, items) && Injective(hash, items) && Runs(s, steps, hash, items)
    ensures Inv(Final(s, steps, hash, items), hash, items)
    decreases |steps|
  {
    if steps != [] {
      StepInv(s, steps[0], hash, items);
      RunInv(Next(s, steps[0], hash, items), steps[1..], hash, items);
    }
  }

  /** After any run from the empty store every live trie opens at its root and answers every key. */
  lemma PruningIsSafe(steps: seq<Step>, hash: Item -> Hash, items: iset<Item>, t: Tree, key: Bytes)
    requires Injective(hash, items) && Runs(Init, steps, hash, items)
    requires t in Final(Init, steps, hash, items).alive
    ensures var db := Reader(Final(Init, steps, hash, items).store, hash);
            var n := Open(RootHash(t, hash), db);
            && n.Ok? && TryGet(n.value, [], HexOf(key), db).Ok?
            && TryGet(n.value, [], HexOf(key), db).value.value == PatriciaTree.Get(t, HexOf(key))
  {
    InitInv(hash, items);
    RunInv(Init, steps, hash, items);
    Readable(t, Final(Init, steps, hash, items).store, hash, items, key);
  }
}
