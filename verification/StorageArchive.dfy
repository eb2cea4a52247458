/**
  Archiving the state of a block (archiveAccountTrie in cmd/luckyshare/pruner/pruner.go):
  the leaf callback of the account trie archives the storage trie of every account
  it is shown, and that is enough to have every storage trie in permanent space.
 */
module StorageArchive {
  import opened Hex
  import opened Rlp
  import opened PatriciaTree
  import opened TrieNode
  import opened Hasher
  import opened Commit
  import opened Proof
  import opened Roots
  import opened PreOrder
  import opened Pruner
  import opened TrieOps
  import opened Iterator
  import opened Difference
  import opened Archiving

  /** The entry of a leaf. */
  function LeafAt(k: Path, v: Bytes): Entry {
    Entry(k, None, Some(v))
  }

  lemma LeafUnderExt(t: Tree, path: Path, hash: Item -> Hash, root: bool, k: Path, v: Bytes)
    requires t.Ext?
    ensures LeafAt(path + k, v) in Entries(t, path, hash, root) <==>
              t.key <= k && LeafAt(path + t.key + k[|t.key|..], v) in Entries(t.child, path + t.key, hash, false)
  {
    var e := LeafAt(path + k, v);
    assert e in Entries(t, path, hash, root) <==> e in Entries(t.child, path + t.key, hash, false);
    EntriesExtend(t.child, path + t.key, hash, false);
    if e in Entries(t.child, path + t.key, hash, false) {
      assert t.key == (path + t.key)[|path|..] && k == (path + k)[|path|..];
    }
    if t.key <= k { assert path + t.key + k[|t.key|..] == path + k; }
  }

  lemma LeafUnderBranch(t: Tree, path: Path, hash: Item -> Hash, root: bool, k: Path, v: Bytes)
    requires t.Branch? && |t.children| == 17
    ensures LeafAt(path + k, v) in Entries(t, path, hash, root) <==>
              && k != [] && k[0] < 17 && !t.children[k[0]].Nil?
              && LeafAt(path + [k[0]] + k[1..], v) in Entries(t.children[k[0]], path + [k[0]], hash, false)
  {
    var e := LeafAt(path + k, v);
    assert e in Entries(t, path, hash, root) <==> e in Below(t, path, hash, 0);
    BelowChild(t, path, hash, 0, e);
    if k != [] {
      assert e.path[|path|] == k[0];
      assert path + [k[0]] + k[1..] == path + k;
    }
  }

  /** A trie has an entry for a leaf exactly if a lookup finds it. */
  lemma {:induction false} LeafEntry(t: Tree, path: Path, hash: Item -> Hash, root: bool, end: bool, k: Path, v: Bytes)
    requires (t.Nil? || WellFormed(t, end)) && if end then k == [] else IsKey(k)
    ensures Get(t, k) == Some(v) <==> LeafAt(path + k, v) in Entries(t, path, hash, root)
    decreases t
  {
    match t
    case Nil =>
    case Leaf(_) => assert path + k == path;
    case Ext(key, child) =>
      LeafUnderExt(t, path, hash, root, k, v);
      if key <= k { LeafEntry(child, path + key, hash, false, key[|key| - 1] == TERM, k[|key|..], v); }
    case Branch(cs) =>
      LeafUnderBranch(t, path, hash, root, k, v);
      if k != [] && k[0] < 17 { LeafEntry(cs[k[0]], path + [k[0]], hash, false, k[0] == 16, k[1..], v); }
  }

  /** e is the entry of the leaf that the key k leads to. */
  ghost predicate LeadsTo(t: Tree, path: Path, end: bool, k: Path, e: Entry) {
    && (if end then k == [] else IsKey(k) && |k| > 0)
    && e.blob.Some? && e == LeafAt(path + k, e.blob.value) && Get(t, k) == e.blob
  }

  /** The entry of a leaf is that of a key found there. */
  lemma {:induction false} LeafForm(t: Tree, path: Path, hash: Item -> Hash, root: bool, end: bool, e: Entry) returns (k: Path)
    requires (t.Nil? || WellFormed(t, end)) && e in Entries(t, path, hash, root) && e.blob.Some?
    ensures LeadsTo(t, path, end, k, e)
    decreases t
  {
    k := [];
    assert path + k == path;
    if t.Ext? {
      var k' := LeafForm(t.child, path + t.key, hash, false, t.key[|t.key| - 1] == TERM, e);
      LeadsUnderExt(t, path, k', e);
      k := t.key + k';
    } else if t.Branch? {
      BelowChild(t, path, hash, 0, e);
      var i := e.path[|path|];
      var k' := LeafForm(t.children[i], path + [i], hash, false, i == 16, e);
      LeadsUnderBranch(t, path, i, k', e);
      k := [i] + k';
    }
  }

  lemma {:induction false} LeadsUnderExt(t: Tree, path: Path, k: Path, e: Entry)
    requires t.Ext? && WellFormed(t, false) && LeadsTo(t.child, path + t.key, t.key[|t.key| - 1] == TERM, k, e)
    ensures LeadsTo(t, path, false, t.key + k, e)
  {
    JoinKey(t.key, k);
    GetUnderExt(t, k);
    assert path + t.key + k == path + (t.key + k);
  }

  lemma {:induction false} LeadsUnderBranch(t: Tree, path: Path, i: Byte, k: Path, e: Entry)
    requires t.Branch? && i < 17 && |t.children| == 17 && LeadsTo(t.children[i], path + [i], i == 16, k, e)
    ensures LeadsTo(t, path, false, [i] + k, e)
  {
    JoinKey([i], k);
    GetUnderBranch(t, i, k);
    assert path + [i] + k == path + ([i] + k);
  }

  lemma JoinKey(p: Path, k: Path)
    requires IsSegment(p) && |p| > 0 && if p[|p| - 1] == TERM then k == [] else IsKey(k) && |k| > 0
    ensures IsKey(p + k) && |p + k| > 0
  {
  }

  lemma {:induction false} GetUnderExt(t: Tree, k: Path)
    requires t.Ext?
    ensures Get(t, t.key + k) == Get(t.child, k)
  {
    assert (t.key + k)[|t.key|..] == k;
  }

  lemma {:induction false} GetUnderBranch(t: Tree, i: Byte, k: Path)
    requires t.Branch? && i as int < |t.children|
    ensures Get(t, [i] + k) == Get(t.children[i], k)
  {
    assert ([i] + k)[1..] == k;
  }

  // ----- storage tries -----

  /** The trie at a root; the zero root stands for none. */
  ghost predicate TrieAt(st: Tree, root: Hash, hash: Item -> Hash, items: iset<Item>) {
    if root == ZeroHash() then st == Nil else Canonical(st) && Within(st, hash, items) && RootHash(st, hash) == root
  }

  ghost predicate AllIn(t: Tree, m: NodeMap, hash: Item -> Hash) {
    forall w :: NodeOf(w, t, [], hash, true) ==> Has(m, w)
  }

  /** The permanent space of the storage trie of each account, by account key. */
  type Spaces = map<Path, NodeMap>

  function SpaceOf(ps: Spaces, k: Path): NodeMap {
    if k in ps then ps[k] else map[]
  }

  /** The storage trie of every account of t is in permanent space. */
  ghost predicate StoragesIn(t: Tree, ps: Spaces, rootOf: Bytes -> Hash, hash: Item -> Hash, items: iset<Item>) {
    forall k, v, st :: IsKey(k) && Get(t, k) == Some(v) && TrieAt(st, rootOf(v), hash, items) ==> AllIn(st, SpaceOf(ps, k), hash)
  }

  function RootBefore(prev: Tree, k: Path, rootOf: Bytes -> Hash): Hash {
    match Get(prev, k) case None => ZeroHash() case Some(v) => rootOf(v)
  }

  /** What the callback does with a leaf: if the storage root changed, the difference is archived. */
  ghost predicate Handled(k: Path, v: Bytes, prev: Tree, ps: Spaces, ps': Spaces, rootOf: Bytes -> Hash, hash: Item -> Hash, items: iset<Item>) {
    var root1, root2 := RootBefore(prev, k, rootOf), rootOf(v);
    if root1 == root2 then SpaceOf(ps', k) == SpaceOf(ps, k)
    else exists st1, st2, ws ::
      && TrieAt(st1, root1, hash, items) && TrieAt(st2, root2, hash, items)
      && DiffWrites(ws, st1, st2, hash) && SpaceOf(ps', k) == PutNodes(SpaceOf(ps, k), ws)
  }

  /** The callback runs for the leaves that the difference iterator shows, and for no others. */
  ghost predicate HandledAll(prev: Tree, base: Tree, ps: Spaces, ps': Spaces, rootOf: Bytes -> Hash, hash: Item -> Hash, items: iset<Item>) {
    forall k, v :: IsKey(k) && Get(base, k) == Some(v) ==>
      if LeafAt(k, v) in Entries(prev, [], hash, true) then SpaceOf(ps', k) == SpaceOf(ps, k)
      else Handled(k, v, prev, ps, ps', rootOf, hash, items)
  }

  ghost predicate GoodSpaces(ps: Spaces, hash: Item -> Hash, items: iset<Item>) {
    forall k :: GoodSpace(SpaceOf(ps, k), hash, items)
  }

  lemma SameTrie(a: Tree, b: Tree, root: Hash, hash: Item -> Hash, items: iset<Item>)
    requires TrieAt(a, root, hash, items) && TrieAt(b, root, hash, items) && Injective(hash, items) && Str([]) in items
    ensures a == b
  {
    if root != ZeroHash() { RootDeterminesTrie(a, b, hash, items); }
  }

  /** Putting the difference to a trie that is there puts all of the other trie there. */
  lemma PutsAll(st1: Tree, st2: Tree, m: NodeMap, ws: seq<Write>, root2: Hash, hash: Item -> Hash, items: iset<Item>)
    requires GoodSpace(m, hash, items) && TrieAt(st2, root2, hash, items)
    requires AllIn(st1, m, hash) && DiffWrites(ws, st1, st2, hash)
    ensures AllIn(st2, PutNodes(m, ws), hash)
  {
    AccountsIn(st1, st2, m, ws, hash, items);
  }

  lemma OneStorage(k: Path, v: Bytes, st: Tree, prev: Tree, ps: Spaces, ps': Spaces,
                   rootOf: Bytes -> Hash, hash: Item -> Hash, items: iset<Item>)
    requires StoragesIn(prev, ps, rootOf, hash, items) && GoodSpaces(ps, hash, items)
    requires Injective(hash, items) && Str([]) in items
    requires IsKey(k) && Handled(k, v, prev, ps, ps', rootOf, hash, items) && TrieAt(st, rootOf(v), hash, items)
    ensures AllIn(st, SpaceOf(ps', k), hash)
  {
    var root1, root2 := RootBefore(prev, k, rootOf), rootOf(v);
    if root1 != root2 {
      var st1, st2, ws :|
        && TrieAt(st1, root1, hash, items) && TrieAt(st2, root2, hash, items)
        && DiffWrites(ws, st1, st2, hash) && SpaceOf(ps', k) == PutNodes(SpaceOf(ps, k), ws);
      SameTrie(st, st2, root2, hash, items);
      assert AllIn(st1, SpaceOf(ps, k), hash);
      PutsAll(st1, st2, SpaceOf(ps, k), ws, root2, hash, items);
    }
  }

  /**
    If all storage tries of an archived state are in permanent space, then after
    archiving the difference to another state so are all of its storage tries.
   */
  lemma StoragesArchived(prev: Tree, base: Tree, ps: Spaces, ps': Spaces, rootOf: Bytes -> Hash, hash: Item -> Hash, items: iset<Item>)
    requires Canonical(prev) && Injective(hash, items) && Str([]) in items && GoodSpaces(ps, hash, items)
    requires StoragesIn(prev, ps, rootOf, hash, items) && HandledAll(prev, base, ps, ps', rootOf, hash, items)
    ensures StoragesIn(base, ps', rootOf, hash, items)
  {
    forall k, v, st | IsKey(k) && Get(base, k) == Some(v) && TrieAt(st, rootOf(v), hash, items) ensures AllIn(st, SpaceOf(ps', k), hash) {
      if LeafAt(k, v) in Entries(prev, [], hash, true) {
        LeafEntry(prev, [], hash, true, false, k, v);
        assert [] + k == k;
      } else {
        OneStorage(k, v, st, prev, ps, ps', rootOf, hash, items);
      }
    }
  }

  // ----- the callback -----

  /** The storage trie at a root can be read from the database. */
  ghost predicate Opens(st: Tree, root: Hash, db: Db, items: iset<Item>) {
    && TrieAt(st, root, db.hash, items)
    && (Inner(st) ==> Stored(st, [], db) && Held(st, [], db))
  }

  ghost predicate NoCollisions(hash: Item -> Hash, items: iset<Item>) {
    Injective(hash, items) && Str([]) in items && forall x :: x in items ==> hash(x) != ZeroHash()
  }

  /** An iterator over the nodes of a stored trie. */
  method IterateAt(root: Hash, db: Db, ghost st: Tree, ghost items: iset<Item>) returns (it: NodeIterator)
    requires Opens(st, root, db, items) && NoCollisions(db.hash, items)
    ensures fresh(it) && it.Valid() && it.pos == -1 && it.tree == st && it.db == db && it.items == items
  {
    var n := NilNode;
    OpenedNode(root, db, st, items);
    if root != ZeroHash() && root != db.hash(Str([])) { n := ResolveHash(root, [], db).value; }
    it := new NodeIterator(n, db, st, items);
  }

  lemma {:induction false} OpenedNode(root: Hash, db: Db, st: Tree, items: iset<Item>)
    requires Opens(st, root, db, items) && NoCollisions(db.hash, items)
    ensures Canonical(st) && Within(st, db.hash, items)
    ensures root == ZeroHash() || root == db.hash(Str([])) ==> st == Nil
    ensures root != ZeroHash() && root != db.hash(Str([])) ==>
              && var n := ResolveHash(root, [], db);
                 n.Ok? && Rep(n.value, st, [], db, true) && TaggedBelow(n.value, st, db.hash)
                 && (n.value.ShortNode? || n.value.FullNode? ==> n.value.flags.hash.Some?)
  {
    if Inner(st) {
      assert Encode(st, db.hash) in items && Encode(st, db.hash) != Str([]);
      ResolveRep(root, st, [], db, true);
      DecodedHash(root, Encode(st, db.hash));
    }
  }

  /** A decoded node has its hash cached. */
  lemma {:induction false} DecodedHash(h: Hash, x: Item)
    ensures Decode(Some(h), x).Some? ==> Decode(Some(h), x).value.flags.hash == Some(h)
  {
    if x.List? {
      if |x.items| == 2 {
        assert Decode(Some(h), x) == DecodeShort(Some(h), x);
      } else if |x.items| == 17 {
        assert Decode(Some(h), x) == DecodeFull(Some(h), x);
      }
    }
  }

  /** ArchiveNodes on the storage trie of one account. */
  method ArchiveStorage(root1: Hash, root2: Hash, db: Db, p: NodeMap, ghost st1: Tree, ghost st2: Tree, ghost items: iset<Item>)
    returns (p': NodeMap, ghost ws: seq<Write>)
    requires Opens(st1, root1, db, items) && Opens(st2, root2, db, items) && NoCollisions(db.hash, items)
    ensures p' == PutNodes(p, ws) && DiffWrites(ws, st1, st2, db.hash)
  {
    var it1 := IterateAt(root1, db, st1, items);
    var it2 := IterateAt(root2, db, st2, items);
    var it := new DifferenceIterator(it1, it2, items);
    var nodes, entries, leaves;
    p', nodes, entries, leaves, ws := ArchiveNodes(it, p);
  }

  /** The storage tries of all accounts of t can be read, each from its own database. */
  ghost predicate StoragesOpen(t: Tree, rootOf: Bytes -> Hash, dbOf: Path -> Db, storage: (Path, Hash) -> Tree, hash: Item -> Hash, items: iset<Item>) {
    forall k, v :: IsKey(k) && Get(t, k) == Some(v) ==> dbOf(k).hash == hash && Opens(storage(k, rootOf(v)), rootOf(v), dbOf(k), items)
  }

  /** The leaf callback of archiveAccountTrie. */
  method HandleLeaf(e: Entry, trie1: Node, db: Db, ps: Spaces, rootOf: Bytes -> Hash, dbOf: Path -> Db,
                    ghost prev: Tree, ghost base: Tree, ghost storage: (Path, Hash) -> Tree, ghost items: iset<Item>)
    returns (ps': Spaces)
    requires Rep(trie1, prev, [], db, true) && Canonical(prev) && NoCollisions(db.hash, items)
    requires IsKey(e.path) && |e.path| > 0 && e.blob.Some? && Get(base, e.path) == e.blob
    requires StoragesOpen(prev, rootOf, dbOf, storage, db.hash, items) && StoragesOpen(base, rootOf, dbOf, storage, db.hash, items)
    ensures Handled(e.path, e.blob.value, prev, ps, ps', rootOf, db.hash, items)
    ensures forall k :: k != e.path ==> SpaceOf(ps', k) == SpaceOf(ps, k)
  {
    var k := e.path;
    TryGetRep(trie1, prev, [], k, db, true);
    var blob1 := TryGet(trie1, [], k, db).value.value;
    var root1, root2 := if blob1.Some? then rootOf(blob1.value) else ZeroHash(), rootOf(e.blob.value);
    ps' := ps;
    if root1 != root2 {
      ghost var st1 := if blob1.Some? then storage(k, root1) else Nil;
      ghost var st2, ws := storage(k, root2), [];
      var p;
      p, ws := ArchiveStorage(root1, root2, dbOf(k), SpaceOf(ps, k), st1, st2, items);
      ps' := ps[k := p];
    }
  }

  /** Leaves that the callback is shown: accounts of base that prev does not have in this form. */
  ghost predicate LeavesToHandle(leaves: seq<Entry>, prev: Tree, base: Tree, hash: Item -> Hash) {
    && (forall i, j :: 0 <= i < j < |leaves| ==> leaves[i].path != leaves[j].path)
    && (forall e :: e in leaves ==> IsKey(e.path) && |e.path| > 0 && e.blob.Some? && Get(base, e.path) == e.blob)
    && (forall k, v :: IsKey(k) && Get(base, k) == Some(v) ==>
          (LeafAt(k, v) in leaves <==> LeafAt(k, v) !in Entries(prev, [], hash, true)))
    && (forall e :: e in leaves ==> e == LeafAt(e.path, e.blob.value))
  }

  /** What the difference iterator shows is what has to be handled. */
  lemma ShownLeaves(leaves: seq<Entry>, prev: Tree, base: Tree, hash: Item -> Hash)
    requires Canonical(base) && Sorted(leaves)
    requires forall e :: e in leaves <==> e in Entries(base, [], hash, true) && e !in Entries(prev, [], hash, true) && HasTerm(e.path)
    ensures LeavesToHandle(leaves, prev, base, hash)
  {
    forall i, j | 0 <= i < j < |leaves| ensures leaves[i].path != leaves[j].path { LessTotal(leaves[i].path, leaves[j].path); }
    forall e | e in leaves
      ensures IsKey(e.path) && |e.path| > 0 && e.blob.Some? && Get(base, e.path) == e.blob && e == LeafAt(e.path, e.blob.value)
    {
      LeafEntries(base, [], hash, true, false, e);
      var k := LeafForm(base, [], hash, true, false, e);
      assert [] + k == k;
    }
    forall k, v | IsKey(k) && Get(base, k) == Some(v)
      ensures LeafAt(k, v) in leaves <==> LeafAt(k, v) !in Entries(prev, [], hash, true)
    {
      LeafEntry(base, [], hash, true, false, k, v);
      assert [] + k == k;
      LeafEntries(base, [], hash, true, false, LeafAt(k, v));
    }
  }

  lemma AllHandled(leaves: seq<Entry>, prev: Tree, base: Tree, ps: Spaces, ps': Spaces, rootOf: Bytes -> Hash, hash: Item -> Hash, items: iset<Item>)
    requires LeavesToHandle(leaves, prev, base, hash)
    requires forall e :: e in leaves ==> Handled(e.path, e.blob.value, prev, ps, ps', rootOf, hash, items)
    requires forall k :: (forall e :: e in leaves ==> e.path != k) ==> SpaceOf(ps', k) == SpaceOf(ps, k)
    ensures HandledAll(prev, base, ps, ps', rootOf, hash, items)
  {
    forall k, v | IsKey(k) && Get(base, k) == Some(v)
      ensures if LeafAt(k, v) in Entries(prev, [], hash, true) then SpaceOf(ps', k) == SpaceOf(ps, k)
              else Handled(k, v, prev, ps, ps', rootOf, hash, items)
    {
      if LeafAt(k, v) in Entries(prev, [], hash, true) {
        forall e | e in leaves ensures e.path != k { assert e == LeafAt(e.path, e.blob.value); }
      } else {
        assert LeafAt(k, v) in leaves;
      }
    }
  }

  /** Handling a leaf depends on its own space alone. */
  lemma HandledAlone(k: Path, v: Bytes, prev: Tree, ps: Spaces, ps1: Spaces, qs: Spaces, qs1: Spaces,
                     rootOf: Bytes -> Hash, hash: Item -> Hash, items: iset<Item>)
    requires Handled(k, v, prev, ps, ps1, rootOf, hash, items) && SpaceOf(qs, k) == SpaceOf(ps, k) && SpaceOf(qs1, k) == SpaceOf(ps1, k)
    ensures Handled(k, v, prev, qs, qs1, rootOf, hash, items)
  {
  }

  method HandleLeaves(leaves: seq<Entry>, trie1: Node, db: Db, ps: Spaces, rootOf: Bytes -> Hash, dbOf: Path -> Db,
                      ghost prev: Tree, ghost base: Tree, ghost storage: (Path, Hash) -> Tree, ghost items: iset<Item>)
    returns (ps': Spaces)
    requires Rep(trie1, prev, [], db, true) && Canonical(prev) && NoCollisions(db.hash, items)
    requires LeavesToHandle(leaves, prev, base, db.hash)
    requires StoragesOpen(prev, rootOf, dbOf, storage, db.hash, items) && StoragesOpen(base, rootOf, dbOf, storage, db.hash, items)
    ensures HandledAll(prev, base, ps, ps', rootOf, db.hash, items)
  {
    ps' := ps;
    var i := 0;
    while i < |leaves|
      invariant 0 <= i <= |leaves|
      invariant forall j :: 0 <= j < i ==> Handled(leaves[j].path, leaves[j].blob.value, prev, ps, ps', rootOf, db.hash, items)
      invariant forall k :: (forall j :: 0 <= j < i ==> leaves[j].path != k) ==> SpaceOf(ps', k) == SpaceOf(ps, k)
    {
      ghost var ps1 := ps';
      assert leaves[i] in leaves;
      ps' := HandleLeaf(leaves[i], trie1, db, ps', rootOf, dbOf, prev, base, storage, items);
      HandledAlone(leaves[i].path, leaves[i].blob.value, prev, ps1, ps', ps, ps', rootOf, db.hash, items);
      forall j | 0 <= j < i ensures Handled(leaves[j].path, leaves[j].blob.value, prev, ps, ps', rootOf, db.hash, items) {
        HandledAlone(leaves[j].path, leaves[j].blob.value, prev, ps, ps1, ps, ps', rootOf, db.hash, items);
      }
      i := i + 1;
    }
    AllHandled(leaves, prev, base, ps, ps', rootOf, db.hash, items);
  }

  /**
    archiveAccountTrie: if the accounts of a state and all their storage tries are in
    permanent space, then those of the other state are too afterwards. The callbacks
    write to the spaces of storage tries only, so they may as well run after the loop.
   */
  method ArchiveAccountTrie(it: DifferenceIterator, p: NodeMap, ps: Spaces, rootOf: Bytes -> Hash, dbOf: Path -> Db,
                            ghost storage: (Path, Hash) -> Tree)
    returns (p': NodeMap, ps': Spaces)
    requires it.Valid() && it.b.pos == -1 && NoCollisions(it.a.db.hash, it.items)
    requires StoragesOpen(it.a.tree, rootOf, dbOf, storage, it.a.db.hash, it.items)
    requires StoragesOpen(it.b.tree, rootOf, dbOf, storage, it.a.db.hash, it.items)
    modifies it, it.a, it.b
    ensures var hash := it.a.db.hash;
            && (GoodSpace(p, hash, it.items) && AllIn(it.a.tree, p, hash) ==> AllIn(it.b.tree, p', hash))
            && HandledAll(it.a.tree, it.b.tree, ps, ps', rootOf, hash, it.items)
            && (GoodSpaces(ps, hash, it.items) && StoragesIn(it.a.tree, ps, rootOf, hash, it.items) ==>
                  StoragesIn(it.b.tree, ps', rootOf, hash, it.items))
  {
    ghost var prev, base, hash, items := it.a.tree, it.b.tree, it.a.db.hash, it.items;
    assert it.a in {it.a, it.b};
    assert it.a.Valid();
    var nodes, entries, leaves;
    ghost var ws;
    p', nodes, entries, leaves, ws := ArchiveNodes(it, p);
    ShownLeaves(leaves, prev, base, hash);
    ps' := HandleLeaves(leaves, it.a.root, it.a.db, ps, rootOf, dbOf, prev, base, storage, items);
    if GoodSpace(p, hash, items) && AllIn(prev, p, hash) { AccountsIn(prev, base, p, ws, hash, items); }
    if GoodSpaces(ps, hash, items) && StoragesIn(prev, ps, rootOf, hash, items) {
      StoragesArchived(prev, base, ps, ps', rootOf, hash, items);
    }
  }

  lemma AccountsIn(prev: Tree, base: Tree, p: NodeMap, ws: seq<Write>, hash: Item -> Hash, items: iset<Item>)
    requires GoodSpace(p, hash, items) && AllIn(prev, p, hash) && DiffWrites(ws, prev, base, hash) && Within(base, hash, items)
    ensures AllIn(base, PutNodes(p, ws), hash)
  {
    var s := Store(p, map[], map[], true);
    ArchiveOk(s, prev, base, ws, hash, items);
    assert InP(base, s.(p := PutNodes(p, ws)), hash);
  }
}
