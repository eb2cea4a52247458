/**
  What a finished synchronisation is good for: the trie under the requested root
  is stored down to its last node, and so can be opened and read.
 */
module SyncReload {
  import opened Hex
  import opened Rlp
  import opened PatriciaTree
  import opened TrieNode
  import opened Proof
  import opened Commit
  import opened TrieOps
  import opened Sync
  import opened SyncProofs
  import opened SyncPlan
  import opened Roots

  // ----- a node needs its standalone children -----

  lemma {:induction false} NonNilHas(cs: seq<Node>, i: nat)
    requires i < |cs| && !cs[i].NilNode?
    ensures cs[i] in NonNil(cs)
    decreases i
  {
    if i > 0 { NonNilHas(cs[1..], i - 1); }
  }

  lemma {:induction false} KidsNeedsHas(kids: seq<Node>, h: Hash, callback: Option<nat>, env: Env)
    requires HashNode(h) in kids
    ensures Need(h, AsNode(callback)) in KidsNeeds(kids, callback, env)
  {
    if kids[0] != HashNode(h) { KidsNeedsHas(kids[1..], h, callback, env); }
  }

  lemma {:induction false} DecodeRefsAt(xs: seq<Item>, i: nat)
    requires DecodeRefs(xs).Some? && i < |xs|
    ensures DecodeRef(xs[i]) == Some(DecodeRefs(xs).value[i])
    decreases i
  {
    if i > 0 { DecodeRefsAt(xs[1..], i - 1); }
  }

  predicate ChildOf(c: Tree, t: Tree) {
    (t.Ext? && c == t.child) || (t.Branch? && c in t.children)
  }

  /** The node decoded from the encoding of t has a hash child for each child of t stored apart. */
  lemma {:induction false} DecodedKid(t: Tree, c: Tree, n: Node, h: Hash, hash: Item -> Hash)
    requires Inner(t) && ChildOf(c, t) && Standalone(c, hash)
    requires Decode(Some(h), Encode(t, hash)) == Some(n)
    requires t.Ext? ==> n.ShortNode? && HexOfCompact(EncodedKey(t.key)) == t.key && !HasTerm(t.key)
    requires t.Branch? ==> |t.children| == 17 && !Inner(t.children[16])
    ensures HashNode(hash(Encode(c, hash))) in Kids(n)
  {
    var x := Encode(t, hash);
    var kid := HashNode(hash(Encode(c, hash)));
    assert DecodeRef(Reference(c, hash)) == Some(kid);
    if t.Branch? {
      var i :| 0 <= i < |t.children| && t.children[i] == c;
      assert x.items[..16][i] == Reference(c, hash);
      DecodeRefsAt(x.items[..16], i);
      NonNilHas(n.children, i);
    }
  }

  lemma {:induction false} Decodes(t: Tree, hash: Item -> Hash, items: iset<Item>)
    requires WellFormed(t, false) && Inner(t) && Injective(hash, items) && Within(t, hash, items)
    ensures Decode(Some(hash(Encode(t, hash))), Encode(t, hash)).Some?
  {
    StoredIdeally(t, [], hash, items);
    DecodeEncode(Some(hash(Encode(t, hash))), t, [], IdealDb(hash, items), true);
  }

  /** A scanned node requests each child that is stored apart from it. */
  lemma {:induction false} ChildNeeded(t: Tree, c: Tree, hash: Item -> Hash, items: iset<Item>, callback: Option<nat>, env: Env)
    requires WellFormed(t, false) && Inner(t) && ChildOf(c, t) && Standalone(c, hash)
    requires Injective(hash, items) && Within(t, hash, items)
    ensures var x := Encode(t, hash);
            Need(hash(Encode(c, hash)), AsNode(callback)) in Needs(hash(x), Blob(x, AsNode(callback)), env)
  {
    var x := Encode(t, hash);
    Decodes(t, hash, items);
    var n := Decode(Some(hash(x)), x).value;
    if t.Ext? { CompactRoundTrip(t.key); }
    DecodedKid(t, c, n, hash(x), hash);
    KidsNeedsHas(Kids(n), hash(Encode(c, hash)), callback, env);
  }

  // ----- a closed database holds whole tries -----

  function Data(db: Blobs): map<Hash, Item> {
    map h | h in db :: db[h].data
  }

  /** A tree with all its nodes among the items. */
  ghost predicate Among(t: Tree, hash: Item -> Hash, items: iset<Item>) {
    Inner(t) && WellFormed(t, false) && Within(t, hash, items)
  }

  ghost predicate AskedAsNode(h: Hash, plan: iset<Need>) {
    exists callback :: Need(h, AsNode(callback)) in plan
  }

  /** No node with a child stored apart from it is asked for both as a trie node and as a raw entry. */
  ghost predicate Apart(plan: iset<Need>, hash: Item -> Hash, items: iset<Item>) {
    forall t, c :: Among(t, hash, items) && ChildOf(c, t) && Standalone(c, hash) ==>
      !(AskedAsNode(RootHash(t, hash), plan) && Need(RootHash(t, hash), Raw) in plan)
  }

  ghost predicate Sound(db: Blobs, plan: iset<Need>, hash: Item -> Hash, items: iset<Item>, env: Env) {
    && Filed(db, plan, hash, items) && Injective(hash, items) && Closed(db, env)
    && Comprehends(plan, hash, items, env) && CallbacksSucceed(plan, hash, items, env) && Apart(plan, hash, items)
  }

  ghost predicate Fetched(t: Tree, db: Blobs, plan: iset<Need>, hash: Item -> Hash) {
    Inner(t) && hash(Encode(t, hash)) in db && AskedAsNode(hash(Encode(t, hash)), plan)
  }

  /** A child stored apart was fetched, if its parent was wherever the parent is stored apart. */
  lemma {:induction false} ChildFetched(t: Tree, c: Tree, root: bool, db: Blobs, plan: iset<Need>, hash: Item -> Hash, items: iset<Item>, env: Env)
    requires Sound(db, plan, hash, items, env) && WellFormed(t, false) && Within(t, hash, items)
    requires (root || Standalone(t, hash) ==> Fetched(t, db, plan, hash)) && ChildOf(c, t)
    ensures Standalone(c, hash) ==> Fetched(c, db, plan, hash)
  {
    if Standalone(t, hash) || root {
      var h := hash(Encode(t, hash));
      assert Fits(h, db[h].kind, Some(db[h].data), plan, hash, items);
      assert db[h].data == Encode(t, hash);
      if Standalone(c, hash) { KidFetched(t, c, db[h].kind, db, plan, hash, items, env); }
    } else {
      EmbeddedChild(t, c, hash);
    }
  }

  lemma {:induction false} KidFetched(t: Tree, c: Tree, kind: Kind, db: Blobs, plan: iset<Need>, hash: Item -> Hash, items: iset<Item>, env: Env)
    requires Sound(db, plan, hash, items, env) && Among(t, hash, items) && ChildOf(c, t) && Standalone(c, hash)
    requires Fetched(t, db, plan, hash) && db[hash(Encode(t, hash))] == Blob(Encode(t, hash), kind)
    requires Need(hash(Encode(t, hash)), kind) in plan
    ensures Fetched(c, db, plan, hash)
  {
    assert kind.AsNode?;
    ChildNeeded(t, c, hash, items, kind.callback, env);
    var h, d := hash(Encode(t, hash)), Need(hash(Encode(c, hash)), AsNode(kind.callback));
    assert Wants(h, db[h], env) == Needs(h, db[h], env) by { assert Need(h, kind) in plan; }
    assert d in Wants(h, db[h], env);
    assert Planned(Needs(h, Blob(Encode(t, hash), kind), env), plan) by { assert Need(h, kind) in plan; }
  }

  /** Nothing below an embedded node is stored on its own. */
  lemma {:induction false} EmbeddedChild(t: Tree, c: Tree, hash: Item -> Hash)
    requires Inner(t) && !Standalone(t, hash) && ChildOf(c, t)
    ensures !Standalone(c, hash)
  {
    var x := Encode(t, hash);
    var i :| 0 <= i < |x.items| && x.items[i] == Reference(c, hash) by {
      if t.Ext? {
        assert x.items[1] == Reference(c, hash);
      } else {
        var j :| 0 <= j < |t.children| && t.children[j] == c;
        assert x.items[j] == Reference(c, hash);
      }
    }
    ShortListHoldsNoHash(x.items, i);
  }

  lemma {:induction false} FetchedStored(t: Tree, path: Path, root: bool, db: Blobs,
                                         plan: iset<Need>, hash: Item -> Hash, items: iset<Item>, env: Env)
    requires Sound(db, plan, hash, items, env) && Within(t, hash, items) && (Inner(t) ==> WellFormed(t, false))
    requires root || Standalone(t, hash) ==> Fetched(t, db, plan, hash)
    ensures Stored(t, path, PlainDb(Data(db), hash))
    ensures root ==> Held(t, path, PlainDb(Data(db), hash))
    decreases t
  {
    if Fetched(t, db, plan, hash) {
      var h := hash(Encode(t, hash));
      assert Fits(h, db[h].kind, Some(db[h].data), plan, hash, items);
      assert db[h].data == Encode(t, hash);
    }
    if t.Ext? {
      ChildFetched(t, t.child, root, db, plan, hash, items, env);
      FetchedStored(t.child, path + t.key, false, db, plan, hash, items, env);
    } else if t.Branch? {
      forall i: Byte | i as int < |t.children| ensures Stored(t.children[i], path + [i], PlainDb(Data(db), hash)) {
        ChildFetched(t, t.children[i], root, db, plan, hash, items, env);
        FetchedStored(t.children[i], path + [i], false, db, plan, hash, items, env);
      }
    }
  }

  // ----- finished synchronisations -----

  /** A run from a closed database whose requests were planned and whose results are what was asked for. */
  ghost predicate Proper(db: Blobs, steps: seq<Step>, plan: iset<Need>, hash: Item -> Hash, items: iset<Item>, env: Env) {
    Closed(db, env) && Filed(db, plan, hash, items) && AllHonest(steps, plan, hash, items, env)
  }

  predicate Finished(r: Run) {
    r.state.requests == map[] && r.state.batch == map[]
  }

  /** What is known of hashes, items and callbacks before a synchronisation. */
  ghost predicate Setting(plan: iset<Need>, hash: Item -> Hash, items: iset<Item>, env: Env) {
    && Injective(hash, items) && Str([]) in items && env.emptyRoot == hash(Str([]))
    && Comprehends(plan, hash, items, env) && CallbacksSucceed(plan, hash, items, env)
  }

  /** If the root of t is requested and the run gets to its end, all of t is in the database. */
  ghost predicate Fulfils(db: Blobs, steps: seq<Step>, d: Dep, t: Tree, plan: iset<Need>, hash: Item -> Hash, items: iset<Item>, env: Env) {
    var r := TakeAll(Fresh(db), steps, env);
    Proper(db, steps, plan, hash, items, env) && Among(t, hash, items) &&
    d.SubTrie? && d.hash == RootHash(t, hash) && Add(d) in steps && Finished(r) ==>
      Stored(t, [], PlainDb(Data(r.state.db), hash)) && Held(t, [], PlainDb(Data(r.state.db), hash))
  }

  lemma {:induction false} TakeAllConcat(r: Run, xs: seq<Step>, ys: seq<Step>, env: Env)
    ensures TakeAll(r, xs + ys, env) == TakeAll(TakeAll(r, xs, env), ys, env)
    decreases |xs|
  {
    if xs == [] {
      assert xs + ys == ys;
    } else {
      assert (xs + ys)[1..] == xs[1..] + ys;
      TakeAllConcat(Take(r, xs[0], env), xs[1..], ys, env);
    }
  }

  lemma RequestedIsStored(db: Blobs, steps: seq<Step>, d: Dep, env: Env)
    requires Closed(db, env) && Add(d) in steps && d.hash != EmptyHash(d, env) && Finished(TakeAll(Fresh(db), steps, env))
    ensures d.hash in TakeAll(Fresh(db), steps, env).state.db
  {
    var i :| 0 <= i < |steps| && steps[i] == Add(d);
    var before, after := steps[..i], steps[i + 1..];
    assert steps == before + ([Add(d)] + after) && ([Add(d)] + after)[1..] == after;
    TakeAllConcat(Fresh(db), before, [Add(d)] + after, env);
    SyncDelivers(db, before, d, after, env);
  }

  lemma {:induction false} FulfilsAll(db: Blobs, steps: seq<Step>, d: Dep, t: Tree, plan: iset<Need>, hash: Item -> Hash, items: iset<Item>, env: Env)
    requires Setting(plan, hash, items, env) && Apart(plan, hash, items)
    ensures Fulfils(db, steps, d, t, plan, hash, items, env)
  {
    var r := TakeAll(Fresh(db), steps, env);
    if Proper(db, steps, plan, hash, items, env) && Among(t, hash, items) &&
       d.SubTrie? && d.hash == RootHash(t, hash) && Add(d) in steps && Finished(r) {
      FreshInv(db, env);
      RunOnPlan(Fresh(db), steps, plan, hash, items, env);
      assert d.hash != env.emptyRoot by { assert Encode(t, hash) in items && Encode(t, hash) != Str([]); }
      RequestedIsStored(db, steps, d, env);
      assert Honest(Add(d), plan, hash, items, env);
      assert Need(d.hash, AsNode(d.callback)) in plan;
      FetchedStored(t, [], true, r.state.db, plan, hash, items, env);
    }
  }

  /**
    Every finished synchronisation leaves every requested trie complete, exactly if
    no node with children stored apart is asked for both as a node and as a raw entry.
   */
  lemma CompleteIff(plan: iset<Need>, hash: Item -> Hash, items: iset<Item>, env: Env)
    requires Setting(plan, hash, items, env)
    ensures (forall db, steps, d, t :: Fulfils(db, steps, d, t, plan, hash, items, env)) <==> Apart(plan, hash, items)
  {
    if Apart(plan, hash, items) {
      forall db, steps, d, t ensures Fulfils(db, steps, d, t, plan, hash, items, env) {
        FulfilsAll(db, steps, d, t, plan, hash, items, env);
      }
    } else {
      var t, c :| Among(t, hash, items) && ChildOf(c, t) && Standalone(c, hash) &&
                  AskedAsNode(RootHash(t, hash), plan) && Need(RootHash(t, hash), Raw) in plan;
      var callback :| Need(RootHash(t, hash), AsNode(callback)) in plan;
      ClashFails(t, c, callback, plan, hash, items, env);
    }
  }

  /** The failing run: the root is fetched as a raw entry first. */
  lemma {:induction false} ClashFails(t: Tree, c: Tree, callback: Option<nat>, plan: iset<Need>, hash: Item -> Hash, items: iset<Item>, env: Env)
    requires Setting(plan, hash, items, env) && Among(t, hash, items) && ChildOf(c, t) && Standalone(c, hash)
    requires Need(RootHash(t, hash), AsNode(callback)) in plan && Need(RootHash(t, hash), Raw) in plan
    ensures var h := RootHash(t, hash);
            !Fulfils(map[], RawFirst(h, Encode(t, hash), callback), SubTrie(h, 0, callback), t, plan, hash, items, env)
  {
    var h, x := RootHash(t, hash), Encode(t, hash);
    var steps := RawFirst(h, x, callback);
    ChildNeeded(t, c, hash, items, callback, env);
    ChildHash(t, c, hash, items);
    RawHidesSubtrie(h, x, hash(Encode(c, hash)), callback, env);
    RawFirstHonest(h, x, callback, plan, hash, items, env);
    ChildMissing(t, c, TakeAll(Fresh(map[]), steps, env).state.db, hash);
  }

  lemma RawFirstHonest(h: Hash, x: Item, callback: Option<nat>, plan: iset<Need>, hash: Item -> Hash, items: iset<Item>, env: Env)
    requires Need(h, AsNode(callback)) in plan && Need(h, Raw) in plan && x in items && hash(x) == h
    ensures Proper(map[], RawFirst(h, x, callback), plan, hash, items, env) && Add(SubTrie(h, 0, callback)) in RawFirst(h, x, callback)
  {
    assert RawFirst(h, x, callback)[2] == Add(SubTrie(h, 0, callback));
  }

  lemma InnerNotAtEnd(t: Tree, end: bool)
    requires Inner(t) && WellFormed(t, end)
    ensures !end
  {
  }

  lemma {:induction false} ChildAmong(t: Tree, c: Tree, hash: Item -> Hash, items: iset<Item>)
    requires Among(t, hash, items) && ChildOf(c, t) && Inner(c)
    ensures Among(c, hash, items)
  {
    if t.Branch? {
      var i :| 0 <= i < |t.children| && t.children[i] == c;
      assert Within(t.children[i as Byte], hash, items);
      InnerNotAtEnd(c, i == 16);
    } else {
      InnerNotAtEnd(c, t.key[|t.key| - 1] == TERM);
    }
  }

  lemma {:induction false} ChildHash(t: Tree, c: Tree, hash: Item -> Hash, items: iset<Item>)
    requires Among(t, hash, items) && ChildOf(c, t) && Standalone(c, hash) && Injective(hash, items) && Str([]) in items
    ensures hash(Encode(c, hash)) != RootHash(t, hash)
  {
    assert c != t;
    ChildAmong(t, c, hash, items);
    RootDeterminesTrie(c, t, hash, items);
  }

  lemma {:induction false} ChildMissing(t: Tree, c: Tree, db: Blobs, hash: Item -> Hash)
    requires ChildOf(c, t) && Standalone(c, hash) && hash(Encode(c, hash)) !in db && (t.Branch? ==> |t.children| <= 17)
    ensures !Stored(t, [], PlainDb(Data(db), hash))
  {
    var plain := PlainDb(Data(db), hash);
    assert forall path :: !Held(c, path, plain);
    if t.Branch? {
      var i :| 0 <= i < |t.children| && t.children[i] == c;
      assert !Stored(t.children[i as Byte], [] + [i as Byte], plain);
    }
  }

  /**
    Once nothing is pending and the batch is written, a requested trie opens from
    the database and answers every key.
   */
  lemma SyncedTrieReads(
    db: Blobs, steps: seq<Step>, d: Dep, t: Tree, plan: iset<Need>, hash: Item -> Hash, items: iset<Item>, env: Env, key: Bytes)
    requires Setting(plan, hash, items, env) && Apart(plan, hash, items) && Proper(db, steps, plan, hash, items, env)
    requires Among(t, hash, items) && d.SubTrie? && d.hash == RootHash(t, hash) != ZeroHash() && Add(d) in steps
    requires Finished(TakeAll(Fresh(db), steps, env))
    ensures var plain := PlainDb(Data(TakeAll(Fresh(db), steps, env).state.db), hash);
            var n := Open(d.hash, plain);
            n.Ok? && TryGet(n.value, [], HexOf(key), plain).Ok? &&
            TryGet(n.value, [], HexOf(key), plain).value.value == Get(t, HexOf(key))
  {
    var plain := PlainDb(Data(TakeAll(Fresh(db), steps, env).state.db), hash);
    FulfilsAll(db, steps, d, t, plan, hash, items, env);
    assert Stored(t, [], plain) && Held(t, [], plain);
    ReadStored(t, plain, key);
  }

  lemma ReadStored(t: Tree, db: Db, key: Bytes)
    requires Canonical(t) && Inner(t) && Stored(t, [], db) && Held(t, [], db) && RootHash(t, db.hash) != ZeroHash()
    requires RootHash(t, db.hash) != db.hash(Str([]))
    ensures var n := Open(RootHash(t, db.hash), db);
            n.Ok? && TryGet(n.value, [], HexOf(key), db).Ok? &&
            TryGet(n.value, [], HexOf(key), db).value.value == Get(t, HexOf(key))
  {
    OpenStored(t, db);
    TryGetRep(Open(RootHash(t, db.hash), db).value, t, [], HexOf(key), db, true);
  }

  function RawFirst(h: Hash, x: Item, callback: Option<nat>): seq<Step> {
    [Add(RawEntry(h, 0)), Result(h, x), Add(SubTrie(h, 0, callback)), Write(1)]
  }

  /**
    Why that matters: a trie root that was first fetched as a raw entry is taken for
    a complete subtrie, though nothing below it was ever requested.
   */
  lemma RawHidesSubtrie(h: Hash, x: Item, c: Hash, callback: Option<nat>, env: Env)
    requires h != env.emptyState && h != c
    requires exists d :: d in Needs(h, Blob(x, AsNode(callback)), env) && d.hash == c
    ensures var r := TakeAll(Fresh(map[]), RawFirst(h, x, callback), env);
            r.state.requests == map[] && r.state.batch == map[] && h in r.state.db && c !in r.state.db
  {
    var s1 := AddRoot(Fresh(map[]).state, RawEntry(h, 0), env);
    assert s1.requests == map[h := Request(Raw, None, [], 0, 0)];
    var s2 := WithData(s1, h, x);
    assert s2.requests - {h} == map[];
    var s3 := CommitRequest(s2, h);
    assert s3 == Notify(Finish(s2, h), []) == Finish(s2, h);
    assert [] + [h] == [h];
    assert s3 == State(map[], map[h := Blob(x, Raw)], [h], map[]);
    assert Deliver(s1, h, x, env) == (s3, Delivered(true));
    assert AddRoot(s3, SubTrie(h, 0, callback), env) == s3;
    assert s3.order[..1] == [h];
    assert Written(map[], s3.batch, [h]) == map[h := Blob(x, Raw)];
    var r0 := Fresh(map[]);
    var r1, r3 := Run(s1, {}), Run(s3, {});
    var r4 := Run(State(map[h := Blob(x, Raw)], map[], [], map[]), {});
    assert Take(r3, Write(1), env) == r4;
    var steps := RawFirst(h, x, callback);
    assert TakeAll(r3, steps[2..], env) == TakeAll(r3, steps[2..][1..], env) == TakeAll(r4, steps[2..][1..][1..], env) == r4;
    assert TakeAll(r0, steps, env) == TakeAll(r1, steps[1..], env) == TakeAll(r3, steps[1..][1..], env);
    assert steps[1..][1..] == steps[2..];
  }
}
