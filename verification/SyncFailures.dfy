/**
  What a failing leaf callback does to a synchronisation (trie/sync.go:285-291):
  exactly when the node it failed on is stored before the nodes it refers to.
 */
module SyncFailures {
  import opened Hex
  import opened Rlp
  import opened TrieNode
  import opened Sync
  import opened SyncProofs
  import opened SyncPlan

  // ----- what is stored had asked for something, or for all it needs -----

  /** No callback failed on the blob, or something was registered before. */
  predicate Hooked(h: Hash, blob: Blob, env: Env) {
    blob.kind.AsNode? && Decode(Some(h), blob.data).Some? ==>
      var kids := Kids(Decode(Some(h), blob.data).value);
      LeavesSucceed(kids, blob.kind.callback, env) || Registered(kids, blob.kind.callback, env) != []
  }

  predicate HookedRequest(m: Requests, p: Hash, env: Env) {
    p in m && m[p].data.Some? ==> Hooked(p, Blob(m[p].data.value, m[p].kind), env)
  }

  ghost predicate AllHooked(m: Requests, ps: seq<Hash>, env: Env) {
    forall p :: p in ps ==> HookedRequest(m, p, env)
  }

  ghost predicate ParentsHooked(m: Requests, env: Env) {
    forall h :: h in m ==> AllHooked(m, m[h].parents, env)
  }

  ghost predicate BlobsHooked(db: Blobs, env: Env) {
    forall h :: h in db ==> Hooked(h, db[h], env)
  }

  ghost predicate Earned(s: State, env: Env) {
    BlobsHooked(s.db, env) && BlobsHooked(s.batch, env) && ParentsHooked(s.requests, env)
  }

  /** The parents after scanning for p are the old ones and p. */
  ghost predicate OnlyParent(s: State, s': State, p: Hash) {
    forall h, q :: h in s'.requests && q in s'.requests[h].parents ==> q == p || (h in s.requests && q in s.requests[h].parents)
  }

  /** Requests grew, and only hooked parents were added. */
  lemma GrewEarned(s: State, s': State, p: Hash, env: Env)
    requires Earned(s, env) && Grew(s, s') && HookedRequest(s.requests, p, env) && p in s.requests
    requires OnlyParent(s, s', p)
    ensures Earned(s', env)
  {
    forall h | h in s'.requests ensures AllHooked(s'.requests, s'.requests[h].parents, env) {
      forall q | q in s'.requests[h].parents ensures HookedRequest(s'.requests, q, env) {
        if q != p { assert AllHooked(s.requests, s.requests[h].parents, env); }
        assert HookedRequest(s.requests, q, env);
        if q in s.requests { assert Kept(s.requests[q], s'.requests[q]); }
      }
    }
  }

  lemma {:induction false} AddDepsParent(s: State, ds: seq<Dep>, p: Hash, env: Env)
    requires p in s.requests
    ensures OnlyParent(s, AddDeps(s, ds, p, env), p)
    decreases |ds|
  {
    if ds != [] {
      AddDepsParent(AddDep(s, ds[0], p, env), ds[1..], p, env);
      assert OnlyParent(s, AddDep(s, ds[0], p, env), p);
    }
  }

  lemma {:induction false} ScanParent(s: State, kids: seq<Node>, p: Hash, callback: Option<nat>, env: Env)
    requires p in s.requests
    ensures OnlyParent(s, ScanKids(s, kids, p, callback, env).state, p)
    decreases |kids|
  {
    if kids != [] {
      var first := VisitKid(s, kids[0], p, callback, env);
      if kids[0].ValueNode? && callback.Some? { AddDepsParent(s, env.onLeaf(callback.value, kids[0].value).deps, p, env); }
      assert OnlyParent(s, first.state, p);
      if first.ok { ScanParent(first.state, kids[1..], p, callback, env); }
    }
  }

  lemma {:induction false} ScheduleAllParent(s: State, hs: seq<Hash>, p: Hash, depth: nat, callback: Option<nat>)
    requires p in s.requests
    ensures OnlyParent(s, ScheduleAll(s, hs, p, depth, callback), p)
    decreases |hs|
  {
    if hs != [] {
      var s1 := Schedule(s, hs[0], Request(AsNode(callback), None, [p], depth, 0));
      assert OnlyParent(s, s1, p);
      ScheduleAllParent(s1, hs[1..], p, depth, callback);
    }
  }

  /** If nothing is registered, a scan changes nothing. */
  lemma {:induction false} AddNothing(s: State, ds: seq<Dep>, p: Hash, env: Env)
    requires p in s.requests && DepNeeds(ds, env) == []
    ensures AddDeps(s, ds, p, env) == s
    decreases |ds|
  {
    if ds != [] { AddNothing(s, ds[1..], p, env); }
  }

  lemma {:induction false} ScanNothing(s: State, kids: seq<Node>, p: Hash, callback: Option<nat>, env: Env)
    requires p in s.requests && Registered(kids, callback, env) == []
    ensures ScanKids(s, kids, p, callback, env).state == s
    decreases |kids|
  {
    if kids != [] {
      if kids[0].ValueNode? && callback.Some? { AddNothing(s, env.onLeaf(callback.value, kids[0].value).deps, p, env); }
      if LeafSucceeds(kids[0], callback, env) { ScanNothing(s, kids[1..], p, callback, env); }
    }
  }

  lemma FewerHooked(m: Requests, m': Requests, env: Env)
    requires Fewer(m, m')
    ensures forall ps :: AllHooked(m, ps, env) ==> AllHooked(m', ps, env)
    ensures ParentsHooked(m, env) ==> ParentsHooked(m', env)
  {
    forall ps | AllHooked(m, ps, env) ensures AllHooked(m', ps, env) {
      forall p | p in ps ensures HookedRequest(m', p, env) { assert HookedRequest(m, p, env); }
    }
    if ParentsHooked(m, env) {
      forall h | h in m' ensures AllHooked(m', m'[h].parents, env) { assert AllHooked(m, m[h].parents, env); }
    }
  }

  lemma {:induction false} CommitEarned(s: State, h: Hash, env: Env)
    requires Earned(s, env) && ParentsHaveData(s.requests) && h in s.requests && s.requests[h].data.Some?
    requires HookedRequest(s.requests, h, env)
    ensures Earned(CommitRequest(s, h), env) && Fewer(s.requests, CommitRequest(s, h).requests)
    decreases |s.requests|, 0
  {
    var s' := Finish(s, h);
    assert Fewer(s.requests, s'.requests);
    FewerHooked(s.requests, s'.requests, env);
    FewerHaveData(s.requests, s'.requests);
    assert AllHooked(s.requests, s.requests[h].parents, env) && HaveData(s.requests, s.requests[h].parents);
    NotifyEarned(s', s.requests[h].parents, env);
  }

  lemma {:induction false} NotifyEarned(s: State, parents: seq<Hash>, env: Env)
    requires Earned(s, env) && ParentsHaveData(s.requests) && HaveData(s.requests, parents) && AllHooked(s.requests, parents, env)
    ensures Earned(Notify(s, parents), env) && Fewer(s.requests, Notify(s, parents).requests)
    decreases |s.requests|, 1, |parents|
  {
    if parents != [] {
      var p := parents[0];
      assert p in parents;
      if p !in s.requests {
        NotifyEarned(s, parents[1..], env);
      } else {
        var s1 := AddToDeps(s, p, -1);
        SameSize(s.requests, p, s1.requests[p]);
        assert Fewer(s.requests, s1.requests);
        FewerHooked(s.requests, s1.requests, env);
        FewerHaveData(s.requests, s1.requests);
        if s1.requests[p].deps == 0 {
          assert AllHooked(s1.requests, parents, env) && HaveData(s1.requests, parents);
          CommitEarned(s1, p, env);
          var s2 := CommitRequest(s1, p);
          FewerHooked(s1.requests, s2.requests, env);
          FewerHaveData(s1.requests, s2.requests);
          assert AllHooked(s2.requests, parents, env) && HaveData(s2.requests, parents);
          NotifyEarned(s2, parents[1..], env);
        } else {
          assert AllHooked(s1.requests, parents, env) && HaveData(s1.requests, parents);
          NotifyEarned(s1, parents[1..], env);
        }
      }
    }
  }

  lemma WithDataEarned(s: State, h: Hash, x: Item, env: Env)
    requires Earned(s, env) && Linked(s) && h in s.requests && s.requests[h].data.None?
    ensures Earned(WithData(s, h, x), env)
  {
    var s' := WithData(s, h, x);
    forall g | g in s'.requests ensures AllHooked(s'.requests, s'.requests[g].parents, env) {
      assert AllWaiting(s, s.requests[g].parents) && AllHooked(s.requests, s.requests[g].parents, env);
      forall p | p in s'.requests[g].parents ensures HookedRequest(s'.requests, p, env) {
        assert Waiting(s, p) && HookedRequest(s.requests, p, env);
      }
    }
  }

  lemma DeliverEarned(s: State, h: Hash, x: Item, idle: set<Hash>, env: Env)
    requires Good(s, multiset{}, {}, idle, env) && Earned(s, env)
    ensures Earned(Deliver(s, h, x, env).0, env)
  {
    if h in s.requests && s.requests[h].data.None? {
      var s1 := WithData(s, h, x);
      WithDataEarned(s, h, x, env);
      WithDataGood(s, h, x, idle, env);
      LinkedHasData(s1);
      if s.requests[h].kind.Raw? {
        CommitEarned(s1, h, env);
      } else if Decode(Some(h), x).Some? {
        ExpandEarned(s1, h, x, idle, env);
      }
    }
  }

  lemma ExpandEarned(s: State, h: Hash, x: Item, idle: set<Hash>, env: Env)
    requires Good(s, multiset{}, {h}, idle, env) && Earned(s, env) && Waiting(s, h)
    requires s.requests[h].data == Some(x) && Decode(Some(h), x).Some?
    ensures Earned(Expand(s, h, Decode(Some(h), x).value, env).0, env)
  {
    var n, callback := Decode(Some(h), x).value, s.requests[h].kind.callback;
    ScanOk(s, Kids(n), h, callback, env);
    if HookedRequest(s.requests, h, env) {
      var scan := ScanGood(s, h, x, n, idle, env);
      ScanCounted(s, Kids(n), h, callback, env);
      ScanParent(s, Kids(n), h, callback, env);
      GrewEarned(s, scan.state, h, env);
      assert HookedRequest(scan.state.requests, h, env);
      if scan.ok {
        if scan.missing == [] && scan.state.requests[h].deps == 0 {
          LinkedHasData(scan.state);
          CommitEarned(scan.state, h, env);
        } else {
          AwaitEarned(scan.state, scan.missing, h, KidDepth(n, s.requests[h].depth), callback, env);
        }
      }
    } else {
      ScanNothing(s, Kids(n), h, callback, env);
    }
  }

  lemma AwaitGrew(s: State, missing: seq<Hash>, h: Hash, depth: nat, callback: Option<nat>)
    requires Counted(s, multiset{}) && Waiting(s, h) && forall m :: m in missing ==> m !in s.batch
    ensures var s' := ScheduleAll(AddToDeps(s, h, |missing|), missing, h, depth, callback); Grew(s, s') && OnlyParent(s, s', h)
  {
    var s1 := AddToDeps(s, h, |missing|);
    AddToDepsCounted(s, h, |missing|, multiset{});
    ScheduleAllCounted(s1, missing, h, depth, callback);
    ScheduleAllParent(s1, missing, h, depth, callback);
    GrewTransitive(s, s1, ScheduleAll(s1, missing, h, depth, callback));
  }

  lemma AwaitEarned(s: State, missing: seq<Hash>, h: Hash, depth: nat, callback: Option<nat>, env: Env)
    requires Earned(s, env) && Counted(s, multiset{}) && Waiting(s, h) && HookedRequest(s.requests, h, env)
    requires forall m :: m in missing ==> m !in s.batch
    ensures Earned(ScheduleAll(AddToDeps(s, h, |missing|), missing, h, depth, callback), env)
  {
    AwaitGrew(s, missing, h, depth, callback);
    GrewEarned(s, ScheduleAll(AddToDeps(s, h, |missing|), missing, h, depth, callback), h, env);
  }

  lemma StepEarned(r: Run, step: Step, env: Env)
    requires Inv(r.state, r.idle, env) && Earned(r.state, env)
    ensures Earned(Take(r, step, env).state, env)
  {
    match step
    case Add(d) =>
      var s' := AddRoot(r.state, d, env);
      forall h | h in s'.requests ensures AllHooked(s'.requests, s'.requests[h].parents, env) {
        if h in r.state.requests {
          assert AllHooked(r.state.requests, r.state.requests[h].parents, env) && AllWaiting(r.state, r.state.requests[h].parents);
          forall p | p in s'.requests[h].parents ensures HookedRequest(s'.requests, p, env) { assert HookedRequest(r.state.requests, p, env); }
        }
      }
    case Result(h, x) => DeliverEarned(r.state, h, x, r.idle, env);
    case Write(n) => FlushEarned(r.state, if n <= |r.state.order| then n else |r.state.order|, env);
  }

  lemma FlushEarned(s: State, n: nat, env: Env)
    requires Earned(s, env) && n <= |s.order| && forall h :: h in s.order ==> h in s.batch
    ensures Earned(Flush(s, n), env)
  {
    var db := Written(s.db, s.batch, s.order[..n]);
    forall h | h in db ensures Hooked(h, db[h], env) { WrittenAt(s.db, s.batch, s.order[..n], h); }
  }

  lemma {:induction false} RunEarned(r: Run, steps: seq<Step>, env: Env)
    requires Inv(r.state, r.idle, env) && Earned(r.state, env)
    ensures var r' := TakeAll(r, steps, env); Inv(r'.state, r'.idle, env) && Earned(r'.state, env)
    decreases |steps|
  {
    if steps != [] {
      StepInv(r, steps[0], env);
      StepEarned(r, steps[0], env);
      RunEarned(Take(r, steps[0], env), steps[1..], env);
    }
  }

  // ----- a run that stores such a node early -----

  function HashesOf(ns: seq<Need>): set<Hash> {
    set n | n in ns :: n.hash
  }

  lemma {:induction false} AddDepsKeys(s: State, ds: seq<Dep>, p: Hash, env: Env)
    requires p in s.requests
    ensures AddDeps(s, ds, p, env).requests.Keys <= s.requests.Keys + HashesOf(DepNeeds(ds, env))
    decreases |ds|
  {
    if ds != [] {
      AddDepsKeys(AddDep(s, ds[0], p, env), ds[1..], p, env);
      assert HashesOf(DepNeeds(ds[1..], env)) <= HashesOf(DepNeeds(ds, env));
      if !Skips(s, ds[0], env) {
        assert Need(ds[0].hash, KindOf(ds[0])) in DepNeeds(ds, env);
        assert ds[0].hash in HashesOf(DepNeeds(ds, env));
      }
    }
  }

  /** A scan adds requests for what is registered, and for nothing else. */
  lemma {:induction false} ScanKeys(s: State, kids: seq<Node>, p: Hash, callback: Option<nat>, env: Env)
    requires p in s.requests
    ensures ScanKids(s, kids, p, callback, env).state.requests.Keys <= s.requests.Keys + HashesOf(Registered(kids, callback, env))
    decreases |kids|
  {
    if kids != [] {
      var first := VisitKid(s, kids[0], p, callback, env);
      var asked, more := Asked(kids[0], callback, env), Registered(kids[1..], callback, env);
      if kids[0].ValueNode? && callback.Some? { AddDepsKeys(s, env.onLeaf(callback.value, kids[0].value).deps, p, env); }
      assert HashesOf(asked) <= HashesOf(Registered(kids, callback, env));
      if first.ok {
        ScanKeys(first.state, kids[1..], p, callback, env);
        assert HashesOf(more) <= HashesOf(Registered(kids, callback, env));
      }
    }
  }

  lemma {:induction false} RegisteredNeeded(kids: seq<Node>, callback: Option<nat>, env: Env)
    ensures forall d :: d in Registered(kids, callback, env) ==> d in KidsNeeds(kids, callback, env)
  {
    if kids != [] { RegisteredNeeded(kids[1..], callback, env); }
  }

  /** A node with nothing below it: delivering it finishes any request. */
  function Barren(): Item {
    List([Str([0]), Str([])])
  }

  lemma BarrenDecodes(h: Hash)
    ensures Decode(Some(h), Barren()).Some? && Kids(Decode(Some(h), Barren()).value) == [NilNode]
  {
  }

  /** The node h with data x waits for hashes among `asked` alone, all of them still without data. */
  ghost predicate Awaits(s: State, h: Hash, blob: Blob, asked: set<Hash>, env: Env) {
    && Inv(s, {}, env) && s.db == map[] && h !in asked && blob.kind.AsNode?
    && (forall g :: g in s.requests ==> g == h || (g in asked && s.requests[g].data.None?))
    && (forall g :: g in s.batch ==> g == h || g in asked)
    && (h in s.requests ==> s.requests[h].parents == [] && s.requests[h].kind == blob.kind && s.requests[h].data == Some(blob.data))
    && (h in s.batch ==> s.batch[h] == blob)
    && (h in s.requests || h in s.batch)
  }

  lemma {:induction false} CommitFiles(s: State, e: Hash, env: Env)
    requires ParentsHaveData(s.requests) && e in s.requests && s.requests[e].data.Some?
    ensures Fewer(s.requests, CommitRequest(s, e).requests) && e !in CommitRequest(s, e).requests
    ensures FiledFrom(s, CommitRequest(s, e))
    decreases |s.requests|, 0
  {
    var s' := Finish(s, e);
    assert Fewer(s.requests, s'.requests) && FiledFrom(s, s');
    FewerHaveData(s.requests, s'.requests);
    assert HaveData(s.requests, s.requests[e].parents);
    NotifyFiles(s', s.requests[e].parents, env);
    FiledOn(s, s', CommitRequest(s, e));
  }

  /** New batch entries are requests that were pending, with their data. */
  ghost predicate FiledFrom(s: State, s': State) {
    && (forall g :: g in s.batch && g !in s.requests ==> g in s'.batch && s'.batch[g] == s.batch[g])
    && (forall g :: g in s'.batch ==>
          || (g in s.batch && s'.batch[g] == s.batch[g])
          || (g in s.requests && s.requests[g].data.Some? && s'.batch[g] == Blob(s.requests[g].data.value, s.requests[g].kind)))
  }

  lemma FiledOn(s: State, s1: State, s2: State)
    requires FiledFrom(s, s1) && FiledFrom(s1, s2) && Fewer(s.requests, s1.requests)
    ensures FiledFrom(s, s2)
  {
  }

  lemma {:induction false} NotifyFiles(s: State, parents: seq<Hash>, env: Env)
    requires ParentsHaveData(s.requests) && HaveData(s.requests, parents)
    ensures Fewer(s.requests, Notify(s, parents).requests) && FiledFrom(s, Notify(s, parents))
    decreases |s.requests|, 1, |parents|
  {
    if parents != [] {
      var p := parents[0];
      assert p in parents;
      if p !in s.requests {
        NotifyFiles(s, parents[1..], env);
      } else {
        var s1 := AddToDeps(s, p, -1);
        SameSize(s.requests, p, s1.requests[p]);
        assert Fewer(s.requests, s1.requests) && FiledFrom(s, s1);
        FewerHaveData(s.requests, s1.requests);
        assert HaveData(s1.requests, parents);
        if s1.requests[p].deps == 0 {
          CommitFiles(s1, p, env);
          var s2 := CommitRequest(s1, p);
          FewerHaveData(s1.requests, s2.requests);
          assert HaveData(s2.requests, parents);
          NotifyFiles(s2, parents[1..], env);
          FiledOn(s, s1, s2);
          FiledOn(s, s2, Notify(s2, parents[1..]));
        } else {
          NotifyFiles(s1, parents[1..], env);
          FiledOn(s, s1, Notify(s1, parents[1..]));
        }
      }
    }
  }

  /** Any data finishes a raw entry, and a barren node any request. */
  predicate Suffices(s: State, e: Hash, y: Item) {
    e in s.requests ==> s.requests[e].kind.Raw? || y == Barren()
  }

  lemma DeliverSufficient(s: State, e: Hash, y: Item, env: Env)
    requires Inv(s, {}, env) && e in s.requests && s.requests[e].data.None? && Suffices(s, e, y)
    ensures Deliver(s, e, y, env) == (CommitRequest(WithData(s, e, y), e), Delivered(true))
  {
    BarrenDecodes(e);
    RawAwaitsNothing(s, e);
    if s.requests[e].kind.AsNode? {
      var s1, callback := WithData(s, e, Barren()), s.requests[e].kind.callback;
      assert [NilNode][1..] == [];
      assert ScanKids(s1, [NilNode], e, callback, env) == Scan(s1, [] + [], true);
    }
  }

  lemma AwaitsNext(s: State, h: Hash, blob: Blob, asked: set<Hash>, e: Hash, y: Item, env: Env)
    requires Awaits(s, h, blob, asked, env) && e in asked && Suffices(s, e, y)
    ensures var r := Take(Run(s, {}), Result(e, y), env);
            && r.idle == {} && Awaits(r.state, h, blob, asked, env)
            && Fewer(s.requests, r.state.requests) && e !in r.state.requests
  {
    StepInv(Run(s, {}), Result(e, y), env);
    if e in s.requests {
      var s1 := WithData(s, e, y);
      var s2 := CommitRequest(s1, e);
      DeliverSufficient(s, e, y, env);
      WithDataGood(s, e, y, {}, env);
      LinkedHasData(s1);
      CommitFiles(s1, e, env);
      assert s2.db == s.db by { DeliverGood(s, e, y, {}, env); }
      AwaitsAfter(s, s1, s2, h, blob, asked, e, y, env);
    }
  }

  lemma AwaitsAfter(s: State, s1: State, s2: State, h: Hash, blob: Blob, asked: set<Hash>, e: Hash, y: Item, env: Env)
    requires Awaits(s, h, blob, asked, env) && e in asked && e in s.requests && s1 == WithData(s, e, y)
    requires Inv(s2, {}, env) && s2.db == s.db && Tracks(s, s2)
    requires Fewer(s1.requests, s2.requests) && e !in s2.requests && FiledFrom(s1, s2)
    ensures Awaits(s2, h, blob, asked, env) && Fewer(s.requests, s2.requests)
  {
    assert h in s.requests || Known(s, h);
    assert h in s2.requests || Known(s2, h);
  }

  function Deliveries(asked: seq<Need>): seq<Step> {
    if asked == [] then [] else [Result(asked[0].hash, Barren())] + Deliveries(asked[1..])
  }

  /** After all deliveries nothing that was asked for is pending. */
  lemma {:induction false} AwaitsAll(s: State, h: Hash, blob: Blob, asked: set<Hash>, left: seq<Need>, env: Env)
    requires Awaits(s, h, blob, asked, env) && HashesOf(left) <= asked
    ensures var r := TakeAll(Run(s, {}), Deliveries(left), env);
            && r.idle == {} && Awaits(r.state, h, blob, asked, env)
            && Fewer(s.requests, r.state.requests) && forall d :: d in left ==> d.hash !in r.state.requests
    decreases |left|
  {
    if left != [] {
      assert left[0] in left && left[0].hash in HashesOf(left) && HashesOf(left[1..]) <= HashesOf(left);
      AwaitsNext(s, h, blob, asked, left[0].hash, Barren(), env);
      var r1 := Take(Run(s, {}), Result(left[0].hash, Barren()), env);
      assert Deliveries(left)[1..] == Deliveries(left[1..]);
      AwaitsAll(r1.state, h, blob, asked, left[1..], env);
    }
  }

  /** With nothing else pending, the node itself has been filed. */
  lemma AloneIsFiled(s: State, h: Hash, blob: Blob, asked: set<Hash>, env: Env)
    requires Awaits(s, h, blob, asked, env) && forall g :: g in s.requests ==> g == h
    ensures h !in s.requests && h in s.batch
  {
    if h in s.requests {
      SumsAll(s.requests, multiset{});
      assert Edges(s.requests)[h] > 0;
      var g := EdgeFrom(s.requests, h);
      assert false;
    }
  }

  // ----- exactly when -----

  /** The node is in the database, and something it refers to is not. */
  ghost predicate StoredEarly(steps: seq<Step>, n: nat, h: Hash, blob: Blob, env: Env) {
    var s := TakeAll(Fresh(map[]), steps, env).state;
    n <= |s.order| &&
    var db := Flush(s, n).db;
    h in db && db[h] == blob && exists d :: d in Needs(h, blob, env) && d.hash !in db
  }

  /** A callback fails after something was registered, and the node refers to more than that. */
  ghost predicate Misleads(kids: seq<Node>, callback: Option<nat>, env: Env) {
    var asked := Registered(kids, callback, env);
    && !LeavesSucceed(kids, callback, env) && asked != []
    && exists d :: d in KidsNeeds(kids, callback, env) && d.hash !in HashesOf(asked)
  }

  /** The first request of a fresh synchroniser. */
  function Requested(h: Hash, callback: Option<nat>): State {
    State(map[], map[], [], map[h := Request(AsNode(callback), None, [], 0, 0)])
  }

  lemma RequestedInv(h: Hash, callback: Option<nat>, env: Env)
    requires h != env.emptyRoot
    ensures Take(Fresh(map[]), Add(SubTrie(h, 0, callback)), env) == Run(Requested(h, callback), {})
    ensures Inv(Requested(h, callback), {}, env)
  {
    FreshInv(map[], env);
    StepInv(Fresh(map[]), Add(SubTrie(h, 0, callback)), env);
  }

  /** The scan that fails leaves the node waiting for what was registered. */
  lemma FailedAwaits(h: Hash, x: Item, kids: seq<Node>, callback: Option<nat>, env: Env)
    requires h != env.emptyRoot && Decode(Some(h), x).Some? && kids == Kids(Decode(Some(h), x).value)
    requires !LeavesSucceed(kids, callback, env) && Registered(kids, callback, env) != []
    requires h !in HashesOf(Registered(kids, callback, env))
    ensures var r := Take(Run(Requested(h, callback), {}), Result(h, x), env);
            r.idle == {} && Awaits(r.state, h, Blob(x, AsNode(callback)), HashesOf(Registered(kids, callback, env)), env)
  {
    var s, asked := Requested(h, callback), Registered(kids, callback, env);
    var s1 := WithData(s, h, x);
    RequestedInv(h, callback, env);
    StepInv(Run(s, {}), Result(h, x), env);
    WithDataGood(s, h, x, {}, env);
    ScanOk(s1, kids, h, callback, env);
    var s2 := ScanKids(s1, kids, h, callback, env).state;
    assert Deliver(s, h, x, env) == (s2, LeafError);
    FailedScan(s1, kids, h, callback, env);
    ScanKeepsRoot(s1, kids, h, callback, env);
  }

  /** Such a scan adds requests for what was registered, and at least one. */
  lemma FailedScan(s: State, kids: seq<Node>, h: Hash, callback: Option<nat>, env: Env)
    requires Counted(s, multiset{}) && Waiting(s, h) && s.db == map[] && s.batch == map[] && s.requests.Keys == {h}
    requires Registered(kids, callback, env) != []
    ensures var s' := ScanKids(s, kids, h, callback, env).state;
            && s'.db == map[] && s'.batch == map[] && s'.requests[h].deps > 0
            && s'.requests[h].kind == s.requests[h].kind && s'.requests[h].data == s.requests[h].data
            && forall g :: g in s'.requests && g != h ==> g in HashesOf(Registered(kids, callback, env)) && s'.requests[g].data.None?
  {
    var s', asked := ScanKids(s, kids, h, callback, env).state, Registered(kids, callback, env);
    ScanCounted(s, kids, h, callback, env);
    ScanKeys(s, kids, h, callback, env);
    assert Kept(s.requests[h], s'.requests[h]);
    assert asked[0] in asked && Accounted(s', h, asked[0].hash);
    SumsAll(s'.requests, multiset{});
    EdgesHas(s'.requests, asked[0].hash, h);
  }

  /** What is registered for h is not h itself, so nothing waits for h. */
  lemma {:induction false} ScanKeepsRoot(s: State, kids: seq<Node>, h: Hash, callback: Option<nat>, env: Env)
    requires h in s.requests && s.requests[h].parents == [] && h !in HashesOf(Registered(kids, callback, env))
    ensures ScanKids(s, kids, h, callback, env).state.requests[h].parents == []
    decreases |kids|
  {
    if kids != [] {
      var first := VisitKid(s, kids[0], h, callback, env);
      var asked, more := Asked(kids[0], callback, env), Registered(kids[1..], callback, env);
      assert HashesOf(asked) <= HashesOf(Registered(kids, callback, env));
      if kids[0].ValueNode? && callback.Some? { AddDepsKeepsRoot(s, env.onLeaf(callback.value, kids[0].value).deps, h, env); }
      if first.ok {
        assert HashesOf(more) <= HashesOf(Registered(kids, callback, env));
        ScanKeepsRoot(first.state, kids[1..], h, callback, env);
      }
    }
  }

  lemma {:induction false} AddDepsKeepsRoot(s: State, ds: seq<Dep>, h: Hash, env: Env)
    requires h in s.requests && s.requests[h].parents == [] && h !in HashesOf(DepNeeds(ds, env))
    ensures AddDeps(s, ds, h, env).requests[h].parents == []
    decreases |ds|
  {
    if ds != [] {
      assert HashesOf(DepNeeds(ds[1..], env)) <= HashesOf(DepNeeds(ds, env));
      if !Skips(s, ds[0], env) {
        assert Need(ds[0].hash, KindOf(ds[0])) in DepNeeds(ds, env);
        assert ds[0].hash in HashesOf(DepNeeds(ds, env));
      }
      AddDepsKeepsRoot(AddDep(s, ds[0], h, env), ds[1..], h, env);
    }
  }

  /** Fetch the node, then all that was registered, and write. */
  function Misled(h: Hash, x: Item, asked: seq<Need>, callback: Option<nat>): seq<Step> {
    [Add(SubTrie(h, 0, callback)), Result(h, x)] + Deliveries(asked)
  }

  lemma MisledStores(h: Hash, x: Item, kids: seq<Node>, callback: Option<nat>, env: Env)
    requires h != env.emptyRoot && Decode(Some(h), x).Some? && kids == Kids(Decode(Some(h), x).value)
    requires Misleads(kids, callback, env) && h !in HashesOf(KidsNeeds(kids, callback, env))
    ensures exists steps, n: nat :: StoredEarly(steps, n, h, Blob(x, AsNode(callback)), env)
  {
    var asked, blob := Registered(kids, callback, env), Blob(x, AsNode(callback));
    RegisteredNeeded(kids, callback, env);
    assert HashesOf(asked) <= HashesOf(KidsNeeds(kids, callback, env));
    RequestedInv(h, callback, env);
    FailedAwaits(h, x, kids, callback, env);
    var r2 := Take(Run(Requested(h, callback), {}), Result(h, x), env);
    AwaitsAll(r2.state, h, blob, HashesOf(asked), asked, env);
    var r3 := TakeAll(r2, Deliveries(asked), env);
    MisledRun(h, x, asked, callback, env);
    assert forall g :: g in HashesOf(asked) ==> g !in r3.state.requests;
    AloneIsFiled(r3.state, h, blob, HashesOf(asked), env);
    var d :| d in KidsNeeds(kids, callback, env) && d.hash !in HashesOf(asked);
    assert d.hash in HashesOf(KidsNeeds(kids, callback, env)) && d.hash !in r3.state.batch;
    WrittenOut(r3.state, h, d.hash);
    assert StoredEarly(Misled(h, x, asked, callback), |r3.state.order|, h, blob, env);
  }

  lemma MisledRun(h: Hash, x: Item, asked: seq<Need>, callback: Option<nat>, env: Env)
    requires h != env.emptyRoot
    ensures TakeAll(Fresh(map[]), Misled(h, x, asked, callback), env) ==
            TakeAll(Take(Run(Requested(h, callback), {}), Result(h, x), env), Deliveries(asked), env)
  {
    RequestedInv(h, callback, env);
    var steps := Misled(h, x, asked, callback);
    assert steps[1..] == [Result(h, x)] + Deliveries(asked) && steps[1..][1..] == Deliveries(asked);
  }

  lemma WrittenOut(s: State, h: Hash, g: Hash)
    requires s.db == map[] && (forall x :: x in s.batch <==> x in s.order) && h in s.batch && g !in s.batch
    ensures var db := Flush(s, |s.order|).db; h in db && db[h] == s.batch[h] && g !in db
  {
    assert s.order[..|s.order|] == s.order;
    WrittenAt(s.db, s.batch, s.order, h);
    WrittenAt(s.db, s.batch, s.order, g);
  }

  /**
    Some run stores the node before something it refers to, exactly if one of its
    leaf callbacks fails after something was registered, and that was not all.
   */
  lemma StoredEarlyIff(h: Hash, x: Item, kids: seq<Node>, callback: Option<nat>, env: Env)
    requires h != env.emptyRoot && Decode(Some(h), x).Some? && kids == Kids(Decode(Some(h), x).value)
    requires h !in HashesOf(KidsNeeds(kids, callback, env))
    ensures (exists steps, n: nat :: StoredEarly(steps, n, h, Blob(x, AsNode(callback)), env)) <==> Misleads(kids, callback, env)
  {
    var blob := Blob(x, AsNode(callback));
    if Misleads(kids, callback, env) { MisledStores(h, x, kids, callback, env); }
    if steps, n: nat :| StoredEarly(steps, n, h, blob, env) {
      var s := TakeAll(Fresh(map[]), steps, env).state;
      FreshInv(map[], env);
      RunEarned(Fresh(map[]), steps, env);
      SyncKeepsClosed(map[], steps, n, env);
      FlushEarned(s, n, env);
      var db := Flush(s, n).db;
      var d :| d in Needs(h, blob, env) && d.hash !in db;
      assert forall w :: w in Wants(h, blob, env) ==> w.hash in db;
      assert Hooked(h, db[h], env);
    }
  }

  /** A branch with a child and a value, whose callback asks for one entry and then fails. */
  ghost predicate Truncated(kids: seq<Node>, c: Hash, value: Bytes, callback: nat, e: Hash, env: Env) {
    && kids == [HashNode(c), ValueNode(value)] && e != env.emptyState && c != e
    && env.onLeaf(callback, value) == Answer([RawEntry(e, 0)], false)
  }

  lemma TruncatedNeeds(kids: seq<Node>, c: Hash, value: Bytes, callback: nat, e: Hash, env: Env)
    requires Truncated(kids, c, value, callback, e, env)
    ensures KidsNeeds(kids, Some(callback), env) == [Need(c, AsNode(Some(callback))), Need(e, Raw)]
    ensures Registered(kids, Some(callback), env) == [Need(e, Raw)] && !LeavesSucceed(kids, Some(callback), env)
  {
    var k := Some(callback);
    assert kids[1..] == [ValueNode(value)] && kids[1..][1..] == [];
    assert [RawEntry(e, 0)][1..] == [];
    assert DepNeeds([RawEntry(e, 0)], env) == [Need(e, Raw)];
    assert KidsNeeds(kids[1..], k, env) == [Need(e, Raw)];
    assert Registered(kids[1..], k, env) == [Need(e, Raw)];
    assert !LeafSucceeds(kids[1], k, env);
  }

  /**
    Such a branch is stored without its child once the entry is delivered, even if
    all that is delivered has the hash that was asked for.
   */
  lemma BranchStoredEarly(h: Hash, x: Item, e: Hash, y: Item, c: Hash, value: Bytes, callback: nat, hash: Item -> Hash, env: Env)
    requires Decode(Some(h), x).Some? && Truncated(Kids(Decode(Some(h), x).value), c, value, callback, e, env)
    requires hash(x) == h && hash(y) == e && h != env.emptyRoot && h != c && h != e
    ensures exists n: nat ::
              StoredEarly([Add(SubTrie(h, 0, Some(callback))), Result(h, x), Result(e, y)], n, h, Blob(x, AsNode(Some(callback))), env)
  {
    var k := Some(callback);
    var blob, steps := Blob(x, AsNode(k)), [Add(SubTrie(h, 0, k)), Result(h, x), Result(e, y)];
    var s := BranchFiled(h, x, e, y, c, value, callback, hash, env);
    ThreeSteps(Fresh(map[]), steps, env);
    assert TakeAll(Fresh(map[]), steps, env).state == s;
    WrittenOut(s, h, c);
    TruncatedNeeds(Kids(Decode(Some(h), x).value), c, value, callback, e, env);
    assert Needs(h, blob, env)[0].hash == c;
    assert StoredEarly(steps, |s.order|, h, blob, env);
  }

  /** After the three steps the branch is in the batch, and its child is not. */
  lemma BranchFiled(h: Hash, x: Item, e: Hash, y: Item, c: Hash, value: Bytes, callback: nat, hash: Item -> Hash, env: Env) returns (s: State)
    requires Decode(Some(h), x).Some? && Truncated(Kids(Decode(Some(h), x).value), c, value, callback, e, env)
    requires hash(x) == h && hash(y) == e && h != env.emptyRoot && h != c && h != e
    ensures var k := Some(callback);
            && s == Take(Take(Take(Fresh(map[]), Add(SubTrie(h, 0, k)), env), Result(h, x), env), Result(e, y), env).state
            && s.db == map[] && (forall g :: g in s.batch <==> g in s.order)
            && h in s.batch && s.batch[h] == Blob(x, AsNode(k)) && c !in s.batch
  {
    var k := Some(callback);
    RequestedInv(h, k, env);
    var r2 := Take(Run(Requested(h, k), {}), Result(h, x), env);
    BranchAwaits(h, x, e, c, value, callback, env);
    EntryIsRaw(h, x, e, y, c, value, callback, hash, env);
    LastOne(r2.state, h, Blob(x, AsNode(k)), e, y, env);
    s := Take(r2, Result(e, y), env).state;
  }

  lemma BranchAwaits(h: Hash, x: Item, e: Hash, c: Hash, value: Bytes, callback: nat, env: Env)
    requires Decode(Some(h), x).Some? && Truncated(Kids(Decode(Some(h), x).value), c, value, callback, e, env)
    requires h != env.emptyRoot && h != e
    ensures var r := Take(Run(Requested(h, Some(callback)), {}), Result(h, x), env);
            r.idle == {} && Awaits(r.state, h, Blob(x, AsNode(Some(callback))), {e}, env)
  {
    var kids := Kids(Decode(Some(h), x).value);
    TruncatedNeeds(kids, c, value, callback, e, env);
    assert HashesOf(Registered(kids, Some(callback), env)) == {e};
    FailedAwaits(h, x, kids, Some(callback), env);
  }

  /** Delivering the only entry that is awaited files the node. */
  lemma LastOne(s: State, h: Hash, blob: Blob, e: Hash, y: Item, env: Env)
    requires Awaits(s, h, blob, {e}, env) && Suffices(s, e, y)
    ensures var s' := Take(Run(s, {}), Result(e, y), env).state;
            && s'.db == map[] && (forall g :: g in s'.batch <==> g in s'.order) && (forall g :: g in s'.batch ==> g == h || g == e)
            && h in s'.batch && s'.batch[h] == blob
  {
    AwaitsNext(s, h, blob, {e}, e, y, env);
    AloneIsFiled(Take(Run(s, {}), Result(e, y), env).state, h, blob, {e}, env);
  }

  lemma ThreeSteps(r: Run, steps: seq<Step>, env: Env)
    requires |steps| == 3
    ensures TakeAll(r, steps, env) == Take(Take(Take(r, steps[0], env), steps[1], env), steps[2], env)
  {
    var r1 := Take(r, steps[0], env);
    var r2 := Take(r1, steps[1], env);
    var r3 := Take(r2, steps[2], env);
    assert steps[1..][1..] == steps[2..] && steps[2..][1..] == [];
    assert TakeAll(r2, steps[2..], env) == TakeAll(r3, steps[2..][1..], env) == r3;
    assert TakeAll(r1, steps[1..], env) == TakeAll(r2, steps[1..][1..], env);
  }

  /** The entry is pending as a raw one, since nothing else was planned. */
  lemma EntryIsRaw(h: Hash, x: Item, e: Hash, y: Item, c: Hash, value: Bytes, callback: nat, hash: Item -> Hash, env: Env)
    requires Decode(Some(h), x).Some? && Truncated(Kids(Decode(Some(h), x).value), c, value, callback, e, env)
    requires hash(x) == h && hash(y) == e && h != env.emptyRoot && h != c && h != e
    ensures Suffices(Take(Run(Requested(h, Some(callback)), {}), Result(h, x), env).state, e, y)
  {
    var k := Some(callback);
    var plan, items := BranchPlan(h, c, e, callback), iset{x, y};
    BranchPlanned(h, x, e, y, c, value, callback, hash, env);
    ScannedToPlan(h, x, k, plan, hash, items, env);
    var s := Take(Run(Requested(h, k), {}), Result(h, x), env).state;
    if e in s.requests { assert Fits(e, s.requests[e].kind, s.requests[e].data, plan, hash, items); }
  }

  lemma ScannedToPlan(h: Hash, x: Item, callback: Option<nat>, plan: iset<Need>, hash: Item -> Hash, items: iset<Item>, env: Env)
    requires Comprehends(plan, hash, items, env) && Need(h, AsNode(callback)) in plan && x in items && hash(x) == h && h != env.emptyRoot
    ensures OnPlan(Take(Run(Requested(h, callback), {}), Result(h, x), env).state, plan, hash, items)
  {
    RequestedInv(h, callback, env);
    assert OnPlan(Requested(h, callback), plan, hash, items);
    StepOnPlan(Run(Requested(h, callback), {}), Result(h, x), plan, hash, items, env);
  }

  ghost function BranchPlan(h: Hash, c: Hash, e: Hash, callback: nat): iset<Need> {
    iset{Need(h, AsNode(Some(callback))), Need(c, AsNode(Some(callback))), Need(e, Raw)}
  }

  lemma BranchPlanned(h: Hash, x: Item, e: Hash, y: Item, c: Hash, value: Bytes, callback: nat, hash: Item -> Hash, env: Env)
    requires Decode(Some(h), x).Some? && Truncated(Kids(Decode(Some(h), x).value), c, value, callback, e, env)
    requires hash(x) == h && hash(y) == e && h != c && h != e
    ensures Comprehends(BranchPlan(h, c, e, callback), hash, iset{x, y}, env)
  {
    var plan := BranchPlan(h, c, e, callback);
    TruncatedNeeds(Kids(Decode(Some(h), x).value), c, value, callback, e, env);
    var branch := Needs(h, Blob(x, AsNode(Some(callback))), env);
    assert Planned(branch, plan);
    forall n, z | n in plan && z in iset{x, y} && hash(z) == n.hash ensures Planned(Needs(n.hash, Blob(z, n.kind), env), plan) {
      if n.hash == h { assert z == x && n == Need(h, AsNode(Some(callback))); } else { assert n == Need(e, Raw); }
    }
  }
}
