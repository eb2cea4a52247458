/**
  A subtrie counts as present only when its root decodes (trie/sync.go:98-131): a
  requested root that is stored but unreadable is fetched again.
 */
module SyncRepair {
  import opened Hex
  import opened Rlp
  import opened TrieNode
  import opened Sync
  import opened SyncProofs
  import opened SyncPlan
  import opened SyncReload

  predicate Readable(h: Hash, x: Item) {
    Decode(Some(h), x).Some?
  }

  /** h is asked for as a trie node only, and downloaded data for it decode. */
  ghost predicate AsTrie(s: State, h: Hash) {
    && (h in s.requests ==> s.requests[h].kind.AsNode? && (s.requests[h].data.Some? ==> Readable(h, s.requests[h].data.value)))
    && (h in s.batch ==> Readable(h, s.batch[h].data))
  }

  /** h is pending, or filed, or stored and readable. */
  predicate Cared(s: State, h: Hash) {
    h in s.requests || h in s.batch || (h in s.db && Readable(h, s.db[h].data))
  }

  predicate NotRaw(d: Dep, h: Hash) {
    d.RawEntry? ==> d.hash != h
  }

  ghost predicate NoneRaw(ds: seq<Dep>, h: Hash) {
    forall d :: d in ds ==> NotRaw(d, h)
  }

  /** No leaf callback asks for h as a raw entry. */
  ghost predicate NeverRaw(env: Env, h: Hash) {
    forall callback, leaf :: NoneRaw(env.onLeaf(callback, leaf).deps, h)
  }

  ghost predicate Keeps(s: State, s': State, h: Hash) {
    AsTrie(s', h) && (Cared(s, h) ==> Cared(s', h))
  }

  // ----- scheduling -----

  lemma {:induction false} AddDepKeeps(s: State, d: Dep, p: Hash, h: Hash, env: Env)
    requires AsTrie(s, h) && p in s.requests && NotRaw(d, h)
    ensures Keeps(s, AddDep(s, d, p, env), h)
  {
  }

  lemma {:induction false} AddDepsKeeps(s: State, ds: seq<Dep>, p: Hash, h: Hash, env: Env)
    requires AsTrie(s, h) && p in s.requests && NoneRaw(ds, h)
    ensures Keeps(s, AddDeps(s, ds, p, env), h)
    decreases |ds|
  {
    if ds != [] {
      assert ds[0] in ds;
      AddDepKeeps(s, ds[0], p, h, env);
      AddDepsKeeps(AddDep(s, ds[0], p, env), ds[1..], p, h, env);
    }
  }

  lemma {:induction false} ScanKeeps(s: State, kids: seq<Node>, p: Hash, callback: Option<nat>, h: Hash, env: Env)
    requires AsTrie(s, h) && p in s.requests && NeverRaw(env, h)
    ensures Keeps(s, ScanKids(s, kids, p, callback, env).state, h)
    decreases |kids|
  {
    if kids != [] {
      var first := VisitKid(s, kids[0], p, callback, env);
      if kids[0].ValueNode? && callback.Some? { AddDepsKeeps(s, env.onLeaf(callback.value, kids[0].value).deps, p, h, env); }
      assert Keeps(s, first.state, h);
      if first.ok { ScanKeeps(first.state, kids[1..], p, callback, h, env); }
    }
  }

  lemma {:induction false} ScheduleAllKeeps(s: State, hs: seq<Hash>, p: Hash, depth: nat, callback: Option<nat>, h: Hash)
    requires AsTrie(s, h)
    ensures Keeps(s, ScheduleAll(s, hs, p, depth, callback), h)
    decreases |hs|
  {
    if hs != [] {
      var s1 := Schedule(s, hs[0], Request(AsNode(callback), None, [p], depth, 0));
      assert Keeps(s, s1, h);
      ScheduleAllKeeps(s1, hs[1..], p, depth, callback, h);
    }
  }

  // ----- committing -----

  lemma {:induction false} CommitKeeps(s: State, g: Hash, h: Hash)
    requires AsTrie(s, h) && ParentsHaveData(s.requests) && g in s.requests && s.requests[g].data.Some?
    ensures Keeps(s, CommitRequest(s, g), h) && Fewer(s.requests, CommitRequest(s, g).requests)
    decreases |s.requests|, 0
  {
    var s1 := Finish(s, g);
    assert Keeps(s, s1, h) && Fewer(s.requests, s1.requests);
    FewerHaveData(s.requests, s1.requests);
    assert HaveData(s.requests, s.requests[g].parents);
    NotifyKeeps(s1, s.requests[g].parents, h);
  }

  lemma {:induction false} NotifyKeeps(s: State, parents: seq<Hash>, h: Hash)
    requires AsTrie(s, h) && ParentsHaveData(s.requests) && HaveData(s.requests, parents)
    ensures Keeps(s, Notify(s, parents), h) && Fewer(s.requests, Notify(s, parents).requests)
    decreases |s.requests|, 1, |parents|
  {
    if parents != [] {
      assert parents[0] in parents;
      if parents[0] !in s.requests {
        NotifyKeeps(s, parents[1..], h);
      } else {
        var s1 := AddToDeps(s, parents[0], -1);
        SameSize(s.requests, parents[0], s1.requests[parents[0]]);
        assert Keeps(s, s1, h) && Fewer(s.requests, s1.requests);
        FewerHaveData(s.requests, s1.requests);
        if s1.requests[parents[0]].deps == 0 {
          CommitKeeps(s1, parents[0], h);
          var s2 := CommitRequest(s1, parents[0]);
          FewerHaveData(s1.requests, s2.requests);
          NotifyKeeps(s2, parents[1..], h);
        } else {
          NotifyKeeps(s1, parents[1..], h);
        }
      }
    }
  }

  // ----- steps -----

  lemma {:induction false} DeliverKeeps(s: State, g: Hash, x: Item, idle: set<Hash>, h: Hash, env: Env)
    requires Good(s, multiset{}, {}, idle, env) && AsTrie(s, h) && NeverRaw(env, h)
    ensures Keeps(s, Deliver(s, g, x, env).0, h)
  {
    if g in s.requests && s.requests[g].data.None? {
      var s1 := WithData(s, g, x);
      WithDataGood(s, g, x, idle, env);
      if s.requests[g].kind.Raw? {
        LinkedHasData(s1);
        CommitKeeps(s1, g, h);
      } else if Decode(Some(g), x).Some? {
        assert Keeps(s, s1, h);
        ExpandKeeps(s1, g, x, idle, h, env);
      }
    }
  }

  lemma {:induction false} ExpandKeeps(s: State, g: Hash, x: Item, idle: set<Hash>, h: Hash, env: Env)
    requires Good(s, multiset{}, {g}, idle, env) && AsTrie(s, h) && NeverRaw(env, h)
    requires Waiting(s, g) && s.requests[g].data == Some(x) && Decode(Some(g), x).Some?
    ensures Keeps(s, Expand(s, g, Decode(Some(g), x).value, env).0, h)
  {
    var n, callback := Decode(Some(g), x).value, s.requests[g].kind.callback;
    ScanKeeps(s, Kids(n), g, callback, h, env);
    var scan := ScanGood(s, g, x, n, idle, env);
    if scan.ok {
      if scan.missing == [] && scan.state.requests[g].deps == 0 {
        LinkedHasData(scan.state);
        CommitKeeps(scan.state, g, h);
      } else {
        ScheduleAllKeeps(AddToDeps(scan.state, g, |scan.missing|), scan.missing, g, KidDepth(n, s.requests[g].depth), callback, h);
      }
    }
  }

  lemma {:induction false} FlushKeeps(s: State, n: nat, h: Hash, env: Env)
    requires AsTrie(s, h) && Ordered(s, env) && n <= |s.order|
    ensures Keeps(s, Flush(s, n), h)
  {
    WrittenAt(s.db, s.batch, s.order[..n], h);
    assert s.order[..|s.order|] == s.order;
  }

  lemma {:induction false} StepKeeps(r: Run, step: Step, h: Hash, env: Env)
    requires Inv(r.state, r.idle, env) && AsTrie(r.state, h) && NeverRaw(env, h) && (step.Add? ==> NotRaw(step.dep, h))
    ensures Keeps(r.state, Take(r, step, env).state, h)
  {
    match step
    case Add(d) =>
    case Result(g, x) => DeliverKeeps(r.state, g, x, r.idle, h, env);
    case Write(n) => FlushKeeps(r.state, if n <= |r.state.order| then n else |r.state.order|, h, env);
  }

  ghost predicate NoRawSteps(steps: seq<Step>, h: Hash) {
    forall step :: step in steps && step.Add? ==> NotRaw(step.dep, h)
  }

  lemma {:induction false} RunKeeps(r: Run, steps: seq<Step>, h: Hash, env: Env)
    requires Inv(r.state, r.idle, env) && AsTrie(r.state, h) && NeverRaw(env, h) && NoRawSteps(steps, h)
    ensures var r' := TakeAll(r, steps, env); Inv(r'.state, r'.idle, env) && Keeps(r.state, r'.state, h)
    decreases |steps|
  {
    if steps != [] {
      assert steps[0] in steps;
      StepInv(r, steps[0], env);
      StepKeeps(r, steps[0], h, env);
      RunKeeps(Take(r, steps[0], env), steps[1..], h, env);
    }
  }

  /**
    Whatever the database held before, and whatever was delivered: once nothing is
    pending and the batch is written, the root of a requested trie is stored and
    decodes, as long as it is not asked for as a raw entry too.
   */
  lemma {:induction false} RequestedRootDecodes(db: Blobs, before: seq<Step>, d: Dep, after: seq<Step>, env: Env)
    requires Closed(db, env) && d.SubTrie? && d.hash != env.emptyRoot
    requires NeverRaw(env, d.hash) && NoRawSteps(before, d.hash) && NoRawSteps(after, d.hash)
    ensures var r := TakeAll(Take(TakeAll(Fresh(db), before, env), Add(d), env), after, env);
            Finished(r) ==> d.hash in r.state.db && Readable(d.hash, r.state.db[d.hash].data)
  {
    FreshInv(db, env);
    RunKeeps(Fresh(db), before, d.hash, env);
    var r := TakeAll(Fresh(db), before, env);
    StepInv(r, Add(d), env);
    StepKeeps(r, Add(d), d.hash, env);
    var r1 := Take(r, Add(d), env);
    assert Cared(r1.state, d.hash);
    RunKeeps(r1, after, d.hash, env);
  }
}
