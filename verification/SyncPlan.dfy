/**
  What a synchronisation may ask for, known before it starts (trie/sync.go): the
  hashes it can come across, each with how it is asked for. Whatever the run does,
  it stores blobs under their own hashes, and each as it was asked for.
 */
module SyncPlan {
  import opened Hex
  import opened Rlp
  import opened TrieNode
  import opened Sync
  import opened SyncProofs

  /** A plan has with each hash whatever the item behind it needs, when asked for in that way. */
  ghost predicate Comprehends(plan: iset<Need>, hash: Item -> Hash, items: iset<Item>, env: Env) {
    && Need(env.emptyState, Raw) !in plan
    && forall n, x :: n in plan && x in items && hash(x) == n.hash ==> Planned(Needs(n.hash, Blob(x, n.kind), env), plan)
  }

  ghost predicate Planned(needs: seq<Need>, plan: iset<Need>) {
    forall d :: d in needs ==> d in plan
  }

  /** No leaf callback fails on a leaf that the plan comes across. */
  ghost predicate CallbacksSucceed(plan: iset<Need>, hash: Item -> Hash, items: iset<Item>, env: Env) {
    forall n, x :: n in plan && n.kind.AsNode? && x in items && hash(x) == n.hash && Decode(Some(n.hash), x).Some? ==>
      LeavesSucceed(Kids(Decode(Some(n.hash), x).value), n.kind.callback, env)
  }

  // ----- what the state holds -----

  ghost predicate Fits(h: Hash, kind: Kind, data: Option<Item>, plan: iset<Need>, hash: Item -> Hash, items: iset<Item>) {
    Need(h, kind) in plan && (data.Some? ==> data.value in items && hash(data.value) == h)
  }

  /** Every blob is one of the items, under its own hash, and was asked for as planned. */
  ghost predicate Filed(db: Blobs, plan: iset<Need>, hash: Item -> Hash, items: iset<Item>) {
    forall h :: h in db ==> Fits(h, db[h].kind, Some(db[h].data), plan, hash, items)
  }

  ghost predicate Pending(m: Requests, plan: iset<Need>, hash: Item -> Hash, items: iset<Item>) {
    forall h :: h in m ==> Fits(h, m[h].kind, m[h].data, plan, hash, items)
  }

  ghost predicate OnPlan(s: State, plan: iset<Need>, hash: Item -> Hash, items: iset<Item>) {
    Filed(s.db, plan, hash, items) && Filed(s.batch, plan, hash, items) && Pending(s.requests, plan, hash, items)
  }

  predicate EmptyDep(d: Dep, env: Env) {
    d.hash == EmptyHash(d, env)
  }

  /** Requests are planned, and results are items under their own hashes. */
  ghost predicate Honest(step: Step, plan: iset<Need>, hash: Item -> Hash, items: iset<Item>, env: Env) {
    match step
    case Add(d) => EmptyDep(d, env) || Need(d.hash, KindOf(d)) in plan
    case Result(h, x) => x in items && hash(x) == h
    case Write(_) => true
  }

  ghost predicate AllHonest(steps: seq<Step>, plan: iset<Need>, hash: Item -> Hash, items: iset<Item>, env: Env) {
    forall step :: step in steps ==> Honest(step, plan, hash, items, env)
  }

  // ----- scheduling -----

  lemma ScheduleOnPlan(s: State, h: Hash, r: Request, plan: iset<Need>, hash: Item -> Hash, items: iset<Item>)
    requires OnPlan(s, plan, hash, items) && Need(h, r.kind) in plan && r.data.None?
    ensures OnPlan(Schedule(s, h, r), plan, hash, items)
  {
  }

  lemma AddDepOnPlan(s: State, d: Dep, p: Hash, plan: iset<Need>, hash: Item -> Hash, items: iset<Item>, env: Env)
    requires OnPlan(s, plan, hash, items) && p in s.requests && (EmptyDep(d, env) || Need(d.hash, KindOf(d)) in plan)
    ensures OnPlan(AddDep(s, d, p, env), plan, hash, items)
  {
    if !Skips(s, d, env) {
      ScheduleOnPlan(AddToDeps(s, p, 1), d.hash, Request(KindOf(d), None, [p], d.depth, 0), plan, hash, items);
    }
  }

  lemma {:induction false} AddDepsOnPlan(s: State, ds: seq<Dep>, p: Hash, plan: iset<Need>, hash: Item -> Hash, items: iset<Item>, env: Env)
    requires OnPlan(s, plan, hash, items) && p in s.requests && Planned(DepNeeds(ds, env), plan)
    ensures OnPlan(AddDeps(s, ds, p, env), plan, hash, items)
    decreases |ds|
  {
    if ds != [] {
      assert !EmptyDep(ds[0], env) ==> Need(ds[0].hash, KindOf(ds[0])) in DepNeeds(ds, env);
      assert forall d :: d in DepNeeds(ds[1..], env) ==> d in DepNeeds(ds, env);
      AddDepOnPlan(s, ds[0], p, plan, hash, items, env);
      AddDepsOnPlan(AddDep(s, ds[0], p, env), ds[1..], p, plan, hash, items, env);
    }
  }

  ghost predicate ScannedOnPlan(r: Scan, callback: Option<nat>, plan: iset<Need>, hash: Item -> Hash, items: iset<Item>) {
    OnPlan(r.state, plan, hash, items) && forall h :: h in r.missing ==> Need(h, AsNode(callback)) in plan
  }

  lemma VisitOnPlan(s: State, kid: Node, p: Hash, callback: Option<nat>, plan: iset<Need>, hash: Item -> Hash, items: iset<Item>, env: Env)
    requires OnPlan(s, plan, hash, items) && p in s.requests
    requires Planned(KidNeeds(kid, callback, env), plan)
    ensures ScannedOnPlan(VisitKid(s, kid, p, callback, env), callback, plan, hash, items)
  {
    if kid.ValueNode? && callback.Some? {
      AddDepsOnPlan(s, env.onLeaf(callback.value, kid.value).deps, p, plan, hash, items, env);
    } else if kid.HashNode? {
      assert Need(kid.hash, AsNode(callback)) in KidNeeds(kid, callback, env);
    }
  }

  lemma {:induction false} ScanOnPlan(s: State, kids: seq<Node>, p: Hash, callback: Option<nat>,
                                      plan: iset<Need>, hash: Item -> Hash, items: iset<Item>, env: Env)
    requires OnPlan(s, plan, hash, items) && p in s.requests
    requires Planned(KidsNeeds(kids, callback, env), plan)
    ensures ScannedOnPlan(ScanKids(s, kids, p, callback, env), callback, plan, hash, items)
    decreases |kids|
  {
    if kids != [] {
      assert KidsNeeds(kids, callback, env) == KidNeeds(kids[0], callback, env) + KidsNeeds(kids[1..], callback, env);
      VisitOnPlan(s, kids[0], p, callback, plan, hash, items, env);
      ScanOnPlan(VisitKid(s, kids[0], p, callback, env).state, kids[1..], p, callback, plan, hash, items, env);
    }
  }

  lemma {:induction false} ScheduleAllOnPlan(s: State, hs: seq<Hash>, p: Hash, depth: nat, callback: Option<nat>,
                                             plan: iset<Need>, hash: Item -> Hash, items: iset<Item>)
    requires OnPlan(s, plan, hash, items) && forall h :: h in hs ==> Need(h, AsNode(callback)) in plan
    ensures OnPlan(ScheduleAll(s, hs, p, depth, callback), plan, hash, items)
    decreases |hs|
  {
    if hs != [] {
      var r := Request(AsNode(callback), None, [p], depth, 0);
      ScheduleOnPlan(s, hs[0], r, plan, hash, items);
      ScheduleAllOnPlan(Schedule(s, hs[0], r), hs[1..], p, depth, callback, plan, hash, items);
    }
  }

  // ----- committing -----

  /** Of a request's parents, those still pending have their data. */
  ghost predicate HaveData(m: Requests, ps: seq<Hash>) {
    forall p :: p in ps && p in m ==> m[p].data.Some?
  }

  ghost predicate ParentsHaveData(m: Requests) {
    forall h :: h in m ==> HaveData(m, m[h].parents)
  }

  lemma LinkedHasData(s: State)
    requires Linked(s)
    ensures ParentsHaveData(s.requests)
  {
    forall h | h in s.requests ensures HaveData(s.requests, s.requests[h].parents) {
      assert AllWaiting(s, s.requests[h].parents);
    }
  }

  /** Fewer requests, each with the kind, data and parents it had. */
  ghost predicate Fewer(m: Requests, m': Requests) {
    forall h :: h in m' ==> h in m && m'[h].kind == m[h].kind && m'[h].data == m[h].data && m'[h].parents == m[h].parents
  }

  lemma FewerHaveData(m: Requests, m': Requests)
    requires Fewer(m, m')
    ensures forall ps :: HaveData(m, ps) ==> HaveData(m', ps)
    ensures ParentsHaveData(m) ==> ParentsHaveData(m')
  {
    forall ps | HaveData(m, ps) ensures HaveData(m', ps) {
      forall p | p in ps && p in m' ensures m'[p].data.Some? { assert p in m; }
    }
    if ParentsHaveData(m) {
      forall h | h in m' ensures HaveData(m', m'[h].parents) { assert HaveData(m, m[h].parents); }
    }
  }

  lemma FinishOnPlan(s: State, h: Hash, plan: iset<Need>, hash: Item -> Hash, items: iset<Item>)
    requires OnPlan(s, plan, hash, items) && h in s.requests && s.requests[h].data.Some?
    ensures OnPlan(Finish(s, h), plan, hash, items) && Fewer(s.requests, Finish(s, h).requests)
  {
    assert Fits(h, s.requests[h].kind, s.requests[h].data, plan, hash, items);
  }

  lemma {:induction false} CommitOnPlan(s: State, h: Hash, plan: iset<Need>, hash: Item -> Hash, items: iset<Item>)
    requires OnPlan(s, plan, hash, items) && ParentsHaveData(s.requests)
    requires h in s.requests && s.requests[h].data.Some?
    ensures OnPlan(CommitRequest(s, h), plan, hash, items) && Fewer(s.requests, CommitRequest(s, h).requests)
    decreases |s.requests|, 0
  {
    FinishOnPlan(s, h, plan, hash, items);
    FewerHaveData(s.requests, Finish(s, h).requests);
    assert HaveData(s.requests, s.requests[h].parents);
    NotifyOnPlan(Finish(s, h), s.requests[h].parents, plan, hash, items);
  }

  lemma {:induction false} NotifyOnPlan(s: State, parents: seq<Hash>, plan: iset<Need>, hash: Item -> Hash, items: iset<Item>)
    requires OnPlan(s, plan, hash, items) && ParentsHaveData(s.requests) && HaveData(s.requests, parents)
    ensures OnPlan(Notify(s, parents), plan, hash, items) && Fewer(s.requests, Notify(s, parents).requests)
    decreases |s.requests|, 1, |parents|
  {
    if parents != [] {
      assert parents[0] in parents;
      if parents[0] !in s.requests {
        NotifyOnPlan(s, parents[1..], plan, hash, items);
      } else {
        var s1 := AddToDeps(s, parents[0], -1);
        SameSize(s.requests, parents[0], s1.requests[parents[0]]);
        ReleaseOnPlan(s, parents[0], plan, hash, items);
        if s1.requests[parents[0]].deps == 0 {
          CommitOnPlan(s1, parents[0], plan, hash, items);
          var s2 := CommitRequest(s1, parents[0]);
          FewerHaveData(s1.requests, s2.requests);
          NotifyOnPlan(s2, parents[1..], plan, hash, items);
        } else {
          NotifyOnPlan(s1, parents[1..], plan, hash, items);
        }
      }
    }
  }

  lemma ReleaseOnPlan(s: State, p: Hash, plan: iset<Need>, hash: Item -> Hash, items: iset<Item>)
    requires OnPlan(s, plan, hash, items) && ParentsHaveData(s.requests) && p in s.requests
    ensures var s1 := AddToDeps(s, p, -1);
            && OnPlan(s1, plan, hash, items) && Fewer(s.requests, s1.requests) && ParentsHaveData(s1.requests)
            && forall ps :: HaveData(s.requests, ps) ==> HaveData(s1.requests, ps)
  {
    FewerHaveData(s.requests, AddToDeps(s, p, -1).requests);
  }

  // ----- one delivered result -----

  lemma WithDataOnPlan(s: State, h: Hash, x: Item, plan: iset<Need>, hash: Item -> Hash, items: iset<Item>)
    requires OnPlan(s, plan, hash, items) && h in s.requests && x in items && hash(x) == h
    ensures OnPlan(WithData(s, h, x), plan, hash, items)
  {
    assert Fits(h, s.requests[h].kind, s.requests[h].data, plan, hash, items);
  }

  lemma DeliverOnPlan(s: State, h: Hash, x: Item, idle: set<Hash>, plan: iset<Need>, hash: Item -> Hash, items: iset<Item>, env: Env)
    requires Good(s, multiset{}, {}, idle, env) && OnPlan(s, plan, hash, items) && x in items && hash(x) == h
    requires Comprehends(plan, hash, items, env)
    ensures OnPlan(Deliver(s, h, x, env).0, plan, hash, items)
  {
    if h in s.requests && s.requests[h].data.None? {
      var s1 := WithData(s, h, x);
      WithDataOnPlan(s, h, x, plan, hash, items);
      WithDataGood(s, h, x, idle, env);
      if s.requests[h].kind.Raw? {
        LinkedHasData(s1);
        CommitOnPlan(s1, h, plan, hash, items);
      } else if Decode(Some(h), x).Some? {
        ExpandOnPlan(s1, h, x, idle, plan, hash, items, env);
      }
    }
  }

  lemma ExpandOnPlan(s: State, h: Hash, x: Item, idle: set<Hash>, plan: iset<Need>, hash: Item -> Hash, items: iset<Item>, env: Env)
    requires Good(s, multiset{}, {h}, idle, env) && OnPlan(s, plan, hash, items) && Waiting(s, h)
    requires s.requests[h].data == Some(x) && x in items && hash(x) == h && Decode(Some(h), x).Some?
    requires Comprehends(plan, hash, items, env)
    ensures OnPlan(Expand(s, h, Decode(Some(h), x).value, env).0, plan, hash, items)
  {
    var n, callback := Decode(Some(h), x).value, s.requests[h].kind.callback;
    assert Fits(h, s.requests[h].kind, s.requests[h].data, plan, hash, items);
    assert Planned(Needs(h, Blob(x, AsNode(callback)), env), plan) by { assert Need(h, AsNode(callback)) in plan; }
    ScanOnPlan(s, Kids(n), h, callback, plan, hash, items, env);
    var scan := ScanGood(s, h, x, n, idle, env);
    if scan.ok {
      if scan.missing == [] && scan.state.requests[h].deps == 0 {
        LinkedHasData(scan.state);
        CommitOnPlan(scan.state, h, plan, hash, items);
      } else {
        ScheduleAllOnPlan(AddToDeps(scan.state, h, |scan.missing|), scan.missing, h, KidDepth(n, s.requests[h].depth), callback,
                          plan, hash, items);
      }
    }
  }

  // ----- runs -----

  lemma FlushOnPlan(s: State, n: nat, plan: iset<Need>, hash: Item -> Hash, items: iset<Item>)
    requires OnPlan(s, plan, hash, items) && n <= |s.order| && forall h :: h in s.order ==> h in s.batch
    ensures OnPlan(Flush(s, n), plan, hash, items)
  {
    var db := Written(s.db, s.batch, s.order[..n]);
    forall h | h in db ensures Fits(h, db[h].kind, Some(db[h].data), plan, hash, items) {
      WrittenAt(s.db, s.batch, s.order[..n], h);
    }
  }

  lemma StepOnPlan(r: Run, step: Step, plan: iset<Need>, hash: Item -> Hash, items: iset<Item>, env: Env)
    requires Inv(r.state, r.idle, env) && OnPlan(r.state, plan, hash, items) && Honest(step, plan, hash, items, env)
    requires Comprehends(plan, hash, items, env)
    ensures OnPlan(Take(r, step, env).state, plan, hash, items)
  {
    match step
    case Add(d) =>
      if !Skips(r.state, d, env) {
        ScheduleOnPlan(r.state, d.hash, Request(KindOf(d), None, [], d.depth, 0), plan, hash, items);
      }
    case Result(h, x) =>
      DeliverOnPlan(r.state, h, x, r.idle, plan, hash, items, env);
    case Write(n) =>
      FlushOnPlan(r.state, if n <= |r.state.order| then n else |r.state.order|, plan, hash, items);
  }

  /** A run of honest steps stays on plan. */
  lemma {:induction false} RunOnPlan(r: Run, steps: seq<Step>, plan: iset<Need>, hash: Item -> Hash, items: iset<Item>, env: Env)
    requires Inv(r.state, r.idle, env) && OnPlan(r.state, plan, hash, items) && AllHonest(steps, plan, hash, items, env)
    requires Comprehends(plan, hash, items, env)
    ensures var r' := TakeAll(r, steps, env); Inv(r'.state, r'.idle, env) && OnPlan(r'.state, plan, hash, items)
    decreases |steps|
  {
    if steps != [] {
      assert steps[0] in steps;
      StepInv(r, steps[0], env);
      StepOnPlan(r, steps[0], plan, hash, items, env);
      RunOnPlan(Take(r, steps[0], env), steps[1..], plan, hash, items, env);
    }
  }
}
