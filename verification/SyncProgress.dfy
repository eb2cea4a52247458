/**
  A synchronisation does not get stuck, and exactly when a finished one has
  everything (trie/sync.go): the nodes of the requested tries, and whatever their
  leaves lead to, storage tries and contract code included.
 */
module SyncProgress {
  import opened Hex
  import opened Rlp
  import opened TrieNode
  import opened Proof
  import opened Sync
  import opened SyncProofs
  import opened SyncPlan
  import opened SyncReload

  // ----- where the data comes from -----

  /** The item behind each hash, and a rank by which whatever asks ranks above what it asks for. */
  datatype Source = Source(hash: Item -> Hash, items: iset<Item>, data: Hash -> Item, rank: Hash -> nat, env: Env)

  function NeedsOf(n: Need, w: Source): seq<Need> {
    Needs(n.hash, Blob(w.data(n.hash), n.kind), w.env)
  }

  /** Every planned hash has an item, which decodes if it is asked for as a node. */
  ghost predicate Served(plan: iset<Need>, w: Source) {
    forall n :: n in plan ==> ServedOne(n, w)
  }

  ghost predicate ServedOne(n: Need, w: Source) {
    var x := w.data(n.hash);
    x in w.items && w.hash(x) == n.hash && (n.kind.AsNode? ==> Decode(Some(n.hash), x).Some?)
  }

  /** Nothing asks for itself, directly or not. */
  ghost predicate Orderly(plan: iset<Need>, w: Source) {
    forall n :: n in plan ==> Defers(n, plan, w)
  }

  ghost predicate Defers(n: Need, plan: iset<Need>, w: Source) {
    forall d :: d in NeedsOf(n, w) ==> d in plan && w.rank(d.hash) < w.rank(n.hash)
  }

  ghost predicate Ready(plan: iset<Need>, w: Source) {
    Setting(plan, w.hash, w.items, w.env) && Served(plan, w) && Orderly(plan, w)
  }

  lemma {:induction false} OneItem(n: Need, x: Item, plan: iset<Need>, w: Source)
    requires Ready(plan, w) && n in plan && x in w.items && w.hash(x) == n.hash
    ensures x == w.data(n.hash)
  {
    assert ServedOne(n, w);
  }

  // ----- what a need leads to -----

  /** The need itself, and all that what it asks for leads to. */
  ghost function Reach(n: Need, plan: iset<Need>, w: Source): (r: set<Need>)
    requires Orderly(plan, w) && n in plan
    ensures n in r && forall m :: m in r ==> m in plan
    decreases w.rank(n.hash), 1, 0
  {
    {n} + ReachAll(NeedsOf(n, w), w.rank(n.hash), plan, w)
  }

  ghost function ReachAll(ds: seq<Need>, bound: nat, plan: iset<Need>, w: Source): (r: set<Need>)
    requires Orderly(plan, w) && forall d :: d in ds ==> d in plan && w.rank(d.hash) < bound
    ensures forall m :: m in r ==> m in plan
    decreases bound, 0, |ds|
  {
    if ds == [] then {} else Reach(ds[0], plan, w) + ReachAll(ds[1..], bound, plan, w)
  }

  lemma {:induction false} ReachAllHas(ds: seq<Need>, d: Need, bound: nat, plan: iset<Need>, w: Source)
    requires Orderly(plan, w) && (forall d :: d in ds ==> d in plan && w.rank(d.hash) < bound) && d in ds
    ensures Reach(d, plan, w) <= ReachAll(ds, bound, plan, w)
    decreases |ds|
  {
    if ds[0] != d { ReachAllHas(ds[1..], d, bound, plan, w); }
  }

  lemma {:induction false} ReachAllFrom(ds: seq<Need>, m: Need, bound: nat, plan: iset<Need>, w: Source) returns (d: Need)
    requires Orderly(plan, w) && (forall d :: d in ds ==> d in plan && w.rank(d.hash) < bound) && m in ReachAll(ds, bound, plan, w)
    ensures d in ds && m in Reach(d, plan, w)
    decreases |ds|
  {
    if m in Reach(ds[0], plan, w) { d := ds[0]; } else { d := ReachAllFrom(ds[1..], m, bound, plan, w); }
  }

  lemma {:induction false} ReachStep(n: Need, d: Need, plan: iset<Need>, w: Source)
    requires Orderly(plan, w) && n in plan && d in NeedsOf(n, w)
    ensures Reach(d, plan, w) <= Reach(n, plan, w)
  {
    ReachAllHas(NeedsOf(n, w), d, w.rank(n.hash), plan, w);
  }

  lemma {:induction false} ReachFrom(n: Need, m: Need, plan: iset<Need>, w: Source) returns (d: Need)
    requires Orderly(plan, w) && n in plan && m in Reach(n, plan, w) && m != n
    ensures d in NeedsOf(n, w) && m in Reach(d, plan, w)
  {
    d := ReachAllFrom(NeedsOf(n, w), m, w.rank(n.hash), plan, w);
  }

  /** What a need leads to includes what that asks for. */
  lemma {:induction false} ReachClosed(n: Need, m: Need, d: Need, plan: iset<Need>, w: Source)
    requires Orderly(plan, w) && n in plan && m in Reach(n, plan, w) && d in NeedsOf(m, w)
    ensures d in Reach(n, plan, w)
    decreases w.rank(n.hash)
  {
    if m == n {
      ReachStep(n, d, plan, w);
    } else {
      var e := ReachFrom(n, m, plan, w);
      ReachClosed(e, m, d, plan, w);
      ReachStep(n, e, plan, w);
    }
  }

  ghost predicate LeadsTo(n: Need, c: Hash, plan: iset<Need>, w: Source)
    requires Orderly(plan, w) && n in plan
  {
    exists m :: m in Reach(n, plan, w) && m.hash == c
  }

  // ----- what is asked for ranks below what asks -----

  /** References climb, and nothing stored is pending. */
  ghost predicate Above(s: State, rank: Hash -> nat) {
    && (forall h, p :: h in s.requests && p in s.requests[h].parents ==> rank(h) < rank(p))
    && (forall h :: h in s.requests ==> h !in s.db)
  }

  /** A need of p that ranks below it, and if stored is found to be. */
  predicate Fair(d: Need, db: Blobs, p: Hash, rank: Hash -> nat) {
    rank(d.hash) < rank(p) && (d.kind.AsNode? && d.hash in db ==> Decode(Some(d.hash), db[d.hash].data).Some?)
  }

  ghost predicate Lower(needs: seq<Need>, db: Blobs, p: Hash, rank: Hash -> nat) {
    forall d :: d in needs ==> Fair(d, db, p, rank)
  }

  /** New references are to p, from below it, and new requests are not for anything stored. */
  ghost predicate Climbs(s: State, s': State, p: Hash, rank: Hash -> nat) {
    && s'.db == s.db
    && (forall h, q :: h in s'.requests && q in s'.requests[h].parents ==>
          (q == p && rank(h) < rank(p)) || (h in s.requests && q in s.requests[h].parents))
    && (forall h :: h in s'.requests && h in s.db ==> h in s.requests)
  }

  lemma {:induction false} ClimbsAbove(s: State, s': State, p: Hash, rank: Hash -> nat)
    requires Above(s, rank) && Climbs(s, s', p, rank)
    ensures Above(s', rank)
  {
  }

  lemma {:induction false} ClimbsOn(s: State, s1: State, s2: State, p: Hash, rank: Hash -> nat)
    requires Climbs(s, s1, p, rank) && Climbs(s1, s2, p, rank)
    ensures Climbs(s, s2, p, rank)
  {
  }

  lemma {:induction false} AddDepClimbs(s: State, d: Dep, p: Hash, rank: Hash -> nat, env: Env)
    requires p in s.requests && (EmptyDep(d, env) || Fair(Need(d.hash, KindOf(d)), s.db, p, rank))
    ensures Climbs(s, AddDep(s, d, p, env), p, rank)
  {
  }

  lemma {:induction false} AddDepsClimbs(s: State, ds: seq<Dep>, p: Hash, rank: Hash -> nat, env: Env)
    requires p in s.requests && Lower(DepNeeds(ds, env), s.db, p, rank)
    ensures Climbs(s, AddDeps(s, ds, p, env), p, rank)
    decreases |ds|
  {
    if ds != [] {
      assert !EmptyDep(ds[0], env) ==> Need(ds[0].hash, KindOf(ds[0])) in DepNeeds(ds, env);
      assert forall d :: d in DepNeeds(ds[1..], env) ==> d in DepNeeds(ds, env);
      var s1 := AddDep(s, ds[0], p, env);
      AddDepClimbs(s, ds[0], p, rank, env);
      AddDepsClimbs(s1, ds[1..], p, rank, env);
      ClimbsOn(s, s1, AddDeps(s, ds, p, env), p, rank);
    }
  }

  ghost predicate ScanClimbs(s: State, r: Scan, p: Hash, rank: Hash -> nat) {
    Climbs(s, r.state, p, rank) && forall h :: h in r.missing ==> rank(h) < rank(p) && h !in s.db
  }

  lemma {:induction false} VisitClimbs(s: State, kid: Node, p: Hash, callback: Option<nat>, rank: Hash -> nat, env: Env)
    requires p in s.requests && Lower(KidNeeds(kid, callback, env), s.db, p, rank)
    ensures ScanClimbs(s, VisitKid(s, kid, p, callback, env), p, rank)
  {
    if kid.ValueNode? && callback.Some? {
      AddDepsClimbs(s, env.onLeaf(callback.value, kid.value).deps, p, rank, env);
    } else if kid.HashNode? {
      assert Need(kid.hash, AsNode(callback)) in KidNeeds(kid, callback, env);
    }
  }

  lemma {:induction false} KidsClimb(s: State, kids: seq<Node>, p: Hash, callback: Option<nat>, rank: Hash -> nat, env: Env)
    requires p in s.requests && Lower(KidsNeeds(kids, callback, env), s.db, p, rank)
    ensures ScanClimbs(s, ScanKids(s, kids, p, callback, env), p, rank)
    decreases |kids|
  {
    if kids != [] {
      assert KidsNeeds(kids, callback, env) == KidNeeds(kids[0], callback, env) + KidsNeeds(kids[1..], callback, env);
      VisitClimbs(s, kids[0], p, callback, rank, env);
      var first := VisitKid(s, kids[0], p, callback, env);
      if first.ok {
        KidsClimb(first.state, kids[1..], p, callback, rank, env);
        ClimbsOn(s, first.state, ScanKids(first.state, kids[1..], p, callback, env).state, p, rank);
      }
    }
  }

  lemma {:induction false} ScheduleAllClimbs(s: State, hs: seq<Hash>, p: Hash, depth: nat, callback: Option<nat>, rank: Hash -> nat)
    requires forall h :: h in hs ==> rank(h) < rank(p) && h !in s.db
    ensures Climbs(s, ScheduleAll(s, hs, p, depth, callback), p, rank)
    decreases |hs|
  {
    if hs != [] {
      var s1 := Schedule(s, hs[0], Request(AsNode(callback), None, [p], depth, 0));
      assert Climbs(s, s1, p, rank);
      ScheduleAllClimbs(s1, hs[1..], p, depth, callback, rank);
      ClimbsOn(s, s1, ScheduleAll(s1, hs[1..], p, depth, callback), p, rank);
    }
  }

  lemma {:induction false} FewerAbove(s: State, s': State, rank: Hash -> nat)
    requires Above(s, rank) && Fewer(s.requests, s'.requests) && s'.db == s.db
    ensures Above(s', rank)
  {
  }

  // ----- a delivered result is progress -----

  /** Known, or at least downloaded. */
  predicate Done(s: State, h: Hash) {
    Known(s, h) || (h in s.requests && s.requests[h].data.Some?)
  }

  ghost predicate Moves(s: State, s': State) {
    forall h :: Done(s, h) ==> Done(s', h)
  }

  /** The outcome of delivering h: nothing is lost, h is done, and references still climb. */
  ghost predicate Progress(s: State, s': State, h: Hash, rank: Hash -> nat) {
    Moves(s, s') && Done(s', h) && Above(s', rank)
  }

  lemma {:induction false} CommitMoves(s: State, s': State)
    requires Linked(s) && Fewer(s.requests, s'.requests) && s'.db == s.db && Tracks(s, s')
    ensures Moves(s, s')
  {
    forall h | Done(s, h) ensures Done(s', h) {
      assert h in s'.requests || Known(s', h);
    }
  }

  lemma {:induction false} CommitProgress(s: State, h: Hash, plan: iset<Need>, w: Source)
    requires Good(s, multiset{}, {h}, {}, w.env) && MayCommit(s, h, w.env)
    requires OnPlan(s, plan, w.hash, w.items) && Above(s, w.rank)
    ensures Progress(s, CommitRequest(s, h), h, w.rank)
  {
    var s' := CommitRequest(s, h);
    LinkedHasData(s);
    CommitOnPlan(s, h, plan, w.hash, w.items);
    CommitGood(s, h, multiset{}, {}, w.env);
    CommitMoves(s, s');
    FewerAbove(s, s', w.rank);
    assert Done(s, h);
  }

  lemma {:induction false} AwaitProgress(s: State, hs: seq<Hash>, h: Hash, depth: nat, callback: Option<nat>, rank: Hash -> nat)
    requires Counted(s, multiset{}) && Waiting(s, h) && Above(s, rank)
    requires forall m :: m in hs ==> m !in s.batch && m !in s.db && rank(m) < rank(h)
    ensures Progress(s, ScheduleAll(AddToDeps(s, h, |hs|), hs, h, depth, callback), h, rank)
  {
    var s1 := AddToDeps(s, h, |hs|);
    var s' := ScheduleAll(s1, hs, h, depth, callback);
    AddToDepsCounted(s, h, |hs|, multiset{});
    ScheduleAllCounted(s1, hs, h, depth, callback);
    GrewTransitive(s, s1, s');
    GrewMoves(s, s');
    ScheduleAllClimbs(s1, hs, h, depth, callback, rank);
    ClimbsAbove(s1, s', h, rank);
    assert Done(s, h);
  }

  lemma {:induction false} GrewMoves(s: State, s': State)
    requires Grew(s, s')
    ensures Moves(s, s')
  {
    forall h | Done(s, h) ensures Done(s', h) {
      if !Known(s, h) { assert Kept(s.requests[h], s'.requests[h]); }
    }
  }

  lemma {:induction false} ProgressAfter(s: State, s1: State, s2: State, h: Hash, rank: Hash -> nat)
    requires Moves(s, s1) && Progress(s1, s2, h, rank)
    ensures Progress(s, s2, h, rank)
  {
  }

  lemma {:induction false} AllFair(s: State, n: Need, plan: iset<Need>, w: Source)
    requires OnPlan(s, plan, w.hash, w.items) && Ready(plan, w) && n in plan
    ensures Lower(NeedsOf(n, w), s.db, n.hash, w.rank)
  {
    forall d | d in NeedsOf(n, w) ensures Fair(d, s.db, n.hash, w.rank) {
      if d.kind.AsNode? && d.hash in s.db { Legible(s, d, plan, w); }
    }
  }

  lemma {:induction false} Legible(s: State, d: Need, plan: iset<Need>, w: Source)
    requires OnPlan(s, plan, w.hash, w.items) && Ready(plan, w) && d in plan && d.kind.AsNode? && d.hash in s.db
    ensures Decode(Some(d.hash), s.db[d.hash].data).Some?
  {
    assert ServedOne(d, w) && Fits(d.hash, s.db[d.hash].kind, Some(s.db[d.hash].data), plan, w.hash, w.items);
    OneItem(d, s.db[d.hash].data, plan, w);
  }

  lemma {:induction false} ExpandProgress(s: State, h: Hash, n: Node, plan: iset<Need>, w: Source)
    requires Good(s, multiset{}, {h}, {}, w.env) && OnPlan(s, plan, w.hash, w.items) && Waiting(s, h)
    requires s.requests[h].data == Some(w.data(h)) && Decode(Some(h), w.data(h)) == Some(n)
    requires Ready(plan, w) && Above(s, w.rank)
    ensures var r := Expand(s, h, n, w.env); Progress(s, r.0, h, w.rank) && !r.1.LeafError?
  {
    var callback := s.requests[h].kind.callback;
    var need := Need(h, AsNode(callback));
    assert Fits(h, s.requests[h].kind, s.requests[h].data, plan, w.hash, w.items);
    assert need in plan && NeedsOf(need, w) == KidsNeeds(Kids(n), callback, w.env);
    assert Planned(NeedsOf(need, w), plan);
    assert LeavesSucceed(Kids(n), callback, w.env);
    AllFair(s, need, plan, w);
    ScanOnPlan(s, Kids(n), h, callback, plan, w.hash, w.items, w.env);
    KidsClimb(s, Kids(n), h, callback, w.rank, w.env);
    ScanOk(s, Kids(n), h, callback, w.env);
    ScanCounted(s, Kids(n), h, callback, w.env);
    var scan := ScanGood(s, h, w.data(h), n, {}, w.env);
    ClimbsAbove(s, scan.state, h, w.rank);
    GrewMoves(s, scan.state);
    if scan.missing == [] && scan.state.requests[h].deps == 0 {
      CommitProgress(scan.state, h, plan, w);
      ProgressAfter(s, scan.state, CommitRequest(scan.state, h), h, w.rank);
    } else {
      var depth := KidDepth(n, s.requests[h].depth);
      AwaitProgress(scan.state, scan.missing, h, depth, callback, w.rank);
      ProgressAfter(s, scan.state, ScheduleAll(AddToDeps(scan.state, h, |scan.missing|), scan.missing, h, depth, callback), h, w.rank);
    }
  }

  lemma {:induction false} WithDataMoves(s: State, h: Hash, x: Item, rank: Hash -> nat)
    requires h in s.requests && Above(s, rank)
    ensures Moves(s, WithData(s, h, x)) && Above(WithData(s, h, x), rank)
  {
  }

  lemma {:induction false} DeliverProgress(s: State, h: Hash, plan: iset<Need>, w: Source)
    requires Good(s, multiset{}, {}, {}, w.env) && OnPlan(s, plan, w.hash, w.items) && Ready(plan, w) && Above(s, w.rank)
    requires h in s.requests && s.requests[h].data.None?
    ensures var r := Deliver(s, h, w.data(h), w.env); Progress(s, r.0, h, w.rank) && !r.1.LeafError?
  {
    var x := w.data(h);
    assert Fits(h, s.requests[h].kind, s.requests[h].data, plan, w.hash, w.items);
    assert ServedOne(Need(h, s.requests[h].kind), w);
    var s1 := WithData(s, h, x);
    WithDataGood(s, h, x, {}, w.env);
    WithDataOnPlan(s, h, x, plan, w.hash, w.items);
    WithDataMoves(s, h, x, w.rank);
    if s.requests[h].kind.Raw? {
      RawAwaitsNothing(s1, h);
      CommitProgress(s1, h, plan, w);
      ProgressAfter(s, s1, CommitRequest(s1, h), h, w.rank);
    } else {
      var n := Decode(Some(h), x).value;
      ExpandProgress(s1, h, n, plan, w);
      ProgressAfter(s, s1, Expand(s1, h, n, w.env).0, h, w.rank);
    }
  }

  // ----- something can always be delivered -----

  /** Below each pending request there is one that still lacks its data. */
  lemma {:induction false} Undelivered(s: State, p: Hash, w: Source) returns (h: Hash)
    requires Good(s, multiset{}, {}, {}, w.env) && Above(s, w.rank) && p in s.requests
    ensures h in s.requests && s.requests[h].data.None?
    decreases w.rank(p)
  {
    if s.requests[p].data.None? {
      h := p;
    } else {
      assert SumAt(s.requests, multiset{}, p) && s.requests[p].deps > 0;
      var g := EdgeFrom(s.requests, p);
      h := Undelivered(s, g, w);
    }
  }

  /** Requests and stored blobs are on plan, references climb, and no callback failed. */
  ghost predicate Sound(r: Run, plan: iset<Need>, w: Source) {
    && Inv(r.state, r.idle, w.env) && r.idle == {}
    && OnPlan(r.state, plan, w.hash, w.items) && Above(r.state, w.rank)
  }

  lemma {:induction false} AddSound(r: Run, d: Dep, plan: iset<Need>, w: Source)
    requires Sound(r, plan, w) && Ready(plan, w) && Honest(Add(d), plan, w.hash, w.items, w.env)
    ensures Sound(Take(r, Add(d), w.env), plan, w)
  {
    StepInv(r, Add(d), w.env);
    StepOnPlan(r, Add(d), plan, w.hash, w.items, w.env);
    if !Skips(r.state, d, w.env) && d.SubTrie? && d.hash in r.state.db {
      Legible(r.state, Need(d.hash, KindOf(d)), plan, w);
      assert false;
    }
  }

  lemma {:induction false} ResultSound(r: Run, h: Hash, x: Item, plan: iset<Need>, w: Source)
    requires Sound(r, plan, w) && Ready(plan, w) && Honest(Result(h, x), plan, w.hash, w.items, w.env)
    ensures Sound(Take(r, Result(h, x), w.env), plan, w)
  {
    StepInv(r, Result(h, x), w.env);
    StepOnPlan(r, Result(h, x), plan, w.hash, w.items, w.env);
    if h in r.state.requests && r.state.requests[h].data.None? {
      assert Fits(h, r.state.requests[h].kind, r.state.requests[h].data, plan, w.hash, w.items);
      OneItem(Need(h, r.state.requests[h].kind), x, plan, w);
      DeliverProgress(r.state, h, plan, w);
    }
  }

  lemma {:induction false} FlushAbove(s: State, n: nat, rank: Hash -> nat, env: Env)
    requires Linked(s) && Ordered(s, env) && Above(s, rank) && n <= |s.order|
    ensures Above(Flush(s, n), rank)
  {
    forall h | h in s.requests ensures h !in Flush(s, n).db {
      WrittenAt(s.db, s.batch, s.order[..n], h);
      assert h !in s.batch && h !in s.order;
    }
  }

  lemma {:induction false} StepSound(r: Run, step: Step, plan: iset<Need>, w: Source)
    requires Sound(r, plan, w) && Ready(plan, w) && Honest(step, plan, w.hash, w.items, w.env)
    ensures Sound(Take(r, step, w.env), plan, w)
  {
    match step
    case Add(d) => AddSound(r, d, plan, w);
    case Result(h, x) => ResultSound(r, h, x, plan, w);
    case Write(n) =>
      StepInv(r, step, w.env);
      StepOnPlan(r, step, plan, w.hash, w.items, w.env);
      FlushAbove(r.state, if n <= |r.state.order| then n else |r.state.order|, w.rank, w.env);
  }

  lemma {:induction false} RunSound(r: Run, steps: seq<Step>, plan: iset<Need>, w: Source)
    requires Sound(r, plan, w) && Ready(plan, w) && AllHonest(steps, plan, w.hash, w.items, w.env)
    ensures Sound(TakeAll(r, steps, w.env), plan, w)
    decreases |steps|
  {
    if steps != [] {
      assert steps[0] in steps;
      StepSound(r, steps[0], plan, w);
      RunSound(Take(r, steps[0], w.env), steps[1..], plan, w);
    }
  }

  lemma {:induction false} FreshSound(db: Blobs, plan: iset<Need>, w: Source)
    requires Closed(db, w.env) && Filed(db, plan, w.hash, w.items)
    ensures Sound(Fresh(db), plan, w)
  {
    FreshInv(db, w.env);
  }

  // ----- so every synchronisation can be finished -----

  function ToDo(s: State, hs: set<Hash>): set<Hash> {
    set h | h in hs && !Done(s, h)
  }

  lemma {:induction false} LessToDo(s: State, s': State, h: Hash, hs: set<Hash>)
    requires Moves(s, s') && Done(s', h) && !Done(s, h) && h in hs
    ensures |ToDo(s', hs)| < |ToDo(s, hs)|
  {
    assert ToDo(s', hs) <= ToDo(s, hs) - {h};
    Fewest(ToDo(s', hs), ToDo(s, hs) - {h});
  }

  lemma {:induction false} Fewest(a: set<Hash>, b: set<Hash>)
    requires a <= b
    ensures |a| <= |b|
  {
    if a != {} {
      var x :| x in a;
      Fewest(a - {x}, b - {x});
    }
  }

  function Planning(ns: set<Need>): iset<Need> {
    iset n | n in ns
  }

  /** All that some needs lead to: finitely many. */
  ghost function Ahead(starts: set<Need>, plan: iset<Need>, w: Source): set<Need>
    requires Orderly(plan, w) && forall n :: n in starts ==> n in plan
  {
    set n, m | n in starts && m in Reach(n, plan, w) :: m
  }

  lemma {:induction false} AheadReady(starts: set<Need>, plan: iset<Need>, w: Source)
    requires Ready(plan, w) && forall n :: n in starts ==> n in plan
    ensures Ready(Planning(Ahead(starts, plan, w)), w)
  {
    var part := Planning(Ahead(starts, plan, w));
    assert forall n :: n in part ==> n in plan;
    forall m, d | m in part && d in NeedsOf(m, w) ensures d in part && w.rank(d.hash) < w.rank(m.hash) {
      var n :| n in starts && m in Reach(n, plan, w);
      ReachClosed(n, m, d, plan, w);
    }
    assert Comprehends(part, w.hash, w.items, w.env) by {
      forall n, x | n in part && x in w.items && w.hash(x) == n.hash ensures Planned(Needs(n.hash, Blob(x, n.kind), w.env), part) {
        OneItem(n, x, plan, w);
      }
    }
    assert CallbacksSucceed(part, w.hash, w.items, w.env);
  }

  /** Delivering what is asked for comes to an end. */
  lemma {:induction false} Drain(r: Run, ns: set<Need>, w: Source) returns (more: seq<Step>)
    requires Sound(r, Planning(ns), w) && Ready(Planning(ns), w)
    ensures AllHonest(more, Planning(ns), w.hash, w.items, w.env)
    ensures TakeAll(r, more, w.env).state.requests == map[]
    decreases |ToDo(r.state, set n | n in ns :: n.hash)|
  {
    var plan, hs := Planning(ns), set n | n in ns :: n.hash;
    if r.state.requests == map[] {
      more := [];
    } else {
      var p :| p in r.state.requests;
      var h := Undelivered(r.state, p, w);
      var kind := r.state.requests[h].kind;
      assert Fits(h, kind, r.state.requests[h].data, plan, w.hash, w.items);
      assert Need(h, kind) in ns && h in hs && ServedOne(Need(h, kind), w);
      var step := Result(h, w.data(h));
      DeliverProgress(r.state, h, plan, w);
      ResultSound(r, h, w.data(h), plan, w);
      LessToDo(r.state, Take(r, step, w.env).state, h, hs);
      var rest := Drain(Take(r, step, w.env), ns, w);
      more := [step] + rest;
      assert more[1..] == rest;
    }
  }

  /** Then the batch is written. */
  lemma {:induction false} FinishWithin(r: Run, ns: set<Need>, w: Source) returns (more: seq<Step>)
    requires Sound(r, Planning(ns), w) && Ready(Planning(ns), w)
    ensures AllHonest(more, Planning(ns), w.hash, w.items, w.env)
    ensures Finished(TakeAll(r, more, w.env)) && Sound(TakeAll(r, more, w.env), Planning(ns), w)
  {
    var results := Drain(r, ns, w);
    RunSound(r, results, Planning(ns), w);
    var r1 := TakeAll(r, results, w.env);
    var write := Write(|r1.state.order|);
    more := results + [write];
    TakeAllConcat(r, results, [write], w.env);
    assert TakeAll(r1, [write], w.env) == Take(r1, write, w.env) by { assert [write][1..] == []; }
    StepSound(r1, write, Planning(ns), w);
  }

  /** The needs that a state is concerned with. */
  function Concerns(s: State): set<Need> {
    (set h | h in s.db :: Need(h, s.db[h].kind)) +
    (set h | h in s.batch :: Need(h, s.batch[h].kind)) +
    (set h | h in s.requests :: Need(h, s.requests[h].kind))
  }

  lemma {:induction false} ConcernsPlanned(s: State, plan: iset<Need>, w: Source)
    requires OnPlan(s, plan, w.hash, w.items)
    ensures forall n :: n in Concerns(s) ==> n in plan
  {
    forall n | n in Concerns(s) ensures n in plan {
      assert Fits(n.hash, n.kind, None, plan, w.hash, w.items);
    }
  }

  lemma {:induction false} AheadHas(starts: set<Need>, plan: iset<Need>, w: Source)
    requires Orderly(plan, w) && forall n :: n in starts ==> n in plan
    ensures forall n :: n in starts ==> n in Planning(Ahead(starts, plan, w))
  {
    forall n | n in starts ensures n in Ahead(starts, plan, w) { assert n in Reach(n, plan, w); }
  }

  lemma {:induction false} OnConcerns(s: State, plan: iset<Need>, part: iset<Need>, w: Source)
    requires OnPlan(s, plan, w.hash, w.items) && forall n :: n in Concerns(s) ==> n in part
    ensures OnPlan(s, part, w.hash, w.items)
  {
    assert forall h :: h in s.db ==> Need(h, s.db[h].kind) in Concerns(s);
    assert forall h :: h in s.batch ==> Need(h, s.batch[h].kind) in Concerns(s);
    assert forall h :: h in s.requests ==> Need(h, s.requests[h].kind) in Concerns(s);
  }

  /** Whatever a synchronisation has done so far, it can be finished: nothing pending waits for itself. */
  lemma {:induction false} SyncCanFinish(db: Blobs, steps: seq<Step>, plan: iset<Need>, w: Source) returns (more: seq<Step>)
    requires Ready(plan, w) && Proper(db, steps, plan, w.hash, w.items, w.env)
    ensures Proper(db, steps + more, plan, w.hash, w.items, w.env) && Finished(TakeAll(Fresh(db), steps + more, w.env))
  {
    FreshSound(db, plan, w);
    RunSound(Fresh(db), steps, plan, w);
    var r := TakeAll(Fresh(db), steps, w.env);
    ConcernsPlanned(r.state, plan, w);
    var ns := Ahead(Concerns(r.state), plan, w);
    AheadReady(Concerns(r.state), plan, w);
    AheadHas(Concerns(r.state), plan, w);
    OnConcerns(r.state, plan, Planning(ns), w);
    more := FinishWithin(r, ns, w);
    TakeAllConcat(Fresh(db), steps, more, w.env);
    HonestOnMore(more, Planning(ns), plan, w);
  }

  lemma {:induction false} HonestOnMore(steps: seq<Step>, part: iset<Need>, plan: iset<Need>, w: Source)
    requires AllHonest(steps, part, w.hash, w.items, w.env) && forall n :: n in part ==> n in plan
    ensures AllHonest(steps, plan, w.hash, w.items, w.env)
  {
    forall step | step in steps ensures Honest(step, plan, w.hash, w.items, w.env) {
      assert Honest(step, part, w.hash, w.items, w.env);
    }
  }

  // ----- and exactly when it then has everything -----

  /** A hash leads to the same hashes however it is asked for. */
  ghost predicate Consistent(plan: iset<Need>, w: Source)
    requires Orderly(plan, w)
  {
    forall n, m, c :: n in plan && m in plan && n.hash == m.hash && LeadsTo(n, c, plan, w) ==> LeadsTo(m, c, plan, w)
  }

  /** If d is requested and the run gets to its end, all that d leads to is in the database. */
  ghost predicate Gathers(db: Blobs, steps: seq<Step>, d: Dep, plan: iset<Need>, w: Source)
    requires Orderly(plan, w)
  {
    var r := TakeAll(Fresh(db), steps, w.env);
    Proper(db, steps, plan, w.hash, w.items, w.env) && Need(d.hash, KindOf(d)) in plan && Add(d) in steps && Finished(r) ==>
      forall c :: LeadsTo(Need(d.hash, KindOf(d)), c, plan, w) ==> c in r.state.db
  }

  /** What a stored blob leads to, as it was asked for, is stored. */
  lemma {:induction false} StoredReach(h: Hash, m: Need, db: Blobs, plan: iset<Need>, w: Source)
    requires Ready(plan, w) && Consistent(plan, w) && Closed(db, w.env) && Filed(db, plan, w.hash, w.items)
    requires h in db && Need(h, db[h].kind) in plan && m in Reach(Need(h, db[h].kind), plan, w)
    ensures m.hash in db
    decreases w.rank(h)
  {
    var n := Need(h, db[h].kind);
    if m != n {
      var d := ReachFrom(n, m, plan, w);
      StoredNeeds(h, db, plan, w);
      assert d.hash in db && Fits(d.hash, db[d.hash].kind, Some(db[d.hash].data), plan, w.hash, w.items);
      var stored := Need(d.hash, db[d.hash].kind);
      assert LeadsTo(d, m.hash, plan, w) && LeadsTo(stored, m.hash, plan, w);
      var m' :| m' in Reach(stored, plan, w) && m'.hash == m.hash;
      StoredReach(d.hash, m', db, plan, w);
    }
  }

  lemma {:induction false} StoredNeeds(h: Hash, db: Blobs, plan: iset<Need>, w: Source)
    requires Ready(plan, w) && Closed(db, w.env) && Filed(db, plan, w.hash, w.items) && h in db
    ensures forall d :: d in NeedsOf(Need(h, db[h].kind), w) ==> d.hash in db
  {
    assert Fits(h, db[h].kind, Some(db[h].data), plan, w.hash, w.items);
    OneItem(Need(h, db[h].kind), db[h].data, plan, w);
    assert Wants(h, db[h], w.env) == Needs(h, db[h], w.env);
  }

  lemma {:induction false} PlannedNotEmpty(n: Need, plan: iset<Need>, w: Source)
    requires Ready(plan, w) && n in plan
    ensures !EmptyDep(AsDep(n), w.env)
  {
    assert ServedOne(n, w);
  }

  function AsDep(n: Need): (d: Dep)
    ensures d.hash == n.hash && KindOf(d) == n.kind
  {
    if n.kind.Raw? then RawEntry(n.hash, 0) else SubTrie(n.hash, 0, n.kind.callback)
  }

  lemma {:induction false} GathersAll(db: Blobs, steps: seq<Step>, d: Dep, plan: iset<Need>, w: Source)
    requires Ready(plan, w) && Consistent(plan, w)
    ensures Gathers(db, steps, d, plan, w)
  {
    var r, n := TakeAll(Fresh(db), steps, w.env), Need(d.hash, KindOf(d));
    if Proper(db, steps, plan, w.hash, w.items, w.env) && n in plan && Add(d) in steps && Finished(r) {
      FreshInv(db, w.env);
      RunOnPlan(Fresh(db), steps, plan, w.hash, w.items, w.env);
      PlannedNotEmpty(n, plan, w);
      RequestedIsStored(db, steps, d, w.env);
      var got := r.state.db;
      assert Fits(d.hash, got[d.hash].kind, Some(got[d.hash].data), plan, w.hash, w.items);
      var stored := Need(d.hash, got[d.hash].kind);
      forall c | LeadsTo(n, c, plan, w) ensures c in got {
        assert LeadsTo(stored, c, plan, w);
        var m :| m in Reach(stored, plan, w) && m.hash == c;
        StoredReach(d.hash, m, got, plan, w);
      }
    }
  }

  /** One need, fetched with all it leads to, and nothing else. */
  lemma {:induction false} FetchOne(n: Need, plan: iset<Need>, w: Source) returns (steps: seq<Step>)
    requires Ready(plan, w) && n in plan
    ensures var r := TakeAll(Fresh(map[]), steps, w.env);
            && Proper(map[], steps, plan, w.hash, w.items, w.env) && Finished(r) && Sound(r, plan, w)
            && n.hash in r.state.db && forall c :: c in r.state.db ==> LeadsTo(n, c, plan, w)
  {
    var ns := Ahead({n}, plan, w);
    var part := Planning(ns);
    AheadReady({n}, plan, w);
    assert n in Reach(n, plan, w) && n in part;
    FreshSound(map[], part, w);
    assert Honest(Add(AsDep(n)), part, w.hash, w.items, w.env);
    AddSound(Fresh(map[]), AsDep(n), part, w);
    var more := FinishWithin(Take(Fresh(map[]), Add(AsDep(n)), w.env), ns, w);
    steps := [Add(AsDep(n))] + more;
    assert steps[1..] == more;
    PlannedNotEmpty(n, plan, w);
    RequestedIsStored(map[], steps, AsDep(n), w.env);
    HonestOnMore(steps, part, plan, w);
    FetchedOnly(TakeAll(Fresh(map[]), steps, w.env), n, plan, w);
  }

  lemma {:induction false} FetchedOnly(r: Run, n: Need, plan: iset<Need>, w: Source)
    requires Orderly(plan, w) && n in plan && Sound(r, Planning(Ahead({n}, plan, w)), w)
    ensures Sound(r, plan, w) && forall c :: c in r.state.db ==> LeadsTo(n, c, plan, w)
  {
    var part := Planning(Ahead({n}, plan, w));
    assert forall m :: m in part ==> m in Reach(n, plan, w) && m in plan;
    assert OnPlan(r.state, plan, w.hash, w.items);
    forall c | c in r.state.db ensures LeadsTo(n, c, plan, w) {
      assert Fits(c, r.state.db[c].kind, Some(r.state.db[c].data), part, w.hash, w.items);
    }
  }

  /** The failing run: the hash is fetched as n first, completely, and then asked for as m, which leads elsewhere too. */
  lemma {:induction false} FirstKindWins(n: Need, m: Need, c: Hash, plan: iset<Need>, w: Source) returns (steps: seq<Step>)
    requires Ready(plan, w) && n in plan && m in plan && n.hash == m.hash
    requires LeadsTo(m, c, plan, w) && !LeadsTo(n, c, plan, w)
    ensures !Gathers(map[], steps, AsDep(m), plan, w)
  {
    var first := FetchOne(n, plan, w);
    steps := first + [Add(AsDep(m))];
    AskedAgain(first, m, plan, w);
    assert !LeadsTo(n, c, plan, w) && c !in TakeAll(Fresh(map[]), first, w.env).state.db;
    FailsToGather(steps, AsDep(m), c, plan, w);
  }

  lemma {:induction false} AskedAgain(first: seq<Step>, m: Need, plan: iset<Need>, w: Source)
    requires Ready(plan, w) && Proper(map[], first, plan, w.hash, w.items, w.env) && m in plan
    requires var r := TakeAll(Fresh(map[]), first, w.env); Sound(r, plan, w) && m.hash in r.state.db
    ensures var steps := first + [Add(AsDep(m))];
            && Proper(map[], steps, plan, w.hash, w.items, w.env) && Add(AsDep(m)) in steps
            && TakeAll(Fresh(map[]), steps, w.env) == TakeAll(Fresh(map[]), first, w.env)
  {
    var r, again := TakeAll(Fresh(map[]), first, w.env), Add(AsDep(m));
    AddedInVain(r, m, plan, w);
    TakeAllConcat(Fresh(map[]), first, [again], w.env);
    assert TakeAll(r, [again], w.env) == r by { assert [again][1..] == []; }
    assert (first + [again])[|first|] == again;
    assert Honest(again, plan, w.hash, w.items, w.env);
  }

  lemma {:induction false} FailsToGather(steps: seq<Step>, d: Dep, c: Hash, plan: iset<Need>, w: Source)
    requires Orderly(plan, w) && Proper(map[], steps, plan, w.hash, w.items, w.env) && Need(d.hash, KindOf(d)) in plan && Add(d) in steps
    requires LeadsTo(Need(d.hash, KindOf(d)), c, plan, w)
    requires var r := TakeAll(Fresh(map[]), steps, w.env); Finished(r) && c !in r.state.db
    ensures !Gathers(map[], steps, d, plan, w)
  {
  }

  /** A hash that is stored is not asked for again, in whatever way. */
  lemma {:induction false} AddedInVain(r: Run, m: Need, plan: iset<Need>, w: Source)
    requires Ready(plan, w) && Sound(r, plan, w) && m in plan && m.hash in r.state.db
    ensures Take(r, Add(AsDep(m)), w.env) == r
  {
    if m.kind.AsNode? { Legible(r.state, m, plan, w); }
  }

  /**
    Every finished synchronisation has stored all that its requests lead to, exactly
    if each hash leads to the same hashes in whichever of the planned ways it is
    asked for.
   */
  lemma {:induction false} EverythingIff(plan: iset<Need>, w: Source)
    requires Ready(plan, w)
    ensures (forall db, steps, d :: Gathers(db, steps, d, plan, w)) <==> Consistent(plan, w)
  {
    if Consistent(plan, w) {
      forall db, steps, d ensures Gathers(db, steps, d, plan, w) { GathersAll(db, steps, d, plan, w); }
    } else {
      var m, n, c :| m in plan && n in plan && m.hash == n.hash && LeadsTo(m, c, plan, w) && !LeadsTo(n, c, plan, w);
      var steps := FirstKindWins(n, m, c, plan, w);
    }
  }
}
