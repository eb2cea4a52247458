/**
  What the synchroniser keeps (trie/sync.go): reference counts equal the
  outstanding references, and whatever has been written, down to the last
  partial flush, never refers to something missing.
 */
module SyncProofs {
  import opened Hex
  import opened Rlp
  import opened TrieNode
  import opened Sync

  // ----- what a blob needs -----

  datatype Need = Need(hash: Hash, kind: Kind)

  function DepNeeds(ds: seq<Dep>, env: Env): seq<Need> {
    if ds == [] then []
    else (if ds[0].hash == EmptyHash(ds[0], env) then [] else [Need(ds[0].hash, KindOf(ds[0]))]) + DepNeeds(ds[1..], env)
  }

  function KidNeeds(kid: Node, callback: Option<nat>, env: Env): seq<Need> {
    match kid
    case HashNode(h) => [Need(h, AsNode(callback))]
    case ValueNode(v) => if callback.None? then [] else DepNeeds(env.onLeaf(callback.value, v).deps, env)
    case _ => []
  }

  function KidsNeeds(kids: seq<Node>, callback: Option<nat>, env: Env): seq<Need> {
    if kids == [] then [] else KidNeeds(kids[0], callback, env) + KidsNeeds(kids[1..], callback, env)
  }

  /** Everything a blob refers to: its hash children, and what its leaves ask for. */
  function Needs(h: Hash, blob: Blob, env: Env): seq<Need> {
    if blob.kind.Raw? then []
    else
      var n := Decode(Some(h), blob.data);
      if n.None? then [] else KidsNeeds(Kids(n.value), blob.kind.callback, env)
  }

  predicate LeafSucceeds(kid: Node, callback: Option<nat>, env: Env) {
    kid.ValueNode? && callback.Some? ==> env.onLeaf(callback.value, kid.value).ok
  }

  predicate LeavesSucceed(kids: seq<Node>, callback: Option<nat>, env: Env) {
    forall kid :: kid in kids ==> LeafSucceeds(kid, callback, env)
  }

  /** What leaf callbacks register, up to and including the first that fails. */
  function Registered(kids: seq<Node>, callback: Option<nat>, env: Env): seq<Need> {
    if kids == [] then []
    else
      (if kids[0].ValueNode? then KidNeeds(kids[0], callback, env) else []) +
      if LeafSucceeds(kids[0], callback, env) then Registered(kids[1..], callback, env) else []
  }

  /** What is actually waited for: a node whose leaf callback fails never gets to ask for its children. */
  function Wants(h: Hash, blob: Blob, env: Env): seq<Need> {
    if blob.kind.Raw? then []
    else
      var n := Decode(Some(h), blob.data);
      if n.None? then []
      else if LeavesSucceed(Kids(n.value), blob.kind.callback, env) then Needs(h, blob, env)
      else Registered(Kids(n.value), blob.kind.callback, env)
  }

  // ----- reference counts -----

  /** All parent references of all pending requests. */
  ghost function Edges(m: Requests): multiset<Hash>
    decreases |m|
  {
    if m == map[] then multiset{}
    else
      var h :| h in m;
      Smaller(m, h);
      multiset(m[h].parents) + Edges(m - {h})
  }

  lemma {:induction false} EdgesWithout(m: Requests, h: Hash)
    requires h in m
    ensures Edges(m) == multiset(m[h].parents) + Edges(m - {h})
    decreases |m|
  {
    var g :| g in m && Edges(m) == multiset(m[g].parents) + Edges(m - {g});
    if g != h {
      Smaller(m, g);
      Smaller(m, h);
      EdgesWithout(m - {g}, h);
      EdgesWithout(m - {h}, g);
      assert m - {g} - {h} == m - {h} - {g};
    }
  }

  lemma {:induction false} EdgesAdd(m: Requests, h: Hash, r: Request)
    requires h !in m
    ensures Edges(m[h := r]) == Edges(m) + multiset(r.parents)
  {
    EdgesWithout(m[h := r], h);
    assert m[h := r] - {h} == m;
  }

  lemma {:induction false} EdgesUpdate(m: Requests, h: Hash, r: Request)
    requires h in m
    ensures Edges(m[h := r]) + multiset(m[h].parents) == Edges(m) + multiset(r.parents)
  {
    EdgesWithout(m[h := r], h);
    EdgesWithout(m, h);
    assert m[h := r] - {h} == m - {h};
  }

  lemma EdgesHas(m: Requests, h: Hash, p: Hash)
    requires h in m && p in m[h].parents
    ensures Edges(m)[p] > 0
  {
    EdgesWithout(m, h);
  }

  // ----- the invariant -----

  predicate Waiting(s: State, p: Hash) {
    p in s.requests && s.requests[p].kind.AsNode? && s.requests[p].data.Some?
  }

  /** What p needs is known, or is pending with p among its parents. */
  predicate Accounted(s: State, p: Hash, d: Hash) {
    Known(s, d) || (d in s.requests && p in s.requests[d].parents)
  }

  ghost predicate Settled(s: State, p: Hash, env: Env)
    requires Waiting(s, p)
  {
    forall d :: d in Wants(p, Blob(s.requests[p].data.value, s.requests[p].kind), env) ==> Accounted(s, p, d.hash)
  }

  ghost predicate AllWaiting(s: State, ps: seq<Hash>) {
    forall p :: p in ps ==> Waiting(s, p)
  }

  ghost predicate Linked(s: State) {
    forall h :: h in s.requests ==> h !in s.batch && AllWaiting(s, s.requests[h].parents)
  }

  ghost predicate Owing(s: State, owed: multiset<Hash>) {
    forall p :: p in owed ==> Waiting(s, p)
  }

  ghost predicate SumsTo(m: Requests, edges: multiset<Hash>, owed: multiset<Hash>) {
    forall p :: p in m ==> m[p].deps == edges[p] + owed[p]
  }

  ghost predicate SumAt(m: Requests, owed: multiset<Hash>, p: Hash)
    requires p in m
  {
    m[p].deps == Edges(m)[p] + owed[p]
  }

  ghost predicate Sums(m: Requests, owed: multiset<Hash>) {
    forall p {:trigger SumAt(m, owed, p)} :: p in m ==> SumAt(m, owed, p)
  }

  lemma SumsAll(m: Requests, owed: multiset<Hash>)
    ensures Sums(m, owed) <==> SumsTo(m, Edges(m), owed)
  {
    assert forall p :: p in m ==> (SumAt(m, owed, p) <==> m[p].deps == Edges(m)[p] + owed[p]);
  }

  /** Parents are pending and wait, and each deps counter is the number of references it awaits. */
  ghost predicate Counted(s: State, owed: multiset<Hash>) {
    Linked(s) && Owing(s, owed) && Sums(s.requests, owed)
  }

  /** Outside busy: all that a request wants is accounted for, and it awaits something unless it is idle. */
  ghost predicate Tended(s: State, busy: set<Hash>, idle: set<Hash>, env: Env) {
    && (forall p :: p in s.requests && p !in busy && p !in idle && s.requests[p].data.Some? ==> s.requests[p].deps > 0)
    && (forall p :: p !in busy && Waiting(s, p) ==> Settled(s, p, env))
  }

  /** Whatever a stored blob wanted is stored. */
  ghost predicate Closed(db: Blobs, env: Env) {
    forall h :: h in db ==> forall d :: d in Wants(h, db[h], env) ==> d.hash in db
  }

  /** Each batch entry wants only what is stored, or comes before it. */
  ghost predicate Ordered(s: State, env: Env) {
    && (forall h :: h in s.batch <==> h in s.order)
    && (forall i :: 0 <= i < |s.order| ==>
          forall d :: d in Wants(s.order[i], s.batch[s.order[i]], env) ==> d.hash in s.db || d.hash in s.order[..i])
  }

  /** Every pending or known hash of s is still pending or known in s'. */
  ghost predicate Tracks(s: State, s': State) {
    forall h :: h in s.requests || Known(s, h) ==> h in s'.requests || Known(s', h)
  }

  /** idle: the requests whose leaf callback failed before anything was asked for. */
  ghost predicate Inv(s: State, idle: set<Hash>, env: Env) {
    && Counted(s, multiset{})
    && Tended(s, {}, idle, env)
    && Ordered(s, env)
    && Closed(s.db, env)
  }

  // ----- scheduling -----

  predicate Kept(r: Request, r': Request) {
    && r'.kind == r.kind && r'.data == r.data && r'.deps >= r.deps
    && forall p :: p in r.parents ==> p in r'.parents
  }

  /** Only the requests changed, and no accounting was lost. */
  ghost predicate Grew(s: State, s': State) {
    && s'.db == s.db && s'.batch == s.batch && s'.order == s.order
    && (forall h :: h in s.requests ==> h in s'.requests && Kept(s.requests[h], s'.requests[h]))
    && (forall h :: h in s'.requests && h !in s.requests ==> s'.requests[h].data.None?)
  }

  lemma GrewTended(s: State, s': State, busy: set<Hash>, idle: set<Hash>, env: Env)
    requires Grew(s, s') && Tended(s, busy, idle, env)
    ensures Tended(s', busy, idle, env)
  {
    forall p | p !in busy && Waiting(s', p) ensures Settled(s', p, env) {
      assert Waiting(s, p) && Settled(s, p, env);
      GrewAccounted(s, s', p);
    }
  }

  lemma GrewAccounted(s: State, s': State, p: Hash)
    requires Grew(s, s')
    ensures forall d :: Accounted(s, p, d) ==> Accounted(s', p, d)
  {
  }

  lemma GrewLinked(s: State, s': State)
    requires Grew(s, s') && Linked(s)
    requires forall h :: h in s'.requests ==> h !in s'.batch
    requires forall h, p :: h in s'.requests && p in s'.requests[h].parents ==>
               Waiting(s, p) || (h in s.requests && p in s.requests[h].parents)
    ensures Linked(s')
  {
    forall h | h in s'.requests ensures AllWaiting(s', s'.requests[h].parents) {
      forall p | p in s'.requests[h].parents ensures Waiting(s', p) {
        assert h in s.requests ==> AllWaiting(s, s.requests[h].parents);
        assert Waiting(s, p) && Kept(s.requests[p], s'.requests[p]);
      }
    }
  }

  lemma AddToDepsCounted(s: State, p: Hash, n: nat, owed: multiset<Hash>)
    requires Counted(s, owed) && Waiting(s, p)
    ensures Counted(AddToDeps(s, p, n), owed[p := owed[p] + n])
    ensures Grew(s, AddToDeps(s, p, n))
  {
    var s' := AddToDeps(s, p, n);
    AddToDepsLinked(s, p, n);
    EdgesSame(s.requests, p, s'.requests[p]);
    SumsAll(s.requests, owed);
    AddToDepsSums(s.requests, p, n, Edges(s.requests), owed);
    SumsAll(s'.requests, owed[p := owed[p] + n]);
    OwedMore(s, s', p, n, owed);
  }

  lemma OwedMore(s: State, s': State, p: Hash, n: nat, owed: multiset<Hash>)
    requires Grew(s, s') && Waiting(s, p) && Owing(s, owed)
    ensures Owing(s', owed[p := owed[p] + n])
  {
    forall q | q in owed[p := owed[p] + n] ensures Waiting(s', q) {
      assert q == p || q in owed;
      GrewWaiting(s, s', q);
    }
  }

  lemma GrewWaiting(s: State, s': State, p: Hash)
    requires Grew(s, s') && Waiting(s, p)
    ensures Waiting(s', p)
  {
    assert Kept(s.requests[p], s'.requests[p]);
  }

  lemma AddToDepsLinked(s: State, p: Hash, n: nat)
    requires Linked(s) && p in s.requests
    ensures Linked(AddToDeps(s, p, n)) && Grew(s, AddToDeps(s, p, n))
  {
    GrewLinked(s, AddToDeps(s, p, n));
  }

  lemma EdgesSame(m: Requests, h: Hash, r: Request)
    requires h in m && r.parents == m[h].parents
    ensures Edges(m[h := r]) == Edges(m)
  {
    EdgesMore(m, h, r, multiset{});
  }

  lemma AddToDepsSums(m: Requests, p: Hash, n: nat, edges: multiset<Hash>, owed: multiset<Hash>)
    requires p in m && SumsTo(m, edges, owed)
    ensures SumsTo(m[p := m[p].(deps := m[p].deps + n)], edges, owed[p := owed[p] + n])
  {
  }

  /** Scheduling turns owed references into recorded ones. */
  lemma ScheduleCounted(s: State, h: Hash, r: Request, owed: multiset<Hash>)
    requires Counted(s, owed + multiset(r.parents)) && h !in s.batch
    requires r.data.None? && r.deps == 0
    ensures Counted(Schedule(s, h, r), owed)
    ensures Grew(s, Schedule(s, h, r)) && forall p :: p in r.parents ==> Accounted(Schedule(s, h, r), p, h)
  {
    var s' := Schedule(s, h, r);
    ScheduleLinked(s, h, r, owed);
    if h !in s.requests { NoReferences(s, h, owed + multiset(r.parents)); }
    EdgesMore(s.requests, h, s'.requests[h], multiset(r.parents));
    SumsAll(s.requests, owed + multiset(r.parents));
    ScheduleSums(s.requests, h, r, s'.requests, Edges(s.requests), owed);
    SumsAll(s'.requests, owed);
  }

  lemma ScheduleLinked(s: State, h: Hash, r: Request, owed: multiset<Hash>)
    requires Linked(s) && Owing(s, owed + multiset(r.parents))
    requires h !in s.batch && r.data.None? && r.deps == 0
    ensures var s' := Schedule(s, h, r);
            && Linked(s') && Grew(s, s') && Owing(s', owed)
            && forall p :: p in r.parents ==> Accounted(s', p, h)
  {
    var s' := Schedule(s, h, r);
    assert Grew(s, s');
    forall p | p in r.parents ensures Waiting(s, p) { assert p in owed + multiset(r.parents); }
    forall p | p in owed ensures Waiting(s, p) { assert p in owed + multiset(r.parents); }
    GrewLinked(s, s');
  }

  lemma EdgesMore(m: Requests, h: Hash, r: Request, more: multiset<Hash>)
    requires multiset(r.parents) == (if h in m then multiset(m[h].parents) else multiset{}) + more
    ensures Edges(m[h := r]) == Edges(m) + more
  {
    if h in m {
      EdgesUpdate(m, h, r);
      Cancel(Edges(m[h := r]), Edges(m) + more, multiset(m[h].parents));
    } else {
      EdgesAdd(m, h, r);
    }
  }

  lemma Cancel(a: multiset<Hash>, b: multiset<Hash>, c: multiset<Hash>)
    requires a + c == b + c
    ensures a == b
  {
    forall x ensures a[x] == b[x] { assert (a + c)[x] == (b + c)[x]; }
  }

  lemma ScheduleSums(m: Requests, h: Hash, r: Request, m': Requests, edges: multiset<Hash>, owed: multiset<Hash>)
    requires SumsTo(m, edges, owed + multiset(r.parents)) && r.deps == 0
    requires h !in m ==> edges[h] == 0 && (owed + multiset(r.parents))[h] == 0
    requires m' == if h in m then m[h := m[h].(parents := m[h].parents + r.parents)] else m[h := r]
    ensures SumsTo(m', edges + multiset(r.parents), owed)
  {
  }

  /** Nothing refers to a hash that is not pending. */
  lemma NoReferences(s: State, h: Hash, owed: multiset<Hash>)
    requires Counted(s, owed) && h !in s.requests
    ensures Edges(s.requests)[h] == 0 && owed[h] == 0
  {
    assert h !in owed;
    assert forall g :: g in s.requests ==> AllWaiting(s, s.requests[g].parents) && h !in s.requests[g].parents;
    if Edges(s.requests)[h] > 0 {
      var g := EdgeFrom(s.requests, h);
      assert false;
    }
  }

  /** Every reference comes from some pending request. */
  lemma {:induction false} EdgeFrom(m: Requests, p: Hash) returns (g: Hash)
    requires Edges(m)[p] > 0
    ensures g in m && p in m[g].parents
    decreases |m|
  {
    g :| g in m && Edges(m) == multiset(m[g].parents) + Edges(m - {g});
    if p !in m[g].parents {
      Smaller(m, g);
      g := EdgeFrom(m - {g}, p);
    }
  }

  lemma AddRootCounted(s: State, d: Dep, env: Env)
    requires Counted(s, multiset{})
    ensures Counted(AddRoot(s, d, env), multiset{}) && Grew(s, AddRoot(s, d, env))
  {
    if !Skips(s, d, env) {
      var r := Request(KindOf(d), None, [], d.depth, 0);
      assert multiset{} + multiset(r.parents) == multiset{};
      ScheduleCounted(s, d.hash, r, multiset{});
    }
  }

  lemma AddDepCounted(s: State, d: Dep, p: Hash, env: Env)
    requires Counted(s, multiset{}) && Waiting(s, p)
    ensures var s' := AddDep(s, d, p, env);
            Counted(s', multiset{}) && Grew(s, s') && (d.hash == EmptyHash(d, env) || Accounted(s', p, d.hash))
  {
    if !Skips(s, d, env) {
      AddToDepsCounted(s, p, 1, multiset{});
      var r := Request(KindOf(d), None, [p], d.depth, 0);
      assert multiset{}[p := multiset{}[p] + 1] == multiset{} + multiset(r.parents);
      ScheduleCounted(AddToDeps(s, p, 1), d.hash, r, multiset{});
    }
  }

  lemma {:induction false} AddDepsCounted(s: State, ds: seq<Dep>, p: Hash, env: Env)
    requires Counted(s, multiset{}) && Waiting(s, p)
    ensures var s' := AddDeps(s, ds, p, env);
            Counted(s', multiset{}) && Grew(s, s') && forall d :: d in DepNeeds(ds, env) ==> Accounted(s', p, d.hash)
    decreases |ds|
  {
    if ds != [] {
      var s1 := AddDep(s, ds[0], p, env);
      AddDepCounted(s, ds[0], p, env);
      AddDepsCounted(s1, ds[1..], p, env);
      GrewAccounted(s1, AddDeps(s, ds, p, env), p);
    }
  }

  /** A scan: what was asked for is accounted for, and if it finished, each need is accounted for or listed as missing. */
  ghost predicate Scanned(s: State, r: Scan, p: Hash, needs: seq<Need>, asked: seq<Need>) {
    && Counted(r.state, multiset{}) && Grew(s, r.state)
    && (forall h :: h in r.missing ==> h !in s.batch)
    && (r.ok ==> forall d :: d in needs ==> d.hash in r.missing || Accounted(r.state, p, d.hash))
    && (forall d :: d in asked ==> Accounted(r.state, p, d.hash))
  }

  lemma {:induction false} ScanCounted(s: State, kids: seq<Node>, p: Hash, callback: Option<nat>, env: Env)
    requires Counted(s, multiset{}) && Waiting(s, p)
    ensures Scanned(s, ScanKids(s, kids, p, callback, env), p, KidsNeeds(kids, callback, env), Registered(kids, callback, env))
    decreases |kids|
  {
    if kids == [] {
    } else {
      var first := VisitKid(s, kids[0], p, callback, env);
      VisitCounted(s, kids[0], p, callback, env);
      if first.ok {
        ScanCounted(first.state, kids[1..], p, callback, env);
        ScanAfter(s, first, ScanKids(first.state, kids[1..], p, callback, env), p,
                  KidNeeds(kids[0], callback, env), KidsNeeds(kids[1..], callback, env),
                  Asked(kids[0], callback, env), Registered(kids[1..], callback, env));
      } else {
        ScanFailed(s, first, p, KidNeeds(kids[0], callback, env), KidsNeeds(kids, callback, env), Asked(kids[0], callback, env));
      }
    }
  }

  function Asked(kid: Node, callback: Option<nat>, env: Env): seq<Need> {
    if kid.ValueNode? then KidNeeds(kid, callback, env) else []
  }

  lemma LeafCounted(s: State, leaf: Bytes, p: Hash, callback: nat, env: Env)
    requires Counted(s, multiset{}) && Waiting(s, p)
    ensures var deps := env.onLeaf(callback, leaf).deps;
            var s' := AddDeps(s, deps, p, env);
            Counted(s', multiset{}) && Grew(s, s') && Waiting(s', p) && forall d :: d in DepNeeds(deps, env) ==> Accounted(s', p, d.hash)
  {
    var deps := env.onLeaf(callback, leaf).deps;
    AddDepsCounted(s, deps, p, env);
    GrewWaiting(s, AddDeps(s, deps, p, env), p);
  }

  lemma GrewSame(s: State)
    ensures Grew(s, s)
  {
  }

  /** After one child, all it asks for is accounted for or missing. */
  lemma VisitCounted(s: State, kid: Node, p: Hash, callback: Option<nat>, env: Env)
    requires Counted(s, multiset{}) && Waiting(s, p)
    ensures var r := VisitKid(s, kid, p, callback, env);
            Scanned(s, r, p, KidNeeds(kid, callback, env), Asked(kid, callback, env)) && Waiting(r.state, p)
  {
    if kid.ValueNode? && callback.Some? { LeafCounted(s, kid.value, p, callback.value, env); } else { GrewSame(s); }
  }

  lemma ScanFailed(s: State, r: Scan, p: Hash, needs: seq<Need>, more: seq<Need>, asked: seq<Need>)
    requires Scanned(s, r, p, needs, asked) && !r.ok
    ensures Scanned(s, r, p, more, asked)
  {
  }

  lemma ScanAfter(s: State, first: Scan, rest: Scan, p: Hash, needs: seq<Need>, more: seq<Need>, asked: seq<Need>, askedMore: seq<Need>)
    requires Scanned(s, first, p, needs, asked) && first.ok && Scanned(first.state, rest, p, more, askedMore)
    ensures Scanned(s, rest.(missing := first.missing + rest.missing), p, needs + more, asked + askedMore)
  {
    GrewAccounted(first.state, rest.state, p);
    GrewTransitive(s, first.state, rest.state);
  }

  /** A scan finishes exactly if no leaf callback fails. */
  lemma {:induction false} ScanOk(s: State, kids: seq<Node>, p: Hash, callback: Option<nat>, env: Env)
    requires p in s.requests
    ensures ScanKids(s, kids, p, callback, env).ok <==> LeavesSucceed(kids, callback, env)
    decreases |kids|
  {
    if kids != [] {
      var first := VisitKid(s, kids[0], p, callback, env);
      assert kids[0] in kids && first.ok == LeafSucceeds(kids[0], callback, env);
      if first.ok {
        ScanOk(first.state, kids[1..], p, callback, env);
        assert forall kid :: kid in kids <==> kid == kids[0] || kid in kids[1..];
      }
    }
  }

  lemma GrewTransitive(s: State, s1: State, s2: State)
    requires Grew(s, s1) && Grew(s1, s2)
    ensures Grew(s, s2)
  {
    forall h | h in s.requests ensures h in s2.requests && Kept(s.requests[h], s2.requests[h]) {
      assert Kept(s.requests[h], s1.requests[h]) && Kept(s1.requests[h], s2.requests[h]);
    }
  }

  ghost predicate Scheduled(s: State, s': State, hs: seq<Hash>, p: Hash) {
    Counted(s', multiset{}) && Grew(s, s') && forall h :: h in hs ==> Accounted(s', p, h)
  }

  lemma {:induction false} ScheduleAllCounted(s: State, hs: seq<Hash>, p: Hash, depth: nat, callback: Option<nat>)
    requires Counted(s, multiset{}[p := |hs|]) && forall h :: h in hs ==> h !in s.batch
    ensures Scheduled(s, ScheduleAll(s, hs, p, depth, callback), hs, p)
    decreases |hs|
  {
    if hs == [] {
      assert multiset{}[p := 0] == multiset{};
    } else {
      var r := Request(AsNode(callback), None, [p], depth, 0);
      var s1 := Schedule(s, hs[0], r);
      assert multiset{}[p := |hs|] == multiset{}[p := |hs| - 1] + multiset(r.parents);
      ScheduleCounted(s, hs[0], r, multiset{}[p := |hs| - 1]);
      ScheduleAllCounted(s1, hs[1..], p, depth, callback);
      ScheduledMore(s, s1, ScheduleAll(s1, hs[1..], p, depth, callback), hs, p);
    }
  }

  lemma ScheduledMore(s: State, s1: State, s2: State, hs: seq<Hash>, p: Hash)
    requires hs != [] && Grew(s, s1) && Accounted(s1, p, hs[0]) && Scheduled(s1, s2, hs[1..], p)
    ensures Scheduled(s, s2, hs, p)
  {
    GrewTransitive(s, s1, s2);
    GrewAccounted(s1, s2, p);
  }

  // ----- committing -----

  /** A request that awaits nothing is the parent of nothing. */
  lemma NotAParent(s: State, h: Hash, owed: multiset<Hash>)
    requires Counted(s, owed) && h in s.requests && s.requests[h].deps == 0
    ensures owed[h] == 0 && forall g :: g in s.requests ==> h !in s.requests[g].parents
  {
    SumsAll(s.requests, owed);
    forall g | g in s.requests ensures h !in s.requests[g].parents {
      if h in s.requests[g].parents { EdgesHas(s.requests, g, h); }
    }
  }

  lemma FinishCounted(s: State, h: Hash, owed: multiset<Hash>)
    requires Counted(s, owed) && h in s.requests && s.requests[h].deps == 0
    ensures Counted(Finish(s, h), owed + multiset(s.requests[h].parents))
  {
    NotAParent(s, h, owed);
    FinishLinked(s, h, owed);
    EdgesWithout(s.requests, h);
    SumsAll(s.requests, owed);
    FinishSums(s.requests, h, Edges(s.requests - {h}), owed);
    SumsAll(s.requests - {h}, owed + multiset(s.requests[h].parents));
  }

  lemma FinishLinked(s: State, h: Hash, owed: multiset<Hash>)
    requires Linked(s) && Owing(s, owed) && h in s.requests
    requires owed[h] == 0 && forall g :: g in s.requests ==> h !in s.requests[g].parents
    ensures Linked(Finish(s, h)) && Owing(Finish(s, h), owed + multiset(s.requests[h].parents))
  {
    var s' := Finish(s, h);
    forall g | g in s.requests ensures AllWaiting(s', s.requests[g].parents) {
      assert AllWaiting(s, s.requests[g].parents);
    }
    forall p | p in owed + multiset(s.requests[h].parents) ensures Waiting(s', p) {
      assert p in owed || p in s.requests[h].parents;
    }
  }

  lemma FinishSums(m: Requests, h: Hash, edges: multiset<Hash>, owed: multiset<Hash>)
    requires h in m && SumsTo(m, multiset(m[h].parents) + edges, owed)
    ensures SumsTo(m - {h}, edges, owed + multiset(m[h].parents))
  {
  }

  lemma FinishTended(s: State, h: Hash, idle: set<Hash>, env: Env)
    requires Tended(s, {h}, idle, env) && h in s.requests
    ensures Tended(Finish(s, h), {}, idle, env) && Tracks(s, Finish(s, h))
  {
    var s' := Finish(s, h);
    forall p | Waiting(s', p) ensures Settled(s', p, env) {
      assert Waiting(s, p) && Settled(s, p, env);
      assert forall d :: Accounted(s, p, d) ==> Accounted(s', p, d);
    }
  }

  ghost predicate MayCommit(s: State, h: Hash, env: Env) {
    h in s.requests && s.requests[h].data.Some? && s.requests[h].deps == 0 && (Waiting(s, h) ==> Settled(s, h, env))
  }

  lemma FinishOrdered(s: State, h: Hash, owed: multiset<Hash>, env: Env)
    requires Counted(s, owed) && Ordered(s, env) && MayCommit(s, h, env)
    ensures Ordered(Finish(s, h), env)
  {
    var s' := Finish(s, h);
    NotAParent(s, h, owed);
    assert h !in s.batch;
    assert forall d :: Accounted(s, h, d) ==> d in s.db || d in s.order;
    forall i | 0 <= i < |s'.order|
      ensures forall d :: d in Wants(s'.order[i], s'.batch[s'.order[i]], env) ==> d.hash in s'.db || d.hash in s'.order[..i]
    {
      if i < |s.order| {
        assert s'.order[i] == s.order[i] && s.order[i] in s.batch && s'.order[..i] == s.order[..i];
      } else {
        assert s'.order[..i] == s.order;
      }
    }
  }

  ghost predicate Good(s: State, owed: multiset<Hash>, busy: set<Hash>, idle: set<Hash>, env: Env) {
    Counted(s, owed) && Tended(s, busy, idle, env) && Ordered(s, env)
  }

  /** s' is good, has the same database, and forgets no hash of s. */
  ghost predicate Leads(s: State, s': State, owed: multiset<Hash>, busy: set<Hash>, idle: set<Hash>, env: Env) {
    Good(s', owed, busy, idle, env) && s'.db == s.db && Tracks(s, s')
  }

  lemma {:induction false} CommitGood(s: State, h: Hash, owed: multiset<Hash>, idle: set<Hash>, env: Env)
    requires Good(s, owed, {h}, idle, env) && MayCommit(s, h, env)
    ensures Leads(s, CommitRequest(s, h), owed, {}, idle, env)
    decreases |s.requests|, 0
  {
    FinishCounted(s, h, owed);
    FinishTended(s, h, idle, env);
    FinishOrdered(s, h, owed, env);
    NotifyGood(Finish(s, h), s.requests[h].parents, owed, idle, env);
  }

  lemma {:induction false} NotifyGood(s: State, parents: seq<Hash>, owed: multiset<Hash>, idle: set<Hash>, env: Env)
    requires Good(s, owed + multiset(parents), {}, idle, env)
    ensures Leads(s, Notify(s, parents), owed, {}, idle, env)
    decreases |s.requests|, 1, |parents|
  {
    if parents == [] {
      assert owed + multiset(parents) == owed;
    } else {
      var p := parents[0];
      assert multiset(parents) == multiset{p} + multiset(parents[1..]) by { assert parents == [p] + parents[1..]; }
      var owed' := owed + multiset(parents[1..]);
      assert owed + multiset(parents) == owed' + multiset{p};
      var s1 := ReleaseGood(s, p, owed', idle, env);
      if s1.requests[p].deps == 0 {
        CommitGood(s1, p, owed', idle, env);
        NotifyGood(CommitRequest(s1, p), parents[1..], owed, idle, env);
      } else {
        NotifyGood(s1, parents[1..], owed, idle, env);
      }
    }
  }

  /** Taking one reference off a parent leaves it waiting for the rest, or ready to commit. */
  lemma ReleaseGood(s: State, p: Hash, owed: multiset<Hash>, idle: set<Hash>, env: Env) returns (s': State)
    requires Good(s, owed + multiset{p}, {}, idle, env)
    ensures p in s.requests && s' == AddToDeps(s, p, -1)
    ensures |s'.requests| == |s.requests| && Tracks(s, s') && s'.db == s.db
    ensures Good(s', owed, {p}, idle, env)
    ensures if s'.requests[p].deps == 0 then MayCommit(s', p, env) else Good(s', owed, {}, idle, env)
  {
    assert p in owed + multiset{p};
    assert Waiting(s, p);
    s' := AddToDeps(s, p, -1);
    SameSize(s.requests, p, s'.requests[p]);
    ReleaseCounted(s, p, owed);
    ReleaseTended(s, p, idle, env);
  }

  lemma ReleaseCounted(s: State, p: Hash, owed: multiset<Hash>)
    requires Counted(s, owed + multiset{p}) && Waiting(s, p)
    ensures Counted(AddToDeps(s, p, -1), owed) && AddToDeps(s, p, -1).requests[p].deps >= 0
  {
    var s' := AddToDeps(s, p, -1);
    ReleaseLinked(s, p, owed);
    EdgesSame(s.requests, p, s'.requests[p]);
    SumsAll(s.requests, owed + multiset{p});
    ReleaseSums(s.requests, p, Edges(s.requests), owed);
    SumsAll(s'.requests, owed);
  }

  lemma ReleaseLinked(s: State, p: Hash, owed: multiset<Hash>)
    requires Linked(s) && Owing(s, owed + multiset{p}) && Waiting(s, p)
    ensures Linked(AddToDeps(s, p, -1)) && Owing(AddToDeps(s, p, -1), owed)
  {
    var s' := AddToDeps(s, p, -1);
    forall g | g in s'.requests ensures AllWaiting(s', s'.requests[g].parents) {
      assert AllWaiting(s, s.requests[g].parents);
    }
    forall q | q in owed ensures Waiting(s', q) { assert q in owed + multiset{p}; }
  }

  lemma ReleaseSums(m: Requests, p: Hash, edges: multiset<Hash>, owed: multiset<Hash>)
    requires p in m && SumsTo(m, edges, owed + multiset{p})
    ensures SumsTo(m[p := m[p].(deps := m[p].deps + -1)], edges, owed) && m[p].deps > 0
  {
  }

  lemma ReleaseTended(s: State, p: Hash, idle: set<Hash>, env: Env)
    requires Tended(s, {}, idle, env) && Waiting(s, p)
    ensures var s' := AddToDeps(s, p, -1);
            && Tended(s', {p}, idle, env) && Settled(s', p, env)
            && (s'.requests[p].deps > 0 ==> Tended(s', {}, idle, env))
  {
    var s' := AddToDeps(s, p, -1);
    forall q | Waiting(s', q) ensures Settled(s', q, env) {
      assert Waiting(s, q) && Settled(s, q, env);
      assert forall d :: Accounted(s, q, d) ==> Accounted(s', q, d);
    }
  }

  // ----- one delivered result -----

  /** A request whose callback failed is idle if it awaits nothing. */
  function IdleBy(idle: set<Hash>, h: Hash, s: State, outcome: Outcome): set<Hash> {
    if outcome.LeafError? && h in s.requests && s.requests[h].deps == 0 then idle + {h} else idle
  }

  lemma WithDataGood(s: State, h: Hash, data: Item, idle: set<Hash>, env: Env)
    requires Good(s, multiset{}, {}, idle, env) && h in s.requests && s.requests[h].data.None?
    ensures Good(WithData(s, h, data), multiset{}, {h}, idle, env)
  {
    var s' := WithData(s, h, data);
    WithDataCounted(s, h, data);
    forall q | Waiting(s', q) && q != h ensures Settled(s', q, env) {
      assert Waiting(s, q) && Settled(s, q, env);
      assert forall d :: Accounted(s, q, d) ==> Accounted(s', q, d);
    }
  }

  lemma WithDataCounted(s: State, h: Hash, data: Item)
    requires Counted(s, multiset{}) && h in s.requests && s.requests[h].data.None?
    ensures Counted(WithData(s, h, data), multiset{})
  {
    var s' := WithData(s, h, data);
    WithDataLinked(s, h, data);
    EdgesSame(s.requests, h, s'.requests[h]);
    SumsAll(s.requests, multiset{});
    SumsAll(s'.requests, multiset{});
  }

  lemma WithDataLinked(s: State, h: Hash, data: Item)
    requires Linked(s) && h in s.requests && s.requests[h].data.None?
    ensures Linked(WithData(s, h, data)) && Owing(WithData(s, h, data), multiset{})
  {
    var s' := WithData(s, h, data);
    forall g | g in s'.requests ensures AllWaiting(s', s'.requests[g].parents) {
      assert AllWaiting(s, s.requests[g].parents);
    }
  }

  /** A raw entry is nobody's parent, so it awaits nothing. */
  lemma RawAwaitsNothing(s: State, h: Hash)
    requires Counted(s, multiset{}) && h in s.requests && !Waiting(s, h)
    ensures s.requests[h].deps == 0
  {
    SumsAll(s.requests, multiset{});
    assert h !in multiset{};
    assert forall g :: g in s.requests ==> AllWaiting(s, s.requests[g].parents) && h !in s.requests[g].parents;
    if Edges(s.requests)[h] > 0 {
      var g := EdgeFrom(s.requests, h);
      assert false;
    }
  }

  lemma DeliverGood(s: State, h: Hash, data: Item, idle: set<Hash>, env: Env)
    requires Good(s, multiset{}, {}, idle, env)
    ensures var r := Deliver(s, h, data, env); Leads(s, r.0, multiset{}, {}, IdleBy(idle, h, r.0, r.1), env)
  {
    if h !in s.requests || s.requests[h].data.Some? {
    } else if s.requests[h].kind.Raw? {
      DeliverRaw(s, h, data, idle, env);
    } else {
      DeliverNode(s, h, data, idle, env);
    }
  }

  lemma DeliverRaw(s: State, h: Hash, data: Item, idle: set<Hash>, env: Env)
    requires Good(s, multiset{}, {}, idle, env)
    requires h in s.requests && s.requests[h].data.None? && s.requests[h].kind.Raw?
    ensures Leads(s, CommitRequest(WithData(s, h, data), h), multiset{}, {}, idle, env)
  {
    var s1 := WithData(s, h, data);
    WithDataGood(s, h, data, idle, env);
    RawGood(s1, h, idle, env);
    LeadsFrom(s, s1, CommitRequest(s1, h), idle, env);
  }

  lemma DeliverNode(s: State, h: Hash, data: Item, idle: set<Hash>, env: Env)
    requires Good(s, multiset{}, {}, idle, env)
    requires h in s.requests && s.requests[h].data.None? && s.requests[h].kind.AsNode?
    ensures var r := Deliver(s, h, data, env); Leads(s, r.0, multiset{}, {}, IdleBy(idle, h, r.0, r.1), env)
  {
    var n := Decode(Some(h), data);
    if n.Some? {
      var s1 := WithData(s, h, data);
      WithDataGood(s, h, data, idle, env);
      ExpandGood(s1, h, data, n.value, idle, env);
      var r := Expand(s1, h, n.value, env);
      LeadsFrom(s, s1, r.0, IdleBy(idle, h, r.0, r.1), env);
    }
  }

  lemma RawGood(s: State, h: Hash, idle: set<Hash>, env: Env)
    requires Good(s, multiset{}, {h}, idle, env)
    requires h in s.requests && s.requests[h].data.Some? && s.requests[h].kind.Raw?
    ensures Leads(s, CommitRequest(s, h), multiset{}, {}, idle, env)
  {
    RawAwaitsNothing(s, h);
    CommitGood(s, h, multiset{}, idle, env);
  }

  lemma LeadsFrom(s: State, s1: State, s2: State, idle: set<Hash>, env: Env)
    requires s1.db == s.db && Tracks(s, s1) && Leads(s1, s2, multiset{}, {}, idle, env)
    ensures Leads(s, s2, multiset{}, {}, idle, env)
  {
  }

  /** The state after a scan: ready to commit, to wait, or to give up. */
  lemma ScanGood(s: State, h: Hash, data: Item, n: Node, idle: set<Hash>, env: Env) returns (scan: Scan)
    requires Good(s, multiset{}, {h}, idle, env) && Waiting(s, h)
    requires s.requests[h].data == Some(data) && Decode(Some(h), data) == Some(n)
    ensures scan == ScanKids(s, Kids(n), h, s.requests[h].kind.callback, env)
    ensures Leads(s, scan.state, multiset{}, {h}, idle, env) && Waiting(scan.state, h)
    ensures scan.state.requests[h].data == Some(data) && scan.state.requests[h].kind == s.requests[h].kind
    ensures forall m :: m in scan.missing ==> m !in scan.state.batch
    ensures forall d :: d in Wants(h, Blob(data, s.requests[h].kind), env) ==>
              (scan.ok && d.hash in scan.missing) || Accounted(scan.state, h, d.hash)
  {
    var callback := s.requests[h].kind.callback;
    scan := ScanKids(s, Kids(n), h, callback, env);
    ScanCounted(s, Kids(n), h, callback, env);
    ScanOk(s, Kids(n), h, callback, env);
    GrewTended(s, scan.state, {h}, idle, env);
    GrewWaiting(s, scan.state, h);
    assert Kept(s.requests[h], scan.state.requests[h]);
  }

  lemma ExpandGood(s: State, h: Hash, data: Item, n: Node, idle: set<Hash>, env: Env)
    requires Good(s, multiset{}, {h}, idle, env) && Waiting(s, h)
    requires s.requests[h].data == Some(data) && Decode(Some(h), data) == Some(n)
    ensures var r := Expand(s, h, n, env); Leads(s, r.0, multiset{}, {}, IdleBy(idle, h, r.0, r.1), env)
  {
    var scan := ScanGood(s, h, data, n, idle, env);
    if !scan.ok {
      assert Expand(s, h, n, env) == (scan.state, LeafError);
      GivenUp(s, scan.state, h, idle, env);
    } else if scan.missing == [] && scan.state.requests[h].deps == 0 {
      assert Expand(s, h, n, env) == (CommitRequest(scan.state, h), Delivered(true));
      ExpandCommits(s, scan.state, h, idle, env);
    } else {
      ExpandAwaits(s, scan, h, KidDepth(n, s.requests[h].depth), s.requests[h].kind.callback, idle, env);
    }
  }

  /** A failed callback leaves the request waiting for what was registered, or idle. */
  lemma GivenUp(s: State, s1: State, h: Hash, idle: set<Hash>, env: Env)
    requires Leads(s, s1, multiset{}, {h}, idle, env) && Waiting(s1, h) && Settled(s1, h, env)
    ensures Leads(s, s1, multiset{}, {}, if s1.requests[h].deps == 0 then idle + {h} else idle, env)
  {
    SumsAll(s1.requests, multiset{});
  }

  lemma ExpandCommits(s: State, s1: State, h: Hash, idle: set<Hash>, env: Env)
    requires Leads(s, s1, multiset{}, {h}, idle, env) && Waiting(s1, h)
    requires s1.requests[h].deps == 0 && Settled(s1, h, env)
    ensures Leads(s, CommitRequest(s1, h), multiset{}, {}, idle, env)
  {
    CommitGood(s1, h, multiset{}, idle, env);
    LeadsFrom(s, s1, CommitRequest(s1, h), idle, env);
  }

  lemma ExpandAwaits(s: State, scan: Scan, h: Hash, depth: nat, callback: Option<nat>, idle: set<Hash>, env: Env)
    requires Leads(s, scan.state, multiset{}, {h}, idle, env) && Waiting(scan.state, h)
    requires forall m :: m in scan.missing ==> m !in scan.state.batch
    requires scan.missing != [] || scan.state.requests[h].deps != 0
    requires forall d :: d in Wants(h, Blob(scan.state.requests[h].data.value, scan.state.requests[h].kind), env) ==>
               d.hash in scan.missing || Accounted(scan.state, h, d.hash)
    ensures Leads(s, ScheduleAll(AddToDeps(scan.state, h, |scan.missing|), scan.missing, h, depth, callback), multiset{}, {}, idle, env)
  {
    AwaitGood(scan.state, scan.missing, h, depth, callback, idle, env);
    LeadsFrom(s, scan.state, ScheduleAll(AddToDeps(scan.state, h, |scan.missing|), scan.missing, h, depth, callback), idle, env);
  }

  /** Waiting for the missing children. */
  lemma AwaitGood(s: State, missing: seq<Hash>, h: Hash, depth: nat, callback: Option<nat>, idle: set<Hash>, env: Env)
    requires Good(s, multiset{}, {h}, idle, env) && Waiting(s, h)
    requires forall m :: m in missing ==> m !in s.batch
    requires missing != [] || s.requests[h].deps != 0
    requires forall d :: d in Wants(h, Blob(s.requests[h].data.value, s.requests[h].kind), env) ==>
               d.hash in missing || Accounted(s, h, d.hash)
    ensures Leads(s, ScheduleAll(AddToDeps(s, h, |missing|), missing, h, depth, callback), multiset{}, {}, idle, env)
  {
    var s1 := AddToDeps(s, h, |missing|);
    var s' := ScheduleAll(s1, missing, h, depth, callback);
    AddToDepsCounted(s, h, |missing|, multiset{});
    ScheduleAllCounted(s1, missing, h, depth, callback);
    GrewTransitive(s, s1, s');
    SumsAll(s.requests, multiset{});
    AwaitTended(s, s1, s', missing, h, idle, env);
  }

  lemma AwaitTended(s: State, s1: State, s': State, missing: seq<Hash>, h: Hash, idle: set<Hash>, env: Env)
    requires Tended(s, {h}, idle, env) && Grew(s, s') && Grew(s1, s') && Waiting(s, h)
    requires h in s1.requests && s1.requests[h].deps > 0
    requires forall m :: m in missing ==> Accounted(s', h, m)
    requires forall d :: d in Wants(h, Blob(s.requests[h].data.value, s.requests[h].kind), env) ==>
               d.hash in missing || Accounted(s, h, d.hash)
    ensures Tended(s', {}, idle, env)
  {
    GrewTended(s, s', {h}, idle, env);
    GrewAccounted(s, s', h);
    assert Kept(s.requests[h], s'.requests[h]) && Kept(s1.requests[h], s'.requests[h]);
  }

  // ----- flushing -----

  lemma {:induction false} WrittenAt(db: Blobs, batch: Blobs, order: seq<Hash>, h: Hash)
    requires forall g :: g in order ==> g in batch
    ensures h in Written(db, batch, order) <==> h in db || h in order
    ensures h in order ==> Written(db, batch, order)[h] == batch[h]
    ensures h in db && h !in order ==> Written(db, batch, order)[h] == db[h]
    decreases |order|
  {
    if order != [] {
      WrittenAt(db[order[0] := batch[order[0]]], batch, order[1..], h);
    }
  }

  /** However far a flush got, the database is closed. */
  lemma FlushClosed(s: State, n: nat, env: Env)
    requires Ordered(s, env) && Closed(s.db, env) && n <= |s.order|
    ensures Closed(Flush(s, n).db, env)
  {
    var done := s.order[..n];
    var db := Written(s.db, s.batch, done);
    forall h ensures h in db <==> h in s.db || h in done { WrittenAt(s.db, s.batch, done, h); }
    forall h | h in db ensures forall d :: d in Wants(h, db[h], env) ==> d.hash in db {
      WrittenAt(s.db, s.batch, done, h);
      if h in done {
        var i :| 0 <= i < n && done[i] == h;
        assert s.order[i] == h && forall x :: x in s.order[..i] ==> x in done;
      }
    }
  }

  lemma FlushInv(s: State, n: nat, idle: set<Hash>, env: Env)
    requires Inv(s, idle, env) && n <= |s.order|
    ensures Inv(Flush(s, n), idle, env) && Tracks(s, Flush(s, n))
  {
    var s' := Flush(s, n);
    FlushClosed(s, n, env);
    assert s.order[..|s.order|] == s.order;
    forall h ensures h in s'.db <==> h in s.db || h in s.order[..n] { WrittenAt(s.db, s.batch, s.order[..n], h); }
    assert forall h :: Known(s, h) ==> Known(s', h);
    assert Counted(s', multiset{}) by {
      forall g | g in s'.requests ensures AllWaiting(s', s'.requests[g].parents) {
        assert AllWaiting(s, s.requests[g].parents);
      }
    }
    forall q | Waiting(s', q) ensures Settled(s', q, env) {
      assert Waiting(s, q) && Settled(s, q, env);
      assert forall d :: Accounted(s, q, d) ==> Accounted(s', q, d);
    }
  }

  // ----- runs -----

  datatype Step = Add(dep: Dep) | Result(hash: Hash, data: Item) | Write(entries: nat)

  datatype Run = Run(state: State, idle: set<Hash>)

  function Take(r: Run, step: Step, env: Env): Run {
    match step
    case Add(d) => r.(state := AddRoot(r.state, d, env))
    case Result(h, data) =>
      var (s', outcome) := Deliver(r.state, h, data, env);
      Run(s', IdleBy(r.idle, h, s', outcome))
    case Write(n) => r.(state := Flush(r.state, if n <= |r.state.order| then n else |r.state.order|))
  }

  /** Every step keeps the invariant, and forgets no hash. */
  lemma StepInv(r: Run, step: Step, env: Env)
    requires Inv(r.state, r.idle, env)
    ensures var r' := Take(r, step, env); Inv(r'.state, r'.idle, env) && Tracks(r.state, r'.state) && r.idle <= r'.idle
  {
    match step
    case Add(d) =>
      AddRootCounted(r.state, d, env);
      GrewTended(r.state, AddRoot(r.state, d, env), {}, r.idle, env);
    case Result(h, data) =>
      DeliverGood(r.state, h, data, r.idle, env);
    case Write(n) =>
      FlushInv(r.state, if n <= |r.state.order| then n else |r.state.order|, r.idle, env);
  }

  function TakeAll(r: Run, steps: seq<Step>, env: Env): Run
    decreases |steps|
  {
    if steps == [] then r else TakeAll(Take(r, steps[0], env), steps[1..], env)
  }

  /** A fresh synchroniser over an existing database. */
  function Fresh(db: Blobs): Run {
    Run(State(db, map[], [], map[]), {})
  }

  lemma {:induction false} RunInv(r: Run, steps: seq<Step>, env: Env)
    requires Inv(r.state, r.idle, env)
    ensures var r' := TakeAll(r, steps, env); Inv(r'.state, r'.idle, env) && Tracks(r.state, r'.state)
    decreases |steps|
  {
    if steps != [] {
      StepInv(r, steps[0], env);
      RunInv(Take(r, steps[0], env), steps[1..], env);
    }
  }

  /**
    After any run over a closed database, however many batch entries get written,
    no stored blob lacks anything it wanted, and each counter is the number of
    references it awaits.
   */
  lemma SyncKeepsClosed(db: Blobs, steps: seq<Step>, n: nat, env: Env)
    requires Closed(db, env)
    ensures var r := TakeAll(Fresh(db), steps, env);
            && (n <= |r.state.order| ==> Closed(Flush(r.state, n).db, env))
            && (forall p :: p in r.state.requests ==> r.state.requests[p].deps == Edges(r.state.requests)[p])
  {
    FreshInv(db, env);
    RunInv(Fresh(db), steps, env);
    var r := TakeAll(Fresh(db), steps, env);
    SumsAll(r.state.requests, multiset{});
    if n <= |r.state.order| { FlushClosed(r.state, n, env); }
  }

  lemma FreshInv(db: Blobs, env: Env)
    requires Closed(db, env)
    ensures Inv(Fresh(db).state, {}, env)
  {
  }

  /** When nothing is pending and the batch is written, every requested root is in the database. */
  lemma SyncDelivers(db: Blobs, before: seq<Step>, d: Dep, after: seq<Step>, env: Env)
    requires Closed(db, env) && d.hash != EmptyHash(d, env)
    ensures var r := TakeAll(Fresh(db), before, env);
            var r' := TakeAll(Take(r, Add(d), env), after, env);
            r'.state.requests == map[] && r'.state.batch == map[] ==> d.hash in r'.state.db
  {
    FreshInv(db, env);
    RunInv(Fresh(db), before, env);
    var r := TakeAll(Fresh(db), before, env);
    StepInv(r, Add(d), env);
    RunInv(Take(r, Add(d), env), after, env);
    var s1 := AddRoot(r.state, d, env);
    assert d.hash in s1.requests || Known(s1, d.hash);
  }
}
