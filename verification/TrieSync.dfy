/** The synchroniser object itself, each method proved against its step function. */
module SyncObject {
  import opened Hex
  import opened Rlp
  import opened TrieNode
  import opened Sync
  import opened SyncProofs

  // ----- what is filed -----

  lemma {:induction false} CommitFiles(s: State, h: Hash)
    requires h in s.requests
    ensures s.order < CommitRequest(s, h).order
    decreases |s.requests|, 0
  {
    NotifyFiles(Finish(s, h), s.requests[h].parents);
  }

  lemma {:induction false} NotifyFiles(s: State, parents: seq<Hash>)
    ensures s.order <= Notify(s, parents).order
    decreases |s.requests|, 1, |parents|
  {
    if parents != [] {
      if parents[0] !in s.requests {
        NotifyFiles(s, parents[1..]);
      } else {
        var s1 := AddToDeps(s, parents[0], -1);
        SameSize(s.requests, parents[0], s1.requests[parents[0]]);
        if s1.requests[parents[0]].deps == 0 {
          CommitFiles(s1, parents[0]);
          NotifyFiles(CommitRequest(s1, parents[0]), parents[1..]);
        } else {
          NotifyFiles(s1, parents[1..]);
        }
      }
    }
  }

  lemma {:induction false} AddDepsFiles(s: State, ds: seq<Dep>, p: Hash, env: Env)
    requires p in s.requests
    ensures AddDeps(s, ds, p, env).order == s.order
    decreases |ds|
  {
    if ds != [] { AddDepsFiles(AddDep(s, ds[0], p, env), ds[1..], p, env); }
  }

  lemma {:induction false} ScanFiles(s: State, kids: seq<Node>, p: Hash, callback: Option<nat>, env: Env)
    requires p in s.requests
    ensures ScanKids(s, kids, p, callback, env).state.order == s.order
    decreases |kids|
  {
    if kids != [] {
      if kids[0].ValueNode? && callback.Some? { AddDepsFiles(s, env.onLeaf(callback.value, kids[0].value).deps, p, env); }
      var first := VisitKid(s, kids[0], p, callback, env);
      if first.ok { ScanFiles(first.state, kids[1..], p, callback, env); }
    }
  }

  lemma {:induction false} ScheduleFiles(s: State, hs: seq<Hash>, p: Hash, depth: nat, callback: Option<nat>)
    ensures ScheduleAll(s, hs, p, depth, callback).order == s.order
    decreases |hs|
  {
    if hs != [] { ScheduleFiles(Schedule(s, hs[0], Request(AsNode(callback), None, [p], depth, 0)), hs[1..], p, depth, callback); }
  }

  /** A result is reported as committed exactly if something was filed in the batch, behind what was there. */
  lemma {:induction false} DeliverFiles(s: State, h: Hash, data: Item, env: Env)
    ensures var r := Deliver(s, h, data, env); s.order <= r.0.order && (r.1 == Delivered(true) <==> r.0.order != s.order)
  {
    if h in s.requests && s.requests[h].data.None? {
      var s1 := WithData(s, h, data);
      if s.requests[h].kind.Raw? {
        CommitFiles(s1, h);
      } else if Decode(Some(h), data).Some? {
        ExpandFiles(s1, h, Decode(Some(h), data).value, env);
      }
    }
  }

  lemma {:induction false} ExpandFiles(s: State, h: Hash, n: Node, env: Env)
    requires h in s.requests && s.requests[h].kind.AsNode?
    ensures var r := Expand(s, h, n, env); s.order <= r.0.order && (r.1 == Delivered(true) <==> r.0.order != s.order)
  {
    var callback := s.requests[h].kind.callback;
    ScanFiles(s, Kids(n), h, callback, env);
    var scan := ScanKids(s, Kids(n), h, callback, env);
    if scan.ok {
      if scan.missing == [] && scan.state.requests[h].deps == 0 {
        CommitFiles(scan.state, h);
      } else {
        ScheduleFiles(AddToDeps(scan.state, h, |scan.missing|), scan.missing, h, KidDepth(n, s.requests[h].depth), callback);
      }
    }
  }

  /** The outcome of result i, after those before it. */
  function OutcomeAt(r: Run, results: seq<(Hash, Item)>, i: nat, env: Env): Outcome
    requires i < |results|
  {
    Deliver(TakeAll(r, Results(results[..i]), env).state, results[i].0, results[i].1, env).1
  }

  ghost predicate FirstDelivered(r: Run, results: seq<(Hash, Item)>, n: nat, env: Env) {
    n <= |results| && forall j :: 0 <= j < n ==> OutcomeAt(r, results, j, env).Delivered?
  }

  /** Every result before the index is delivered, and the one at it has the outcome; or all are delivered. */
  ghost predicate FirstRefused(r: Run, results: seq<(Hash, Item)>, index: nat, outcome: Outcome, env: Env) {
    if outcome.Delivered? then FirstDelivered(r, results, |results|, env)
    else index < |results| && OutcomeAt(r, results, index, env) == outcome && FirstDelivered(r, results, index, env)
  }

  class TrieSync {
    const env: Env
    var database: Blobs
    var batch: Blobs
    var order: seq<Hash>
    var requests: Requests
    ghost var idle: set<Hash>

    function Now(): State
      reads this
    {
      State(database, batch, order, requests)
    }

    ghost predicate Valid()
      reads this
    {
      Inv(Now(), idle, env)
    }

    /** Synchronise the trie with this root, over a database whose blobs lack nothing they wanted. */
    constructor (root: Hash, database: Blobs, callback: Option<nat>, env: Env)
      requires Closed(database, env)
      ensures Valid() && this.env == env
      ensures Run(Now(), idle) == Take(Fresh(database), Step.Add(SubTrie(root, 0, callback)), env)
      ensures root == env.emptyRoot || root in requests || root in this.database
    {
      this.env := env;
      this.database, batch, order, requests := database, map[], [], map[];
      idle := {};
      new;
      FreshInv(database, env);
      Add(SubTrie(root, 0, callback));
    }

    /** Request a subtrie or a raw entry that nothing else waits for. */
    method Add(d: Dep)
      requires Valid()
      modifies this
      ensures Valid() && Now() == AddRoot(old(Now()), d, env) && idle == old(idle)
      ensures d.hash == EmptyHash(d, env) || d.hash in requests || Known(Now(), d.hash)
    {
      StepInv(Run(Now(), idle), Step.Add(d), env);
      AddFor(d, None);
    }

    /** AddSubTrie and AddRawEntry. */
    method AddFor(d: Dep, parent: Option<Hash>)
      requires parent.Some? ==> parent.value in requests
      modifies `requests
      ensures Now() == match parent case None => AddRoot(old(Now()), d, env) case Some(p) => AddDep(old(Now()), d, p, env)
      ensures parent.Some? ==> parent.value in requests
    {
      if d.hash == EmptyHash(d, env) || d.hash in batch { return; }
      if d.hash in database {
        if d.RawEntry? { return; }
        var node := Decode(Some(d.hash), database[d.hash].data);
        if node.Some? { return; }
      }
      var parents := [];
      if parent.Some? {
        var ancestor := requests[parent.value];
        requests := requests[parent.value := ancestor.(deps := ancestor.deps + 1)];
        parents := [parent.value];
      }
      ScheduleOne(d.hash, Request(KindOf(d), None, parents, d.depth, 0));
    }

    method ScheduleOne(h: Hash, r: Request)
      modifies `requests
      ensures Now() == Schedule(old(Now()), h, r)
    {
      if h in requests {
        var pending := requests[h];
        requests := requests[h := pending.(parents := pending.parents + r.parents)];
      } else {
        requests := requests[h := r];
      }
    }

    /** Results in turn, up to the first that is refused. */
    method Process(results: seq<(Hash, Item)>) returns (committed: bool, index: nat, outcome: Outcome)
      requires Valid()
      modifies this
      ensures Valid() && old(idle) <= idle && database == old(database)
      ensures outcome.Delivered? ==> index == 0 && idle == old(idle)
      ensures !outcome.Delivered? ==> index < |results|
      ensures Run(Now(), idle) ==
              TakeAll(Run(old(Now()), old(idle)), Results(if outcome.Delivered? then results else results[..index + 1]), env)
      ensures FirstRefused(Run(old(Now()), old(idle)), results, index, outcome, env)
      ensures old(order) <= order && (committed <==> order != old(order))
    {
      committed := false;
      var i := 0;
      ghost var start := Run(Now(), idle);
      while i < |results|
        invariant 0 <= i <= |results| && Valid() && database == old(database) && idle == old(idle)
        invariant Run(Now(), idle) == TakeAll(start, Results(results[..i]), env)
        invariant FirstDelivered(start, results, i, env)
        invariant old(order) <= order && (committed <==> order != old(order))
      {
        outcome := ProcessAt(results, i, start);
        if !outcome.Delivered? { return committed, i, outcome; }
        committed := committed || outcome.committed;
        i := i + 1;
      }
      assert results[..|results|] == results;
      return committed, 0, Delivered(committed);
    }

    /** Result i, after those before it. */
    method ProcessAt(results: seq<(Hash, Item)>, i: nat, ghost start: Run) returns (outcome: Outcome)
      requires Valid() && i < |results| && FirstDelivered(start, results, i, env)
      requires Run(Now(), idle) == TakeAll(start, Results(results[..i]), env)
      modifies this
      ensures Valid() && database == old(database) && old(idle) <= idle && (outcome.Delivered? ==> idle == old(idle))
      ensures Run(Now(), idle) == TakeAll(start, Results(results[..i + 1]), env)
      ensures outcome == OutcomeAt(start, results, i, env) && (outcome.Delivered? ==> FirstDelivered(start, results, i + 1, env))
      ensures old(order) <= order && (outcome == Delivered(true) <==> order != old(order))
    {
      assert results[..i + 1] == results[..i] + [results[i]];
      ResultsSnoc(start, results[..i], results[i], env);
      outcome := ProcessNext(results[i].0, results[i].1);
    }

    method ProcessNext(h: Hash, data: Item) returns (outcome: Outcome)
      requires Valid()
      modifies this
      ensures Valid() && database == old(database) && idle == IdleBy(old(idle), h, Now(), outcome)
      ensures Run(Now(), idle) == Take(Run(old(Now()), old(idle)), Result(h, data), env)
      ensures outcome == Deliver(old(Now()), h, data, env).1
      ensures old(order) <= order && (outcome == Delivered(true) <==> order != old(order))
    {
      StepInv(Run(Now(), idle), Result(h, data), env);
      DeliverFiles(Now(), h, data, env);
      outcome := ProcessOne(h, data);
      idle := IdleBy(idle, h, Now(), outcome);
    }

    method ProcessOne(h: Hash, data: Item) returns (outcome: Outcome)
      modifies `requests, `batch, `order
      ensures (Now(), outcome) == Deliver(old(Now()), h, data, env)
    {
      if h !in requests { return NotRequested; }
      var request := requests[h];
      if request.data.Some? { return AlreadyProcessed; }
      if request.kind.Raw? {
        requests := requests[h := request.(data := Some(data))];
        CommitOne(h);
        return Delivered(true);
      }
      var node := Decode(Some(h), data);
      if node.None? { return BadNode; }
      requests := requests[h := request.(data := Some(data))];
      outcome := Descend(h, node.value);
    }

    method Descend(h: Hash, n: Node) returns (outcome: Outcome)
      requires h in requests && requests[h].kind.AsNode?
      modifies `requests, `batch, `order
      ensures (Now(), outcome) == Expand(old(Now()), h, n, env)
    {
      var callback, depth := requests[h].kind.callback, KidDepth(n, requests[h].depth);
      var missing, ok := Children(h, Kids(n), callback);
      if !ok { return LeafError; }
      var request := requests[h];
      if |missing| == 0 && request.deps == 0 {
        CommitOne(h);
        return Delivered(true);
      }
      requests := requests[h := request.(deps := request.deps + |missing|)];
      ScheduleMissing(missing, h, depth, callback);
      return Delivered(false);
    }

    method ScheduleMissing(missing: seq<Hash>, h: Hash, depth: nat, callback: Option<nat>)
      modifies `requests
      ensures Now() == ScheduleAll(old(Now()), missing, h, depth, callback)
    {
      var i := 0;
      while i < |missing|
        invariant 0 <= i <= |missing|
        invariant ScheduleAll(Now(), missing[i..], h, depth, callback) == ScheduleAll(old(Now()), missing, h, depth, callback)
      {
        ScheduleOne(missing[i], Request(AsNode(callback), None, [h], depth, 0));
        i := i + 1;
      }
    }

    /** The hash children of a node that are not known yet; leaf callbacks run on the way. */
    method Children(h: Hash, kids: seq<Node>, callback: Option<nat>) returns (missing: seq<Hash>, ok: bool)
      requires h in requests
      modifies `requests
      ensures h in requests
      ensures var scan := ScanKids(old(Now()), kids, h, callback, env);
              Now() == scan.state && ok == scan.ok && (ok ==> missing == scan.missing)
    {
      missing := [];
      ghost var scan := ScanKids(Now(), kids, h, callback, env);
      assert kids[0..] == kids && Prefixed([], scan) == scan;
      var i := 0;
      while i < |kids|
        invariant 0 <= i <= |kids| && h in requests
        invariant Prefixed(missing, ScanKids(Now(), kids[i..], h, callback, env)) == scan
      {
        ScanNext(Now(), kids, i, missing, h, callback, env);
        var more, fine := Visit(kids[i], h, callback);
        if !fine { return missing, false; }
        missing := missing + more;
        i := i + 1;
      }
      return missing, true;
    }

    /** One child: a leaf is passed to the callback, a hash is looked up. */
    method Visit(kid: Node, h: Hash, callback: Option<nat>) returns (missing: seq<Hash>, ok: bool)
      requires h in requests
      modifies `requests
      ensures h in requests && Scan(Now(), missing, ok) == VisitKid(old(Now()), kid, h, callback, env)
    {
      if kid.ValueNode? && callback.Some? {
        var answer := env.onLeaf(callback.value, kid.value);
        AddAll(answer.deps, h);
        return [], answer.ok;
      }
      if kid.HashNode? && kid.hash !in batch && kid.hash !in database { return [kid.hash], true; }
      return [], true;
    }

    /** What a leaf callback does: it registers what its leaf depends on. */
    method AddAll(ds: seq<Dep>, p: Hash)
      requires p in requests
      modifies `requests
      ensures Now() == AddDeps(old(Now()), ds, p, env) && p in requests
    {
      ghost var start := Now();
      var i := 0;
      while i < |ds|
        invariant 0 <= i <= |ds| && p in requests
        invariant AddDeps(Now(), ds[i..], p, env) == AddDeps(start, ds, p, env)
      {
        AddFor(ds[i], Some(p));
        i := i + 1;
      }
    }

    /** commit: file the request, then each parent it was the last to hold back. */
    method CommitOne(h: Hash)
      requires h in requests
      modifies `requests, `batch, `order
      ensures Now() == CommitRequest(old(Now()), h)
      decreases |requests|
    {
      var req := requests[h];
      var data := if req.data.Some? then req.data.value else Str([]);
      batch := batch[h := Blob(data, req.kind)];
      order := order + [h];
      Smaller(requests, h);
      requests := requests - {h};
      ghost var start := Now();
      var i := 0;
      while i < |req.parents|
        invariant 0 <= i <= |req.parents| && |requests| < |old(requests)|
        invariant Notify(Now(), req.parents[i..]) == Notify(start, req.parents)
      {
        var p := req.parents[i];
        if p in requests {
          var parent := requests[p];
          SameSize(requests, p, parent.(deps := parent.deps - 1));
          requests := requests[p := parent.(deps := parent.deps - 1)];
          if parent.deps - 1 == 0 { CommitOne(p); }
        }
        i := i + 1;
      }
    }

    /** Commit: write the batch in order; the writer fails after `capacity` entries. */
    method Commit(capacity: nat) returns (written: nat, ok: bool)
      requires Valid()
      modifies this
      ensures Valid() && idle == old(idle) && written == if capacity < |old(order)| then capacity else |old(order)|
      ensures ok <==> written == |old(order)|
      ensures Now() == Flush(old(Now()), written) && Closed(database, env)
    {
      written := 0;
      while written < |order| && written < capacity
        invariant 0 <= written <= |order| && (written <= capacity || written == 0) && batch == old(batch) && order == old(order) && requests == old(requests)
        invariant idle == old(idle)
        invariant database == Written(old(database), batch, order[..written])
      {
        if order[written] in batch { database := database[order[written] := batch[order[written]]]; }
        WrittenSnoc(old(database), batch, order[..written], order[written]);
        assert order[..written + 1] == order[..written] + [order[written]];
        written := written + 1;
      }
      FlushInv(old(Now()), written, idle, env);
      if written < |order| { return written, false; }
      batch, order := map[], [];
      return written, true;
    }
  }

  function Prefixed(missing: seq<Hash>, scan: Scan): Scan {
    scan.(missing := missing + scan.missing)
  }

  lemma ScanNext(s: State, kids: seq<Node>, i: nat, missing: seq<Hash>, p: Hash, callback: Option<nat>, env: Env)
    requires p in s.requests && i < |kids|
    ensures var first := VisitKid(s, kids[i], p, callback, env);
            Prefixed(missing, ScanKids(s, kids[i..], p, callback, env)) ==
            if !first.ok then Prefixed(missing, first)
            else Prefixed(missing + first.missing, ScanKids(first.state, kids[i + 1..], p, callback, env))
  {
    assert kids[i..][1..] == kids[i + 1..];
    var first := VisitKid(s, kids[i], p, callback, env);
    var rest := ScanKids(first.state, kids[i + 1..], p, callback, env);
    assert missing + (first.missing + rest.missing) == missing + first.missing + rest.missing;
  }

  function Results(rs: seq<(Hash, Item)>): seq<Step> {
    seq(|rs|, i requires 0 <= i < |rs| => Result(rs[i].0, rs[i].1))
  }

  lemma ResultsSnoc(r: Run, rs: seq<(Hash, Item)>, last: (Hash, Item), env: Env)
    ensures TakeAll(r, Results(rs + [last]), env) == Take(TakeAll(r, Results(rs), env), Result(last.0, last.1), env)
  {
    assert Results(rs + [last]) == Results(rs) + [Result(last.0, last.1)];
    TakeAllSnoc(r, Results(rs), Result(last.0, last.1), env);
  }

  lemma {:induction false} TakeAllSnoc(r: Run, steps: seq<Step>, last: Step, env: Env)
    ensures TakeAll(r, steps + [last], env) == Take(TakeAll(r, steps, env), last, env)
    decreases |steps|
  {
    if steps == [] {
      assert steps + [last] == [last];
      assert TakeAll(r, [last], env) == TakeAll(Take(r, last, env), [], env);
    } else {
      assert (steps + [last])[1..] == steps[1..] + [last];
      TakeAllSnoc(Take(r, steps[0], env), steps[1..], last, env);
    }
  }

  lemma {:induction false} WrittenSnoc(db: Blobs, batch: Blobs, order: seq<Hash>, last: Hash)
    ensures var db' := Written(db, batch, order);
            Written(db, batch, order + [last]) == if last in batch then db'[last := batch[last]] else db'
    decreases |order|
  {
    if order == [] {
      assert order + [last] == [last];
      assert forall db1 :: Written(db1, batch, [last][1..]) == db1;
    } else {
      assert (order + [last])[1..] == order[1..] + [last];
      WrittenSnoc(if order[0] in batch then db[order[0] := batch[order[0]]] else db, batch, order[1..], last);
    }
  }
}
