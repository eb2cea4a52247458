/**
  What pruning gets rid of (muxdb/trie_pruner.go, cmd/luckyshare/pruner/pruner.go):
  after a switch of the live spaces and a drop of the stale one, a node is found only
  if it belongs to an archived trie or was written since the switch.
 */
module Sweep {
  import opened Hex
  import opened Rlp
  import opened PatriciaTree
  import opened TrieNode
  import opened Hasher
  import opened Commit
  import opened History
  import opened Session
  import opened Pruner

  /** The space that commits leave alone. */
  function Idle(s: Store): NodeMap {
    if s.activeA then s.b else s.a
  }

  predicate Found(s: Store, k: NodeKey) {
    k in s.p || k in s.a || k in s.b
  }

  lemma FoundIsGot(s: Store, path: Path, h: Hash)
    ensures s.Get(path, h).Some? <==> Found(s, KeyFor(path, h))
  {
  }

  // ----- single steps -----

  /** After a drop, exactly the nodes of the permanent space and of the space in use are found. */
  lemma DropForgets(s: State, hash: Item -> Hash, items: iset<Item>, path: Path, h: Hash)
    ensures Next(s, DropStale, hash, items).store.Get(path, h).Some? <==>
            KeyFor(path, h) in s.store.p || KeyFor(path, h) in if s.store.activeA then s.store.a else s.store.b
  {
  }

  /** What a commit writes. */
  function CommitWrites(s: Store, root: Hash, us: seq<Update>, hash: Item -> Hash): seq<Write> {
    var n := Open(root, Reader(s, hash));
    if n.Err? then []
    else
      var m := UpdateNodes(n.value, us, Reader(s, hash));
      if m.Err? then [] else HashNodes(m.value, [], true, true, hash).writes
  }

  ghost predicate Writes(s: State, step: Step, hash: Item -> Hash, k: NodeKey) {
    step.Commit? && exists w :: w in CommitWrites(s.store, RootHash(step.base, hash), step.us, hash) && KeyFor(w.path, w.hash) == k
  }

  lemma {:induction false} PutNodesKeys(m: NodeMap, ws: seq<Write>, k: NodeKey)
    ensures k in PutNodes(m, ws) <==> k in m || exists w :: w in ws && KeyFor(w.path, w.hash) == k
    decreases |ws|
  {
    if ws != [] {
      PutNodesKeys(m[KeyFor(ws[0].path, ws[0].hash) := ws[0].item], ws[1..], k);
      assert ws[0] in ws && forall w :: w in ws <==> w == ws[0] || w in ws[1..];
    }
  }

  /** A commit writes to the active space, exactly its nodes, and to no other. */
  lemma {:induction false} CommitPuts(s: State, base: Tree, us: seq<Update>, hash: Item -> Hash, items: iset<Item>)
    requires Enabled(s, Commit(base, us), hash, items)
    ensures var s' := Next(s, Commit(base, us), hash, items);
            && s'.store.p == s.store.p && s'.store.activeA == s.store.activeA && Idle(s'.store) == Idle(s.store)
            && (forall k :: k in s'.store.Active() <==> k in s.store.Active() || Writes(s, Commit(base, us), hash, k))
  {
    var ws := CommitWrites(s.store, RootHash(base, hash), us, hash);
    assert PutNodes(s.store.Active(), []) == s.store.Active();
    forall k ensures k in PutNodes(s.store.Active(), ws) <==> k in s.store.Active() || Writes(s, Commit(base, us), hash, k) {
      PutNodesKeys(s.store.Active(), ws, k);
    }
  }

  /** A commit after a switch leaves the space alone that was active before. */
  lemma {:induction false} SwitchSpares(s: State, base: Tree, us: seq<Update>, hash: Item -> Hash, items: iset<Item>)
    requires Enabled(Next(s, Switch, hash, items), Commit(base, us), hash, items)
    ensures var s' := Next(Next(s, Switch, hash, items), Commit(base, us), hash, items);
            if s.store.activeA then s'.store.a == s.store.a else s'.store.b == s.store.b
  {
    CommitPuts(Next(s, Switch, hash, items), base, us, hash, items);
  }

  // ----- whole runs -----

  /** k is the key of a node of an archived trie. */
  ghost predicate OfArchived(s: State, k: NodeKey, hash: Item -> Hash) {
    exists t, w :: t in s.archived && NodeOf(w, t, [], hash, true) && KeyFor(w.path, w.hash) == k
  }

  /** The permanent space holds nothing but nodes of archived tries. */
  ghost predicate OnlyArchived(s: State, hash: Item -> Hash) {
    forall k :: k in s.store.p ==> OfArchived(s, k, hash)
  }

  lemma {:induction false} StepOnlyArchived(s: State, step: Step, hash: Item -> Hash, items: iset<Item>)
    requires OnlyArchived(s, hash) && Enabled(s, step, hash, items)
    ensures OnlyArchived(Next(s, step, hash, items), hash)
  {
    var s' := Next(s, step, hash, items);
    match step
    case Commit(base, us) => CommitPuts(s, base, us, hash, items); KeepsArchived(s, s', hash);
    case Archive(prev, base, ws) =>
      forall k | k in s'.store.p ensures OfArchived(s', k, hash) {
        PutNodesKeys(s.store.p, ws, k);
        if k in s.store.p {
          var t, w :| t in s.archived && NodeOf(w, t, [], hash, true) && KeyFor(w.path, w.hash) == k;
          assert t in s'.archived;
        } else {
          assert base in s'.archived;
        }
      }
    case _ => KeepsArchived(s, s', hash);
  }

  lemma {:induction false} KeepsArchived(s: State, s': State, hash: Item -> Hash)
    requires OnlyArchived(s, hash) && s'.store.p == s.store.p && s'.archived == s.archived
    ensures OnlyArchived(s', hash)
  {
    forall k | k in s'.store.p ensures OfArchived(s', k, hash) { assert OfArchived(s, k, hash); }
  }

  lemma {:induction false} RunOnlyArchived(s: State, steps: seq<Step>, hash: Item -> Hash, items: iset<Item>)
    requires OnlyArchived(s, hash) && Runs(s, steps, hash, items)
    ensures OnlyArchived(Final(s, steps, hash, items), hash)
    decreases |steps|
  {
    if steps != [] {
      StepOnlyArchived(s, steps[0], hash, items);
      RunOnlyArchived(Next(s, steps[0], hash, items), steps[1..], hash, items);
    }
  }

  /** Some commit of the run writes a node with this key. */
  ghost predicate WrittenBy(s: State, steps: seq<Step>, k: NodeKey, hash: Item -> Hash, items: iset<Item>)
    requires Runs(s, steps, hash, items)
    decreases |steps|
  {
    steps != [] && (Writes(s, steps[0], hash, k) || WrittenBy(Next(s, steps[0], hash, items), steps[1..], k, hash, items))
  }

  predicate InLive(s: Store, k: NodeKey) {
    k in s.a || k in s.b
  }

  lemma {:induction false} StepLive(s: State, step: Step, k: NodeKey, hash: Item -> Hash, items: iset<Item>)
    requires Enabled(s, step, hash, items) && InLive(Next(s, step, hash, items).store, k)
    ensures InLive(s.store, k) || Writes(s, step, hash, k)
  {
    if step.Commit? { CommitPuts(s, step.base, step.us, hash, items); }
  }

  /** A node gets into the live spaces by being written. */
  lemma {:induction false} RunLive(s: State, steps: seq<Step>, k: NodeKey, hash: Item -> Hash, items: iset<Item>)
    requires Runs(s, steps, hash, items) && InLive(Final(s, steps, hash, items).store, k)
    ensures InLive(s.store, k) || WrittenBy(s, steps, k, hash, items)
    decreases |steps|
  {
    if steps != [] {
      RunLive(Next(s, steps[0], hash, items), steps[1..], k, hash, items);
      if InLive(Next(s, steps[0], hash, items).store, k) { StepLive(s, steps[0], k, hash, items); }
    }
  }

  /** Until the next switch, the active space keeps what it has and gains what is written. */
  lemma {:induction false} RunActive(s: State, steps: seq<Step>, k: NodeKey, hash: Item -> Hash, items: iset<Item>)
    requires Runs(s, steps, hash, items) && Switch !in steps
    ensures k in Final(s, steps, hash, items).store.Active() <==> k in s.store.Active() || WrittenBy(s, steps, k, hash, items)
    decreases |steps|
  {
    if steps != [] {
      var step := steps[0];
      assert step in steps;
      RunActive(Next(s, step, hash, items), steps[1..], k, hash, items);
      if step.Commit? { CommitPuts(s, step.base, step.us, hash, items); }
    }
  }

  lemma {:induction false} RunSplit(s: State, xs: seq<Step>, ys: seq<Step>, hash: Item -> Hash, items: iset<Item>)
    requires Runs(s, xs + ys, hash, items)
    ensures Runs(s, xs, hash, items) && Runs(Final(s, xs, hash, items), ys, hash, items)
    ensures Final(s, xs + ys, hash, items) == Final(Final(s, xs, hash, items), ys, hash, items)
    decreases |xs|
  {
    if xs == [] {
      assert xs + ys == ys;
    } else {
      assert (xs + ys)[1..] == xs[1..] + ys;
      RunSplit(Next(s, xs[0], hash, items), xs[1..], ys, hash, items);
    }
  }

  lemma {:induction false} WrittenSplit(s: State, xs: seq<Step>, ys: seq<Step>, k: NodeKey, hash: Item -> Hash, items: iset<Item>)
    requires Runs(s, xs + ys, hash, items) && Runs(s, xs, hash, items) && Runs(Final(s, xs, hash, items), ys, hash, items)
    requires WrittenBy(s, xs, k, hash, items) || WrittenBy(Final(s, xs, hash, items), ys, k, hash, items)
    ensures WrittenBy(s, xs + ys, k, hash, items)
    decreases |xs|
  {
    if xs == [] {
      assert xs + ys == ys;
    } else {
      assert (xs + ys)[1..] == xs[1..] + ys;
      if !Writes(s, xs[0], hash, k) { WrittenSplit(Next(s, xs[0], hash, items), xs[1..], ys, k, hash, items); }
    }
  }

  /**
    After a switch and a drop, exactly these are found: the nodes of the permanent space,
    those written since the switch, and those left in the space that the switch made active.
   */
  lemma {:induction false} SweepIff(s: State, mid: seq<Step>, hash: Item -> Hash, items: iset<Item>, path: Path, h: Hash)
    requires Runs(Next(s, Switch, hash, items), mid, hash, items) && Switch !in mid
    ensures var s1 := Next(s, Switch, hash, items);
            var s2 := Final(s1, mid, hash, items);
            Next(s2, DropStale, hash, items).store.Get(path, h).Some? <==>
              || KeyFor(path, h) in s2.store.p || WrittenBy(s1, mid, KeyFor(path, h), hash, items)
              || KeyFor(path, h) in if s.store.activeA then s.store.b else s.store.a
  {
    var s1 := Next(s, Switch, hash, items);
    RunActive(s1, mid, KeyFor(path, h), hash, items);
    DropForgets(Final(s1, mid, hash, items), hash, items, path, h);
  }

  /** So after two switches in a row a drop spares all that was in use before. */
  lemma {:induction false} SwitchedTwice(s: State, mid: seq<Step>, hash: Item -> Hash, items: iset<Item>, path: Path, h: Hash)
    requires var s1 := Next(Next(s, Switch, hash, items), Switch, hash, items); Runs(s1, mid, hash, items) && Switch !in mid
    requires KeyFor(path, h) in s.store.Active()
    ensures var s1 := Next(Next(s, Switch, hash, items), Switch, hash, items);
            Next(Final(s1, mid, hash, items), DropStale, hash, items).store.Get(path, h).Some?
  {
    SweepIff(Next(s, Switch, hash, items), mid, hash, items, path, h);
  }

  /**
    From a switch on, over a drop and to the end of any run: what is found is a node of
    an archived trie, or written since the switch, or was left in the space that the
    switch made active.
   */
  lemma {:induction false} SweepForgets(s: State, mid: seq<Step>, post: seq<Step>, hash: Item -> Hash, items: iset<Item>, path: Path, h: Hash)
    requires OnlyArchived(s, hash) && Switch !in mid
    requires Runs(Next(s, Switch, hash, items), mid + ([DropStale] + post), hash, items)
    ensures var s1 := Next(s, Switch, hash, items);
            var steps := mid + ([DropStale] + post);
            Final(s1, steps, hash, items).store.Get(path, h).Some? ==>
              || OfArchived(Final(s1, steps, hash, items), KeyFor(path, h), hash)
              || WrittenBy(s1, steps, KeyFor(path, h), hash, items)
              || KeyFor(path, h) in if s.store.activeA then s.store.b else s.store.a
  {
    var s1, k, rest := Next(s, Switch, hash, items), KeyFor(path, h), [DropStale] + post;
    var end := Final(s1, mid + rest, hash, items);
    StepOnlyArchived(s, Switch, hash, items);
    RunOnlyArchived(s1, mid + rest, hash, items);
    if end.store.Get(path, h).Some? && k !in end.store.p {
      RunSplit(s1, mid, rest, hash, items);
      var s2 := Final(s1, mid, hash, items);
      assert rest[1..] == post;
      RunLive(Next(s2, DropStale, hash, items), post, k, hash, items);
      if InLive(Next(s2, DropStale, hash, items).store, k) {
        RunActive(s1, mid, k, hash, items);
      }
      if WrittenBy(s1, mid, k, hash, items) || WrittenBy(s2, rest, k, hash, items) { WrittenSplit(s1, mid, rest, k, hash, items); }
    }
  }

  // ----- in the order of the pruner -----

  function Swept(swept: bool, step: Step): bool {
    if step.Switch? then false else step.DropStale? || swept
  }

  /** Spaces are switched only after the stale one was dropped, as the pruner does in turn. */
  predicate InTurn(steps: seq<Step>, swept: bool) {
    steps != [] ==> (steps[0].Switch? ==> swept) && InTurn(steps[1..], Swept(swept, steps[0]))
  }

  function SweptAfter(steps: seq<Step>, swept: bool): bool {
    if steps == [] then swept else SweptAfter(steps[1..], Swept(swept, steps[0]))
  }

  lemma {:induction false} SweptIsEmpty(s: State, steps: seq<Step>, swept: bool, hash: Item -> Hash, items: iset<Item>)
    requires Runs(s, steps, hash, items) && InTurn(steps, swept) && (swept ==> Idle(s.store) == map[])
    ensures SweptAfter(steps, swept) ==> Idle(Final(s, steps, hash, items).store) == map[]
    decreases |steps|
  {
    if steps != [] {
      if steps[0].Commit? { CommitPuts(s, steps[0].base, steps[0].us, hash, items); }
      SweptIsEmpty(Next(s, steps[0], hash, items), steps[1..], Swept(swept, steps[0]), hash, items);
    }
  }

  lemma {:induction false} TurnsSplit(xs: seq<Step>, ys: seq<Step>, swept: bool)
    requires InTurn(xs + ys, swept)
    ensures InTurn(xs, swept) && InTurn(ys, SweptAfter(xs, swept))
    decreases |xs|
  {
    if xs == [] {
      assert xs + ys == ys;
    } else {
      assert (xs + ys)[1..] == xs[1..] + ys && (xs + ys)[0] == xs[0];
      TurnsSplit(xs[1..], ys, Swept(swept, xs[0]));
    }
  }

  /**
    In any run of the pruner from the empty store, once a switch and a later drop have
    happened, a node that is in no archived trie and was not written since that switch
    is not found.
   */
  lemma {:induction false} PruningForgets(
    pre: seq<Step>, mid: seq<Step>, post: seq<Step>, hash: Item -> Hash, items: iset<Item>, path: Path, h: Hash)
    requires InTurn(pre + ([Switch] + (mid + ([DropStale] + post))), true) && Switch !in mid
    requires Runs(Init, pre, hash, items) && Runs(Next(Final(Init, pre, hash, items), Switch, hash, items), mid + ([DropStale] + post), hash, items)
    ensures var steps := mid + ([DropStale] + post);
            var s1 := Next(Final(Init, pre, hash, items), Switch, hash, items);
            var end := Final(s1, steps, hash, items);
            !OfArchived(end, KeyFor(path, h), hash) && !WrittenBy(s1, steps, KeyFor(path, h), hash, items) ==>
              end.store.Get(path, h) == None
  {
    var steps, s := mid + ([DropStale] + post), Final(Init, pre, hash, items);
    TurnsSplit(pre, [Switch] + steps, true);
    assert ([Switch] + steps)[1..] == steps;
    SweptIsEmpty(Init, pre, true, hash, items);
    RunOnlyArchived(Init, pre, hash, items);
    SweepForgets(s, mid, post, hash, items, path, h);
  }
}
