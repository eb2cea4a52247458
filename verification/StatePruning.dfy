/**
  Pruning whole states (cmd/luckyshare/pruner/pruner.go over muxdb): the account trie
  and, under names of their own, the storage tries its accounts refer to. Switching
  and dropping concern all names at once; commits and archivals follow the accounts.
 */
module StatePruning {
  import opened Hex
  import opened Rlp
  import opened PatriciaTree
  import opened TrieNode
  import opened TrieOps
  import opened Hasher
  import opened Commit
  import opened Proof
  import opened History
  import opened Pruner

  /** The storage root in an account, and the trie at a root. */
  datatype Storage = Storage(rootOf: Bytes -> Hash, trieAt: Hash -> Tree)

  /** The storage trie of account k in a state; none for an account that is not there. */
  function StorageOf(t: Tree, k: Path, st: Storage): Tree {
    match Get(t, k) case None => Nil case Some(v) => st.trieAt(st.rootOf(v))
  }

  /** The store of the account trie, and those of the storage tries by account key. */
  datatype World = World(accounts: State, storages: Path -> State)

  /** `changes` has, for each account with changed storage, the trie its updates start from. */
  datatype WorldStep =
    | CommitState(base: Tree, us: seq<Update>, changes: map<Path, Change>)
    | SwitchAll
    | ArchiveState(prev: Tree, base: Tree, ws: seq<Write>, diffs: map<Path, seq<Write>>)
    | DropAll

  datatype Change = Change(from: Tree, us: seq<Update>)

  /** The storage of an account after a commit: updated from what it was or from scratch, or as it was, or none. */
  ghost predicate Follows(base: Tree, t: Tree, changes: map<Path, Change>, k: Path, st: Storage) {
    if k in changes then
      && (changes[k].from == StorageOf(base, k, st) || changes[k].from == Nil) && Canonical(changes[k].from)
      && StorageOf(t, k, st) == Run(changes[k].from, changes[k].us)
    else StorageOf(t, k, st) == StorageOf(base, k, st) || StorageOf(t, k, st) == Nil
  }

  ghost predicate EnabledAt(step: WorldStep, st: Storage, k: Path, hash: Item -> Hash, items: iset<Item>) {
    match step
    case CommitState(base, us, changes) =>
      Canonical(base) && Follows(base, Run(base, us), changes, k, st) && GoodTrie(StorageOf(Run(base, us), k, st), hash, items)
    case ArchiveState(prev, base, ws, diffs) =>
      StorageOf(prev, k, st) != StorageOf(base, k, st) ==>
        k in diffs && DiffWrites(diffs[k], StorageOf(prev, k, st), StorageOf(base, k, st), hash)
    case _ => true
  }

  /** The step in the account trie's store. */
  function AccountStep(step: WorldStep): Step {
    match step
    case CommitState(base, us, _) => Commit(base, us)
    case SwitchAll => Switch
    case ArchiveState(prev, base, ws, _) => Archive(prev, base, ws)
    case DropAll => DropStale
  }

  /** The step in the store of one account's storage, if there is any. */
  function StorageStep(step: WorldStep, k: Path, st: Storage): Option<Step> {
    match step
    case CommitState(base, us, changes) => if k in changes then Some(Commit(changes[k].from, changes[k].us)) else None
    case SwitchAll => Some(Switch)
    case ArchiveState(prev, base, ws, diffs) =>
      if k in diffs && StorageOf(prev, k, st) != StorageOf(base, k, st) then Some(Archive(StorageOf(prev, k, st), StorageOf(base, k, st), diffs[k]))
      else None
    case DropAll => Some(DropStale)
  }

  ghost predicate EnabledAll(w: World, step: WorldStep, st: Storage, hash: Item -> Hash, items: iset<Item>) {
    && Enabled(w.accounts, AccountStep(step), hash, items)
    && forall k :: EnabledAt(step, st, k, hash, items)
  }

  ghost function StorageNext(s: State, step: Option<Step>, hash: Item -> Hash, items: iset<Item>): State {
    if step.Some? && Enabled(s, step.value, hash, items) then Next(s, step.value, hash, items) else s
  }

  ghost function NextWorld(w: World, step: WorldStep, st: Storage, hash: Item -> Hash, items: iset<Item>): World
    requires Enabled(w.accounts, AccountStep(step), hash, items)
  {
    World(Next(w.accounts, AccountStep(step), hash, items),
          (k: Path) => StorageNext(w.storages(k), StorageStep(step, k, st), hash, items))
  }

  // ----- the invariant -----

  /** A store with its invariant, in which every live trie is derived from itself, and the empty trie is archived. */
  ghost predicate Kept(s: State, hash: Item -> Hash, items: iset<Item>) {
    Pruner.Inv(s, hash, items) && Nil in s.archived && forall t :: t in s.alive ==> (t, t) in s.derived
  }

  ghost predicate DerivedFrom(s: State, a: Tree, b: Tree) {
    (a, b) in s.derived || (Nil, b) in s.derived
  }

  /** The storage of account k follows the accounts: alive, archived and derived wherever they are. */
  ghost predicate Attached(accounts: State, s: State, k: Path, st: Storage) {
    && (forall t :: t in accounts.alive ==> StorageOf(t, k, st) in s.alive)
    && (forall t :: t in accounts.archived ==> StorageOf(t, k, st) in s.archived)
    && (forall d :: d in accounts.derived ==> DerivedFrom(s, StorageOf(d.0, k, st), StorageOf(d.1, k, st)))
  }

  ghost predicate WorldInv(w: World, st: Storage, hash: Item -> Hash, items: iset<Item>) {
    && Kept(w.accounts, hash, items)
    && forall k :: Kept(w.storages(k), hash, items) && Attached(w.accounts, w.storages(k), k, st)
  }

  lemma StepKept(s: State, step: Step, hash: Item -> Hash, items: iset<Item>)
    requires Kept(s, hash, items) && Injective(hash, items) && Enabled(s, step, hash, items)
    ensures Kept(Next(s, step, hash, items), hash, items)
  {
    StepInv(s, step, hash, items);
    if step.Commit? { CommitInv(s, step.base, step.us, hash, items); }
  }

  // ----- commits -----

  /** What a commit that succeeds adds. */
  lemma Committed(s: State, base: Tree, us: seq<Update>, hash: Item -> Hash, items: iset<Item>)
    requires Kept(s, hash, items) && Injective(hash, items) && Enabled(s, Commit(base, us), hash, items)
    ensures var s', t := Next(s, Commit(base, us), hash, items), Run(base, us);
            && Gains(s, s', base, t) && s.derived <= s'.derived && forall o :: (o, base) in s.derived ==> (o, t) in s'.derived
  {
    CommitOk(s.store, base, us, hash, items);
    DerivedByCommit(s.derived, base, Run(base, us));
  }

  lemma DerivedByCommit(derived: set<(Tree, Tree)>, base: Tree, t: Tree)
    ensures var derived' := derived + {(t, t)} + set d | d in derived && d.1 == base :: (d.0, t);
            && derived <= derived' && (forall o :: (o, base) in derived ==> (o, t) in derived')
            && forall d :: d in derived' ==> d in derived || d == (t, t) || (d.1 == t && (d.0, base) in derived)
  {
    var derived' := derived + {(t, t)} + set d | d in derived && d.1 == base :: (d.0, t);
    forall o | (o, base) in derived ensures (o, t) in derived' {
      var d := (o, base);
      assert d in derived && d.1 == base;
    }
  }

  /** The storage after a commit is alive, and derived from all that the old storage was derived from. */
  lemma StorageCommitted(s: State, s': State, base: Tree, t: Tree, changes: map<Path, Change>, k: Path, st: Storage,
                         hash: Item -> Hash, items: iset<Item>)
    requires Kept(s, hash, items) && Injective(hash, items) && StorageOf(base, k, st) in s.alive
    requires Follows(base, t, changes, k, st) && GoodTrie(StorageOf(t, k, st), hash, items)
    requires s' == StorageNext(s, if k in changes then Some(Commit(changes[k].from, changes[k].us)) else None, hash, items)
    ensures Kept(s', hash, items) && s.alive <= s'.alive && s'.archived == s.archived && s.derived <= s'.derived
    ensures StorageOf(t, k, st) in s'.alive
    ensures forall o :: DerivedFrom(s, o, StorageOf(base, k, st)) ==> DerivedFrom(s', o, StorageOf(t, k, st))
  {
    if k in changes {
      var from, us := changes[k].from, changes[k].us;
      assert Nil in s.alive;
      Committed(s, from, us, hash, items);
      StepKept(s, Commit(from, us), hash, items);
      assert (Nil, Nil) in s.derived;
    }
  }

  /** What the account trie's store gains by committing t on base. */
  ghost predicate Gains(a: State, a': State, base: Tree, t: Tree) {
    && a'.archived == a.archived && a'.alive == a.alive + {t}
    && forall d :: d in a'.derived ==> d in a.derived || d == (t, t) || (d.1 == t && (d.0, base) in a.derived)
  }

  lemma CommitAttached(a: State, a': State, s: State, s': State, base: Tree, t: Tree, k: Path, st: Storage)
    requires Attached(a, s, k, st) && base in a.alive && Gains(a, a', base, t)
    requires s.alive <= s'.alive && s'.archived == s.archived && s.derived <= s'.derived
    requires StorageOf(t, k, st) in s'.alive && forall x :: x in s'.alive ==> (x, x) in s'.derived
    requires forall o :: DerivedFrom(s, o, StorageOf(base, k, st)) ==> DerivedFrom(s', o, StorageOf(t, k, st))
    ensures Attached(a', s', k, st)
  {
    forall d | d in a'.derived ensures DerivedFrom(s', StorageOf(d.0, k, st), StorageOf(d.1, k, st)) {
      if d in a.derived {
        assert DerivedFrom(s, StorageOf(d.0, k, st), StorageOf(d.1, k, st));
      } else if d != (t, t) {
        assert (d.0, base) in a.derived;
        assert DerivedFrom(s, StorageOf(d.0, k, st), StorageOf(base, k, st));
      }
    }
  }

  // ----- archiving and dropping -----

  lemma ArchiveAttached(accounts: State, accounts': State, s: State, s': State, prev: Tree, base: Tree, ws: seq<Write>,
                        diffs: map<Path, seq<Write>>, k: Path, st: Storage, hash: Item -> Hash, items: iset<Item>)
    requires Kept(s, hash, items) && Injective(hash, items) && Attached(accounts, s, k, st)
    requires prev in accounts.archived && base in accounts.alive
    requires accounts'.archived == accounts.archived + {base} && accounts'.alive == accounts.alive && accounts'.derived == accounts.derived
    requires StorageOf(prev, k, st) != StorageOf(base, k, st) ==>
               k in diffs && DiffWrites(diffs[k], StorageOf(prev, k, st), StorageOf(base, k, st), hash)
    requires s' == StorageNext(s, StorageStep(ArchiveState(prev, base, ws, diffs), k, st), hash, items)
    ensures Kept(s', hash, items) && Attached(accounts', s', k, st)
  {
    var a, b := StorageOf(prev, k, st), StorageOf(base, k, st);
    if a != b {
      assert Enabled(s, Archive(a, b, diffs[k]), hash, items);
      StepKept(s, Archive(a, b, diffs[k]), hash, items);
    }
    assert s'.alive == s.alive && s'.derived == s.derived;
    forall d | d in accounts'.derived ensures DerivedFrom(s', StorageOf(d.0, k, st), StorageOf(d.1, k, st)) {
      assert DerivedFrom(s, StorageOf(d.0, k, st), StorageOf(d.1, k, st));
    }
  }

  /** What is kept of the storage when the stale space is dropped. */
  ghost function Survivors(s: State): set<Tree> {
    s.archived + set d | d in s.derived && d.0 in s.archived :: d.1
  }

  lemma DropAttached(accounts: State, accounts': State, s: State, s': State, k: Path, st: Storage, hash: Item -> Hash, items: iset<Item>)
    requires Kept(s, hash, items) && Injective(hash, items) && Attached(accounts, s, k, st)
    requires accounts'.archived == accounts.archived && accounts'.alive == Survivors(accounts)
    requires accounts'.derived == set d | d in accounts.derived && d.0 in Survivors(accounts) && d.1 in Survivors(accounts)
    requires s' == Next(s, DropStale, hash, items)
    ensures Kept(s', hash, items) && Attached(accounts', s', k, st)
  {
    StepKept(s, DropStale, hash, items);
    forall t | t in Survivors(accounts) ensures StorageOf(t, k, st) in Survivors(s) {
      if t !in accounts.archived {
        var d :| d in accounts.derived && d.0 in accounts.archived && d.1 == t;
        assert DerivedFrom(s, StorageOf(d.0, k, st), StorageOf(t, k, st));
        SurvivesBy(s, StorageOf(d.0, k, st), StorageOf(t, k, st));
      }
    }
    forall d | d in accounts'.derived ensures DerivedFrom(s', StorageOf(d.0, k, st), StorageOf(d.1, k, st)) {
      assert DerivedFrom(s, StorageOf(d.0, k, st), StorageOf(d.1, k, st));
    }
  }

  lemma SurvivesBy(s: State, a: Tree, b: Tree)
    requires DerivedFrom(s, a, b) && a in s.archived && Nil in s.archived
    ensures b in Survivors(s)
  {
    var d := if (a, b) in s.derived then (a, b) else (Nil, b);
    assert d in s.derived && d.0 in s.archived && d.1 == b;
  }

  lemma SwitchAttached(accounts: State, accounts': State, s: State, s': State, k: Path, st: Storage, hash: Item -> Hash, items: iset<Item>)
    requires Kept(s, hash, items) && Injective(hash, items) && Attached(accounts, s, k, st)
    requires accounts'.archived == accounts.archived && accounts'.alive == accounts.alive
    requires accounts'.derived == set t | t in accounts.alive :: (t, t)
    requires s' == Next(s, Switch, hash, items)
    ensures Kept(s', hash, items) && Attached(accounts', s', k, st)
  {
    StepKept(s, Switch, hash, items);
  }

  // ----- runs -----

  lemma StorageStepInv(w: World, step: WorldStep, st: Storage, k: Path, hash: Item -> Hash, items: iset<Item>)
    requires WorldInv(w, st, hash, items) && Injective(hash, items) && EnabledAll(w, step, st, hash, items)
    ensures var w' := NextWorld(w, step, st, hash, items);
            Kept(w'.storages(k), hash, items) && Attached(w'.accounts, w'.storages(k), k, st)
  {
    var w' := NextWorld(w, step, st, hash, items);
    var s, s' := w.storages(k), w'.storages(k);
    assert Kept(s, hash, items) && Attached(w.accounts, s, k, st) && EnabledAt(step, st, k, hash, items);
    match step
    case CommitState(base, us, changes) =>
      Committed(w.accounts, base, us, hash, items);
      StorageCommitted(s, s', base, Run(base, us), changes, k, st, hash, items);
      CommitAttached(w.accounts, w'.accounts, s, s', base, Run(base, us), k, st);
    case SwitchAll => SwitchAttached(w.accounts, w'.accounts, s, s', k, st, hash, items);
    case ArchiveState(prev, base, ws, diffs) =>
      ArchiveAttached(w.accounts, w'.accounts, s, s', prev, base, ws, diffs, k, st, hash, items);
    case DropAll => DropAttached(w.accounts, w'.accounts, s, s', k, st, hash, items);
  }

  lemma WorldStepInv(w: World, step: WorldStep, st: Storage, hash: Item -> Hash, items: iset<Item>)
    requires WorldInv(w, st, hash, items) && Injective(hash, items) && EnabledAll(w, step, st, hash, items)
    ensures WorldInv(NextWorld(w, step, st, hash, items), st, hash, items)
  {
    StepKept(w.accounts, AccountStep(step), hash, items);
    forall k ensures var w' := NextWorld(w, step, st, hash, items);
                     Kept(w'.storages(k), hash, items) && Attached(w'.accounts, w'.storages(k), k, st)
    {
      StorageStepInv(w, step, st, k, hash, items);
    }
  }

  ghost predicate WorldRuns(w: World, steps: seq<WorldStep>, st: Storage, hash: Item -> Hash, items: iset<Item>)
    decreases |steps|
  {
    steps != [] ==>
      EnabledAll(w, steps[0], st, hash, items) && WorldRuns(NextWorld(w, steps[0], st, hash, items), steps[1..], st, hash, items)
  }

  ghost function FinalWorld(w: World, steps: seq<WorldStep>, st: Storage, hash: Item -> Hash, items: iset<Item>): World
    requires WorldRuns(w, steps, st, hash, items)
    decreases |steps|
  {
    if steps == [] then w else FinalWorld(NextWorld(w, steps[0], st, hash, items), steps[1..], st, hash, items)
  }

  function InitWorld(): World {
    World(Init, (k: Path) => Init)
  }

  lemma InitWorldInv(st: Storage, hash: Item -> Hash, items: iset<Item>)
    ensures WorldInv(InitWorld(), st, hash, items)
  {
    InitInv(hash, items);
  }

  lemma {:induction false} WorldRunInv(w: World, steps: seq<WorldStep>, st: Storage, hash: Item -> Hash, items: iset<Item>)
    requires WorldInv(w, st, hash, items) && Injective(hash, items) && WorldRuns(w, steps, st, hash, items)
    ensures WorldInv(FinalWorld(w, steps, st, hash, items), st, hash, items)
    decreases |steps|
  {
    if steps != [] {
      WorldStepInv(w, steps[0], st, hash, items);
      WorldRunInv(NextWorld(w, steps[0], st, hash, items), steps[1..], st, hash, items);
    }
  }

  /** A trie that opens at its root and answers every key. */
  ghost predicate Answers(t: Tree, s: Store, hash: Item -> Hash, key: Bytes) {
    var db := Reader(s, hash);
    var n := Open(RootHash(t, hash), db);
    && n.Ok? && TryGet(n.value, [], HexOf(key), db).Ok?
    && TryGet(n.value, [], HexOf(key), db).value.value == PatriciaTree.Get(t, HexOf(key))
  }

  /**
    After any run from empty stores, every live state is readable as a whole: its
    account trie answers every key, and so does the storage trie of each account.
   */
  lemma StatesStayReadable(steps: seq<WorldStep>, st: Storage, hash: Item -> Hash, items: iset<Item>, t: Tree, k: Path, key: Bytes)
    requires Injective(hash, items) && WorldRuns(InitWorld(), steps, st, hash, items)
    requires t in FinalWorld(InitWorld(), steps, st, hash, items).accounts.alive
    ensures var w := FinalWorld(InitWorld(), steps, st, hash, items);
            Answers(t, w.accounts.store, hash, key) && Answers(StorageOf(t, k, st), w.storages(k).store, hash, key)
  {
    var w := FinalWorld(InitWorld(), steps, st, hash, items);
    InitWorldInv(st, hash, items);
    WorldRunInv(InitWorld(), steps, st, hash, items);
    Readable(t, w.accounts.store, hash, items, key);
    assert Attached(w.accounts, w.storages(k), k, st) && Kept(w.storages(k), hash, items);
    Readable(StorageOf(t, k, st), w.storages(k).store, hash, items, key);
  }
}
