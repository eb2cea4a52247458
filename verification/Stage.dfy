/**
  Staging state changes (State.Stage, state/state.go): the journal is folded into
  per-account changes, which are then written to the storage tries and to the
  account trie in whatever order the map iteration yields.
 */
module Stage {
  import opened Hex
  import opened Rlp
  import opened PatriciaTree
  import opened TrieNode
  import opened History

  type Address = Bytes

  datatype Account = Account(balance: nat, energy: nat, blockTime: nat, master: Bytes, codeHash: Bytes, storageRoot: Bytes) {
    predicate IsEmpty() {
      balance == 0 && energy == 0 && master == [] && codeHash == []
    }
  }

  /** A journal entry; storage values are already encoded. */
  datatype Entry = SetAccount(addr: Address, account: Account) | SetCode(addr: Address, code: Bytes) | SetStorage(addr: Address, key: Bytes, value: Bytes)

  datatype Changed = Changed(data: Account, storage: map<Bytes, Bytes>)

  /** The hashes of trie keys and of code, account encoding, and tries by account and root. */
  datatype World = World(
    blake: Bytes -> Bytes,
    keccak: Bytes -> Bytes,
    encode: Account -> Bytes,
    cached: Address -> Account,
    storageTrie: (Address, Bytes) -> Tree,
    hash: Item -> Hash)

  // ----- folding the journal -----

  /** The account last set for an address, or the cached one. */
  function LastAccount(journal: seq<Entry>, addr: Address, w: World): Account
    decreases |journal|
  {
    if journal == [] then w.cached(addr)
    else
      var last := journal[|journal| - 1];
      if last.SetAccount? && last.addr == addr then last.account else LastAccount(journal[..|journal| - 1], addr, w)
  }

  function LastStorage(journal: seq<Entry>, addr: Address, key: Bytes): Option<Bytes>
    decreases |journal|
  {
    if journal == [] then None
    else
      var last := journal[|journal| - 1];
      if last.SetStorage? && last.addr == addr && last.key == key then Some(last.value)
      else LastStorage(journal[..|journal| - 1], addr, key)
  }

  predicate Touches(e: Entry, addr: Address) {
    !e.SetCode? && e.addr == addr
  }

  ghost predicate Folds(changes: map<Address, Changed>, journal: seq<Entry>, w: World) {
    && (forall addr :: addr in changes <==> exists e :: e in journal && Touches(e, addr))
    && (forall addr :: addr in changes ==> changes[addr].data == LastAccount(journal, addr, w))
    && (forall addr, key :: addr in changes ==>
          LastStorage(journal, addr, key) == if key in changes[addr].storage then Some(changes[addr].storage[key]) else None)
  }

  predicate SetsCode(e: Entry, h: Bytes, code: Bytes, w: World) {
    e.SetCode? && e.code == code && code != [] && w.keccak(code) == h
  }

  /** The codes are exactly the non-empty ones that were set, each under its hash. */
  ghost predicate Collects(codes: map<Bytes, Bytes>, journal: seq<Entry>, w: World) {
    && (forall h :: h in codes ==> exists e :: e in journal && SetsCode(e, h, codes[h], w))
    && (forall e, h, code :: e in journal && SetsCode(e, h, code, w) ==> h in codes)
  }

  method FoldJournal(journal: seq<Entry>, w: World) returns (changes: map<Address, Changed>, codes: map<Bytes, Bytes>)
    ensures Folds(changes, journal, w) && Collects(codes, journal, w)
  {
    changes, codes := map[], map[];
    var i := 0;
    while i < |journal|
      invariant 0 <= i <= |journal|
      invariant Folds(changes, journal[..i], w) && Collects(codes, journal[..i], w)
    {
      assert journal[..i + 1] == journal[..i] + [journal[i]];
      changes, codes := FoldEntry(changes, codes, journal[..i], journal[i], w);
      i := i + 1;
    }
    assert journal[..|journal|] == journal;
  }

  method FoldEntry(changes: map<Address, Changed>, codes: map<Bytes, Bytes>, ghost done: seq<Entry>, e: Entry, w: World)
    returns (changes': map<Address, Changed>, codes': map<Bytes, Bytes>)
    requires Folds(changes, done, w) && Collects(codes, done, w)
    ensures Folds(changes', done + [e], w) && Collects(codes', done + [e], w)
  {
    FoldStep(changes, done, e, w);
    CollectStep(codes, done, e, w);
    changes', codes' := changes, codes;
    if e.SetCode? {
      if |e.code| > 0 { codes' := codes[w.keccak(e.code) := e.code]; }
    } else {
      var c := if e.addr in changes then changes[e.addr] else Changed(w.cached(e.addr), map[]);
      if e.SetAccount? { c := c.(data := e.account); } else { c := c.(storage := c.storage[e.key := e.value]); }
      changes' := changes[e.addr := c];
    }
  }

  function CollectOne(codes: map<Bytes, Bytes>, e: Entry, w: World): map<Bytes, Bytes> {
    if e.SetCode? && e.code != [] then codes[w.keccak(e.code) := e.code] else codes
  }

  function FoldOne(changes: map<Address, Changed>, e: Entry, w: World): map<Address, Changed> {
    if e.SetCode? then changes
    else
      var c := if e.addr in changes then changes[e.addr] else Changed(w.cached(e.addr), map[]);
      changes[e.addr := if e.SetAccount? then c.(data := e.account) else c.(storage := c.storage[e.key := e.value])]
  }

  lemma CollectStep(codes: map<Bytes, Bytes>, journal: seq<Entry>, e: Entry, w: World)
    requires Collects(codes, journal, w)
    ensures Collects(CollectOne(codes, e, w), journal + [e], w)
  {
    var codes' := CollectOne(codes, e, w);
    forall h | h in codes' ensures exists x :: x in journal + [e] && SetsCode(x, h, codes'[h], w) {
      if e.SetCode? && SetsCode(e, h, e.code, w) {
        assert e in journal + [e];
      } else {
        var x :| x in journal && SetsCode(x, h, codes[h], w);
        assert x in journal + [e];
      }
    }
  }

  lemma FoldStep(changes: map<Address, Changed>, journal: seq<Entry>, e: Entry, w: World)
    requires Folds(changes, journal, w)
    ensures Folds(FoldOne(changes, e, w), journal + [e], w)
  {
    var next, changes' := journal + [e], FoldOne(changes, e, w);
    assert next[..|journal|] == journal;
    forall addr ensures addr in changes' <==> exists x :: x in next && Touches(x, addr) {
      if addr in changes { var x :| x in journal && Touches(x, addr); assert x in next; }
      if Touches(e, addr) { assert e in next; }
    }
    forall addr | addr in changes' ensures changes'[addr].data == LastAccount(next, addr, w) {
      if addr !in changes { Untouched(journal, addr, w); }
    }
    forall addr, key | addr in changes' ensures
      LastStorage(next, addr, key) == if key in changes'[addr].storage then Some(changes'[addr].storage[key]) else None
    {
      if addr !in changes { Untouched(journal, addr, w); }
    }
  }

  lemma {:induction false} Untouched(journal: seq<Entry>, addr: Address, w: World)
    requires forall e :: e in journal ==> !Touches(e, addr)
    ensures LastAccount(journal, addr, w) == w.cached(addr)
    ensures forall key :: LastStorage(journal, addr, key) == None
    decreases |journal|
  {
    if journal != [] {
      assert Touches(journal[|journal| - 1], addr) ==> false;
      Untouched(journal[..|journal| - 1], addr, w);
    }
  }

  // ----- writing a map of changes to a trie -----

  /** The updates of m under hashed keys, each once, in some order. */
  ghost predicate Lists(us: seq<Update>, m: map<Bytes, Bytes>, blake: Bytes -> Bytes) {
    Written(us, m, m.Keys, blake)
  }

  /** The same, for part of m. */
  ghost predicate Written(us: seq<Update>, m: map<Bytes, Bytes>, keys: set<Bytes>, blake: Bytes -> Bytes) {
    && keys <= m.Keys && DistinctKeys(us)
    && forall u :: u in us <==> exists k :: k in keys && u == Update(blake(k), m[k])
  }

  ghost predicate InjectiveOn(blake: Bytes -> Bytes, keys: set<Bytes>) {
    forall a, b :: a in keys && b in keys && blake(a) == blake(b) ==> a == b
  }

  lemma SameUpdates(us1: seq<Update>, us2: seq<Update>)
    requires DistinctKeys(us1) && DistinctKeys(us2) && forall u :: u in us1 <==> u in us2
    ensures multiset(us1) == multiset(us2)
  {
    forall u ensures multiset(us1)[u] == multiset(us2)[u] {
      CountDistinct(us1, u);
      CountDistinct(us2, u);
    }
  }

  lemma {:induction false} CountDistinct(us: seq<Update>, u: Update)
    requires DistinctKeys(us)
    ensures multiset(us)[u] == if u in us then 1 else 0
    decreases |us|
  {
    if us != [] {
      assert us == [us[0]] + us[1..];
      CountDistinct(us[1..], u);
    }
  }

  lemma ListedSnoc(done: seq<Update>, m: map<Bytes, Bytes>, seen: set<Bytes>, k: Bytes, blake: Bytes -> Bytes)
    requires k in m && k !in seen && InjectiveOn(blake, m.Keys) && Written(done, m, seen, blake)
    ensures Written(done + [Update(blake(k), m[k])], m, seen + {k}, blake)
  {
    forall i | 0 <= i < |done| ensures done[i].key != blake(k) {
      assert done[i] in done;
    }
  }

  lemma ListingExists(m: map<Bytes, Bytes>, blake: Bytes -> Bytes) returns (us: seq<Update>)
    requires InjectiveOn(blake, m.Keys)
    ensures Lists(us, m, blake)
  {
    us := [];
    var todo := m.Keys;
    while todo != {}
      invariant todo <= m.Keys && Written(us, m, m.Keys - todo, blake)
      decreases |todo|
    {
      var k :| k in todo;
      ListedSnoc(us, m, m.Keys - todo, k, blake);
      assert m.Keys - (todo - {k}) == m.Keys - todo + {k};
      us, todo := us + [Update(blake(k), m[k])], todo - {k};
    }
    assert m.Keys - todo == m.Keys;
  }

  /** The tree after the updates of m, in some order. */
  ghost function Saved(t: Tree, m: map<Bytes, Bytes>, blake: Bytes -> Bytes): Tree
    requires Canonical(t) && InjectiveOn(blake, m.Keys)
  {
    assert exists us :: Lists(us, m, blake) by { var us := ListingExists(m, blake); }
    var us :| Lists(us, m, blake);
    Run(t, us)
  }

  /** It does not matter which order. */
  lemma SavedInAnyOrder(t: Tree, m: map<Bytes, Bytes>, blake: Bytes -> Bytes, us: seq<Update>)
    requires Canonical(t) && InjectiveOn(blake, m.Keys) && Lists(us, m, blake)
    ensures Run(t, us) == Saved(t, m, blake)
  {
    var vs :| Lists(vs, m, blake) && Saved(t, m, blake) == Run(t, vs);
    SameUpdates(us, vs);
    OrderIndependence(t, us, vs);
  }

  /** Iteration over m, in an order nobody chooses. */
  method SaveAll(t: Tree, m: map<Bytes, Bytes>, blake: Bytes -> Bytes) returns (r: Tree)
    requires Canonical(t) && InjectiveOn(blake, m.Keys)
    ensures Canonical(r) && r == Saved(t, m, blake)
  {
    r := t;
    var todo := m.Keys;
    ghost var done: seq<Update> := [];
    while todo != {}
      invariant todo <= m.Keys && Canonical(r) && r == Run(t, done)
      invariant Written(done, m, m.Keys - todo, blake)
      decreases |todo|
    {
      var k :| k in todo;
      var u := Update(blake(k), m[k]);
      r := Apply(r, u);
      RunSnoc(t, done, u);
      ListedSnoc(done, m, m.Keys - todo, k, blake);
      assert m.Keys - (todo - {k}) == m.Keys - todo + {k};
      todo, done := todo - {k}, done + [u];
    }
    assert m.Keys - todo == m.Keys;
    SavedInAnyOrder(t, m, blake, done);
  }

  /** What a saved map answers: the new values, empty ones deleted, and elsewhere what was there. */
  lemma GetSaved(t: Tree, m: map<Bytes, Bytes>, blake: Bytes -> Bytes, k: Path)
    requires Canonical(t) && InjectiveOn(blake, m.Keys) && PatriciaTreeProofs.KeyAt(k, false)
    ensures forall key :: key in m && k == HexOf(blake(key)) ==>
              Get(Saved(t, m, blake), k) == if m[key] == [] then None else Some(m[key])
    ensures (forall key :: key in m ==> k != HexOf(blake(key))) ==> Get(Saved(t, m, blake), k) == Get(t, k)
  {
    var us := ListingExists(m, blake);
    SavedInAnyOrder(t, m, blake, us);
    GetRun(t, us, k);
    LastWriteIsMember(us, k);
    forall key | key in m && k == HexOf(blake(key)) ensures LastWrite(us, k) == Some(m[key]) {
      var u := Update(blake(key), m[key]);
      assert u in us;
      var w :| w in us && HexOf(w.key) == k && w.value == LastWrite(us, k).value;
      HexInjective(u.key, w.key);
      DistinctKeysUnique(us, u, w);
    }
  }

  // ----- both levels -----

  /** Hashed keys do not collide among those that change, and storage tries are canonical. */
  ghost predicate Sane(changes: map<Address, Changed>, w: World) {
    && InjectiveOn(w.blake, changes.Keys)
    && (forall addr :: addr in changes ==> InjectiveOn(w.blake, changes[addr].storage.Keys))
    && (forall addr, root :: Canonical(w.storageTrie(addr, root)))
  }

  /** The account as it is stored: with the root of its changed storage. */
  ghost function Staged(addr: Address, c: Changed, w: World): Account
    requires InjectiveOn(w.blake, c.storage.Keys) && Canonical(w.storageTrie(addr, c.data.storageRoot))
  {
    if c.data.IsEmpty() || c.storage == map[] then c.data
    else c.data.(storageRoot := RootHash(Saved(w.storageTrie(addr, c.data.storageRoot), c.storage, w.blake), w.hash))
  }

  function AccountValue(a: Account, w: World): Bytes {
    if a.IsEmpty() then [] else w.encode(a)
  }

  ghost function AccountUpdates(changes: map<Address, Changed>, w: World): map<Address, Bytes>
    requires Sane(changes, w)
  {
    map addr | addr in changes :: AccountValue(Staged(addr, changes[addr], w), w)
  }

  /** Stage: fold the journal, then write every change. */
  method StageAll(journal: seq<Entry>, accounts: Tree, w: World)
    returns (changes: map<Address, Changed>, codes: map<Bytes, Bytes>, r: Tree)
    requires Canonical(accounts) && forall all :: Folds(all, journal, w) ==> Sane(all, w)
    ensures Folds(changes, journal, w) && Sane(changes, w) && Collects(codes, journal, w)
    ensures Canonical(r) && r == Saved(accounts, AccountUpdates(changes, w), w.blake)
    ensures (forall a :: |w.encode(a)| > 0) ==>
              forall addr :: (forall other :: other in changes && w.blake(other) == w.blake(addr) ==> other == addr) ==>
                ReadsBack(Get(r, HexOf(w.blake(addr))), Get(accounts, HexOf(w.blake(addr))), journal, addr, w)
  {
    changes, codes := FoldJournal(journal, w);
    r := SaveAccounts(changes, accounts, w);
    if forall a :: |w.encode(a)| > 0 {
      forall addr | forall other :: other in changes && w.blake(other) == w.blake(addr) ==> other == addr
        ensures ReadsBack(Get(r, HexOf(w.blake(addr))), Get(accounts, HexOf(w.blake(addr))), journal, addr, w)
      {
        JournalReadsBack(accounts, journal, changes, w, addr);
      }
    }
  }

  /** The account trie of all changes, whatever order the maps are visited in. */
  method SaveAccounts(changes: map<Address, Changed>, accounts: Tree, w: World) returns (r: Tree)
    requires Canonical(accounts) && Sane(changes, w)
    ensures Canonical(r) && r == Saved(accounts, AccountUpdates(changes, w), w.blake)
  {
    r := accounts;
    var todo := changes.Keys;
    ghost var m := AccountUpdates(changes, w);
    ghost var done: seq<Update> := [];
    while todo != {}
      invariant todo <= changes.Keys && Canonical(r) && r == Run(accounts, done)
      invariant Written(done, m, changes.Keys - todo, w.blake)
      decreases |todo|
    {
      var addr :| addr in todo;
      var a, _ := StageAccount(addr, changes[addr], w);
      var u := Update(w.blake(addr), AccountValue(a, w));
      r := Apply(r, u);
      RunSnoc(accounts, done, u);
      ListedSnoc(done, m, changes.Keys - todo, addr, w.blake);
      assert changes.Keys - (todo - {addr}) == changes.Keys - todo + {addr};
      todo, done := todo - {addr}, done + [u];
    }
    assert changes.Keys - todo == m.Keys;
    SavedInAnyOrder(accounts, m, w.blake, done);
  }

  // ----- what the two levels read -----

  /** st reads as t with the storage written over it: new values where they are set, nothing where they are set empty. */
  ghost predicate Overwrites(st: Tree, t: Tree, storage: map<Bytes, Bytes>, w: World) {
    && Canonical(st)
    && (forall key :: key in storage ==> Get(st, HexOf(w.blake(key))) == if |storage[key]| > 0 then Some(storage[key]) else None)
    && (forall k :: KeyOutside(k, storage, w) ==> Get(st, k) == Get(t, k))
  }

  /** A path that is not that of a key of the storage. */
  ghost predicate KeyOutside(k: Path, storage: map<Bytes, Bytes>, w: World) {
    PatriciaTreeProofs.KeyAt(k, false) && forall key :: key in storage ==> k != HexOf(w.blake(key))
  }

  /** An account that has anything at all. */
  predicate HasSomething(a: Account) {
    a.balance > 0 || a.energy > 0 || |a.master| > 0 || |a.codeHash| > 0
  }

  /** The stored account: of its data only the storage root differs, and that is the root of the storage written over. */
  ghost predicate StagesAs(a: Account, st: Tree, addr: Address, data: Account, storage: map<Bytes, Bytes>, w: World) {
    if HasSomething(data) && storage != map[] then
      && Overwrites(st, w.storageTrie(addr, data.storageRoot), storage, w)
      && a == data.(storageRoot := RootHash(st, w.hash))
    else a == data
  }

  lemma SavedOverwrites(t: Tree, storage: map<Bytes, Bytes>, w: World)
    requires Canonical(t) && InjectiveOn(w.blake, storage.Keys)
    ensures Overwrites(Saved(t, storage, w.blake), t, storage, w)
  {
    var st := Saved(t, storage, w.blake);
    var us := ListingExists(storage, w.blake);
    SavedInAnyOrder(t, storage, w.blake, us);
    forall key | key in storage ensures Get(st, HexOf(w.blake(key))) == if |storage[key]| > 0 then Some(storage[key]) else None {
      GetSaved(t, storage, w.blake, HexOf(w.blake(key)));
    }
    forall k | KeyOutside(k, storage, w) ensures Get(st, k) == Get(t, k) { GetSaved(t, storage, w.blake, k); }
  }

  lemma StagedStages(addr: Address, c: Changed, w: World)
    requires InjectiveOn(w.blake, c.storage.Keys) && Canonical(w.storageTrie(addr, c.data.storageRoot))
    ensures StagesAs(Staged(addr, c, w), Saved(w.storageTrie(addr, c.data.storageRoot), c.storage, w.blake), addr, c.data, c.storage, w)
  {
    SavedOverwrites(w.storageTrie(addr, c.data.storageRoot), c.storage, w);
  }

  method StageAccount(addr: Address, c: Changed, w: World) returns (a: Account, ghost st: Tree)
    requires InjectiveOn(w.blake, c.storage.Keys) && Canonical(w.storageTrie(addr, c.data.storageRoot))
    ensures StagesAs(a, st, addr, c.data, c.storage, w) && a == Staged(addr, c, w)
  {
    a, st := c.data, Nil;
    if !c.data.IsEmpty() && |c.storage| > 0 {
      var t := SaveAll(w.storageTrie(addr, c.data.storageRoot), c.storage, w.blake);
      a, st := a.(storageRoot := RootHash(t, w.hash)), t;
    }
    StagedStages(addr, c, w);
  }

  /** A journal folds in one way only. */
  lemma FoldsOnce(c1: map<Address, Changed>, c2: map<Address, Changed>, journal: seq<Entry>, w: World)
    requires Folds(c1, journal, w) && Folds(c2, journal, w)
    ensures c1 == c2
  {
    assert c1.Keys == c2.Keys;
    forall addr | addr in c1 ensures c1[addr] == c2[addr] {
      var s1, s2 := c1[addr].storage, c2[addr].storage;
      forall key ensures key in s1 <==> key in s2 { assert LastStorage(journal, addr, key).Some? <==> key in s1; }
      forall key | key in s1 ensures s1[key] == s2[key] { assert LastStorage(journal, addr, key) == Some(s1[key]); }
      assert s1 == s2;
    }
  }

  /** After staging, each changed account reads as staged, an empty one is gone, and all others are untouched. */
  lemma StagedReads(accounts: Tree, changes: map<Address, Changed>, w: World, addr: Address)
    requires Canonical(accounts) && Sane(changes, w) && forall a :: |w.encode(a)| > 0
    requires addr !in changes ==> forall other :: other in changes ==> w.blake(other) != w.blake(addr)
    ensures var read := Get(Saved(accounts, AccountUpdates(changes, w), w.blake), HexOf(w.blake(addr)));
            if addr !in changes then read == Get(accounts, HexOf(w.blake(addr)))
            else if changes[addr].data.IsEmpty() then read == None
            else read == Some(w.encode(Staged(addr, changes[addr], w)))
  {
    var m := AccountUpdates(changes, w);
    var k := HexOf(w.blake(addr));
    assert PatriciaTreeProofs.KeyAt(k, false);
    GetSaved(accounts, m, w.blake, k);
    forall key | key in m && k == HexOf(w.blake(key)) ensures w.blake(key) == w.blake(addr) {
      HexInjective(w.blake(key), w.blake(addr));
    }
  }

  // ----- from the journal to what is read -----

  ghost predicate Untouching(journal: seq<Entry>, addr: Address) {
    forall e :: e in journal ==> !Touches(e, addr)
  }

  /** As StagesAs, told by the journal alone. */
  ghost predicate JournalStages(a: Account, st: Tree, journal: seq<Entry>, addr: Address, w: World) {
    var data := LastAccount(journal, addr, w);
    if exists key :: LastStorage(journal, addr, key).Some? then
      && Canonical(st) && a == data.(storageRoot := RootHash(st, w.hash))
      && (forall key :: LastStorage(journal, addr, key).Some? ==>
            var v := LastStorage(journal, addr, key).value; Get(st, HexOf(w.blake(key))) == if |v| > 0 then Some(v) else None)
      && (forall k :: Unwritten(k, journal, addr, w) ==> Get(st, k) == Get(w.storageTrie(addr, data.storageRoot), k))
    else a == data
  }

  /** A path of storage to which the journal writes nothing. */
  ghost predicate Unwritten(k: Path, journal: seq<Entry>, addr: Address, w: World) {
    PatriciaTreeProofs.KeyAt(k, false) && forall key :: LastStorage(journal, addr, key).Some? ==> k != HexOf(w.blake(key))
  }

  /** What is read for an address after the journal: what was there if it is not touched, nothing if it is left without anything. */
  ghost predicate ReadsBack(read: Option<Bytes>, before: Option<Bytes>, journal: seq<Entry>, addr: Address, w: World) {
    if Untouching(journal, addr) then read == before
    else if !HasSomething(LastAccount(journal, addr, w)) then read == None
    else exists a, st :: JournalStages(a, st, journal, addr, w) && read == Some(w.encode(a))
  }

  lemma StagesByJournal(a: Account, st: Tree, journal: seq<Entry>, changes: map<Address, Changed>, addr: Address, w: World)
    requires Folds(changes, journal, w) && addr in changes && HasSomething(changes[addr].data)
    requires StagesAs(a, st, addr, changes[addr].data, changes[addr].storage, w)
    ensures JournalStages(a, st, journal, addr, w)
  {
    var storage := changes[addr].storage;
    forall key ensures key in storage <==> LastStorage(journal, addr, key).Some? {}
    if storage == map[] {
      assert forall key :: LastStorage(journal, addr, key).None?;
    } else {
      var key :| key in storage;
      assert LastStorage(journal, addr, key).Some?;
      forall k | Unwritten(k, journal, addr, w) ensures Get(st, k) == Get(w.storageTrie(addr, changes[addr].data.storageRoot), k) {
        assert KeyOutside(k, storage, w);
      }
    }
  }

  /** Staging a journal leaves an account trie, and storage tries under it, that read as the journal says. */
  lemma JournalReadsBack(accounts: Tree, journal: seq<Entry>, changes: map<Address, Changed>, w: World, addr: Address)
    requires Canonical(accounts) && Folds(changes, journal, w) && Sane(changes, w) && forall a :: |w.encode(a)| > 0
    requires forall other :: other in changes && w.blake(other) == w.blake(addr) ==> other == addr
    ensures ReadsBack(Get(Saved(accounts, AccountUpdates(changes, w), w.blake), HexOf(w.blake(addr))), Get(accounts, HexOf(w.blake(addr))),
                      journal, addr, w)
  {
    StagedReads(accounts, changes, w, addr);
    assert addr in changes <==> !Untouching(journal, addr);
    if addr in changes && HasSomething(changes[addr].data) {
      var c := changes[addr];
      StagedStages(addr, c, w);
      StagesByJournal(Staged(addr, c, w), Saved(w.storageTrie(addr, c.data.storageRoot), c.storage, w.blake), journal, changes, addr, w);
    }
  }
}
