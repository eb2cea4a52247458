/**
  The block tree and its index (chain/chain.go, chain/repository.go): every block
  stores a trie that maps numbers and transaction ids to what its own branch holds.
 */
module Chains {
  import opened Hex
  import opened Blocks
  import opened PatriciaTree
  import History

  // ----- block numbers -----

  const Max32: nat := 0xFFFF_FFFF

  /** The number that a block id starts with. */
  function Number(id: Id): (n: nat)
    ensures n <= Max32
  {
    ((id[0] as int * 256 + id[1] as int) * 256 + id[2] as int) * 256 + id[3] as int
  }

  function NumberKey(n: nat): (k: Bytes)
    requires n <= Max32
    ensures |k| == 4
  {
    var a := n / 256;
    var b := a / 256;
    [(b / 256) as Byte, (b % 256) as Byte, (a % 256) as Byte, (n % 256) as Byte]
  }

  lemma NumberKeyOf(id: Id)
    ensures NumberKey(Number(id)) == id[..4]
  {
    var b := id[0] as int * 256 + id[1] as int;
    var a := b * 256 + id[2] as int;
    assert Number(id) / 256 == a && a / 256 == b && b / 256 == id[0] as int;
  }

  lemma NumberKeyInjective(m: nat, n: nat)
    requires m <= Max32 && n <= Max32 && NumberKey(m) == NumberKey(n)
    ensures m == n
  {
    assert NumberKey(m)[0] == NumberKey(n)[0] && NumberKey(m)[1] == NumberKey(n)[1];
    assert NumberKey(m)[2] == NumberKey(n)[2] && NumberKey(m)[3] == NumberKey(n)[3];
    assert m / 256 / 256 == n / 256 / 256;
    assert m / 256 == n / 256;
  }

  // ----- the index -----

  datatype TxMeta = TxMeta(blockID: Id, index: nat, reverted: bool)

  datatype Codec = Codec(encode: TxMeta -> Bytes, decode: Bytes -> Option<TxMeta>)

  ghost predicate Decodes(c: Codec) {
    forall m :: c.encode(m) != [] && c.decode(c.encode(m)) == Some(m)
  }

  datatype Entry = Entry(block: Block, receipts: seq<Receipt>, index: Tree)

  type Repo = map<Id, Entry>

  function TxUpdate(id: Id, txs: seq<Tx>, receipts: seq<Receipt>, i: nat, c: Codec): History.Update
    requires i < |txs| == |receipts|
  {
    History.Update(txs[i].id, c.encode(TxMeta(id, i, receipts[i].reverted)))
  }

  /** The updates for the number of a block and its first n transactions. */
  function IndexUpdates(id: Id, txs: seq<Tx>, receipts: seq<Receipt>, n: nat, c: Codec): seq<History.Update>
    requires n <= |txs| == |receipts|
  {
    if n == 0 then [History.Update(id[..4], id)]
    else IndexUpdates(id, txs, receipts, n - 1, c) + [TxUpdate(id, txs, receipts, n - 1, c)]
  }

  method IndexBlock(parentIndex: Tree, id: Id, txs: seq<Tx>, receipts: seq<Receipt>, c: Codec) returns (r: Option<Tree>)
    requires Canonical(parentIndex)
    ensures r == if |txs| != |receipts| then None
                 else Some(History.Run(parentIndex, IndexUpdates(id, txs, receipts, |txs|, c)))
  {
    if |txs| != |receipts| { return None; }
    var trie := History.Apply(parentIndex, History.Update(id[..4], id));
    IndexFirst(parentIndex, id, txs, receipts, c);
    var i := 0;
    while i < |txs|
      invariant 0 <= i <= |txs| && Canonical(trie)
      invariant trie == History.Run(parentIndex, IndexUpdates(id, txs, receipts, i, c))
    {
      IndexNext(parentIndex, id, txs, receipts, i, c);
      trie := History.Apply(trie, History.Update(txs[i].id, c.encode(TxMeta(id, i, receipts[i].reverted))));
      i := i + 1;
    }
    return Some(trie);
  }

  lemma IndexFirst(t: Tree, id: Id, txs: seq<Tx>, receipts: seq<Receipt>, c: Codec)
    requires Canonical(t) && |txs| == |receipts|
    ensures History.Run(t, IndexUpdates(id, txs, receipts, 0, c)) == History.Apply(t, History.Update(id[..4], id))
  {
    var u := History.Update(id[..4], id);
    History.RunSnoc(t, [], u);
    assert [] + [u] == IndexUpdates(id, txs, receipts, 0, c);
  }

  lemma IndexNext(t: Tree, id: Id, txs: seq<Tx>, receipts: seq<Receipt>, i: nat, c: Codec)
    requires Canonical(t) && i < |txs| == |receipts|
    ensures History.Run(t, IndexUpdates(id, txs, receipts, i + 1, c)) ==
            History.Apply(History.Run(t, IndexUpdates(id, txs, receipts, i, c)), TxUpdate(id, txs, receipts, i, c))
  {
    History.RunSnoc(t, IndexUpdates(id, txs, receipts, i, c), TxUpdate(id, txs, receipts, i, c));
  }

  // ----- branches of the tree -----

  predicate Linked(repo: Repo, genesis: Id, id: Id)
    requires id in repo
  {
    || id == genesis
    || (repo[id].block.header.parentID in repo && Number(id) == Number(repo[id].block.header.parentID) + 1)
  }

  /** Every block but the genesis block continues another one. */
  predicate Rooted(repo: Repo, genesis: Id) {
    genesis in repo && Number(genesis) == 0 && forall id {:trigger Linked(repo, genesis, id)} :: id in repo ==> Linked(repo, genesis, id)
  }

  function Parent(repo: Repo, id: Id): Id
    requires id in repo
  {
    repo[id].block.header.parentID
  }

  /** The block ids from genesis to a head, along parent links. */
  function Ancestry(repo: Repo, genesis: Id, id: Id): (r: seq<Id>)
    requires Rooted(repo, genesis) && id in repo
    ensures |r| == Number(id) + 1 && r[|r| - 1] == id
    decreases Number(id)
  {
    assert Linked(repo, genesis, id);
    if id == genesis then [id] else Ancestry(repo, genesis, Parent(repo, id)) + [id]
  }

  lemma {:induction false} AncestryAt(repo: Repo, genesis: Id, id: Id, i: nat)
    requires Rooted(repo, genesis) && id in repo && i <= Number(id)
    ensures var b := Ancestry(repo, genesis, id); b[i] in repo && Number(b[i]) == i && Ancestry(repo, genesis, b[i]) == b[..i + 1]
    decreases Number(id)
  {
    var b := Ancestry(repo, genesis, id);
    assert Linked(repo, genesis, id);
    if i == Number(id) {
      assert b[..i + 1] == b;
    } else {
      var p := Parent(repo, id);
      AncestryAt(repo, genesis, p, i);
      assert b[..i + 1] == Ancestry(repo, genesis, p)[..i + 1];
    }
  }

  /** The last position of a transaction in a block. */
  function LastIn(txs: seq<Tx>, t: Id): (r: Option<nat>)
    ensures r.Some? ==> r.value < |txs| && txs[r.value].id == t
    ensures r.None? ==> forall i :: 0 <= i < |txs| ==> txs[i].id != t
    decreases |txs|
  {
    if txs == [] then None
    else if txs[|txs| - 1].id == t then Some(|txs| - 1)
    else LastIn(txs[..|txs| - 1], t)
  }

  predicate Complete(repo: Repo, ids: seq<Id>) {
    forall id :: id in ids ==> id in repo && |repo[id].block.txs| == |repo[id].receipts|
  }

  /** The latest occurrence of a transaction on a branch. */
  function LastMeta(repo: Repo, ids: seq<Id>, t: Id): Option<TxMeta>
    requires Complete(repo, ids)
    decreases |ids|
  {
    if ids == [] then None
    else
      var id := ids[|ids| - 1];
      match LastIn(repo[id].block.txs, t)
      case Some(i) => Some(TxMeta(id, i, repo[id].receipts[i].reverted))
      case None => LastMeta(repo, ids[..|ids| - 1], t)
  }

  // ----- the invariant -----

  ghost predicate NumbersIndexed(index: Tree, branch: seq<Id>) {
    forall n: nat :: n <= Max32 ==> Get(index, HexOf(NumberKey(n))) == if n < |branch| then Some(branch[n]) else None
  }

  ghost predicate TxsIndexed(index: Tree, repo: Repo, branch: seq<Id>, c: Codec)
    requires Complete(repo, branch)
  {
    forall t: Id :: Get(index, HexOf(t)) == match LastMeta(repo, branch, t) case None => None case Some(m) => Some(c.encode(m))
  }

  ghost predicate IndexOk(index: Tree, repo: Repo, branch: seq<Id>, c: Codec) {
    Canonical(index) && Complete(repo, branch) && NumbersIndexed(index, branch) && TxsIndexed(index, repo, branch, c)
  }

  ghost predicate Derived(repo: Repo, genesis: Id, id: Id, c: Codec)
    requires Rooted(repo, genesis) && id in repo
  {
    var e := repo[id];
    id != genesis ==>
      && |e.block.txs| == |e.receipts|
      && Linked(repo, genesis, id) && Canonical(repo[e.block.header.parentID].index)
      && e.index == Indexed(repo[e.block.header.parentID].index, id, e.block, e.receipts, c)
  }

  function Indexed(parentIndex: Tree, id: Id, b: Block, receipts: seq<Receipt>, c: Codec): Tree
    requires Canonical(parentIndex) && |b.txs| == |receipts|
  {
    History.Run(parentIndex, IndexUpdates(id, b.txs, receipts, |b.txs|, c))
  }

  ghost predicate Valid(repo: Repo, genesis: Id, c: Codec) {
    Decodes(c) && Rooted(repo, genesis) && AllIndexed(repo, genesis, c) && AllDerived(repo, genesis, c)
  }

  ghost predicate IndexedAt(repo: Repo, genesis: Id, id: Id, c: Codec)
    requires Rooted(repo, genesis) && id in repo
  {
    IndexOk(repo[id].index, repo, Ancestry(repo, genesis, id), c)
  }

  ghost predicate AllIndexed(repo: Repo, genesis: Id, c: Codec)
    requires Rooted(repo, genesis)
  {
    forall id {:trigger IndexedAt(repo, genesis, id, c)} :: id in repo ==> IndexedAt(repo, genesis, id, c)
  }

  ghost predicate AllDerived(repo: Repo, genesis: Id, c: Codec)
    requires Rooted(repo, genesis)
  {
    forall id {:trigger Derived(repo, genesis, id, c)} :: id in repo ==> Derived(repo, genesis, id, c)
  }

  // ----- indexing one more block -----

  lemma {:induction false} LastIndexWrite(id: Id, txs: seq<Tx>, receipts: seq<Receipt>, n: nat, c: Codec, key: Bytes)
    requires n <= |txs| == |receipts|
    ensures var w := History.LastWrite(IndexUpdates(id, txs, receipts, n, c), HexOf(key));
            && (|key| == 4 ==> w == if key == id[..4] then Some(id) else None)
            && (|key| == 32 ==> w == match LastIn(txs[..n], key)
                                     case None => None
                                     case Some(i) => Some(c.encode(TxMeta(id, i, receipts[i].reverted))))
    decreases n
  {
    if n == 0 {
      var u := History.Update(id[..4], id);
      assert IndexUpdates(id, txs, receipts, 0, c) == [] + [u];
      LastWriteSnoc([], u, key);
    } else {
      LastIndexWrite(id, txs, receipts, n - 1, c, key);
      LastWriteSnoc(IndexUpdates(id, txs, receipts, n - 1, c), TxUpdate(id, txs, receipts, n - 1, c), key);
      assert txs[..n][..n - 1] == txs[..n - 1];
    }
  }

  lemma LastWriteSnoc(us: seq<History.Update>, u: History.Update, key: Bytes)
    ensures History.LastWrite(us + [u], HexOf(key)) == if u.key == key then Some(u.value) else History.LastWrite(us, HexOf(key))
  {
    assert (us + [u])[..|us|] == us;
    if HexOf(u.key) == HexOf(key) { HexInjective(u.key, key); }
  }

  lemma NumbersNext(index: Tree, branch: seq<Id>, id: Id, b: Block, receipts: seq<Receipt>, c: Codec)
    requires Canonical(index) && NumbersIndexed(index, branch) && Number(id) == |branch| && |b.txs| == |receipts|
    ensures NumbersIndexed(Indexed(index, id, b, receipts, c), branch + [id])
  {
    forall n: nat | n <= Max32
      ensures Get(Indexed(index, id, b, receipts, c), HexOf(NumberKey(n))) ==
              if n < |branch + [id]| then Some((branch + [id])[n]) else None
    {
      NumberNext(index, branch, id, b, receipts, c, n);
    }
  }

  lemma NumberNext(index: Tree, branch: seq<Id>, id: Id, b: Block, receipts: seq<Receipt>, c: Codec, n: nat)
    requires Canonical(index) && n <= Max32 && Number(id) == |branch| && |b.txs| == |receipts|
    requires Get(index, HexOf(NumberKey(n))) == if n < |branch| then Some(branch[n]) else None
    ensures Get(Indexed(index, id, b, receipts, c), HexOf(NumberKey(n))) ==
            if n < |branch| then Some(branch[n]) else if n == |branch| then Some(id) else None
  {
    var key := NumberKey(n);
    History.GetRun(index, IndexUpdates(id, b.txs, receipts, |b.txs|, c), HexOf(key));
    LastIndexWrite(id, b.txs, receipts, |b.txs|, c, key);
    NumberKeyOf(id);
    if key == id[..4] { NumberKeyInjective(n, Number(id)); }
  }

  lemma TxsNext(index: Tree, repo: Repo, branch: seq<Id>, id: Id, b: Block, receipts: seq<Receipt>, c: Codec, e: Entry)
    requires Canonical(index) && Complete(repo, branch) && TxsIndexed(index, repo, branch, c) && Decodes(c)
    requires id !in branch && |b.txs| == |receipts| && e.block == b && e.receipts == receipts
    ensures Complete(repo[id := e], branch + [id])
    ensures TxsIndexed(Indexed(index, id, b, receipts, c), repo[id := e], branch + [id], c)
  {
    var next := branch + [id];
    forall t: Id
      ensures Get(Indexed(index, id, b, receipts, c), HexOf(t)) ==
              match LastMeta(repo[id := e], next, t) case None => None case Some(m) => Some(c.encode(m))
    {
      History.GetRun(index, IndexUpdates(id, b.txs, receipts, |b.txs|, c), HexOf(t));
      LastIndexWrite(id, b.txs, receipts, |b.txs|, c, t);
      assert b.txs[..|b.txs|] == b.txs;
      assert next[..|next| - 1] == branch;
      LastMetaStable(repo, branch, t, id, e);
    }
  }

  lemma {:induction false} LastMetaStable(repo: Repo, ids: seq<Id>, t: Id, id: Id, e: Entry)
    requires Complete(repo, ids) && id !in ids
    ensures Complete(repo[id := e], ids) && LastMeta(repo[id := e], ids, t) == LastMeta(repo, ids, t)
    decreases |ids|
  {
    if ids != [] { LastMetaStable(repo, ids[..|ids| - 1], t, id, e); }
  }

  lemma {:induction false} AncestryStable(repo: Repo, genesis: Id, id: Id, e: Entry, old': Id)
    requires Rooted(repo, genesis) && Rooted(repo[id := e], genesis) && id !in repo && old' in repo
    ensures Ancestry(repo[id := e], genesis, old') == Ancestry(repo, genesis, old')
    ensures id !in Ancestry(repo, genesis, old')
    decreases Number(old')
  {
    assert Linked(repo, genesis, old');
    if old' != genesis { AncestryStable(repo, genesis, id, e, Parent(repo, old')); }
  }

  predicate Appends(repo: Repo, id: Id, b: Block, receipts: seq<Receipt>) {
    b.header.parentID in repo && |b.txs| == |receipts| && Number(id) == Number(b.header.parentID) + 1
  }

  /** repo' is repo with a block appended. */
  ghost predicate Grown(repo: Repo, genesis: Id, c: Codec, id: Id, repo': Repo, e: Entry) {
    && Rooted(repo, genesis) && id !in repo && repo' == repo[id := e] && Appends(repo, id, e.block, e.receipts)
    && Canonical(repo[e.block.header.parentID].index)
    && e.index == Indexed(repo[e.block.header.parentID].index, id, e.block, e.receipts, c)
  }

  /** A new block leaves every branch and its index as they were, and its own index is right. */
  lemma AddBlockValid(repo: Repo, genesis: Id, c: Codec, id: Id, repo': Repo, e: Entry)
    requires Valid(repo, genesis, c) && Grown(repo, genesis, c, id, repo', e)
    ensures Rooted(repo', genesis) && AllIndexed(repo', genesis, c) && AllDerived(repo', genesis, c)
    ensures Ancestry(repo', genesis, id) == Ancestry(repo, genesis, e.block.header.parentID) + [id]
    ensures forall x :: x in repo ==> Ancestry(repo', genesis, x) == Ancestry(repo, genesis, x)
  {
    RootedNext(repo, genesis, id, repo', e);
    NewIndexOk(repo, genesis, c, id, repo', e);
    OldIndicesOk(repo, genesis, c, id, repo', e);
    DerivedNext(repo, genesis, c, id, repo', e);
  }

  lemma RootedNext(repo: Repo, genesis: Id, id: Id, repo': Repo, e: Entry)
    requires Rooted(repo, genesis) && id !in repo && repo' == repo[id := e] && Appends(repo, id, e.block, e.receipts)
    ensures Rooted(repo', genesis)
  {
    forall x | x in repo' ensures Linked(repo', genesis, x) {
      if x in repo { assert Linked(repo, genesis, x); }
    }
  }

  lemma NewIndexOk(repo: Repo, genesis: Id, c: Codec, id: Id, repo': Repo, e: Entry)
    requires Decodes(c) && Grown(repo, genesis, c, id, repo', e) && Rooted(repo', genesis) && AllIndexed(repo, genesis, c)
    ensures Ancestry(repo', genesis, id) == Ancestry(repo, genesis, e.block.header.parentID) + [id]
    ensures IndexedAt(repo', genesis, id, c)
  {
    var parentID := e.block.header.parentID;
    var branch := Ancestry(repo, genesis, parentID);
    assert IndexedAt(repo, genesis, parentID, c);
    AncestryStable(repo, genesis, id, e, parentID);
    NumbersNext(repo[parentID].index, branch, id, e.block, e.receipts, c);
    TxsNext(repo[parentID].index, repo, branch, id, e.block, e.receipts, c, e);
  }

  lemma OldIndicesOk(repo: Repo, genesis: Id, c: Codec, id: Id, repo': Repo, e: Entry)
    requires Rooted(repo, genesis) && AllIndexed(repo, genesis, c) && id !in repo
    requires repo' == repo[id := e] && Rooted(repo', genesis) && IndexedAt(repo', genesis, id, c)
    ensures forall x :: x in repo ==> Ancestry(repo', genesis, x) == Ancestry(repo, genesis, x)
    ensures AllIndexed(repo', genesis, c)
  {
    forall x | x in repo
      ensures Ancestry(repo', genesis, x) == Ancestry(repo, genesis, x) && IndexedAt(repo', genesis, x, c)
    {
      assert IndexedAt(repo, genesis, x, c);
      OldIndexOk(repo, genesis, c, id, e, x);
    }
    forall x | x in repo' ensures IndexedAt(repo', genesis, x, c) {
      assert x == id || x in repo;
    }
  }

  lemma OldIndexOk(repo: Repo, genesis: Id, c: Codec, id: Id, e: Entry, x: Id)
    requires Rooted(repo, genesis) && Rooted(repo[id := e], genesis) && id !in repo && x in repo
    requires IndexOk(repo[x].index, repo, Ancestry(repo, genesis, x), c)
    ensures Ancestry(repo[id := e], genesis, x) == Ancestry(repo, genesis, x)
    ensures IndexOk(repo[x].index, repo[id := e], Ancestry(repo, genesis, x), c)
  {
    AncestryStable(repo, genesis, id, e, x);
    forall t: Id ensures Complete(repo[id := e], Ancestry(repo, genesis, x)) &&
      LastMeta(repo[id := e], Ancestry(repo, genesis, x), t) == LastMeta(repo, Ancestry(repo, genesis, x), t)
    {
      LastMetaStable(repo, Ancestry(repo, genesis, x), t, id, e);
    }
  }

  lemma DerivedNext(repo: Repo, genesis: Id, c: Codec, id: Id, repo': Repo, e: Entry)
    requires Grown(repo, genesis, c, id, repo', e) && Rooted(repo', genesis) && AllDerived(repo, genesis, c)
    ensures AllDerived(repo', genesis, c)
  {
    forall x | x in repo' ensures Derived(repo', genesis, x, c) {
      if x in repo { assert Derived(repo, genesis, x, c); }
    }
  }
}
