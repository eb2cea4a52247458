/**
  Reading the block tree (chain/chain.go, chain/repository.go, chain/block_reader.go):
  lookups through the index, the difference of two branches, and a reader that
  follows the best branch across reorganisations.
 */
module ChainReader {
  import opened Hex
  import opened Blocks
  import opened PatriciaTree
  import opened Chains

  // ----- lookups -----

  /** The last 32 bytes, padded on the left. */
  function ToBytes32(b: Bytes): Id {
    if |b| > 32 then b[|b| - 32..] else seq(32 - |b|, i => 0) + b
  }

  function GetBlockID(repo: Repo, head: Id, n: nat): Option<Id>
    requires n <= Max32
  {
    if head !in repo then None
    else
      match Get(repo[head].index, HexOf(NumberKey(n)))
      case None => None
      case Some(data) => if data == [] then None else Some(ToBytes32(data))
  }

  function GetTransactionMeta(repo: Repo, head: Id, t: Id, c: Codec): Option<TxMeta> {
    if head !in repo then None
    else
      match Get(repo[head].index, HexOf(t))
      case None => None
      case Some(enc) => if enc == [] then None else c.decode(enc)
  }

  function HasBlock(repo: Repo, head: Id, id: Id): bool {
    GetBlockID(repo, head, Number(id)) == Some(id)
  }

  /** A number leads to the ancestor at that height, and to nothing above the head. */
  lemma GetBlockIDAgrees(repo: Repo, genesis: Id, c: Codec, head: Id, n: nat)
    requires Valid(repo, genesis, c) && head in repo && n <= Max32
    ensures GetBlockID(repo, head, n) == if n <= Number(head) then Some(Ancestry(repo, genesis, head)[n]) else None
  {
    var branch := Ancestry(repo, genesis, head);
    assert IndexedAt(repo, genesis, head, c);
    assert Get(repo[head].index, HexOf(NumberKey(n))) == if n < |branch| then Some(branch[n]) else None;
    if n < |branch| { assert ToBytes32(branch[n]) == branch[n]; }
  }

  /** A transaction is found exactly where it last occurs on the branch. */
  lemma GetTransactionMetaAgrees(repo: Repo, genesis: Id, c: Codec, head: Id, t: Id)
    requires Valid(repo, genesis, c) && head in repo
    ensures Complete(repo, Ancestry(repo, genesis, head))
    ensures GetTransactionMeta(repo, head, t, c) == LastMeta(repo, Ancestry(repo, genesis, head), t)
  {
    assert IndexedAt(repo, genesis, head, c);
  }

  ghost predicate Contains(repo: Repo, id: Id, t: Id) {
    id in repo && exists i :: 0 <= i < |repo[id].block.txs| && repo[id].block.txs[i].id == t
  }

  /** It is found if and only if some block of the branch contains it. */
  lemma {:induction false} LastMetaFinds(repo: Repo, ids: seq<Id>, t: Id)
    requires Complete(repo, ids)
    ensures LastMeta(repo, ids, t).Some? <==> exists id :: id in ids && Contains(repo, id, t)
    ensures LastMeta(repo, ids, t).Some? ==>
              var m := LastMeta(repo, ids, t).value;
              m.blockID in ids && m.index < |repo[m.blockID].block.txs| == |repo[m.blockID].receipts| &&
              repo[m.blockID].block.txs[m.index].id == t && m.reverted == repo[m.blockID].receipts[m.index].reverted
    decreases |ids|
  {
    if ids != [] {
      var front, last := ids[..|ids| - 1], ids[|ids| - 1];
      LastMetaFinds(repo, front, t);
      assert ids == front + [last];
      if LastIn(repo[last].block.txs, t).Some? {
        assert repo[last].block.txs[LastIn(repo[last].block.txs, t).value].id == t;
        assert Contains(repo, last, t);
      } else if id :| id in ids && Contains(repo, id, t) {
        assert id in front;
      }
    }
  }

  lemma HasBlockAgrees(repo: Repo, genesis: Id, c: Codec, head: Id, id: Id)
    requires Valid(repo, genesis, c) && head in repo
    ensures HasBlock(repo, head, id) <==> id in Ancestry(repo, genesis, head)
  {
    var branch := Ancestry(repo, genesis, head);
    GetBlockIDAgrees(repo, genesis, c, head, Number(id));
    if id in branch {
      var i :| 0 <= i < |branch| && branch[i] == id;
      AncestryAt(repo, genesis, head, i);
    }
  }

  // ----- two branches -----

  /** Below a shared block, two branches agree. */
  lemma SharedPrefix(repo: Repo, genesis: Id, a: Id, b: Id, i: nat)
    requires Rooted(repo, genesis) && a in repo && b in repo && i <= Number(a)
    requires Ancestry(repo, genesis, a)[i] in Ancestry(repo, genesis, b)
    ensures i <= Number(b) && Ancestry(repo, genesis, a)[..i + 1] == Ancestry(repo, genesis, b)[..i + 1]
  {
    var xs, ys := Ancestry(repo, genesis, a), Ancestry(repo, genesis, b);
    var j :| 0 <= j < |ys| && ys[j] == xs[i];
    AncestryAt(repo, genesis, a, i);
    AncestryAt(repo, genesis, b, j);
  }

  method ReverseIds(ids: seq<Id>) returns (r: seq<Id>)
    ensures |r| == |ids| && forall k :: 0 <= k < |ids| ==> r[k] == ids[|ids| - 1 - k]
  {
    r := ids;
    var i, j := 0, |ids| - 1;
    while i < j
      invariant 0 <= i <= |ids| && i + j == |ids| - 1 && |r| == |ids|
      invariant forall k :: 0 <= k < i ==> r[k] == ids[|ids| - 1 - k] && r[|ids| - 1 - k] == ids[k]
      invariant forall k :: i <= k <= j ==> r[k] == ids[k]
    {
      r := r[i := r[j]][j := r[i]];
      i, j := i + 1, j - 1;
    }
  }

  /** The end of xs that is not in ys. */
  ghost predicate Excludes(ids: seq<Id>, xs: seq<Id>, ys: seq<Id>) {
    (exists k :: 0 <= k <= |xs| && ids == xs[k..]) && forall id :: id in ids <==> id in xs && id !in ys
  }

  /** The blocks of one branch that another lacks, ascending. */
  method Exclude(repo: Repo, head: Id, other: Id, ghost genesis: Id, ghost c: Codec) returns (r: Option<seq<Id>>)
    requires Valid(repo, genesis, c) && head in repo && other in repo
    ensures r.Some? && Excludes(r.value, Ancestry(repo, genesis, head), Ancestry(repo, genesis, other))
  {
    ProbesAgree(repo, genesis, c, head, other);
    r := ExcludeDown(repo, head, other, Ancestry(repo, genesis, head), Ancestry(repo, genesis, other));
  }

  /** What probing heights of one branch, and looking the results up in another, tells. */
  ghost predicate Probes(repo: Repo, head: Id, other: Id, xs: seq<Id>, ys: seq<Id>) {
    && |xs| == Number(head) + 1
    && (forall i :: 0 <= i < |xs| ==> GetBlockID(repo, head, i) == Some(xs[i]))
    && (forall i :: 0 <= i < |xs| ==> (HasBlock(repo, other, xs[i]) <==> xs[i] in ys))
    && (forall i :: 0 <= i < |xs| && xs[i] in ys ==> i < |ys| && xs[..i + 1] == ys[..i + 1])
  }

  lemma ProbesAgree(repo: Repo, genesis: Id, c: Codec, head: Id, other: Id)
    requires Valid(repo, genesis, c) && head in repo && other in repo
    ensures Probes(repo, head, other, Ancestry(repo, genesis, head), Ancestry(repo, genesis, other))
  {
    var xs, ys := Ancestry(repo, genesis, head), Ancestry(repo, genesis, other);
    forall i | 0 <= i < |xs|
      ensures GetBlockID(repo, head, i) == Some(xs[i]) && (HasBlock(repo, other, xs[i]) <==> xs[i] in ys)
      ensures xs[i] in ys ==> i < |ys| && xs[..i + 1] == ys[..i + 1]
    {
      GetBlockIDAgrees(repo, genesis, c, head, i);
      HasBlockAgrees(repo, genesis, c, other, xs[i]);
      if xs[i] in ys { SharedPrefix(repo, genesis, head, other, i); }
    }
  }

  method ExcludeDown(repo: Repo, head: Id, other: Id, ghost xs: seq<Id>, ghost ys: seq<Id>) returns (r: Option<seq<Id>>)
    requires Probes(repo, head, other, xs, ys)
    ensures r.Some? && Excludes(r.value, xs, ys)
  {
    var ids: seq<Id> := [];
    var i := Number(head);
    while i >= 0
      invariant -1 <= i < |xs| && TopDown(xs, ids, i) && NoneIn(xs, ys, i)
    {
      var id := GetBlockID(repo, head, i);
      if id.None? { return None; }
      if HasBlock(repo, other, id.value) { break; }
      TopDownNext(xs, ys, ids, i);
      ids := ids + [id.value];
      i := i - 1;
    }
    var out := ReverseIds(ids);
    TopDownReversed(xs, ids, i, out);
    Excluded(xs, ys, i + 1);
    r := Some(out);
  }

  /** ids lists what is above i, from the top. */
  ghost predicate TopDown(xs: seq<Id>, ids: seq<Id>, i: int) {
    i >= -1 && |ids| == |xs| - 1 - i && forall k :: 0 <= k < |ids| ==> ids[k] == xs[|xs| - 1 - k]
  }

  ghost predicate NoneIn(xs: seq<Id>, ys: seq<Id>, i: int) {
    forall k :: 0 <= k < |xs| && i < k ==> xs[k] !in ys
  }

  lemma TopDownNext(xs: seq<Id>, ys: seq<Id>, ids: seq<Id>, i: nat)
    requires i < |xs| && TopDown(xs, ids, i) && NoneIn(xs, ys, i) && xs[i] !in ys
    ensures TopDown(xs, ids + [xs[i]], i - 1) && NoneIn(xs, ys, i - 1)
  {
  }

  lemma TopDownReversed(xs: seq<Id>, ids: seq<Id>, i: int, out: seq<Id>)
    requires -1 <= i < |xs| && TopDown(xs, ids, i)
    requires |out| == |ids| && forall k :: 0 <= k < |ids| ==> out[k] == ids[|ids| - 1 - k]
    ensures out == xs[i + 1..]
  {
    forall k | 0 <= k < |out| ensures out[k] == xs[i + 1..][k] { assert ids[|ids| - 1 - k] == xs[i + 1 + k]; }
  }

  lemma Excluded(xs: seq<Id>, ys: seq<Id>, k: nat)
    requires k <= |xs| && (k > 0 ==> k <= |ys| && xs[..k] == ys[..k]) && NoneIn(xs, ys, k - 1)
    ensures forall id :: id in xs[k..] <==> id in xs && id !in ys
  {
    forall i | 0 <= i < k ensures xs[i] in ys { assert xs[i] == xs[..k][i] == ys[..k][i] == ys[i]; }
    forall id | id in xs && id !in ys ensures id in xs[k..] {
      var i :| 0 <= i < |xs| && xs[i] == id;
      assert xs[k..][i - k] == id;
    }
  }
}
