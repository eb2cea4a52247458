/**
  Blocks that are verified (consensus/validator.go) before they are added to the
  tree (chain/repository.go): on every branch no transaction occurs twice, and
  every dependency occurs strictly earlier without having been reverted.
 */
module Admission {
  import opened Hex
  import opened Blocks
  import opened PatriciaTree
  import opened Chains
  import opened ChainReader
  import opened Validator

  /** A transaction as it was executed. */
  datatype Executed = Executed(tx: Tx, reverted: bool)

  function ExecutedIn(txs: seq<Tx>, receipts: seq<Receipt>): (r: seq<Executed>)
    requires |txs| == |receipts|
    ensures |r| == |txs|
    ensures forall i :: 0 <= i < |txs| ==> r[i] == Executed(txs[i], receipts[i].reverted)
  {
    seq(|txs|, i requires 0 <= i < |txs| => Executed(txs[i], receipts[i].reverted))
  }

  /** All transactions of a branch, in order. */
  function Executions(repo: Repo, ids: seq<Id>): seq<Executed>
    requires Complete(repo, ids)
    decreases |ids|
  {
    if ids == [] then []
    else
      var e := repo[ids[|ids| - 1]];
      Executions(repo, ids[..|ids| - 1]) + ExecutedIn(e.block.txs, e.receipts)
  }

  ghost predicate DependsBack(xs: seq<Executed>, i: nat)
    requires i < |xs|
  {
    xs[i].tx.dependsOn.Some? ==> exists j :: 0 <= j < i && xs[j].tx.id == xs[i].tx.dependsOn.value && !xs[j].reverted
  }

  ghost predicate Clean(xs: seq<Executed>) {
    && (forall i, j :: 0 <= i < j < |xs| ==> xs[i].tx.id != xs[j].tx.id)
    && (forall i :: 0 <= i < |xs| ==> DependsBack(xs, i))
  }

  ghost predicate AllClean(repo: Repo, genesis: Id)
    requires Rooted(repo, genesis)
  {
    forall id :: id in repo ==>
      Complete(repo, Ancestry(repo, genesis, id)) && Clean(Executions(repo, Ancestry(repo, genesis, id)))
  }

  // ----- lookups against executions -----

  ghost predicate Occurs(xs: seq<Executed>, t: Id, reverted: bool) {
    exists i :: 0 <= i < |xs| && xs[i].tx.id == t && xs[i].reverted == reverted
  }

  /** What the index reports is an execution on the branch; what it misses never ran there. */
  lemma {:induction false} MetaOccurs(repo: Repo, ids: seq<Id>, t: Id)
    requires Complete(repo, ids)
    ensures match LastMeta(repo, ids, t)
            case Some(m) => Occurs(Executions(repo, ids), t, m.reverted)
            case None => forall i :: 0 <= i < |Executions(repo, ids)| ==> Executions(repo, ids)[i].tx.id != t
    decreases |ids|
  {
    if ids != [] {
      var front := ids[..|ids| - 1];
      var e := repo[ids[|ids| - 1]];
      var xs, ys := Executions(repo, front), ExecutedIn(e.block.txs, e.receipts);
      MetaOccurs(repo, front, t);
      match LastIn(e.block.txs, t) {
        case Some(i) => assert (xs + ys)[|xs| + i] == ys[i];
        case None =>
          match LastMeta(repo, front, t) {
            case Some(m) =>
              var i :| 0 <= i < |xs| && xs[i].tx.id == t && xs[i].reverted == m.reverted;
              assert (xs + ys)[i] == xs[i];
            case None =>
          }
      }
    }
  }

  // ----- one verified block -----

  /** The chain the verifier consults is the one the block continues. */
  ghost predicate Consults(env: Env, repo: Repo, parentID: Id, c: Codec) {
    forall t: Id :: env.onChain(t) == match GetTransactionMeta(repo, parentID, t, c) case None => None case Some(m) => Some(m.reverted)
  }

  /** The chain answers for the executions xs below the block. */
  ghost predicate AnswersFor(env: Env, xs: seq<Executed>) {
    forall t: Id :: match env.onChain(t)
                    case Some(reverted) => Occurs(xs, t, reverted)
                    case None => forall i :: 0 <= i < |xs| ==> xs[i].tx.id != t
  }

  lemma BlockKeepsClean(env: Env, xs: seq<Executed>, txs: seq<Tx>, receipts: seq<Receipt>)
    requires Clean(xs) && AnswersFor(env, xs) && NoRepeats(env, txs, receipts)
    ensures Clean(xs + ExecutedIn(txs, receipts))
  {
    var ys := ExecutedIn(txs, receipts);
    var all := xs + ys;
    forall i, j | 0 <= i < j < |all| ensures all[i].tx.id != all[j].tx.id {
      if i < |xs| <= j { assert env.onChain(txs[j - |xs|].id).None?; }
      else if |xs| <= i { assert txs[i - |xs|].id != txs[j - |xs|].id; }
    }
    forall i | 0 <= i < |all| ensures DependsBack(all, i) {
      if i < |xs| {
        assert DependsBack(xs, i);
        if xs[i].tx.dependsOn.Some? {
          var j :| 0 <= j < i && xs[j].tx.id == xs[i].tx.dependsOn.value && !xs[j].reverted;
          assert all[j] == xs[j];
        }
      } else {
        DependencyBelow(env, xs, txs, receipts, i - |xs|);
      }
    }
  }

  lemma DependencyBelow(env: Env, xs: seq<Executed>, txs: seq<Tx>, receipts: seq<Receipt>, i: nat)
    requires AnswersFor(env, xs) && NoRepeats(env, txs, receipts) && i < |txs|
    ensures DependsBack(xs + ExecutedIn(txs, receipts), |xs| + i)
  {
    var ys := ExecutedIn(txs, receipts);
    var all := xs + ys;
    assert all[|xs| + i] == ys[i];
    if txs[i].dependsOn.Some? {
      var dep := txs[i].dependsOn.value;
      assert DependencyMet(env, txs, receipts, i, dep);
      if j :| 0 <= j < i && txs[j].id == dep && !receipts[j].reverted {
        assert all[|xs| + j] == ys[j];
      } else {
        assert Occurs(xs, dep, false);
        var j :| 0 <= j < |xs| && xs[j].tx.id == dep && xs[j].reverted == false;
        assert all[j] == xs[j];
      }
    }
  }

  lemma ChainAnswers(env: Env, repo: Repo, genesis: Id, c: Codec, parentID: Id)
    requires Valid(repo, genesis, c) && parentID in repo && Consults(env, repo, parentID, c)
    ensures Complete(repo, Ancestry(repo, genesis, parentID))
    ensures AnswersFor(env, Executions(repo, Ancestry(repo, genesis, parentID)))
  {
    forall t: Id ensures env.onChain(t) == match GetTransactionMeta(repo, parentID, t, c) case None => None case Some(m) => Some(m.reverted) {}
    GetTransactionMetaAgrees(repo, genesis, c, parentID, genesis);
    var ids := Ancestry(repo, genesis, parentID);
    var xs := Executions(repo, ids);
    forall t: Id ensures match env.onChain(t)
                         case Some(reverted) => Occurs(xs, t, reverted)
                         case None => forall i :: 0 <= i < |xs| ==> xs[i].tx.id != t
    {
      GetTransactionMetaAgrees(repo, genesis, c, parentID, t);
      MetaOccurs(repo, ids, t);
    }
  }

  /** A block offered under its id, with the environment it is verified in. */
  datatype Offer = Offer(id: Id, block: Block, env: Env, now: nat)

  /** A verified block is added with the receipts of its replay. */
  ghost predicate Admits(repo: Repo, o: Offer, repo': Repo, c: Codec) {
    var parentID := o.block.header.parentID;
    && o.id !in repo && parentID in repo && Number(o.id) == Number(parentID) + 1
    && Consults(o.env, repo, parentID, c)
    && var r := Verdict(o.env, o.block, repo[parentID].block.header, o.now);
       && r.Some? && |o.block.txs| == |r.value.receipts| && Canonical(repo[parentID].index)
       && repo' == repo[o.id := Entry(o.block, r.value.receipts, Indexed(repo[parentID].index, o.id, o.block, r.value.receipts, c))]
  }

  /** Admitting a block keeps every branch clean. */
  lemma AdmitKeepsClean(repo: Repo, genesis: Id, c: Codec, o: Offer, repo': Repo)
    requires Valid(repo, genesis, c) && AllClean(repo, genesis) && Admits(repo, o, repo', c)
    ensures Valid(repo', genesis, c) && AllClean(repo', genesis)
  {
    var parentID := o.block.header.parentID;
    var h := o.block.header;
    var receipts := repo'[o.id].receipts;
    AddBlockValid(repo, genesis, c, o.id, repo', repo'[o.id]);
    VerdictNoRepeats(o.env, o.block, repo[parentID].block.header, o.now);
    ChainAnswers(o.env, repo, genesis, c, parentID);
    var below := Ancestry(repo, genesis, parentID);
    BlockKeepsClean(o.env, Executions(repo, below), o.block.txs, receipts);
    forall x | x in repo'
      ensures Complete(repo', Ancestry(repo', genesis, x)) && Clean(Executions(repo', Ancestry(repo', genesis, x)))
    {
      if x == o.id {
        NotBelow(repo, genesis, o.id, parentID);
        ExecutionsNext(repo, below, o.id, repo', repo'[o.id]);
      } else {
        NotBelow(repo, genesis, o.id, x);
        ExecutionsStable(repo, Ancestry(repo, genesis, x), o.id, repo'[o.id]);
      }
    }
  }

  lemma VerdictNoRepeats(env: Env, b: Block, parent: Header, now: nat)
    requires Verdict(env, b, parent, now).Some?
    ensures NoRepeats(env, b.txs, Verdict(env, b, parent, now).value.receipts)
  {
    var slot := env.slot(b.header.signer.value, b.header.timestamp).value;
    ReplayNoRepeats(env, ContextOf(b.header), Preamble(env, b.header.number) + slot.updates, b.txs);
  }

  lemma {:induction false} NotBelow(repo: Repo, genesis: Id, id: Id, x: Id)
    requires Rooted(repo, genesis) && id !in repo && x in repo
    ensures id !in Ancestry(repo, genesis, x)
    decreases Number(x)
  {
    assert Linked(repo, genesis, x);
    if x != genesis { NotBelow(repo, genesis, id, Parent(repo, x)); }
  }

  lemma {:induction false} ExecutionsStable(repo: Repo, ids: seq<Id>, id: Id, e: Entry)
    requires Complete(repo, ids) && id !in ids
    ensures Complete(repo[id := e], ids) && Executions(repo[id := e], ids) == Executions(repo, ids)
    decreases |ids|
  {
    if ids != [] { ExecutionsStable(repo, ids[..|ids| - 1], id, e); }
  }

  lemma ExecutionsNext(repo: Repo, ids: seq<Id>, id: Id, repo': Repo, e: Entry)
    requires Complete(repo, ids) && id !in ids && repo' == repo[id := e] && |e.block.txs| == |e.receipts|
    ensures Complete(repo', ids + [id])
    ensures Executions(repo', ids + [id]) == Executions(repo, ids) + ExecutedIn(e.block.txs, e.receipts)
  {
    ExecutionsStable(repo, ids, id, e);
    assert (ids + [id])[..|ids|] == ids;
  }

  /** A whole history of admissions, on any forks. */
  ghost predicate Grows(repo: Repo, offers: seq<Offer>, repo': Repo, c: Codec)
    decreases |offers|
  {
    if offers == [] then repo' == repo
    else exists mid :: Admits(repo, offers[0], mid, c) && Grows(mid, offers[1..], repo', c)
  }

  /** However the tree of verified blocks grew, every branch of it is clean. */
  lemma {:induction false} EveryBranchIsClean(repo: Repo, genesis: Id, c: Codec, offers: seq<Offer>, repo': Repo)
    requires Valid(repo, genesis, c) && AllClean(repo, genesis) && Grows(repo, offers, repo', c)
    ensures Valid(repo', genesis, c) && AllClean(repo', genesis)
    decreases |offers|
  {
    if offers != [] {
      var mid :| Admits(repo, offers[0], mid, c) && Grows(mid, offers[1..], repo', c);
      AdmitKeepsClean(repo, genesis, c, offers[0], mid);
      EveryBranchIsClean(mid, genesis, c, offers[1..], repo');
    }
  }

  /** A fresh repository: the genesis block alone, which carries no transactions. */
  lemma GenesisIsClean(genesis: Id, b: Block, c: Codec, repo: Repo)
    requires Decodes(c) && Number(genesis) == 0 && b.txs == []
    requires repo == map[genesis := Entry(b, [], Indexed(Nil, genesis, b, [], c))]
    ensures Valid(repo, genesis, c) && AllClean(repo, genesis)
  {
    assert Rooted(repo, genesis) by { assert Linked(repo, genesis, genesis); }
    assert Ancestry(repo, genesis, genesis) == [genesis];
    GenesisIndex(genesis, b, c, repo);
    assert Executions(repo, [genesis]) == Executions(repo, [genesis][..0]) + [];
  }

  lemma GenesisIndex(genesis: Id, b: Block, c: Codec, repo: Repo)
    requires Decodes(c) && Number(genesis) == 0 && b.txs == []
    requires repo == map[genesis := Entry(b, [], Indexed(Nil, genesis, b, [], c))]
    ensures IndexOk(repo[genesis].index, repo, [genesis], c)
  {
    assert [] + [genesis] == [genesis];
    NumbersNext(Nil, [], genesis, b, [], c);
    TxsNext(Nil, map[], [], genesis, b, [], c, repo[genesis]);
    assert map[][genesis := repo[genesis]] == repo;
  }
}
