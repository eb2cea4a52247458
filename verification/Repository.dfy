/** The repository object (chain/repository.go). */
module Repositories {
  import opened Blocks
  import opened PatriciaTree
  import opened Chains
  import Admission

  /** id is a new head on top of parentID, and all other branches are as before. */
  ghost predicate Prolongs(repo: Repo, repo': Repo, genesis: Id, parentID: Id, id: Id) {
    && Rooted(repo, genesis) && Rooted(repo', genesis) && parentID in repo && id in repo' && repo.Keys <= repo'.Keys
    && Ancestry(repo', genesis, id) == Ancestry(repo, genesis, parentID) + [id]
    && forall x :: x in repo ==> Ancestry(repo', genesis, x) == Ancestry(repo, genesis, x)
  }

  lemma HasIndex(repo: Repo, genesis: Id, c: Codec, id: Id)
    requires Chains.Valid(repo, genesis, c) && id in repo
    ensures Canonical(repo[id].index)
  {
    assert IndexedAt(repo, genesis, id, c);
  }

  /** Adding a known block again changes nothing. */
  lemma AddAgain(repo: Repo, genesis: Id, c: Codec, id: Id, e: Entry)
    requires Chains.Valid(repo, genesis, c) && id in repo && id != genesis
    requires e.block == repo[id].block && e.receipts == repo[id].receipts && Linked(repo, genesis, id)
    requires var parent := repo[id].block.header.parentID;
             |e.block.txs| == |e.receipts| && Canonical(repo[parent].index) && e.index == Indexed(repo[parent].index, id, e.block, e.receipts, c)
    ensures repo[id := e] == repo
  {
    assert Derived(repo, genesis, id, c);
  }

  class Repository {
    const genesis: Id
    const codec: Codec
    var blocks: Repo
    var best: Id

    ghost predicate Valid()
      reads this
    {
      best in blocks && Chains.Valid(blocks, genesis, codec)
    }

    constructor (genesis: Id, b: Block, codec: Codec)
      requires Decodes(codec) && Number(genesis) == 0 && b.txs == []
      ensures Valid() && blocks.Keys == {genesis} && best == genesis && this.genesis == genesis && this.codec == codec
    {
      this.genesis, this.codec, best := genesis, codec, genesis;
      var index := IndexBlock(Nil, genesis, b.txs, [], codec);
      blocks := map[genesis := Entry(b, [], if index.Some? then index.value else Nil)];
      new;
      Admission.GenesisIsClean(genesis, b, codec, blocks);
    }

    /** The id is new, or stands for this block and these receipts already. */
    ghost predicate Agrees(id: Id, b: Block, receipts: seq<Receipt>)
      reads this
    {
      id in blocks ==> id != genesis && blocks[id].block == b && blocks[id].receipts == receipts
    }

    /**
      Adding a block fails if its parent is unknown or its receipts do not match its
      transactions. Adding it again changes nothing; under a known id, other receipts
      replace what was stored, and nothing is promised of the index.
     */
    method AddBlock(id: Id, b: Block, receipts: seq<Receipt>) returns (ok: bool)
      requires Valid() && Number(id) == Number(b.header.parentID) + 1
      modifies this
      ensures old(Agrees(id, b, receipts)) ==> Valid()
      ensures best == old(best)
      ensures ok <==> b.header.parentID in old(blocks) && |b.txs| == |receipts|
      ensures !ok || (id in old(blocks) && old(Agrees(id, b, receipts))) ==> blocks == old(blocks)
      ensures ok ==> id in blocks && blocks == old(blocks)[id := blocks[id]] && blocks[id].block == b && blocks[id].receipts == receipts
      ensures ok && id !in old(blocks) ==> Prolongs(old(blocks), blocks, genesis, b.header.parentID, id)
    {
      var parentID := b.header.parentID;
      if parentID !in blocks { return false; }
      HasIndex(blocks, genesis, codec, parentID);
      var index := IndexBlock(blocks[parentID].index, id, b.txs, receipts, codec);
      if index.None? { return false; }
      var e := Entry(b, receipts, index.value);
      if id !in blocks {
        AddBlockValid(blocks, genesis, codec, id, blocks[id := e], e);
      } else if Agrees(id, b, receipts) {
        AddAgain(blocks, genesis, codec, id, e);
      }
      blocks := blocks[id := e];
      return true;
    }

    method SetBestBlockID(id: Id) returns (ok: bool)
      requires Valid()
      modifies this
      ensures Valid() && blocks == old(blocks) && (ok <==> id in blocks) && best == if ok then id else old(best)
    {
      if id !in blocks { return false; }
      best := id;
      return true;
    }
  }
}
