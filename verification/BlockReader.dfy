/**
  The block reader (chain/block_reader.go): from any position it streams the
  blocks to undo, and then the best branch block by block.
 */
module BlockReading {
  import opened Hex
  import opened Blocks
  import opened Chains
  import opened ChainReader

  datatype Event = Event(id: Id, obsolete: bool)

  /** How many blocks two branches have in common, from genesis. */
  function Common(xs: seq<Id>, ys: seq<Id>): (n: nat)
    ensures n <= |xs| && n <= |ys| && xs[..n] == ys[..n]
    ensures n < |xs| && n < |ys| ==> xs[n] != ys[n]
  {
    if xs == [] || ys == [] || xs[0] != ys[0] then 0
    else
      var n := Common(xs[1..], ys[1..]);
      assert xs[..n + 1] == [xs[0]] + xs[1..][..n] && ys[..n + 1] == [ys[0]] + ys[1..][..n];
      n + 1
  }

  /** The blocks of ps from n up, to be undone from the top. */
  function Undo(ps: seq<Id>, n: nat): seq<Event>
    requires n <= |ps|
  {
    seq(|ps| - n, i requires 0 <= i < |ps| - n => Event(ps[|ps| - 1 - i], true))
  }

  /** One read from the end of ps towards the end of xs; None is an error. */
  function ReadSpec(xs: seq<Id>, ps: seq<Id>): Option<seq<Event>> {
    var n := Common(xs, ps);
    if xs == ps then Some([])
    else if n == |xs| then None
    else Some(Undo(ps, n) + [Event(xs[n], false)])
  }

  // ----- what consumers see -----

  /** A consumer that pops obsolete blocks and pushes the others. */
  function Consume(stack: seq<Id>, events: seq<Event>): Option<seq<Id>>
    decreases |events|
  {
    if events == [] then Some(stack)
    else if !events[0].obsolete then Consume(stack + [events[0].id], events[1..])
    else if stack == [] || stack[|stack| - 1] != events[0].id then None
    else Consume(stack[..|stack| - 1], events[1..])
  }

  lemma {:induction false} ConsumeUndo(ps: seq<Id>, n: nat, more: seq<Event>)
    requires n <= |ps|
    ensures Consume(ps, Undo(ps, n) + more) == Consume(ps[..n], more)
    decreases |ps|
  {
    var events := Undo(ps, n) + more;
    if n == |ps| {
      assert events == more && ps[..n] == ps;
    } else {
      var front := ps[..|ps| - 1];
      assert events[1..] == Undo(front, n) + more;
      ConsumeUndo(front, n, more);
      assert front[..n] == ps[..n];
    }
  }

  /** A consumer standing on the old position stands on the new one after a read. */
  lemma ConsumeRead(xs: seq<Id>, ps: seq<Id>)
    requires ReadSpec(xs, ps).Some? && xs != ps
    ensures Consume(ps, ReadSpec(xs, ps).value) == Some(xs[..Common(xs, ps) + 1])
  {
    var n := Common(xs, ps);
    ConsumeUndo(ps, n, [Event(xs[n], false)]);
    assert Consume(ps[..n], [Event(xs[n], false)]) == Consume(ps[..n] + [xs[n]], []);
    assert ps[..n] + [xs[n]] == xs[..n + 1];
  }

  /** Where a reader stands after k reads of a fixed best branch. */
  function After(xs: seq<Id>, ps: seq<Id>, k: nat): seq<Id>
    decreases k
  {
    if k == 0 || ReadSpec(xs, ps).None? || xs == ps then ps else After(xs, xs[..Common(xs, ps) + 1], k - 1)
  }

  lemma CommonPrefix(xs: seq<Id>, n: nat)
    requires n <= |xs|
    ensures Common(xs, xs[..n]) == n
  {
    assert forall i :: 0 <= i < n ==> xs[..n][i] == xs[i];
  }

  /** Reads climb the best branch one block at a time, and end at its head. */
  lemma {:induction false} ReadsReachHead(xs: seq<Id>, ps: seq<Id>, k: nat)
    requires Common(xs, ps) < |xs| && k <= |xs| - Common(xs, ps)
    ensures k > 0 ==> After(xs, ps, k) == xs[..Common(xs, ps) + k]
    ensures k == |xs| - Common(xs, ps) ==> After(xs, ps, k) == xs && ReadSpec(xs, After(xs, ps, k)) == Some([])
    decreases k
  {
    if k > 0 {
      var n := Common(xs, ps);
      var next := xs[..n + 1];
      assert xs != ps;
      CommonPrefix(xs, n + 1);
      if k > 1 {
        ReadsReachHead(xs, next, k - 1);
      } else {
        assert After(xs, next, 0) == next;
      }
    }
  }

  // ----- the reader -----

  /** What the reader asks the repository: blocks by number and by id on the best branch, and parents. */
  datatype View = View(at: nat -> Option<Id>, has: Id -> bool, parent: Id -> Id)

  function ViewOf(repo: Repo, best: Id): View {
    View((n: nat) => if n <= Max32 then GetBlockID(repo, best, n) else None,
         (id: Id) => HasBlock(repo, best, id),
         (id: Id) => if id in repo then Parent(repo, id) else id)
  }

  /** The answers for a best branch xs and a position at the end of ps. */
  ghost predicate Answers(v: View, best: Id, xs: seq<Id>, ps: seq<Id>) {
    && |xs| == Number(best) + 1 && xs[|xs| - 1] == best && ps != [] && ps[0] == xs[0]
    && v.at(|xs|) == None
    && (forall i :: 0 <= i < |xs| ==> v.at(i) == Some(xs[i]))
    && (forall j :: 0 <= j < |ps| ==> Stands(v, xs, ps, j))
  }

  ghost predicate Stands(v: View, xs: seq<Id>, ps: seq<Id>, j: nat)
    requires j < |ps|
  {
    && Number(ps[j]) == j && (j > 0 ==> v.parent(ps[j]) == ps[j - 1])
    && (v.has(ps[j]) <==> ps[j] in xs)
    && (ps[j] in xs ==> j < |xs| && ps[..j + 1] == xs[..j + 1])
  }

  /** The repository gives these answers for every best block and every position. */
  lemma AnswersOk(repo: Repo, genesis: Id, c: Codec, best: Id, position: Id)
    requires Valid(repo, genesis, c) && best in repo && position in repo
    ensures Answers(ViewOf(repo, best), best, Ancestry(repo, genesis, best), Ancestry(repo, genesis, position))
  {
    var xs, ps := Ancestry(repo, genesis, best), Ancestry(repo, genesis, position);
    var v := ViewOf(repo, best);
    if |xs| <= Max32 { GetBlockIDAgrees(repo, genesis, c, best, |xs|); }
    StartsAtGenesis(repo, genesis, best);
    StartsAtGenesis(repo, genesis, position);
    forall i | 0 <= i < |xs| ensures v.at(i) == Some(xs[i]) {
      GetBlockIDAgrees(repo, genesis, c, best, i);
    }
    forall j | 0 <= j < |ps| ensures Stands(v, xs, ps, j) {
      StandsOk(repo, genesis, c, best, position, j);
    }
  }

  lemma {:induction false} StartsAtGenesis(repo: Repo, genesis: Id, id: Id)
    requires Rooted(repo, genesis) && id in repo
    ensures Ancestry(repo, genesis, id)[0] == genesis
    decreases Number(id)
  {
    assert Linked(repo, genesis, id);
    if id != genesis { StartsAtGenesis(repo, genesis, Parent(repo, id)); }
  }

  lemma StandsOk(repo: Repo, genesis: Id, c: Codec, best: Id, position: Id, j: nat)
    requires Valid(repo, genesis, c) && best in repo && position in repo && j <= Number(position)
    ensures Stands(ViewOf(repo, best), Ancestry(repo, genesis, best), Ancestry(repo, genesis, position), j)
  {
    var xs, ps := Ancestry(repo, genesis, best), Ancestry(repo, genesis, position);
    AncestryAt(repo, genesis, position, j);
    HasBlockAgrees(repo, genesis, c, best, ps[j]);
    if ps[j] in xs { SharedPrefix(repo, genesis, position, best, j); }
    if j > 0 { ParentBelow(repo, genesis, position, j); }
  }

  lemma ParentBelow(repo: Repo, genesis: Id, id: Id, j: nat)
    requires Rooted(repo, genesis) && id in repo && 0 < j <= Number(id)
    ensures var ps := Ancestry(repo, genesis, id); ps[j] in repo && Parent(repo, ps[j]) == ps[j - 1]
  {
    var ps := Ancestry(repo, genesis, id);
    AncestryAt(repo, genesis, id, j);
    assert Linked(repo, genesis, ps[j]);
    var parent := Ancestry(repo, genesis, Parent(repo, ps[j]));
    assert ps[..j + 1] == parent + [ps[j]];
    assert ps[j - 1] == ps[..j + 1][j - 1] == parent[|parent| - 1];
  }

  class BlockReader {
    var position: Id

    constructor (position: Id)
      ensures this.position == position
    {
      this.position := position;
    }

    /** One read of a repository: the position moves one block along the best branch. */
    method ReadFrom(repo: Repo, best: Id, ghost genesis: Id, ghost c: Codec) returns (r: Option<seq<Event>>)
      requires Valid(repo, genesis, c) && best in repo && position in repo
      modifies this
      ensures position in repo
      ensures r == ReadSpec(Ancestry(repo, genesis, best), Ancestry(repo, genesis, old(position)))
      ensures r.Some? ==>
                Ancestry(repo, genesis, position) == After(Ancestry(repo, genesis, best), Ancestry(repo, genesis, old(position)), 1)
      ensures r.None? ==> position == best
    {
      ghost var xs, ps := Ancestry(repo, genesis, best), Ancestry(repo, genesis, position);
      AnswersOk(repo, genesis, c, best, position);
      r := Read(ViewOf(repo, best), best, xs, ps);
      if xs != ps && r.Some? {
        AncestryAt(repo, genesis, best, Common(xs, ps));
        assert After(xs, ps, 1) == After(xs, xs[..Common(xs, ps) + 1], 0);
      }
    }

    /**
      One read. It fails exactly if the best block is a proper ancestor of the
      position; the position has then moved to the best block all the same.
     */
    method Read(v: View, best: Id, ghost xs: seq<Id>, ghost ps: seq<Id>) returns (r: Option<seq<Event>>)
      requires Answers(v, best, xs, ps) && ps[|ps| - 1] == position
      modifies this
      ensures r == ReadSpec(xs, ps)
      ensures position == if xs == ps || r.None? then best else xs[Common(xs, ps)]
    {
      ghost var n := Common(xs, ps);
      if best == position {
        SameHead(v, best, xs, ps);
        return Some([]);
      }
      var headNum := Number(best);
      var blocks: seq<Event> := [];
      ghost var j := |ps| - 1;
      while true
        invariant 0 <= j < |ps| && n <= j + 1 && position == ps[j] && blocks == Undo(ps, j + 1)
        decreases j
      {
        assert Stands(v, xs, ps, j);
        if Number(position) <= headNum && v.has(position) {
          ReadEnds(v, best, xs, ps, j);
          var next := v.at(Number(position) + 1);
          if next.None? { return None; }
          position := next.value;
          return Some(blocks + [Event(next.value, false)]);
        }
        GoesOn(xs, ps, j);
        UndoMore(ps, j);
        blocks := blocks + [Event(position, true)];
        position := v.parent(position);
        j := j - 1;
      }
    }
  }

  lemma SameHead(v: View, best: Id, xs: seq<Id>, ps: seq<Id>)
    requires Answers(v, best, xs, ps) && ps[|ps| - 1] == best
    ensures xs == ps
  {
    assert Stands(v, xs, ps, |ps| - 1);
    assert xs[|xs| - 1] in xs;
    assert ps[..|ps|] == ps && xs[..|xs|] == xs;
  }

  lemma ReadEnds(v: View, best: Id, xs: seq<Id>, ps: seq<Id>, j: nat)
    requires Answers(v, best, xs, ps) && ps[|ps| - 1] != best && j < |ps| && Common(xs, ps) <= j + 1 && ps[j] in xs
    ensures Common(xs, ps) == j + 1 <= |xs| && xs != ps && Number(ps[j]) == j
    ensures j + 1 == |xs| ==> ps[j] == best && v.at(j + 1) == None && ReadSpec(xs, ps) == None
    ensures j + 1 < |xs| ==> v.at(j + 1) == Some(xs[j + 1]) && ReadSpec(xs, ps) == Some(Undo(ps, j + 1) + [Event(xs[j + 1], false)])
  {
    assert Stands(v, xs, ps, j);
    StopsAtFork(xs, ps, j);
    SamePrefix(xs, ps, j + 1);
  }

  /** A position on the best branch, with nothing shared above it, is where the branches part. */
  lemma StopsAtFork(xs: seq<Id>, ps: seq<Id>, j: nat)
    requires j < |ps| && Common(xs, ps) <= j + 1
    requires j < |xs| && ps[..j + 1] == xs[..j + 1]
    ensures Common(xs, ps) == j + 1
  {
    SamePrefix(xs, ps, j + 1);
  }

  lemma SamePrefix(xs: seq<Id>, ps: seq<Id>, n: nat)
    requires n <= |xs| && n <= |ps| && xs[..n] == ps[..n]
    ensures forall i :: 0 <= i < n ==> xs[i] == ps[i]
  {
    assert forall i :: 0 <= i < n ==> xs[..n][i] == xs[i] && ps[..n][i] == ps[i];
  }

  lemma GoesOn(xs: seq<Id>, ps: seq<Id>, j: nat)
    requires j < |ps| && Common(xs, ps) <= j + 1 && ps[j] !in xs && xs != [] && ps[0] == xs[0]
    ensures Common(xs, ps) <= j && j > 0
  {
    SamePrefix(xs, ps, Common(xs, ps));
    assert xs[0] in xs;
  }

  lemma UndoMore(ps: seq<Id>, j: nat)
    requires j < |ps|
    ensures Undo(ps, j) == Undo(ps, j + 1) + [Event(ps[j], true)]
  {
  }
}
