/** TriePruner.ArchiveNodes (muxdb/trie_pruner.go): the loop over the difference iterator that fills the permanent space. */
module Archiving {
  import opened Hex
  import opened Rlp
  import opened PatriciaTree
  import opened Hasher
  import opened Commit
  import opened Proof
  import opened PreOrder
  import opened Session
  import opened Difference
  import opened Pruner

  /** The writes so far are the nodes of b among its first n entries that a does not have. */
  ghost predicate Archived(ws: seq<Write>, n: nat, ea: seq<Entry>, eb: seq<Entry>, tb: Tree, hash: Item -> Hash)
    requires n <= |eb|
  {
    && (forall w :: w in ws ==> NodeOf(w, tb, [], hash, true))
    && (forall w :: NodeOf(w, tb, [], hash, true) && Mark(w) in eb[..n] && Mark(w) !in ea ==> w in ws)
  }

  lemma ArchivedMore(ws: seq<Write>, n: nat, m: nat, ea: seq<Entry>, eb: seq<Entry>, tb: Tree, hash: Item -> Hash)
    requires n <= m <= |eb| && Archived(ws, n, ea, eb, tb, hash)
    requires forall j :: n <= j < m ==> eb[j] in ea || eb[j].hash.None?
    ensures Archived(ws, m, ea, eb, tb, hash)
  {
    forall w | NodeOf(w, tb, [], hash, true) && Mark(w) in eb[..m] && Mark(w) !in ea ensures w in ws {
      var j :| 0 <= j < m && eb[j] == Mark(w);
      assert eb[j] in eb[..n];
    }
  }

  lemma ArchivedPlain(ws: seq<Write>, n: nat, ea: seq<Entry>, eb: seq<Entry>, tb: Tree, hash: Item -> Hash)
    requires n < |eb| && Archived(ws, n, ea, eb, tb, hash) && eb[n].hash.None?
    ensures Archived(ws, n + 1, ea, eb, tb, hash)
  {
    ArchivedMore(ws, n, n + 1, ea, eb, tb, hash);
  }

  /** The encoding read from the iterator is that of the node. */
  lemma EncodingIsNode(tb: Tree, e: Entry, enc: Item, hash: Item -> Hash, items: iset<Item>)
    requires e in Entries(tb, [], hash, true) && e.hash.Some? && hash(enc) == e.hash.value && enc in items
    requires Injective(hash, items) && Within(tb, hash, items)
    ensures NodeOf(Write(e.path, e.hash.value, enc), tb, [], hash, true)
  {
    var w := EntryHasNode(e, tb, [], hash, true);
    NodeOfHash(w, tb, [], hash, true);
    NodeOfWithin(w, tb, [], hash, true, items);
  }

  lemma TookOne(es: seq<Entry>, n: nat, e: Entry)
    requires n < |es| && e in es[..n + 1]
    ensures e in es[..n] || e == es[n]
  {
    assert es[..n + 1] == es[..n] + [es[n]];
  }

  lemma ArchivedSnoc(ws: seq<Write>, n: nat, ea: seq<Entry>, eb: seq<Entry>, tb: Tree, hash: Item -> Hash,
                     items: iset<Item>, enc: Item)
    requires n < |eb| && Archived(ws, n, ea, eb, tb, hash) && eb == Entries(tb, [], hash, true)
    requires eb[n].hash.Some? && hash(enc) == eb[n].hash.value && enc in items
    requires Injective(hash, items) && Within(tb, hash, items)
    ensures Archived(ws + [Write(eb[n].path, eb[n].hash.value, enc)], n + 1, ea, eb, tb, hash)
  {
    var v := Write(eb[n].path, eb[n].hash.value, enc);
    EncodingIsNode(tb, eb[n], enc, hash, items);
    forall w | NodeOf(w, tb, [], hash, true) && Mark(w) in eb[..n + 1] && Mark(w) !in ea ensures w in ws + [v] {
      TookOne(eb, n, Mark(w));
      if Mark(w) !in eb[..n] { SameHashSameItem(w, tb, v, tb, hash, items); }
    }
  }

  method PutCurrent(it: DifferenceIterator, e: Entry, p: NodeMap, ghost p0: NodeMap, ghost ws: seq<Write>)
    returns (p': NodeMap, ghost ws': seq<Write>)
    requires it.Sound() && it.Lists() && 0 <= it.b.pos < |it.b.All()| && p == PutNodes(p0, ws)
    requires e == it.b.All()[it.b.pos] && e.hash.Some?
    requires Archived(ws, it.b.pos, it.a.All(), it.b.All(), it.b.tree, it.b.db.hash)
    ensures Archived(ws', it.b.pos + 1, it.a.All(), it.b.All(), it.b.tree, it.b.db.hash)
    ensures p' == PutNodes(p0, ws') && |ws'| == |ws| + 1
  {
    var enc := it.EncodingOfB();
    ArchivedSnoc(ws, it.b.pos, it.a.All(), it.b.All(), it.b.tree, it.b.db.hash, it.items, enc);
    PutNodesSnoc(p0, ws, Write(e.path, e.hash.value, enc));
    p' := p[KeyFor(e.path, e.hash.value) := enc];
    ws' := ws + [Write(e.path, e.hash.value, enc)];
  }

  /** The body of the loop: put the current node, if it has a hash. */
  method ArchiveCurrent(it: DifferenceIterator, p: NodeMap, ghost p0: NodeMap, ghost ws: seq<Write>)
    returns (p': NodeMap, put: bool, e: Entry, ghost ws': seq<Write>)
    requires it.Sound() && it.Lists() && 0 <= it.b.pos < |it.b.All()| && p == PutNodes(p0, ws)
    requires Archived(ws, it.b.pos, it.a.All(), it.b.All(), it.b.tree, it.b.db.hash)
    ensures Archived(ws', it.b.pos + 1, it.a.All(), it.b.All(), it.b.tree, it.b.db.hash)
    ensures p' == PutNodes(p0, ws') && |ws'| == |ws| + if put then 1 else 0
    ensures e == it.b.All()[it.b.pos] && (put <==> e.hash.Some?)
  {
    ghost var ea, eb, hash := it.a.All(), it.b.All(), it.b.db.hash;
    e := it.CurrentOfB();
    p', put, ws' := p, e.hash.Some?, ws;
    if put {
      p', ws' := PutCurrent(it, e, p, p0, ws);
    } else {
      ArchivedPlain(ws, it.b.pos, ea, eb, it.b.tree, hash);
    }
  }

  /** The leaves among the first n entries of b that a does not have, in order. */
  ghost predicate Shown(leaves: seq<Entry>, n: nat, ea: seq<Entry>, eb: seq<Entry>)
    requires n <= |eb|
  {
    Sorted(leaves) && forall e :: e in leaves <==> e in eb[..n] && e !in ea && HasTerm(e.path)
  }

  lemma ShownMore(leaves: seq<Entry>, n: nat, m: nat, ea: seq<Entry>, eb: seq<Entry>)
    requires n <= m <= |eb| && Shown(leaves, n, ea, eb) && forall j :: n <= j < m ==> eb[j] in ea
    ensures Shown(leaves, m, ea, eb)
  {
    forall e ensures e in eb[..m] && e !in ea <==> e in eb[..n] && e !in ea {
      if e in eb[..m] {
        var j :| 0 <= j < m && eb[j] == e;
        if j < n { assert eb[j] in eb[..n]; }
      }
      if e in eb[..n] { var j :| 0 <= j < n && eb[j] == e; assert eb[j] in eb[..m]; }
    }
  }

  lemma ShownNext(leaves: seq<Entry>, n: nat, ea: seq<Entry>, eb: seq<Entry>)
    requires n < |eb| && Shown(leaves, n, ea, eb) && eb[n] !in ea && Sorted(eb)
    ensures Shown(if HasTerm(eb[n].path) then leaves + [eb[n]] else leaves, n + 1, ea, eb)
  {
    assert eb[..n + 1] == eb[..n] + [eb[n]];
    if HasTerm(eb[n].path) {
      forall x, y | x in leaves && y in [eb[n]] ensures Less(x.path, y.path) {
        var i :| 0 <= i < n && eb[i] == x;
      }
      SortedConcat(leaves, [eb[n]]);
    }
  }

  /**
    Put every node the difference iterator returns into the permanent space. The leaf
    callback is called with the leaves it returns, and their number is counted.
   */
  method ArchiveNodes(it: DifferenceIterator, p: NodeMap)
    returns (p': NodeMap, nodes: nat, entries: nat, leaves: seq<Entry>, ghost ws: seq<Write>)
    requires it.Valid() && it.b.pos == -1
    modifies it, it.a, it.b
    ensures p' == PutNodes(p, ws) && nodes == |ws| && entries == |leaves|
    ensures DiffWrites(ws, it.a.tree, it.b.tree, it.b.db.hash)
    ensures Sorted(leaves) && forall e :: e in leaves <==> e in it.b.All() && e !in it.a.All() && HasTerm(e.path)
  {
    ghost var ea, eb, hash := it.a.All(), it.b.All(), it.b.db.hash;
    p', nodes, entries, leaves, ws := p, 0, 0, [], [];
    EntriesSorted(it.b.tree, [], hash, true, false);
    ghost var done := 0;
    while true
      invariant it.Valid() && it.b.pos == done - 1 && 0 <= done <= |eb|
      invariant p' == PutNodes(p, ws) && nodes == |ws| && entries == |leaves|
      invariant Archived(ws, done, ea, eb, it.b.tree, hash) && Shown(leaves, done, ea, eb)
      decreases |eb| - done
    {
      var ok := it.Next();
      ArchivedMore(ws, done, it.b.pos, ea, eb, it.b.tree, hash);
      ShownMore(leaves, done, it.b.pos, ea, eb);
      if !ok { break; }
      var put, e;
      p', put, e, ws := ArchiveCurrent(it, p', p, ws);
      if put { nodes := nodes + 1; }
      ShownNext(leaves, it.b.pos, ea, eb);
      if HasTerm(e.path) { entries, leaves := entries + 1, leaves + [e]; }
      done := it.b.pos + 1;
    }
    AllArchived(ws, ea, eb, it.a.tree, it.b.tree, hash);
    assert eb[..|eb|] == eb;
  }

  lemma {:induction false} PutNodesSnoc(m: NodeMap, ws: seq<Write>, w: Write)
    ensures PutNodes(m, ws + [w]) == PutNodes(m, ws)[KeyFor(w.path, w.hash) := w.item]
    decreases |ws|
  {
    if ws == [] {
      assert ws + [w] == [w];
    } else {
      assert (ws + [w])[1..] == ws[1..] + [w];
      PutNodesSnoc(m[KeyFor(ws[0].path, ws[0].hash) := ws[0].item], ws[1..], w);
    }
  }

  lemma AllArchived(ws: seq<Write>, ea: seq<Entry>, eb: seq<Entry>, ta: Tree, tb: Tree, hash: Item -> Hash)
    requires Archived(ws, |eb|, ea, eb, tb, hash) && Canonical(tb)
    requires ea == Entries(ta, [], hash, true) && eb == Entries(tb, [], hash, true)
    ensures DiffWrites(ws, ta, tb, hash)
  {
    forall w | NodeOf(w, tb, [], hash, true) && Mark(w) !in ea ensures w in ws {
      NodeHasEntry(w, tb, [], hash, true, false);
      assert eb[..|eb|] == eb;
    }
  }
}
