/**
  The difference iterator (trie/iterator.go): two node iterators moved side by
  side, skipping every subtree with the same hash at the same path. It returns
  exactly the nodes of b that a does not have, in order.
 */
module Difference {
  import opened Hex
  import opened Rlp
  import opened PatriciaTree
  import opened Commit
  import opened Proof
  import opened PreOrder
  import opened Roots
  import opened Iterator

  function CompareBytes(p: Bytes, q: Bytes): int {
    if Less(p, q) then -1 else if p == q then 0 else 1
  }

  /** Hash() of an iterator: the zero hash stands for none. */
  function HashBytes(h: Option<Hash>): Bytes {
    if h.Some? then h.value else ZeroHash()
  }

  predicate LeafHasBlob(e: Entry) {
    HasTerm(e.path) <==> e.blob.Some?
  }

  /** compareNodes: by path, then hash, then leaf content. */
  function CompareNodes(x: Entry, y: Entry): int
    requires LeafHasBlob(x) && LeafHasBlob(y)
  {
    var byPath := CompareBytes(x.path, y.path);
    if byPath != 0 then byPath
    else if HasTerm(x.path) && !HasTerm(y.path) then -1
    else if HasTerm(y.path) && !HasTerm(x.path) then 1
    else
      var byHash := CompareBytes(HashBytes(x.hash), HashBytes(y.hash));
      if byHash != 0 then byHash
      else if HasTerm(x.path) && HasTerm(y.path) then CompareBytes(x.blob.value, y.blob.value)
      else 0
  }

  /** A trie's pre-order, over items without collisions and without a zero hash. */
  ghost predicate Listing(es: seq<Entry>, t: Tree, hash: Item -> Hash, items: iset<Item>) {
    && Canonical(t) && es == Entries(t, [], hash, true)
    && Within(t, hash, items) && Injective(hash, items)
    && (forall x :: x in items ==> hash(x) != ZeroHash())
  }

  lemma {:induction false} LeafEntries(t: Tree, path: Path, hash: Item -> Hash, root: bool, end: bool, e: Entry)
    requires (t.Nil? && !end) || WellFormed(t, end)
    requires end <==> HasTerm(path)
    requires e in Entries(t, path, hash, root)
    ensures LeafHasBlob(e)
    decreases t
  {
    if e in Below(t, path, hash, 0) {
      if t.Ext? {
        assert HasTerm(path + t.key) == HasTerm(t.key);
        LeafEntries(t.child, path + t.key, hash, false, HasTerm(t.key), e);
      } else {
        BelowChild(t, path, hash, 0, e);
        var j := e.path[|path|];
        LeafEntries(t.children[j], path + [j], hash, false, j == 16, e);
      }
    }
  }

  lemma ListedEntry(es: seq<Entry>, t: Tree, hash: Item -> Hash, items: iset<Item>, e: Entry)
    requires Listing(es, t, hash, items) && e in es
    ensures LeafHasBlob(e) && e.hash != Some(ZeroHash())
  {
    LeafEntries(t, [], hash, true, false, e);
    if e.hash.Some? {
      var sub := SubtreeOf(t, [], hash, true, false, e, items);
    }
  }

  lemma CompareEqual(x: Entry, y: Entry)
    requires LeafHasBlob(x) && LeafHasBlob(y) && x.hash != Some(ZeroHash()) && y.hash != Some(ZeroHash())
    ensures CompareNodes(x, y) == 0 <==> x == y
    ensures CompareNodes(x, y) in {-1, 0, 1}
    ensures CompareNodes(x, y) == -1 ==> x.path == y.path || Less(x.path, y.path)
    ensures CompareNodes(x, y) == 1 ==> x.path == y.path || Less(y.path, x.path)
  {
    LessTotal(x.path, y.path);
    LessTotal(HashBytes(x.hash), HashBytes(y.hash));
    if x.blob.Some? && y.blob.Some? { LessTotal(x.blob.value, y.blob.value); }
  }

  // ----- the two positions -----

  /** What a has behind it is not after b's node, and is not b's node. */
  ghost predicate Passed(ea: seq<Entry>, eb: seq<Entry>, pa: int, pb: int) {
    && 0 <= pa <= |ea| && 0 <= pb < |eb|
    && forall i :: 0 <= i < pa ==> ea[i] != eb[pb] && (ea[i].path == eb[pb].path || Less(ea[i].path, eb[pb].path))
  }

  /** Where the two iterators may be between calls: `eof` says that a is done. */
  ghost predicate Positions(ea: seq<Entry>, eb: seq<Entry>, pa: int, pb: int, eof: bool) {
    && 0 <= pa <= |ea| && -1 <= pb <= |eb| && (eof <==> pa == |ea|)
    && (pb == -1 ==> pa == 0)
    && (0 <= pb < |eb| ==> Passed(ea, eb, pa, pb))
  }

  lemma PassedStepB(ea: seq<Entry>, eb: seq<Entry>, pa: int, pb: int)
    requires Sorted(eb) && Passed(ea, eb, pa, pb) && pb + 1 < |eb|
    ensures Passed(ea, eb, pa, pb + 1)
  {
    forall i | 0 <= i < pa ensures ea[i] != eb[pb + 1] && Less(ea[i].path, eb[pb + 1].path) {
      if ea[i].path != eb[pb].path { LessTransitive(ea[i].path, eb[pb].path, eb[pb + 1].path); }
      LessTotal(ea[i].path, eb[pb + 1].path);
    }
  }

  /** A node of b that is before, or beside, a's node is not in a. */
  lemma NotInA(ea: seq<Entry>, eb: seq<Entry>, pa: int, pb: int)
    requires Sorted(ea) && Passed(ea, eb, pa, pb)
    requires pa < |ea| ==> ea[pa] != eb[pb] && (ea[pa].path == eb[pb].path || Less(eb[pb].path, ea[pa].path))
    ensures eb[pb] !in ea
  {
    forall i | 0 <= i < |ea| ensures ea[i] != eb[pb] {
      if i > pa {
        assert Less(ea[pa].path, ea[i].path);
        if ea[pa].path != eb[pb].path { LessTransitive(eb[pb].path, ea[pa].path, ea[i].path); }
        LessTotal(eb[pb].path, ea[i].path);
      }
    }
  }

  /** Both move past a common node; with a hash, both move past its whole subtree. */
  lemma PassedBoth(ea: seq<Entry>, eb: seq<Entry>, pa: int, pb: int, descend: bool)
    requires Sorted(ea) && Sorted(eb) && Passed(ea, eb, pa, pb) && pa < |ea| && ea[pa] == eb[pb]
    ensures var pa', pb' := NextPos(ea, pa, descend), NextPos(eb, pb, descend);
            pb' < |eb| ==> Passed(ea, eb, pa', pb')
  {
    var pa', pb' := NextPos(ea, pa, descend), NextPos(eb, pb, descend);
    if pb' < |eb| {
      forall i | 0 <= i < pa' ensures Less(ea[i].path, eb[pb'].path) && ea[i] != eb[pb'] {
        assert Less(eb[pb].path, eb[pb'].path);
        if i < pa {
          if ea[i].path != eb[pb].path { LessTransitive(ea[i].path, eb[pb].path, eb[pb'].path); }
        } else if !descend {
          AfterSubtree(eb[pb].path, ea[i].path, eb[pb'].path);
        }
        LessTotal(ea[i].path, eb[pb'].path);
      }
    }
  }

  /** Below equal hashes at equal paths everything is equal. */
  lemma SkippedInA(ea: seq<Entry>, ta: Tree, eb: seq<Entry>, tb: Tree, hash: Item -> Hash, items: iset<Item>,
                   pa: int, pb: int, j: int)
    requires Listing(ea, ta, hash, items) && Listing(eb, tb, hash, items)
    requires 0 <= pa < |ea| && 0 <= pb < |eb| && ea[pa] == eb[pb] && eb[pb].hash.Some?
    requires pb < j < NextPos(eb, pb, false)
    ensures eb[j] in ea
  {
    var e := eb[pb];
    var subA := SubtreeOf(ta, [], hash, true, false, e, items);
    var subB := SubtreeOf(tb, [], hash, true, false, e, items);
    EncodeInjective(subA, subB, hash, items);
    EntriesSorted(tb, [], hash, true, false);
    assert e.path <= eb[j].path && Less(e.path, eb[j].path);
    LessTotal(e.path, eb[j].path);
    assert eb[j] in Below(subB, e.path, hash, 0);
  }

  // ----- the iterator -----

  class DifferenceIterator {
    const a: NodeIterator
    const b: NodeIterator
    /** a has run out of elements. */
    var eof: bool
    /** Number of nodes scanned on either trie. */
    var count: nat
    ghost const items: iset<Item>

    /** Both iterators are sound. */
    ghost predicate Sound()
      reads this, a, b
    {
      a != b && forall it :: it in {a, b} ==> it.Valid()
    }

    ghost predicate Valid()
      reads this, a, b
    {
      && Sound() && Lists()
      && Positions(a.All(), b.All(), a.pos, b.pos, eof)
    }

    /** What is fixed: two tries over the same items. */
    ghost predicate Lists() {
      && a.db.hash == b.db.hash && b.items == items
      && Listing(a.All(), a.tree, a.db.hash, items) && Listing(b.All(), b.tree, a.db.hash, items)
    }

    constructor (a: NodeIterator, b: NodeIterator, ghost items: iset<Item>)
      requires a != b && a.Valid() && b.Valid() && a.pos == -1 && b.pos == -1 && a.db.hash == b.db.hash && b.items == items
      requires Listing(a.All(), a.tree, a.db.hash, items) && Listing(b.All(), b.tree, a.db.hash, items)
      modifies a
      ensures Valid() && this.a == a && this.b == b && b.pos == -1
    {
      var ok := a.Next(true);
      this.a, this.b, eof, count := a, b, false, 0;
      this.items := items;
    }

    method MoveA(descend: bool) returns (ok: bool)
      requires Sound() && -1 <= a.pos < |a.All()|
      modifies a
      ensures Sound() && a.pos == NextPos(a.All(), old(a.pos), descend) && (ok <==> a.pos < |a.All()|)
    {
      assert a in {a, b};
      ok := a.Next(descend);
      assert b.Valid() by { assert b in {a, b}; }
    }

    method MoveB(descend: bool) returns (ok: bool)
      requires Sound() && -1 <= b.pos < |b.All()|
      modifies b
      ensures Sound() && b.pos == NextPos(b.All(), old(b.pos), descend) && (ok <==> b.pos < |b.All()|)
    {
      assert b in {a, b};
      ok := b.Next(descend);
      assert a.Valid() by { assert a in {a, b}; }
    }

    /** The node the difference iterator shows. */
    method CurrentOfB() returns (y: Entry)
      requires Sound() && 0 <= b.pos < |b.All()|
      ensures y == b.All()[b.pos]
    {
      assert b in {a, b};
      assert b.Valid();
      y := b.Current();
    }

    /** Node: the encoding of the node shown. */
    method EncodingOfB() returns (enc: Item)
      requires Sound() && 0 <= b.pos < |b.All()| && b.All()[b.pos].hash.Some?
      ensures b.db.hash(enc) == b.All()[b.pos].hash.value && enc in b.items
    {
      assert b in {a, b};
      enc := b.Encoding();
    }

    /** The nodes the two iterators are at. */
    method Currents() returns (x: Entry, y: Entry)
      requires Sound() && 0 <= a.pos < |a.All()| && 0 <= b.pos < |b.All()|
      ensures x == a.All()[a.pos] && y == b.All()[b.pos]
    {
      assert a in {a, b} && b in {a, b};
      assert a.Valid() && b.Valid();
      x, y := a.Current(), b.Current();
    }

    /** The next node of b that is not in a. Everything passed over is in a. */
    method Next() returns (ok: bool)
      requires Valid()
      modifies this, a, b
      ensures Valid()
      ensures -1 <= b.pos && (ok <==> b.pos < |b.All()|)
      ensures old(b.pos) < |b.All()| ==> old(b.pos) < b.pos
      ensures ok ==> 0 <= b.pos < |b.All()| && b.All()[b.pos] !in a.All()
      ensures forall j :: old(b.pos) < j < b.pos && j < |b.All()| ==> b.All()[j] in a.All()
    {
      ghost var ea, eb, start := a.All(), b.All(), b.pos;
      ok := NextOfB();
      if !ok { return; }
      count := count + 1;
      if eof {
        SortedLists();
        NotInA(ea, eb, a.pos, b.pos);
        return;
      }
      var outcome := Continue;
      while outcome == Continue
        invariant Sound() && -1 <= start < b.pos
        invariant Scanned(ea, eb, a.pos, b.pos, eof, start, outcome)
        decreases outcome == Continue, |ea| - a.pos + |eb| - b.pos
      {
        outcome := Step(start);
      }
      return outcome == Found;
    }

    /** b moves on by one, unless it has ended. */
    method NextOfB() returns (ok: bool)
      requires Valid()
      modifies b
      ensures Valid() && (ok <==> b.pos < |b.All()|)
      ensures b.pos == if old(b.pos) < |b.All()| then old(b.pos) + 1 else old(b.pos)
    {
      ghost var start := b.pos;
      var ended := EndedB();
      if ended { return false; }
      SortedLists();
      ok := MoveB(true);
      if 0 <= start && ok { PassedStepB(a.All(), b.All(), a.pos, start); }
    }

    method EndedB() returns (ended: bool)
      requires Sound()
      ensures ended <==> b.pos == |b.All()|
      ensures !ended ==> -1 <= b.pos < |b.All()|
    {
      assert b in {a, b};
      assert b.Valid();
      return b.ended;
    }

    lemma SortedLists()
      requires Lists()
      ensures Sorted(a.All()) && Sorted(b.All())
    {
      EntriesSorted(a.tree, [], a.db.hash, true, false);
      EntriesSorted(b.tree, [], a.db.hash, true, false);
    }

    /** One round of the loop of Next. */
    method Step(ghost start: int) returns (outcome: Outcome)
      requires Sound() && Lists() && -1 <= start < b.pos
      requires Scanned(a.All(), b.All(), a.pos, b.pos, eof, start, Continue)
      modifies this, a, b
      ensures Sound() && b.pos >= old(b.pos) && a.pos >= old(a.pos)
      ensures Scanned(a.All(), b.All(), a.pos, b.pos, eof, start, outcome)
      ensures outcome == Continue ==> a.pos > old(a.pos)
    {
      var c, hashed := Compare();
      if c == -1 {
        outcome := StepA(start);
      } else if c == 1 {
        SortedLists();
        NotInA(a.All(), b.All(), a.pos, b.pos);
        return Found;
      } else {
        outcome := StepBoth(!hashed, start);
      }
    }

    /** How the nodes the two iterators are at compare, and whether a's has a hash. */
    method Compare() returns (c: int, hashed: bool)
      requires Sound() && Lists() && 0 <= a.pos < |a.All()| && 0 <= b.pos < |b.All()|
      ensures c in {-1, 0, 1} && hashed == a.All()[a.pos].hash.Some?
      ensures var x, y := a.All()[a.pos], b.All()[b.pos];
              && (c == 0 <==> x == y)
              && (c == -1 ==> x.path == y.path || Less(x.path, y.path))
              && (c == 1 ==> x.path == y.path || Less(y.path, x.path))
    {
      var x, y := Currents();
      ListedEntry(a.All(), a.tree, a.db.hash, items, x);
      ListedEntry(b.All(), b.tree, a.db.hash, items, y);
      CompareEqual(x, y);
      c, hashed := CompareNodes(x, y), x.hash.Some?;
    }

    /** a is behind: it goes on, and if there is nothing left of it, b's node is not in a. */
    method StepA(ghost start: int) returns (outcome: Outcome)
      requires Sound() && Lists() && -1 <= start < b.pos
      requires Scanned(a.All(), b.All(), a.pos, b.pos, eof, start, Continue) && a.pos < |a.All()|
      requires var x, y := a.All()[a.pos], b.All()[b.pos]; x != y && (x.path == y.path || Less(x.path, y.path))
      modifies this, a
      ensures Sound() && a.pos > old(a.pos)
      ensures Scanned(a.All(), b.All(), a.pos, b.pos, eof, start, outcome)
    {
      var more := MoveA(true);
      if more {
        count := count + 1;
        return Continue;
      }
      eof := true;
      SortedLists();
      NotInA(a.All(), b.All(), a.pos, b.pos);
      return Found;
    }

    /** Both are at the same node: both go on, past its subtree if it has a hash. */
    method StepBoth(descend: bool, ghost start: int) returns (outcome: Outcome)
      requires Sound() && Lists() && -1 <= start < b.pos
      requires Scanned(a.All(), b.All(), a.pos, b.pos, eof, start, Continue)
      requires a.pos < |a.All()| && a.All()[a.pos] == b.All()[b.pos] && descend == a.All()[a.pos].hash.None?
      modifies this, a, b
      ensures Sound() && b.pos >= old(b.pos) && a.pos >= old(a.pos)
      ensures Scanned(a.All(), b.All(), a.pos, b.pos, eof, start, outcome)
      ensures outcome == Continue ==> a.pos > old(a.pos)
    {
      ghost var ea, eb, pa, pb := a.All(), b.All(), a.pos, b.pos;
      SortedLists();
      PassedBoth(ea, eb, pa, pb, descend);
      forall j | pb <= j < NextPos(eb, pb, descend) ensures eb[j] in ea {
        if j > pb { SkippedInA(ea, a.tree, eb, b.tree, a.db.hash, items, pa, pb, j); }
      }
      var more := MoveB(descend);
      if !more { return Exhausted; }
      count := count + 1;
      more := MoveA(descend);
      if more {
        count := count + 1;
        return Continue;
      }
      eof := true;
      NotInA(ea, eb, a.pos, b.pos);
      return Found;
    }
  }

  /** The state of the loop of Next, which began after position `start` of b. */
  ghost predicate Scanned(ea: seq<Entry>, eb: seq<Entry>, pa: int, pb: int, eof: bool, start: int, outcome: Outcome) {
    && Positions(ea, eb, pa, pb, eof)
    && (forall j :: 0 <= j < |eb| && start < j < pb ==> eb[j] in ea)
    && match outcome
       case Continue => 0 <= pb < |eb| && !eof
       case Found => 0 <= pb < |eb| && eb[pb] !in ea
       case Exhausted => pb == |eb|
  }

  datatype Outcome = Continue | Found | Exhausted

  /** The entries of b that are not in a, in b's order. */
  function Minus(eb: seq<Entry>, ea: seq<Entry>): seq<Entry> {
    if eb == [] then []
    else (if eb[0] in ea then [] else [eb[0]]) + Minus(eb[1..], ea)
  }

  lemma {:induction false} MinusConcat(x: seq<Entry>, y: seq<Entry>, ea: seq<Entry>)
    ensures Minus(x + y, ea) == Minus(x, ea) + Minus(y, ea)
    decreases |x|
  {
    if x == [] {
      assert x + y == y;
    } else {
      assert (x + y)[1..] == x[1..] + y;
      MinusConcat(x[1..], y, ea);
    }
  }

  lemma {:induction false} MinusAllIn(x: seq<Entry>, ea: seq<Entry>)
    requires forall e :: e in x ==> e in ea
    ensures Minus(x, ea) == []
    decreases |x|
  {
    if x != [] { MinusAllIn(x[1..], ea); }
  }

  lemma MinusSkip(eb: seq<Entry>, ea: seq<Entry>, from: nat, to: nat)
    requires from <= to <= |eb| && forall j :: from <= j < to ==> eb[j] in ea
    ensures Minus(eb[..to], ea) == Minus(eb[..from], ea)
    ensures to < |eb| && eb[to] !in ea ==> Minus(eb[..to + 1], ea) == Minus(eb[..from], ea) + [eb[to]]
  {
    MinusAllIn(eb[from..to], ea);
    MinusConcat(eb[..from], eb[from..to], ea);
    assert eb[..to] == eb[..from] + eb[from..to];
    if to < |eb| {
      MinusConcat(eb[..to], [eb[to]], ea);
      assert eb[..to + 1] == eb[..to] + [eb[to]];
    }
  }

  lemma {:induction false} MinusIs(eb: seq<Entry>, ea: seq<Entry>)
    ensures forall e :: e in Minus(eb, ea) <==> e in eb && e !in ea
    ensures Sorted(eb) ==> Sorted(Minus(eb, ea))
    decreases |eb|
  {
    if eb != [] {
      var rest := Minus(eb[1..], ea);
      MinusIs(eb[1..], ea);
      forall e ensures e in Minus(eb, ea) <==> e in eb && e !in ea {
        assert e in eb <==> e == eb[0] || e in eb[1..];
      }
      if Sorted(eb) && eb[0] !in ea { SortedConcat([eb[0]], rest); }
    }
  }

  /** A whole iteration returns exactly the nodes of b that a lacks, each once and in ascending order. */
  method Collect(it: DifferenceIterator) returns (out: seq<Entry>)
    requires it.Valid() && it.b.pos == -1
    modifies it, it.a, it.b
    ensures out == Minus(it.b.All(), it.a.All()) && Sorted(out)
    ensures forall e :: e in out <==> e in it.b.All() && e !in it.a.All()
  {
    out := [];
    ghost var ea, eb := it.a.All(), it.b.All();
    ghost var done := 0;
    while true
      invariant it.Valid() && it.b.pos == done - 1 && 0 <= done <= |eb|
      invariant out == Minus(eb[..done], ea)
      decreases |eb| - done
    {
      var ok := it.Next();
      MinusSkip(eb, ea, done, it.b.pos);
      if !ok { break; }
      var x := it.CurrentOfB();
      out := out + [x];
      done := it.b.pos + 1;
    }
    CollectedAll(out, it.a.tree, it.b.tree, it.b.db.hash);
  }

  lemma CollectedAll(out: seq<Entry>, ta: Tree, tb: Tree, hash: Item -> Hash)
    requires Canonical(tb)
    ensures var ea, eb := Entries(ta, [], hash, true), Entries(tb, [], hash, true);
            out == Minus(eb[..|eb|], ea) ==> out == Minus(eb, ea) && Sorted(out) && forall e :: e in out <==> e in eb && e !in ea
  {
    var ea, eb := Entries(ta, [], hash, true), Entries(tb, [], hash, true);
    assert eb[..|eb|] == eb;
    EntriesSorted(tb, [], hash, true, false);
    MinusIs(eb, ea);
  }
}
