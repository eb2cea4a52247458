/**
  The node iterator (trie/iterator.go): a stack of frames walked in place over a
  partly loaded trie. It visits exactly the pre-order of the expanded tree, and
  when told not to descend it goes on with the first node outside the subtree.
 */
module Iterator {
  import opened Hex
  import opened Rlp
  import opened PatriciaTree
  import opened TrieNode
  import opened TrieOps
  import opened Hasher
  import opened Proof
  import opened PreOrder

  /** nodeIteratorState; a hash of None is the zero hash. */
  datatype Frame = Frame(hash: Option<Hash>, node: Node, index: int, pathlen: nat)

  /** The hash a child carries in its flags. */
  function CachedHash(n: Node): Option<Hash> {
    if n.ShortNode? || n.FullNode? then n.flags.hash else None
  }

  datatype Child = Child(index: nat, node: Node, segment: Path)

  /** The next child after a given index, if any. */
  function NextChild(n: Node, index: int): Option<Child>
    requires -1 <= index
  {
    match n
    case FullNode(cs, _) => NextFrom(cs, index + 1)
    case ShortNode(key, val, _) => if index < 0 then Some(Child(0, val, key)) else None
    case _ => None
  }

  function NextFrom(cs: seq<Node>, i: nat): Option<Child>
    decreases if i < |cs| then |cs| - i else 0
  {
    if i >= |cs| || i >= 17 then None
    else if !cs[i].NilNode? then Some(Child(i, cs[i], [i as Byte]))
    else NextFrom(cs, i + 1)
  }

  /** nextChild, with its loop over the children of a full node. */
  method FindNextChild(n: Node, index: int) returns (r: Option<Child>)
    requires -1 <= index
    requires n.FullNode? ==> |n.children| == 17
    ensures r == NextChild(n, index)
  {
    match n
    case FullNode(cs, _) =>
      var i := index + 1;
      while i < |cs|
        invariant index < i && NextFrom(cs, index + 1) == NextFrom(cs, i)
      {
        if !cs[i].NilNode? { return Some(Child(i, cs[i], [i as Byte])); }
        i := i + 1;
      }
      return None;
    case ShortNode(key, val, _) =>
      if index < 0 { return Some(Child(0, val, key)); }
      return None;
    case _ => return None;
  }

  /** The subtree a child number leads to. */
  function ChildTree(t: Tree, i: nat): Tree
    requires t.Ext? || (t.Branch? && i < |t.children|)
  {
    if t.Ext? then t.child else t.children[i]
  }

  ghost predicate ChildOk(c: Child, t: Tree, path: Path, db: Db) {
    && (t.Ext? || (t.Branch? && c.index < |t.children|))
    && (t.Ext? ==> c.index == 0 && c.segment == t.key)
    && (t.Branch? ==> c.index < 17 && c.segment == [c.index as Byte])
    && !ChildTree(t, c.index).Nil?
    && WellFormed(ChildTree(t, c.index), HasTerm(c.segment))
    && Rep(c.node, ChildTree(t, c.index), path + c.segment, db, false)
    && Tagged(c.node, ChildTree(t, c.index), db.hash)
  }

  /** The node a frame holds. */
  ghost predicate FrameOk(f: Frame, t: Tree, path: Path, db: Db, root: bool) {
    && Rep(f.node, t, path, db, root) && !f.node.HashNode?
    && TaggedBelow(f.node, t, db.hash)
    && f.hash == EntryOf(t, path, db.hash, root).hash
    && (if root then Canonical(t) else WellFormed(t, HasTerm(path)))
    && -1 <= f.index
  }

  /**
   * Going to the next child uses up the head of what is left below a node. Stated of variables equal to the next child
   * and its index, so that a caller gets NextOk of the terms it already has and the solver leaves it folded.
   */
  lemma NextChildRep(f: Frame, t: Tree, path: Path, db: Db, root: bool)
    requires FrameOk(f, t, path, db, root)
    ensures forall next, i: nat :: next == NextChild(f.node, f.index) && i == f.index + 1 ==> NextOk(next, t, path, db, i)
  {
    if f.node.FullNode? {
      ChildrenSeen(f.node, t, path, db, root);
      NextFromRep(f.node.children, f.index + 1, t, path, db);
    } else if f.node.ShortNode? && f.index < 0 {
      assert WellFormed(t, false);
      assert Below(t, path, db.hash, 1) == [];
      assert Below(t, path, db.hash, 0) == Entries(t.child, path + t.key, db.hash, false) + [];
    }
  }

  /** Child i of a full node stands for child i of its branch. */
  ghost predicate Seen(cs: seq<Node>, t: Tree, path: Path, db: Db, i: Byte)
    requires i < 17 && |cs| == 17 && t.Branch? && |t.children| == 17
  {
    && Rep(cs[i], t.children[i], path + [i], db, false) && Tagged(cs[i], t.children[i], db.hash)
    && (t.children[i].Nil? || WellFormed(t.children[i], i == TERM)) && (cs[i].NilNode? <==> t.children[i].Nil?)
  }

  ghost predicate AllSeen(cs: seq<Node>, t: Tree, path: Path, db: Db) {
    |cs| == 17 && t.Branch? && |t.children| == 17 && forall i: Byte {:trigger Seen(cs, t, path, db, i)} :: i < 17 ==> Seen(cs, t, path, db, i)
  }

  lemma ChildrenSeen(n: Node, t: Tree, path: Path, db: Db, root: bool)
    requires n.FullNode? && Rep(n, t, path, db, root) && TaggedBelow(n, t, db.hash) && WellFormed(t, false)
    ensures AllSeen(n.children, t, path, db)
  {
    forall i: Byte | i < 17 ensures Seen(n.children, t, path, db, i) {
      assert Rep(n.children[i], t.children[i], path + [i], db, false);
      assert Tagged(n.children[i], t.children[i], db.hash);
      assert t.children[i as int].Nil? || WellFormed(t.children[i as int], i == TERM);
    }
  }

  lemma SeenChildOk(cs: seq<Node>, t: Tree, path: Path, db: Db, i: nat)
    requires i < 17 && |cs| == 17 && t.Branch? && |t.children| == 17 && Seen(cs, t, path, db, i as Byte) && !cs[i].NilNode?
    ensures ChildOk(Child(i, cs[i], [i as Byte]), t, path, db)
  {
  }

  /** The next child is the first non-nil one. */
  lemma {:induction false} NextFromIs(cs: seq<Node>, i: nat)
    requires |cs| == 17
    ensures match NextFrom(cs, i)
            case None => forall j :: i <= j < 17 ==> cs[j].NilNode?
            case Some(c) =>
              && i <= c.index < 17 && c == Child(c.index, cs[c.index], [c.index as Byte]) && !c.node.NilNode?
              && forall j :: i <= j < c.index ==> cs[j].NilNode?
    decreases if i < 17 then 17 - i else 0
  {
    if i < 17 && cs[i].NilNode? { NextFromIs(cs, i + 1); }
  }

  lemma {:induction false} BelowSkips(t: Tree, path: Path, hash: Item -> Hash, i: nat, k: nat)
    requires t.Branch? && |t.children| == 17 && i <= k <= 17 && forall j :: i <= j < k ==> t.children[j].Nil?
    ensures Below(t, path, hash, i) == Below(t, path, hash, k)
    decreases k - i
  {
    if i < k { BelowSkips(t, path, hash, i + 1, k); }
  }

  /** What going to the next child of node n uses up. */
  ghost predicate NextOk(next: Option<Child>, t: Tree, path: Path, db: Db, i: nat) {
    match next
    case None => Below(t, path, db.hash, i) == []
    case Some(c) =>
      && ChildOk(c, t, path, db)
      && Below(t, path, db.hash, i) ==
         Entries(ChildTree(t, c.index), path + c.segment, db.hash, false) + Below(t, path, db.hash, c.index + 1)
  }

  // The quantifier in the ensures keeps NextOk folded for the solver.
  lemma NextFromRep(cs: seq<Node>, i: nat, t: Tree, path: Path, db: Db)
    requires AllSeen(cs, t, path, db)
    ensures forall next :: next == NextFrom(cs, i) ==> NextOk(next, t, path, db, i)
  {
    NextFromIs(cs, i);
    forall j | 0 <= j < 17 ensures cs[j].NilNode? <==> t.children[j].Nil? { assert Seen(cs, t, path, db, j as Byte); }
    match NextFrom(cs, i) {
      case None =>
        if i < 17 { BelowSkips(t, path, db.hash, i, 17); }
      case Some(c) =>
        BelowSkips(t, path, db.hash, i, c.index);
        assert Seen(cs, t, path, db, c.index as Byte);
        SeenChildOk(cs, t, path, db, c.index);
    }
  }

  // ----- the stack -----

  ghost predicate StackOk(stack: seq<Frame>, trees: seq<Tree>, path: Path, db: Db)
    decreases |stack|
  {
    && |stack| == |trees|
    && if stack == [] then path == [] else
         var n := |stack| - 1;
         var top := stack[n];
         && top.pathlen <= |path|
         && FrameOk(top, trees[n], path, db, n == 0)
         && StackOk(stack[..n], trees[..n], path[..top.pathlen], db)
         && (n > 0 ==> Inside(stack[n - 1], trees[n - 1], path[..top.pathlen], path))
  }

  /** The frame above was entered through child number f.index. */
  ghost predicate Inside(f: Frame, t: Tree, parentPath: Path, path: Path) {
    && 0 <= f.index < 17
    && (t.Ext? || t.Branch?)
    && (t.Branch? ==> parentPath + [f.index as Byte] <= path)
    && (t.Ext? ==> f.index == 0 && parentPath + t.key <= path)
  }

  /** All that is still to be visited. */
  ghost function Remaining(stack: seq<Frame>, trees: seq<Tree>, path: Path, hash: Item -> Hash): seq<Entry>
    decreases |stack|
  {
    if stack == [] || |stack| != |trees| then []
    else
      var n := |stack| - 1;
      Below(trees[n], path, hash, if stack[n].index < -1 then 0 else stack[n].index + 1)
      + Remaining(stack[..n], trees[..n], if stack[n].pathlen <= |path| then path[..stack[n].pathlen] else path, hash)
  }

  lemma PopOk(stack: seq<Frame>, trees: seq<Tree>, path: Path, db: Db)
    requires StackOk(stack, trees, path, db) && stack != []
    ensures var n := |stack| - 1;
            && StackOk(stack[..n], trees[..n], path[..stack[n].pathlen], db)
            && Remaining(stack, trees, path, db.hash) ==
               Below(trees[n], path, db.hash, stack[n].index + 1)
               + Remaining(stack[..n], trees[..n], path[..stack[n].pathlen], db.hash)
  {
  }

  /** push: the parent's index moves on, and the child's frame goes on top. */
  function Pushed(stack: seq<Frame>, c: Child, f: Frame): seq<Frame>
    requires stack != []
  {
    stack[|stack| - 1 := stack[|stack| - 1].(index := c.index)] + [f]
  }

  lemma {:induction false} AdvanceOk(stack: seq<Frame>, trees: seq<Tree>, path: Path, db: Db, i: nat)
    requires StackOk(stack, trees, path, db) && stack != []
    ensures var n := |stack| - 1;
            var stack0 := stack[n := stack[n].(index := i)];
            && StackOk(stack0, trees, path, db)
            && Remaining(stack0, trees, path, db.hash) ==
               Below(trees[n], path, db.hash, i + 1)
               + Remaining(stack[..n], trees[..n], path[..stack[n].pathlen], db.hash)
  {
    var n := |stack| - 1;
    var stack0 := stack[n := stack[n].(index := i)];
    assert stack0[..n] == stack[..n];
  }

  /** Entering child c of the top frame. */
  lemma {:induction false} PushOk(stack: seq<Frame>, trees: seq<Tree>, path: Path, db: Db, c: Child, f: Frame)
    requires StackOk(stack, trees, path, db) && stack != []
    requires ChildOk(c, trees[|stack| - 1], path, db) && f.index == -1 && f.pathlen == |path|
    requires FrameOk(f, ChildTree(trees[|stack| - 1], c.index), path + c.segment, db, false)
    ensures StackOk(Pushed(stack, c, f), trees + [ChildTree(trees[|stack| - 1], c.index)], path + c.segment, db)
    ensures var n := |stack| - 1;
            Remaining(Pushed(stack, c, f), trees + [ChildTree(trees[n], c.index)], path + c.segment, db.hash) ==
            Below(ChildTree(trees[n], c.index), path + c.segment, db.hash, 0)
            + (Below(trees[n], path, db.hash, c.index + 1)
               + Remaining(stack[..n], trees[..n], path[..stack[n].pathlen], db.hash))
  {
    var n := |stack| - 1;
    AdvanceOk(stack, trees, path, db, c.index);
    var stack0 := stack[n := stack[n].(index := c.index)];
    var stack', trees', path' := stack0 + [f], trees + [ChildTree(trees[n], c.index)], path + c.segment;
    assert stack'[..n + 1] == stack0 && trees'[..n + 1] == trees && path'[..|path|] == path;
    assert Inside(stack0[n], trees[n], path, path');
  }

  /** What remains in the frames below the top one lies outside the subtree of the current node. */
  lemma {:induction false} RemainingOutside(stack: seq<Frame>, trees: seq<Tree>, path: Path, db: Db)
    requires StackOk(stack, trees, path, db) && stack != []
    ensures var n := |stack| - 1;
            forall e :: e in Remaining(stack[..n], trees[..n], path[..stack[n].pathlen], db.hash) ==> !(path <= e.path)
    decreases |stack|
  {
    var n := |stack| - 1;
    if n > 0 {
      var lower, lowerTrees, lowerPath := stack[..n], trees[..n], path[..stack[n].pathlen];
      var f, t := stack[n - 1], trees[n - 1];
      PopOk(lower, lowerTrees, lowerPath, db);
      RemainingOutside(lower, lowerTrees, lowerPath, db);
      BelowExtend(t, lowerPath, db.hash, f.index + 1);
      assert lower[n - 1] == f && lowerTrees[n - 1] == t;
      forall e | e in Remaining(lower, lowerTrees, lowerPath, db.hash) ensures !(path <= e.path) {
        if e in Below(t, lowerPath, db.hash, f.index + 1) {
          assert t.Branch?;
          SiblingLess(lowerPath, f.index as Byte, e.path[|lowerPath|], path, e.path);
        } else {
          assert !(lowerPath <= e.path);
          assert lowerPath <= path;
        }
      }
    }
  }

  /** Entries under a path come first, so skipping them leads to the rest. */
  lemma SkipLength(es: seq<Entry>, at: nat, path: Path, inside: seq<Entry>, outside: seq<Entry>)
    requires at < |es| && es[at + 1..] == inside + outside
    requires forall e :: e in inside ==> path <= e.path
    requires forall e :: e in outside ==> !(path <= e.path)
    ensures NextOutside(es, path, at + 1) == at + 1 + |inside| <= |es| && es[at + |inside| + 1..] == outside
  {
    var r := at + 1 + |inside|;
    forall q | at + 1 <= q < r ensures path <= es[q].path {
      assert es[q] == es[at + 1..][q - at - 1] == inside[q - at - 1];
    }
    assert r < |es| ==> es[at + 1..][|inside|] == outside[0] && outside[0] in outside;
    NextOutsideIs(es, path, at + 1, r);
    assert es[r..] == es[at + 1..][|inside|..];
  }

  lemma {:induction false} NextOutsideIs(es: seq<Entry>, p: Path, i: nat, r: nat)
    requires i <= r <= |es|
    requires forall q :: i <= q < r ==> p <= es[q].path
    requires r < |es| ==> !(p <= es[r].path)
    ensures NextOutside(es, p, i) == r
    decreases r - i
  {
    if i < r { NextOutsideIs(es, p, i + 1, r); }
  }

  /** The stack is good, and what remains in it is what comes after position `at`. */
  ghost predicate Standing(stack: seq<Frame>, trees: seq<Tree>, path: Path, db: Db, es: seq<Entry>, at: int) {
    StackOk(stack, trees, path, db) && 0 <= at < |es| && es[at + 1..] == Remaining(stack, trees, path, db.hash)
  }

  /** The same, and all nodes on the stack are among the items. */
  // Quantified over the one path so that the stack is unfolded only where a proof asks for it.
  ghost predicate At(stack: seq<Frame>, trees: seq<Tree>, path: Path, db: Db, es: seq<Entry>, at: int, items: iset<Item>) {
    forall p :: p == path ==> Standing(stack, trees, p, db, es, at) && AllWithin(trees, db.hash, items)
  }

  /** Popping the current node skips its subtree. */
  // The quantifier in the last ensures keeps Standing folded for the solver.
  lemma SkipOk(stack: seq<Frame>, trees: seq<Tree>, path: Path, db: Db, es: seq<Entry>, at: int) returns (at': int)
    requires Standing(stack, trees, path, db, es, at) && stack != [] && es[at].path == path
    ensures at' + 1 == NextOutside(es, path, at + 1)
    ensures var n := |stack| - 1; forall p :: p == path[..stack[n].pathlen] ==> Standing(stack[..n], trees[..n], p, db, es, at')
  {
    var inside, outside := InsideOutside(stack, trees, path, db);
    SkipLength(es, at, path, inside, outside);
    at' := at + |inside|;
  }

  /** What remains: first the rest of the current subtree, then what lies outside. */
  lemma InsideOutside(stack: seq<Frame>, trees: seq<Tree>, path: Path, db: Db) returns (inside: seq<Entry>, outside: seq<Entry>)
    requires StackOk(stack, trees, path, db) && stack != []
    ensures Remaining(stack, trees, path, db.hash) == inside + outside
    ensures (forall e :: e in inside ==> path <= e.path) && (forall e :: e in outside ==> !(path <= e.path))
    ensures var n := |stack| - 1;
            && StackOk(stack[..n], trees[..n], path[..stack[n].pathlen], db)
            && outside == Remaining(stack[..n], trees[..n], path[..stack[n].pathlen], db.hash)
  {
    var n := |stack| - 1;
    PopOk(stack, trees, path, db);
    RemainingOutside(stack, trees, path, db);
    BelowExtend(trees[n], path, db.hash, stack[n].index + 1);
    inside := Below(trees[n], path, db.hash, stack[n].index + 1);
    outside := Remaining(stack[..n], trees[..n], path[..stack[n].pathlen], db.hash);
  }

  /** A node whose children are all done can be left. */
  lemma LeaveOk(stack: seq<Frame>, trees: seq<Tree>, path: Path, db: Db, es: seq<Entry>, at: int)
    requires Standing(stack, trees, path, db, es, at) && stack != []
    requires var n := |stack| - 1; NextChild(stack[n].node, stack[n].index).None?
    ensures var n := |stack| - 1; Standing(stack[..n], trees[..n], path[..stack[n].pathlen], db, es, at)
  {
    var n := |stack| - 1;
    NextChildRep(stack[n], trees[n], path, db, n == 0);
    assert NextOk(None, trees[n], path, db, stack[n].index + 1);
    PopOk(stack, trees, path, db);
  }

  /** What a child's frame has to be. */
  ghost predicate FrameFor(f: Frame, c: Child, t: Tree, path: Path, db: Db) {
    && f.index == -1 && f.pathlen == |path|
    && Rep(f.node, t, path + c.segment, db, false) && !f.node.HashNode?
    && if c.node.HashNode?
       then f.hash == Some(c.node.hash) && TaggedBelow(f.node, t, db.hash)
       else f.hash == CachedHash(c.node) && f.node == c.node
  }

  function Shown(f: Frame, path: Path): Entry {
    Entry(path, f.hash, if f.node.ValueNode? then Some(f.node.value) else None)
  }

  /** Entering the next child moves to the next position, and shows its entry. */
  lemma EnterOk(stack: seq<Frame>, trees: seq<Tree>, path: Path, db: Db, es: seq<Entry>, at: int, c: Child, f: Frame)
    requires Standing(stack, trees, path, db, es, at) && stack != []
    requires var n := |stack| - 1; NextChild(stack[n].node, stack[n].index) == Some(c)
    requires var n := |stack| - 1; ChildOk(c, trees[n], path, db) && FrameFor(f, c, ChildTree(trees[n], c.index), path, db)
    ensures Standing(Pushed(stack, c, f), trees + [ChildTree(trees[|stack| - 1], c.index)], path + c.segment, db, es, at + 1)
    ensures es[at + 1] == Shown(f, path + c.segment)
  {
    var n := |stack| - 1;
    var t := ChildTree(trees[n], c.index);
    NextChildRep(stack[n], trees[n], path, db, n == 0);
    assert NextOk(Some(c), trees[n], path, db, stack[n].index + 1);
    PopOk(stack, trees, path, db);
    ChildFrame(c, f, t, path, db);
    PushOk(stack, trees, path, db, c, f);
    var e, x := EntryOf(t, path + c.segment, db.hash, false), Below(t, path + c.segment, db.hash, 0);
    Regroup(e, x, Below(trees[n], path, db.hash, c.index + 1),
            Remaining(stack[..n], trees[..n], path[..stack[n].pathlen], db.hash));
    HeadOf(es, at, e, Remaining(Pushed(stack, c, f), trees + [t], path + c.segment, db.hash));
  }

  lemma Regroup(e: Entry, x: seq<Entry>, y: seq<Entry>, z: seq<Entry>)
    ensures [e] + x + y + z == [e] + (x + (y + z))
  {
  }

  ghost predicate AllWithin(trees: seq<Tree>, hash: Item -> Hash, items: iset<Item>) {
    forall i :: 0 <= i < |trees| ==> Within(trees[i], hash, items)
  }

  lemma ChildWithin(t: Tree, i: nat, hash: Item -> Hash, items: iset<Item>)
    requires Within(t, hash, items) && (t.Ext? || (t.Branch? && i < |t.children| && i < 17))
    ensures Within(ChildTree(t, i), hash, items)
  {
    if t.Branch? { assert Within(t.children[i as Byte], hash, items); }
  }

  class NodeIterator {
    const root: Node
    const rootHash: Option<Hash>
    const db: Db
    var stack: seq<Frame>
    var path: Path
    /** errIteratorEnd. */
    var ended: bool
    var failure: Option<Error>

    ghost const tree: Tree
    ghost const items: iset<Item>
    ghost var trees: seq<Tree>
    /** Index of the current node in the pre-order: -1 before the first, one past the last at the end. */
    ghost var pos: int

    ghost function All(): seq<Entry>
    {
      Entries(tree, [], db.hash, true)
    }

    /** Hash, Path and LeafBlob of the current node. */
    function Current(): Entry
      reads this
      requires stack != []
    {
      Shown(stack[|stack| - 1], path)
    }

    /** What never changes: the root stands for the tree. */
    ghost predicate Rooted() {
      && Canonical(tree) && Rep(root, tree, [], db, true) && TaggedBelow(root, tree, db.hash)
      && rootHash == EntryOf(tree, [], db.hash, true).hash && Within(tree, db.hash, items)
    }

    /** The stack is where `pos` says. */
    ghost predicate Placed()
      reads this
    {
      && stack != [] && At(stack, trees, path, db, All(), pos, items)
      && 0 <= pos < |All()| && Current() == All()[pos]
    }

    ghost predicate Valid()
      reads this
    {
      && Rooted() && failure.None?
      && -1 <= pos <= |All()|
      && (ended <==> pos == |All()|)
      && (pos == -1 ==> stack == [] && path == [] && trees == [])
      && (0 <= pos < |All()| ==> Placed())
    }

    /** An iterator over a trie whose hashes have been computed. */
    constructor (root: Node, db: Db, ghost tree: Tree, ghost items: iset<Item>)
      requires Canonical(tree) && Rep(root, tree, [], db, true) && TaggedBelow(root, tree, db.hash)
      requires Within(tree, db.hash, items)
      requires root.ShortNode? || root.FullNode? ==> root.flags.hash.Some?
      ensures Valid() && pos == -1 && this.tree == tree && this.db == db && this.items == items
    {
      this.root, this.db := root, db;
      rootHash := if root.HashNode? then Some(root.hash) else CachedHash(root);
      stack, path, ended, failure := [], [], false, None;
      this.tree, this.items, trees, pos := tree, items, [], -1;
    }

    /** Move to the next node; do not descend into the current one unless told so. */
    method Next(descend: bool) returns (ok: bool)
      requires Valid()
      modifies this
      ensures Valid()
      ensures old(pos) < |All()| ==> pos == NextPos(All(), old(pos), descend)
      ensures old(pos) == |All()| ==> pos == old(pos)
      ensures ok <==> pos < |All()|
    {
      if ended { return false; }
      if stack == [] {
        stack, path, failure, trees := Start(root, rootHash, db, tree, items);
        pos := 0;
        return true;
      }
      ghost var next := NextPos(All(), pos, descend);
      ok, stack, path, failure, trees := Move(stack, path, db, descend, trees, All(), pos, items);
      ended, pos := !ok, next;
    }

    /** Node: the encoding of the current node, which must have a hash. */
    method Encoding() returns (enc: Item)
      requires Valid() && 0 <= pos < |All()| && All()[pos].hash.Some?
      ensures db.hash(enc) == All()[pos].hash.value && enc in items
    {
      assert Standing(stack, trees, path, db, All(), pos) && AllWithin(trees, db.hash, items);
      enc := EncodeTop(stack, path, db, trees, items);
    }
  }

  /** Node(): the database encoding of the node of the top frame. */
  method EncodeTop(stack: seq<Frame>, path: Path, db: Db, ghost trees: seq<Tree>, ghost items: iset<Item>) returns (enc: Item)
    requires StackOk(stack, trees, path, db) && stack != [] && AllWithin(trees, db.hash, items)
    requires stack[|stack| - 1].hash.Some?
    ensures db.hash(enc) == stack[|stack| - 1].hash.value && enc in items
  {
    var n := |stack| - 1;
    var node := stack[n].node;
    HashChildrenRef(node, trees[n], path, n == 0, false, db);
    enc := HashChildren(node, path, false, db.hash).ref;
  }

  /** peek and push, from a node on the stack. */
  method Move(stack0: seq<Frame>, path0: Path, db: Db, descend: bool,
              ghost trees0: seq<Tree>, ghost es: seq<Entry>, ghost pos: int, ghost items: iset<Item>)
    returns (more: bool, stack: seq<Frame>, path: Path, error: Option<Error>, ghost trees: seq<Tree>)
    requires At(stack0, trees0, path0, db, es, pos, items) && stack0 != [] && 0 <= pos < |es| && es[pos].path == path0
    ensures error.None?
    ensures more <==> NextPos(es, pos, descend) < |es|
    ensures more ==> stack != [] && At(stack, trees, path, db, es, NextPos(es, pos, descend), items)
    ensures more ==> es[NextPos(es, pos, descend)] == Shown(stack[|stack| - 1], path)
    ensures !more ==> stack == []
  {
    if descend {
      more, stack, path, error, trees := Advance(stack0, path0, db, trees0, es, pos, items);
    } else {
      more, stack, path, error, trees := Skip(stack0, path0, db, trees0, es, pos, items);
    }
  }

  /** Leave the current node, and go on from there. */
  method Skip(stack0: seq<Frame>, path0: Path, db: Db, ghost trees0: seq<Tree>, ghost es: seq<Entry>, ghost pos: int,
              ghost items: iset<Item>)
    returns (more: bool, stack: seq<Frame>, path: Path, error: Option<Error>, ghost trees: seq<Tree>)
    requires At(stack0, trees0, path0, db, es, pos, items) && stack0 != [] && 0 <= pos < |es| && es[pos].path == path0
    ensures error.None?
    ensures more <==> NextPos(es, pos, false) < |es|
    ensures more ==> stack != [] && At(stack, trees, path, db, es, NextPos(es, pos, false), items)
    ensures more ==> es[NextPos(es, pos, false)] == Shown(stack[|stack| - 1], path)
    ensures !more ==> stack == []
  {
    var n := |stack0| - 1;
    ghost var at := SkipAt(stack0, trees0, path0, db, es, pos, items);
    more, stack, path, error, trees := Advance(stack0[..n], path0[..stack0[n].pathlen], db, trees0[..n], es, at, items);
  }

  /** The first node. */
  method Start(root: Node, rootHash: Option<Hash>, db: Db, ghost tree: Tree, ghost items: iset<Item>)
    returns (stack: seq<Frame>, path: Path, error: Option<Error>, ghost trees: seq<Tree>)
    requires Canonical(tree) && Rep(root, tree, [], db, true) && TaggedBelow(root, tree, db.hash)
    requires rootHash == EntryOf(tree, [], db.hash, true).hash && Within(tree, db.hash, items)
    ensures error.None? && stack != []
    ensures At(stack, trees, path, db, Entries(tree, [], db.hash, true), 0, items) && trees == [tree]
    ensures Entries(tree, [], db.hash, true)[0] == Shown(stack[|stack| - 1], path)
  {
    var first := root;
    path, error := [], None;
    if root.HashNode? {
      ResolveRep(root.hash, tree, [], db, true);
      match ResolveHash(root.hash, [], db)
      case Err(e) => error := Some(e);
      case Ok(node) => first := node;
    }
    stack, trees := [Frame(rootHash, first, -1, 0)], [tree];
    assert stack[..0] == [] && trees[..0] == [];
    assert Entries(tree, [], db.hash, true)[1..] == Below(tree, [], db.hash, 0) + [];
    assert StackOk([], [], [], db) && Remaining([], [], [], db.hash) == [];
    assert Standing(stack, trees, path, db, Entries(tree, [], db.hash, true), 0);
  }

  /** The loop of peek, and push: find the next child on the stack and enter it. */
  method Advance(stack0: seq<Frame>, path0: Path, db: Db, ghost trees0: seq<Tree>, ghost es: seq<Entry>, ghost at: int,
                 ghost items: iset<Item>)
    returns (more: bool, stack: seq<Frame>, path: Path, error: Option<Error>, ghost trees: seq<Tree>)
    requires At(stack0, trees0, path0, db, es, at, items)
    ensures error.None?
    ensures more ==> stack != [] && At(stack, trees, path, db, es, at + 1, items)
    ensures more ==> 0 <= at + 1 < |es| && es[at + 1] == Shown(stack[|stack| - 1], path)
    ensures !more ==> stack == [] && at + 1 == |es|
  {
    stack, path, trees, error := stack0, path0, trees0, None;
    while stack != []
      invariant At(stack, trees, path, db, es, at, items)
      decreases |stack|
    {
      var n := |stack| - 1;
      TopOk(stack, trees, path, db, es, at, items);
      var child := FindNextChild(stack[n].node, stack[n].index);
      if child.Some? {
        var f;
        f, error := Load(child.value, path, db, stack[n], trees[n], n == 0);
        EnterAt(stack, trees, path, db, es, at, items, child.value, f);
        trees := trees + [ChildTree(trees[n], child.value.index)];
        path, stack := path + child.value.segment, Pushed(stack, child.value, f);
        return true, stack, path, error, trees;
      }
      LeaveAt(stack, trees, path, db, es, at, items);
      path, stack, trees := path[..stack[n].pathlen], stack[..n], trees[..n];
    }
    Exhausted(trees, path, db, es, at, items);
    return false, stack, path, error, trees;
  }

  lemma Exhausted(trees: seq<Tree>, path: Path, db: Db, es: seq<Entry>, at: int, items: iset<Item>)
    requires At([], trees, path, db, es, at, items)
    ensures at + 1 == |es|
  {
    assert Standing([], trees, path, db, es, at);
  }

  lemma TopOk(stack: seq<Frame>, trees: seq<Tree>, path: Path, db: Db, es: seq<Entry>, at: int, items: iset<Item>)
    requires At(stack, trees, path, db, es, at, items) && stack != []
    ensures var n := |stack| - 1;
            |trees| == |stack| && 0 <= at < |es| && stack[n].pathlen <= |path| && FrameOk(stack[n], trees[n], path, db, n == 0)
  {
    assert Standing(stack, trees, path, db, es, at);
  }

  lemma SkipAt(stack: seq<Frame>, trees: seq<Tree>, path: Path, db: Db, es: seq<Entry>, at: int, items: iset<Item>) returns (at': int)
    requires At(stack, trees, path, db, es, at, items) && stack != [] && 0 <= at < |es| && es[at].path == path
    ensures at' + 1 == NextOutside(es, path, at + 1)
    ensures var n := |stack| - 1;
            |trees| == |stack| && stack[n].pathlen <= |path| && At(stack[..n], trees[..n], path[..stack[n].pathlen], db, es, at', items)
  {
    assert Standing(stack, trees, path, db, es, at) && AllWithin(trees, db.hash, items);
    at' := SkipOk(stack, trees, path, db, es, at);
    assert AllWithin(trees[..|stack| - 1], db.hash, items);
  }

  lemma LeaveAt(stack: seq<Frame>, trees: seq<Tree>, path: Path, db: Db, es: seq<Entry>, at: int, items: iset<Item>)
    requires At(stack, trees, path, db, es, at, items) && stack != []
    requires var n := |stack| - 1; stack[n].index >= -1 && NextChild(stack[n].node, stack[n].index).None?
    ensures var n := |stack| - 1;
            |trees| == |stack| && stack[n].pathlen <= |path| && At(stack[..n], trees[..n], path[..stack[n].pathlen], db, es, at, items)
  {
    assert Standing(stack, trees, path, db, es, at) && AllWithin(trees, db.hash, items);
    LeaveOk(stack, trees, path, db, es, at);
    assert AllWithin(trees[..|stack| - 1], db.hash, items);
  }

  lemma EnterAt(stack: seq<Frame>, trees: seq<Tree>, path: Path, db: Db, es: seq<Entry>, at: int, items: iset<Item>, c: Child, f: Frame)
    requires At(stack, trees, path, db, es, at, items) && stack != [] && |trees| == |stack|
    requires var n := |stack| - 1; stack[n].index >= -1 && NextChild(stack[n].node, stack[n].index) == Some(c)
    requires var n := |stack| - 1; ChildOk(c, trees[n], path, db) && FrameFor(f, c, ChildTree(trees[n], c.index), path, db)
    ensures At(Pushed(stack, c, f), trees + [ChildTree(trees[|stack| - 1], c.index)], path + c.segment, db, es, at + 1, items)
    ensures 0 <= at + 1 < |es| && es[at + 1] == Shown(f, path + c.segment)
  {
    assert Standing(stack, trees, path, db, es, at) && AllWithin(trees, db.hash, items);
    EnterOk(stack, trees, path, db, es, at, c, f);
    ChildWithin(trees[|stack| - 1], c.index, db.hash, items);
  }

  /** The frame of a child: its cached hash, or its own hash and the loaded node. */
  method Load(c: Child, path: Path, db: Db, ghost parent: Frame, ghost t: Tree, ghost root: bool)
    returns (f: Frame, error: Option<Error>)
    requires FrameOk(parent, t, path, db, root) && NextChild(parent.node, parent.index) == Some(c)
    ensures error.None? && ChildOk(c, t, path, db) && FrameFor(f, c, ChildTree(t, c.index), path, db)
  {
    NextChildRep(parent, t, path, db, root);
    assert NextOk(Some(c), t, path, db, parent.index + 1);
    f, error := Frame(CachedHash(c.node), c.node, -1, |path|), None;
    if c.node.HashNode? {
      ResolveRep(c.node.hash, ChildTree(t, c.index), path + c.segment, db, false);
      match ResolveHash(c.node.hash, path + c.segment, db)
      case Err(e) => error := Some(e);
      case Ok(node) => f := Frame(Some(c.node.hash), node, -1, |path|);
    }
  }

  /** The frame for a child holds a good node, and shows the entry of its tree. */
  lemma ChildFrame(c: Child, f: Frame, t: Tree, path: Path, db: Db)
    requires WellFormed(t, HasTerm(c.segment)) && |c.segment| > 0
    requires Rep(c.node, t, path + c.segment, db, false) && Tagged(c.node, t, db.hash)
    requires FrameFor(f, c, t, path, db)
    ensures FrameOk(f, t, path + c.segment, db, false)
    ensures Shown(f, path + c.segment) == EntryOf(t, path + c.segment, db.hash, false)
  {
    assert HasTerm(path + c.segment) == HasTerm(c.segment);
  }

  lemma HeadOf(es: seq<Entry>, at: nat, e: Entry, rest: seq<Entry>)
    requires at < |es| && es[at + 1..] == [e] + rest
    ensures at + 1 < |es| && es[at + 1] == e && es[at + 2..] == rest
  {
    assert es[at + 1] == es[at + 1..][0];
    assert es[at + 2..] == es[at + 1..][1..];
  }
}
