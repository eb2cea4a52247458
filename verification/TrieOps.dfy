/**
  Lookup, insertion and deletion on partly loaded tries (trie/trie.go), with the
  loading of hash nodes, the dirty flags and the error paths. On a node standing
  for a tree they do exactly what PatriciaTree does to that tree.
 */
module TrieOps {
  import opened Hex
  import opened Rlp
  import opened PatriciaTree
  import opened PatriciaTreeProofs
  import opened TrieNode

  /** MissingNode is the error of the source; Panic stands for its run-time panics. */
  datatype Error = MissingNode(hash: Hash, path: Path) | Panic

  datatype Result<+T> = Ok(value: T) | Err(error: Error)

  /** A lookup: the value, the node to keep, and whether something was loaded. */
  datatype Found = Found(value: Option<Bytes>, node: Node, didResolve: bool)

  /** A change: whether anything changed, and the node to keep. */
  datatype Change = Change(dirty: bool, node: Node)

  function ResolveHash(h: Hash, prefix: Path, db: Db): (r: Result<Node>)
    ensures r.Ok? ==> r.value.ShortNode? || r.value.FullNode?
  {
    var enc := db.get(prefix, h);
    if enc.None? then Err(MissingNode(h, prefix))
    else
      var n := Decode(Some(h), enc.value);
      if n.None? then Err(Panic) else Ok(n.value)
  }

  /** tryGet; the consumed part key[:pos] and the rest key[pos:] are passed separately. */
  function TryGet(n: Node, prefix: Path, key: Path, db: Db): Result<Found>
    decreases |key|, n.HashNode?
  {
    match n
    case NilNode => Ok(Found(None, n, false))
    case ValueNode(v) => Ok(Found(Some(v), n, false))
    case ShortNode(nk, val, flags) =>
      if nk == [] then Err(Panic)
      else if !(nk <= key) then Ok(Found(None, n, false))
      else
        var r := TryGet(val, prefix + nk, key[|nk|..], db);
        if r.Err? then r
        else if !r.value.didResolve then Ok(r.value.(node := n))
        else Ok(r.value.(node := ShortNode(nk, r.value.node, flags)))
    case FullNode(cs, flags) =>
      if |key| == 0 || key[0] as int >= |cs| then Err(Panic)
      else
        var r := TryGet(cs[key[0]], prefix + [key[0]], key[1..], db);
        if r.Err? then r
        else if !r.value.didResolve then Ok(r.value.(node := n))
        else Ok(r.value.(node := FullNode(cs[key[0] := r.value.node], flags)))
    case HashNode(h) =>
      var child := ResolveHash(h, prefix, db);
      if child.Err? then Err(child.error)
      else
        var r := TryGet(child.value, prefix, key, db);
        if r.Err? then r else Ok(r.value.(didResolve := true))
  }

  /** insert(nil, ...): hang a node below a path. */
  function AttachNode(k: Path, n: Node): Node {
    if |k| == 0 then n else ShortNode(k, n, NewFlag)
  }

  function NoNodes(): (cs: seq<Node>)
    ensures |cs| == 17 && forall i :: 0 <= i < 17 ==> cs[i] == NilNode
  {
    seq(17, i => NilNode)
  }

  /** Branch out where the paths nk and key part. */
  function SplitNode(nk: Path, val: Node, key: Path, v: Bytes, m: nat): Node
    requires m < |nk| && m < |key| && nk[m] < 17 && key[m] < 17
  {
    var cs := NoNodes()[nk[m] := AttachNode(nk[m + 1..], val)][key[m] := AttachNode(key[m + 1..], ValueNode(v))];
    var branch := FullNode(cs, NewFlag);
    if m == 0 then branch else ShortNode(key[..m], branch, NewFlag)
  }

  function InsertNode(n: Node, prefix: Path, key: Path, v: Bytes, db: Db): Result<Change>
    decreases |key|, n.HashNode?
  {
    if |key| == 0 then Ok(Change(n != ValueNode(v), ValueNode(v)))
    else
      match n
      case NilNode => Ok(Change(true, ShortNode(key, ValueNode(v), NewFlag)))
      case ValueNode(_) => Err(Panic)
      case ShortNode(nk, val, flags) =>
        var m := PrefixLen(key, nk);
        if nk == [] then Err(Panic)
        else if m == |nk| then
          var r := InsertNode(val, prefix + key[..m], key[m..], v, db);
          if r.Err? then r
          else if !r.value.dirty then Ok(Change(false, n))
          else Ok(Change(true, ShortNode(nk, r.value.node, NewFlag)))
        else if m == |key| || nk[m] >= 17 || key[m] >= 17 then Err(Panic)
        else Ok(Change(true, SplitNode(nk, val, key, v, m)))
      case FullNode(cs, flags) =>
        if key[0] as int >= |cs| then Err(Panic)
        else
          var r := InsertNode(cs[key[0]], prefix + [key[0]], key[1..], v, db);
          if r.Err? then r
          else if !r.value.dirty then Ok(Change(false, n))
          else Ok(Change(true, FullNode(cs[key[0] := r.value.node], NewFlag)))
      case HashNode(h) =>
        var rn := ResolveHash(h, prefix, db);
        if rn.Err? then Err(rn.error)
        else
          var r := InsertNode(rn.value, prefix, key, v, db);
          if r.Err? then r
          else if !r.value.dirty then Ok(Change(false, rn.value)) else r
  }

  function PresentNodes(cs: seq<Node>): (r: seq<bool>)
    ensures |r| == |cs| && forall i :: 0 <= i < |r| ==> r[i] == !cs[i].NilNode?
  {
    seq(|cs|, i requires 0 <= i < |cs| => !cs[i].NilNode?)
  }

  /** The loop of `delete` that looks for a single remaining child. */
  method FindOnlyChild(cs: seq<Node>) returns (pos: int)
    ensures pos == OnlyIndex(PresentNodes(cs))
  {
    pos := -1;
    var i := 0;
    while i < |cs|
      invariant 0 <= i <= |cs| && -1 <= pos < i
      invariant pos >= 0 ==> !cs[pos].NilNode?
      invariant forall j :: 0 <= j < i && j != pos ==> cs[j].NilNode?
      invariant OnlyIndex(PresentNodes(cs)) == OnlyIndexFrom(PresentNodes(cs), i, pos)
    {
      if !cs[i].NilNode? {
        if pos == -1 {
          pos := i;
        } else {
          pos := -2;
          break;
        }
      }
      i := i + 1;
    }
  }

  function PrependNode(k: Path, n: Node): Node {
    if n.ShortNode? then ShortNode(k + n.key, n.val, NewFlag) else ShortNode(k, n, NewFlag)
  }

  /** Reduction of a full node with a single child left. */
  function ShrinkNode(cs: seq<Node>, prefix: Path, db: Db): Result<Node>
    requires |cs| == 17
  {
    var pos := OnlyIndex(PresentNodes(cs));
    if pos < 0 then Ok(FullNode(cs, NewFlag))
    else if pos == 16 then Ok(ShortNode([16], cs[pos], NewFlag))
    else
      var cnode := if cs[pos].HashNode? then ResolveHash(cs[pos].hash, prefix + [pos as Byte], db) else Ok(cs[pos]);
      if cnode.Err? then Err(cnode.error)
      else if cnode.value.ShortNode? then Ok(PrependNode([pos as Byte], cnode.value))
      else Ok(ShortNode([pos as Byte], cs[pos], NewFlag))
  }

  function DeleteNode(n: Node, prefix: Path, key: Path, db: Db): Result<Change>
    decreases |key|, n.HashNode?
  {
    match n
    case NilNode => Ok(Change(false, NilNode))
    case ValueNode(_) => Ok(Change(true, NilNode))
    case ShortNode(nk, val, flags) =>
      var m := PrefixLen(key, nk);
      if nk == [] then Err(Panic)
      else if m < |nk| then Ok(Change(false, n))
      else if m == |key| then Ok(Change(true, NilNode))
      else
        var r := DeleteNode(val, prefix + key[..m], key[m..], db);
        if r.Err? then r
        else if !r.value.dirty then Ok(Change(false, n))
        else Ok(Change(true, PrependNode(nk, r.value.node)))
    case FullNode(cs, flags) =>
      if |key| == 0 || key[0] as int >= |cs| || |cs| != 17 then Err(Panic)
      else
        var r := DeleteNode(cs[key[0]], prefix + [key[0]], key[1..], db);
        if r.Err? then r
        else if !r.value.dirty then Ok(Change(false, n))
        else
          var s := ShrinkNode(cs[key[0] := r.value.node], prefix, db);
          if s.Err? then Err(s.error) else Ok(Change(true, s.value))
    case HashNode(h) =>
      var rn := ResolveHash(h, prefix, db);
      if rn.Err? then Err(rn.error)
      else
        var r := DeleteNode(rn.value, prefix, key, db);
        if r.Err? then r
        else if !r.value.dirty then Ok(Change(false, rn.value)) else r
  }

  // ----- simulation -----

  /** Loading a hash node that stands for a tree succeeds, with a node for the same tree. */
  lemma ResolveRep(h: Hash, t: Tree, path: Path, db: Db, root: bool)
    requires Rep(HashNode(h), t, path, db, root) && WellFormed(t, false)
    ensures ResolveHash(h, path, db).Ok?
    ensures Rep(ResolveHash(h, path, db).value, t, path, db, root)
    ensures TaggedBelow(ResolveHash(h, path, db).value, t, db.hash)
    ensures !root ==> Tagged(ResolveHash(h, path, db).value, t, db.hash)
  {
    DecodeEncode(Some(h), t, path, db, root);
  }

  /** What a lookup has to achieve. */
  ghost predicate Looked(r: Result<Found>, t: Tree, prefix: Path, key: Path, db: Db, root: bool) {
    && r.Ok?
    && r.value.value == Get(t, key)
    && Rep(r.value.node, t, prefix, db, root)
  }

  /** Lookups on a partly loaded trie answer like the expanded tree, and keep standing for it. */
  lemma {:induction false} TryGetRep(n: Node, t: Tree, prefix: Path, key: Path, db: Db, root: bool)
    requires IsKey(key) && (t.Nil? || WellFormed(t, |key| == 0))
    requires Rep(n, t, prefix, db, root)
    ensures Looked(TryGet(n, prefix, key, db), t, prefix, key, db, root)
    ensures !root && Tagged(n, t, db.hash) ==> Tagged(TryGet(n, prefix, key, db).value.node, t, db.hash)
    decreases |key|, if n.HashNode? then 2 else 1
  {
    if n.ShortNode? && n.key <= key {
      TryGetRepBelow(n, t, prefix, key, db, root);
    } else if n.FullNode? {
      TryGetRepFull(n, t, prefix, key, db, root);
    } else if n.HashNode? {
      ResolveRep(n.hash, t, prefix, db, root);
      TryGetRep(ResolveHash(n.hash, prefix, db).value, t, prefix, key, db, root);
    }
  }

  lemma {:induction false} TryGetRepBelow(n: Node, t: Tree, prefix: Path, key: Path, db: Db, root: bool)
    requires IsKey(key) && |key| > 0 && WellFormed(t, false)
    requires Rep(n, t, prefix, db, root) && n.ShortNode? && n.key <= key
    ensures Looked(TryGet(n, prefix, key, db), t, prefix, key, db, root)
    ensures !root && Tagged(n, t, db.hash) ==> Tagged(TryGet(n, prefix, key, db).value.node, t, db.hash)
    decreases |key|, 0
  {
    SplitKey(n.key, key);
    TryGetRep(n.val, t.child, prefix + n.key, key[|n.key|..], db, false);
    ReloadVal(n, TryGet(n.val, prefix + n.key, key[|n.key|..], db).value.node, t, prefix, db, root);
  }

  /** Putting a loaded child in place of the unloaded one keeps node and flags good. */
  lemma ReloadVal(n: Node, c: Node, t: Tree, path: Path, db: Db, root: bool)
    requires n.ShortNode? && Rep(n, t, path, db, root) && Rep(c, t.child, path + n.key, db, false)
    requires Tagged(n.val, t.child, db.hash) ==> Tagged(c, t.child, db.hash)
    ensures Rep(ShortNode(n.key, c, n.flags), t, path, db, root)
    ensures Tagged(n, t, db.hash) ==> Tagged(ShortNode(n.key, c, n.flags), t, db.hash)
  {
    assert TaggedBelow(n, t, db.hash) ==> TaggedBelow(ShortNode(n.key, c, n.flags), t, db.hash);
  }

  lemma ReloadChild(n: Node, i: Byte, c: Node, t: Tree, path: Path, db: Db, root: bool)
    requires n.FullNode? && Rep(n, t, path, db, root) && i < 17 && Rep(c, t.children[i], path + [i], db, false)
    requires Tagged(n.children[i], t.children[i], db.hash) ==> Tagged(c, t.children[i], db.hash)
    ensures Rep(FullNode(n.children[i := c], n.flags), t, path, db, root)
    ensures Tagged(n, t, db.hash) ==> Tagged(FullNode(n.children[i := c], n.flags), t, db.hash)
  {
    assert TaggedBelow(n, t, db.hash) ==> TaggedBelow(FullNode(n.children[i := c], n.flags), t, db.hash);
  }

  lemma {:induction false} TryGetRepFull(n: Node, t: Tree, prefix: Path, key: Path, db: Db, root: bool)
    requires IsKey(key) && |key| > 0 && WellFormed(t, false)
    requires Rep(n, t, prefix, db, root) && n.FullNode?
    ensures Looked(TryGet(n, prefix, key, db), t, prefix, key, db, root)
    ensures !root && Tagged(n, t, db.hash) ==> Tagged(TryGet(n, prefix, key, db).value.node, t, db.hash)
    decreases |key|, 0
  {
    var i := key[0];
    SplitKey([i], key);
    TryGetRep(n.children[i], t.children[i], prefix + [i], key[1..], db, false);
    ReloadChild(n, i, TryGet(n.children[i], prefix + [i], key[1..], db).value.node, t, prefix, db, root);
  }

  lemma AttachRep(path: Path, i: Byte, rest: Path, n: Node, t: Tree, db: Db)
    requires Rep(n, t, path + [i] + rest, db, false)
    ensures Rep(AttachNode(rest, n), Attach(rest, t), path + [i], db, false)
  {
    if rest == [] { assert path + [i] + rest == path + [i]; }
  }

  lemma ForkRep(p: Path, i: Byte, a: Node, ta: Tree, j: Byte, b: Node, tb: Tree, path: Path, db: Db, root: bool)
    requires i < 17 && j < 17 && i != j
    requires Rep(a, ta, path + p + [i], db, false) && Rep(b, tb, path + p + [j], db, false)
    ensures var branch := FullNode(NoNodes()[i := a][j := b], NewFlag);
            var n := if |p| == 0 then branch else ShortNode(p, branch, NewFlag);
            var t := if |p| == 0 then Fork(i, ta, j, tb) else Ext(p, Fork(i, ta, j, tb));
            Rep(n, t, path, db, root)
  {
    var branch := FullNode(NoNodes()[i := a][j := b], NewFlag);
    assert Rep(branch, Fork(i, ta, j, tb), path + p, db, root);
    assert Rep(branch, Fork(i, ta, j, tb), path + p, db, false);
    if p == [] { assert path + p == path; }
  }

  /** The split of a short node keeps every subtree at its absolute path. */
  lemma SplitRep(nk: Path, val: Node, child: Tree, key: Path, v: Bytes, m: nat, path: Path, db: Db, root: bool)
    requires m < |nk| && m < |key| && nk[..m] == key[..m] && nk[m] != key[m] && nk[m] < 17 && key[m] < 17
    requires Rep(val, child, path + nk, db, false)
    ensures Rep(SplitNode(nk, val, key, v, m), Split(nk, child, key, v, m), path, db, root)
  {
    var p := key[..m];
    assert path + p + [nk[m]] + nk[m + 1..] == path + nk;
    AttachRep(path + p, nk[m], nk[m + 1..], val, child, db);
    AttachRep(path + p, key[m], key[m + 1..], ValueNode(v), Leaf(v), db);
    ForkRep(p, nk[m], AttachNode(nk[m + 1..], val), Attach(nk[m + 1..], child),
            key[m], AttachNode(key[m + 1..], ValueNode(v)), Attach(key[m + 1..], Leaf(v)), path, db, root);
  }

  /** What insertion into node n has to achieve. */
  ghost predicate Inserted(r: Result<Change>, t: Tree, prefix: Path, key: Path, v: Bytes, db: Db, root: bool)
    requires IsKey(key) && (t.Nil? || WellFormed(t, |key| == 0))
  {
    && r.Ok?
    && Rep(r.value.node, Insert(t, key, v), prefix, db, root)
    && (!r.value.dirty ==> Insert(t, key, v) == t)
  }

  /** Insertion into a partly loaded trie stands for insertion into the tree; not dirty means no change. */
  lemma {:induction false} InsertRep(n: Node, t: Tree, prefix: Path, key: Path, v: Bytes, db: Db, root: bool)
    requires IsKey(key) && (t.Nil? || WellFormed(t, |key| == 0))
    requires Rep(n, t, prefix, db, root)
    ensures Inserted(InsertNode(n, prefix, key, v, db), t, prefix, key, v, db, root)
    decreases |key|, if n.HashNode? then 3 else 2
  {
    if |key| > 0 {
      if n.ShortNode? {
        InsertRepShort(n, t, prefix, key, v, db, root);
      } else if n.FullNode? {
        InsertRepFull(n, t, prefix, key, v, db, root);
      } else if n.HashNode? {
        ResolveRep(n.hash, t, prefix, db, root);
        InsertRep(ResolveHash(n.hash, prefix, db).value, t, prefix, key, v, db, root);
      }
    }
  }

  lemma {:induction false} InsertRepShort(n: Node, t: Tree, prefix: Path, key: Path, v: Bytes, db: Db, root: bool)
    requires IsKey(key) && |key| > 0 && WellFormed(t, false)
    requires Rep(n, t, prefix, db, root) && n.ShortNode?
    ensures Inserted(InsertNode(n, prefix, key, v, db), t, prefix, key, v, db, root)
    decreases |key|, 1
  {
    if n.key <= key {
      InsertRepBelow(n, t, prefix, key, v, db, root);
    } else {
      InsertRepSplit(n, t, prefix, key, v, db, root);
    }
  }

  /** A key that does not follow a path parts from it at some nibble. */
  lemma Diverge(nk: Path, key: Path)
    requires IsKey(key) && |key| > 0 && IsSegment(nk) && !(nk <= key)
    ensures var m := PrefixLen(key, nk); m < |nk| && m < |key| && nk[m] < 17 && key[m] < 17
  {
    var m := PrefixLen(key, nk);
    assert forall i :: 0 <= i < m ==> nk[i] == key[..m][i];
  }

  lemma {:induction false} InsertRepSplit(n: Node, t: Tree, prefix: Path, key: Path, v: Bytes, db: Db, root: bool)
    requires IsKey(key) && |key| > 0 && WellFormed(t, false)
    requires Rep(n, t, prefix, db, root) && n.ShortNode? && !(n.key <= key)
    ensures Inserted(InsertNode(n, prefix, key, v, db), t, prefix, key, v, db, root)
  {
    var m := PrefixLen(key, n.key);
    Diverge(n.key, key);
    SplitRep(n.key, n.val, t.child, key, v, m, prefix, db, root);
    assert InsertNode(n, prefix, key, v, db) == Ok(Change(true, SplitNode(n.key, n.val, key, v, m)));
  }

  lemma {:induction false} InsertRepBelow(n: Node, t: Tree, prefix: Path, key: Path, v: Bytes, db: Db, root: bool)
    requires IsKey(key) && |key| > 0 && WellFormed(t, false)
    requires Rep(n, t, prefix, db, root) && n.ShortNode? && n.key <= key
    ensures Inserted(InsertNode(n, prefix, key, v, db), t, prefix, key, v, db, root)
    decreases |key|, 0
  {
    var m := PrefixLen(key, n.key);
    assert m == |n.key| && key[..m] == n.key;
    SplitKey(n.key, key);
    var r := InsertNode(n.val, prefix + n.key, key[m..], v, db);
    InsertRep(n.val, t.child, prefix + n.key, key[m..], v, db, false);
    assert Insert(t, key, v) == Ext(n.key, Insert(t.child, key[m..], v));
    assert InsertNode(n, prefix, key, v, db) ==
           Ok(if r.value.dirty then Change(true, ShortNode(n.key, r.value.node, NewFlag)) else Change(false, n));
    if r.value.dirty { NewShortRep(n.key, r.value.node, Insert(t.child, key[m..], v), prefix, db, root); }
  }

  lemma {:induction false} NewShortRep(k: Path, n: Node, t: Tree, path: Path, db: Db, root: bool)
    requires Rep(n, t, path + k, db, false)
    ensures Rep(ShortNode(k, n, NewFlag), Ext(k, t), path, db, root)
  {
  }

  lemma {:induction false} InsertRepFull(n: Node, t: Tree, prefix: Path, key: Path, v: Bytes, db: Db, root: bool)
    requires IsKey(key) && |key| > 0 && WellFormed(t, false)
    requires Rep(n, t, prefix, db, root) && n.FullNode?
    ensures Inserted(InsertNode(n, prefix, key, v, db), t, prefix, key, v, db, root)
    decreases |key|, 0
  {
    var i := key[0];
    SplitKey([i], key);
    InsertRep(n.children[i], t.children[i], prefix + [i], key[1..], v, db, false);
    var r := InsertNode(n.children[i], prefix + [i], key[1..], v, db).value;
    UpdateChildRep(n, t, i, r.node, Insert(t.children[i], key[1..], v), prefix, db, root);
    assert t.children[i := t.children[i]] == t.children;
  }

  /** A full node with one child replaced. */
  lemma UpdateChildRep(n: Node, t: Tree, i: Byte, c: Node, tc: Tree, path: Path, db: Db, root: bool)
    requires n.FullNode? && Rep(n, t, path, db, root) && i < 17
    requires Rep(c, tc, path + [i], db, false)
    ensures Rep(FullNode(n.children[i := c], NewFlag), Branch(t.children[i := tc]), path, db, root)
  {
  }

  // ----- deletion -----

  lemma PrependRep(k: Path, n: Node, t: Tree, path: Path, db: Db, root: bool)
    requires Rep(n, t, path + k, db, false) && !n.HashNode?
    ensures Rep(PrependNode(k, n), Prepend(k, t), path, db, root)
  {
    if n.ShortNode? { assert path + k + n.key == path + (k + n.key); }
  }

  ghost predicate ChildrenRep(cs: seq<Node>, ts: seq<Tree>, path: Path, db: Db) {
    && |cs| == |ts| == 17
    && (forall i: Byte :: i < 17 ==> Rep(cs[i], ts[i], path + [i], db, false))
    && (forall i :: 0 <= i < 16 ==> ts[i].Nil? || WellFormed(ts[i], false))
  }

  lemma PresentRep(cs: seq<Node>, ts: seq<Tree>, path: Path, db: Db)
    requires ChildrenRep(cs, ts, path, db)
    ensures PresentNodes(cs) == Present(ts)
  {
    forall i | 0 <= i < 17 ensures cs[i].NilNode? == ts[i].Nil? {
      assert Rep(cs[i as Byte], ts[i as Byte], path + [i as Byte], db, false);
    }
  }

  /** Reducing a full node loads the child that is left, if need be. */
  lemma ShrinkRep(cs: seq<Node>, ts: seq<Tree>, path: Path, db: Db, root: bool)
    requires ChildrenRep(cs, ts, path, db)
    ensures var r := ShrinkNode(cs, path, db);
            r.Ok? && !r.value.HashNode? && Rep(r.value, Shrink(ts), path, db, root)
  {
    PresentRep(cs, ts, path, db);
    var pos := OnlyIndex(PresentNodes(cs));
    if 0 <= pos < 16 {
      ShrinkRepAt(cs[pos], ts[pos], pos as Byte, path, db, root);
    }
  }

  lemma ShrinkRepAt(n: Node, t: Tree, i: Byte, path: Path, db: Db, root: bool)
    requires Rep(n, t, path + [i], db, false) && WellFormed(t, false)
    ensures var c := if n.HashNode? then ResolveHash(n.hash, path + [i], db) else Ok(n);
            && c.Ok?
            && Rep(if c.value.ShortNode? then PrependNode([i], c.value) else ShortNode([i], n, NewFlag),
                   Prepend([i], t), path, db, root)
  {
    if n.HashNode? { ResolveRep(n.hash, t, path + [i], db, false); }
    var c := if n.HashNode? then ResolveHash(n.hash, path + [i], db).value else n;
    PrependRep([i], c, t, path, db, root);
  }

  lemma ShrinkOfFork(ts: seq<Tree>)
    requires |ts| == 17 && Forks(ts)
    ensures Shrink(ts) == Branch(ts)
  {
    var a, b :| 0 <= a < b < 17 && !ts[a].Nil? && !ts[b].Nil?;
    assert Present(ts)[a] && Present(ts)[b];
  }

  /** What deletion from node n has to achieve. */
  ghost predicate Deleted(r: Result<Change>, t: Tree, prefix: Path, key: Path, db: Db, root: bool)
    requires IsKey(key) && (t.Nil? || WellFormed(t, |key| == 0))
  {
    && r.Ok?
    && Rep(r.value.node, Delete(t, key), prefix, db, root)
    && (r.value.dirty ==> !r.value.node.HashNode?)
    && (!r.value.dirty ==> Delete(t, key) == t)
  }

  /** Deletion from a partly loaded trie stands for deletion from the tree; not dirty means no change. */
  lemma {:induction false} DeleteRep(n: Node, t: Tree, prefix: Path, key: Path, db: Db, root: bool)
    requires IsKey(key) && (t.Nil? || WellFormed(t, |key| == 0))
    requires Rep(n, t, prefix, db, root)
    ensures Deleted(DeleteNode(n, prefix, key, db), t, prefix, key, db, root)
    decreases |key|, if n.HashNode? then 2 else 1
  {
    if n.ShortNode? && n.key < key {
      DeleteRepBelow(n, t, prefix, key, db, root);
    } else if n.FullNode? {
      DeleteRepFull(n, t, prefix, key, db, root);
    } else if n.HashNode? {
      ResolveRep(n.hash, t, prefix, db, root);
      var rn := ResolveHash(n.hash, prefix, db).value;
      DeleteRep(rn, t, prefix, key, db, root);
      DeleteLoaded(n, rn, t, prefix, key, db, root);
    } else {
      DeleteRepHere(n, t, prefix, key, db, root);
    }
  }

  /** Where the key ends, or parts from the trie. */
  lemma {:induction false} DeleteRepHere(n: Node, t: Tree, prefix: Path, key: Path, db: Db, root: bool)
    requires IsKey(key) && (t.Nil? || WellFormed(t, |key| == 0)) && Rep(n, t, prefix, db, root)
    requires n.NilNode? || n.ValueNode? || (n.ShortNode? && !(n.key < key))
    ensures Deleted(DeleteNode(n, prefix, key, db), t, prefix, key, db, root)
  {
    if n.ShortNode? {
      var m := PrefixLen(key, n.key);
      if m < |n.key| {
        assert DeleteNode(n, prefix, key, db) == Ok(Change(false, n)) && Delete(t, key) == t;
      } else {
        assert m == |key|;
        assert DeleteNode(n, prefix, key, db) == Ok(Change(true, NilNode)) && Delete(t, key) == Nil;
      }
    }
  }

  lemma {:induction false} DeleteLoaded(n: Node, rn: Node, t: Tree, prefix: Path, key: Path, db: Db, root: bool)
    requires IsKey(key) && (t.Nil? || WellFormed(t, |key| == 0))
    requires n.HashNode? && ResolveHash(n.hash, prefix, db) == Ok(rn) && Rep(rn, t, prefix, db, root)
    requires Deleted(DeleteNode(rn, prefix, key, db), t, prefix, key, db, root)
    ensures Deleted(DeleteNode(n, prefix, key, db), t, prefix, key, db, root)
  {
    var r := DeleteNode(rn, prefix, key, db).value;
    assert DeleteNode(n, prefix, key, db) == Ok(if r.dirty then r else Change(false, rn));
  }

  lemma {:induction false} DeleteRepBelow(n: Node, t: Tree, prefix: Path, key: Path, db: Db, root: bool)
    requires IsKey(key) && |key| > 0 && WellFormed(t, false)
    requires Rep(n, t, prefix, db, root) && n.ShortNode? && n.key < key
    ensures Deleted(DeleteNode(n, prefix, key, db), t, prefix, key, db, root)
    decreases |key|, 0
  {
    var m := PrefixLen(key, n.key);
    assert m == |n.key| && key[..m] == n.key;
    SplitKey(n.key, key);
    DeleteRep(n.val, t.child, prefix + n.key, key[m..], db, false);
    var r := DeleteNode(n.val, prefix + n.key, key[m..], db).value;
    if r.dirty { PrependRep(n.key, r.node, Delete(t.child, key[m..]), prefix, db, root); }
  }

  lemma {:induction false} DeleteRepFull(n: Node, t: Tree, prefix: Path, key: Path, db: Db, root: bool)
    requires IsKey(key) && |key| > 0 && WellFormed(t, false)
    requires Rep(n, t, prefix, db, root) && n.FullNode?
    ensures Deleted(DeleteNode(n, prefix, key, db), t, prefix, key, db, root)
    decreases |key|, 0
  {
    var i := key[0];
    SplitKey([i], key);
    DeleteRep(n.children[i], t.children[i], prefix + [i], key[1..], db, false);
    DeleteWellFormed(t.children[i], key[1..]);
    var r := DeleteNode(n.children[i], prefix + [i], key[1..], db).value;
    assert Delete(t, key) == Shrink(t.children[i := Delete(t.children[i], key[1..])]);
    if r.dirty {
      DeletedChild(n, t, i, r.node, Delete(t.children[i], key[1..]), prefix, db, root);
      var s := ShrinkNode(n.children[i := r.node], prefix, db);
      assert DeleteNode(n, prefix, key, db) == Ok(Change(true, s.value));
    } else {
      assert DeleteNode(n, prefix, key, db) == Ok(Change(false, n));
      assert t.children[i := t.children[i]] == t.children;
      ShrinkOfFork(t.children);
    }
  }

  lemma {:induction false} DeletedChild(n: Node, t: Tree, i: Byte, c: Node, tc: Tree, path: Path, db: Db, root: bool)
    requires n.FullNode? && t.Branch? && WellFormed(t, false) && Rep(n, t, path, db, root) && i < 17
    requires Rep(c, tc, path + [i], db, false) && (tc.Nil? || WellFormed(tc, i == 16))
    ensures var r := ShrinkNode(n.children[i := c], path, db);
            r.Ok? && !r.value.HashNode? && Rep(r.value, Shrink(t.children[i := tc]), path, db, root)
  {
    UpdateChildRep(n, t, i, c, tc, path, db, root);
    ShrinkRep(n.children[i := c], t.children[i := tc], path, db, root);
  }
}
