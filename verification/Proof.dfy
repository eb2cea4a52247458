/**
  Merkle proofs (trie/proof.go): Prove collects the encodings of the nodes on the
  path of a key, VerifyProof follows them from a root hash. Verification is
  complete for generated proofs and sound for any content-addressed proof.
 */
module Proof {
  import opened Hex
  import opened Rlp
  import opened PatriciaTree
  import opened PatriciaTreeProofs
  import opened TrieNode
  import opened TrieOps
  import opened Hasher
  import opened Commit

  // ----- verification -----

  /** Where `get` stops inside one decoded node: at nothing, a value, or a hash with the key left. */
  datatype Stop = Nothing | AtValue(value: Bytes) | AtHash(hash: Hash, rest: Path) | Crash

  /** get, on a node and the key left. */
  function Walk(n: Node, key: Path): Stop
    decreases n
  {
    match n
    case NilNode => Nothing
    case ValueNode(v) => AtValue(v)
    case HashNode(h) => AtHash(h, key)
    case ShortNode(nk, val, _) => if nk <= key then Walk(val, key[|nk|..]) else Nothing
    case FullNode(cs, _) =>
      if |key| == 0 || key[0] as int >= |cs| then Crash else Walk(cs[key[0]], key[1..])
  }

  /** The loop of `get`. */
  method Follow(n: Node, key: Path) returns (r: Stop)
    ensures r == Walk(n, key)
  {
    var tn, k := n, key;
    while true
      invariant Walk(n, key) == Walk(tn, k)
      decreases tn
    {
      match tn
      case NilNode => return Nothing;
      case ValueNode(v) => return AtValue(v);
      case HashNode(h) => return AtHash(h, k);
      case ShortNode(nk, val, _) =>
        if !(nk <= k) { return Nothing; }
        tn, k := val, k[|nk|..];
      case FullNode(cs, _) =>
        if |k| == 0 || k[0] as int >= |cs| { return Crash; }
        tn, k := cs[k[0]], k[1..];
    }
  }

  /** Answer(None) says that the key is absent. Unfinished: the given number of rounds was not enough. */
  datatype Verdict = Answer(value: Option<Bytes>) | MissingProofNode(hash: Hash) | BadProofNode | Broken | Unfinished

  /** VerifyProof from a wanted hash on, within a number of rounds. */
  function Verify(want: Hash, key: Path, proofs: map<Hash, Item>, rounds: nat): Verdict
    decreases rounds
  {
    if rounds == 0 then Unfinished
    else if want !in proofs then MissingProofNode(want)
    else
      var n := Decode(Some(want), proofs[want]);
      if n.None? then BadProofNode
      else
        match Walk(n.value, key)
        case Nothing => Answer(None)
        case AtValue(v) => Answer(Some(v))
        case AtHash(h, rest) => Verify(h, rest, proofs, rounds - 1)
        case Crash => Broken
  }

  /** VerifyProof; `nodes` counts the proof nodes used. */
  /** The hash references followed, and one more for a value: what it takes to come to the verdict, and no less. */
  ghost predicate Counts(nodes: nat, r: Verdict, want: Hash, key: Path, proofs: map<Hash, Item>, rounds: nat) {
    var followed := if r.Answer? && r.value.Some? then nodes - 1 else nodes;
    if r == Unfinished then nodes == rounds
    else 0 <= followed < rounds && forall n: nat :: Verify(want, key, proofs, n) == if n <= followed then Unfinished else r
  }

  /** After i references the verifier wants this hash, and has this much of the key left. */
  ghost predicate Reached(root: Hash, key: Path, proofs: map<Hash, Item>, i: nat, want: Hash, rest: Path) {
    forall n: nat :: Verify(root, key, proofs, n) == if n <= i then Unfinished else Verify(want, rest, proofs, n - i)
  }

  lemma {:induction false} ReachedNext(root: Hash, key: Path, proofs: map<Hash, Item>, i: nat, want: Hash, k: Path, h: Hash, rest: Path)
    requires Reached(root, key, proofs, i, want, k) && want in proofs
    requires Decode(Some(want), proofs[want]).Some? && Walk(Decode(Some(want), proofs[want]).value, k) == AtHash(h, rest)
    ensures Reached(root, key, proofs, i + 1, h, rest)
  {
    forall n: nat ensures Verify(root, key, proofs, n) == if n <= i + 1 then Unfinished else Verify(h, rest, proofs, n - (i + 1)) {
      if n == i + 1 { assert Verify(want, k, proofs, 1) == Unfinished; }
    }
  }

  lemma {:induction false} ReachedEnd(root: Hash, key: Path, proofs: map<Hash, Item>, i: nat, want: Hash, k: Path, r: Verdict)
    requires Reached(root, key, proofs, i, want, k) && r != Unfinished && forall n: nat :: n > 0 ==> Verify(want, k, proofs, n) == r
    ensures forall n: nat :: Verify(root, key, proofs, n) == if n <= i then Unfinished else r
  {
  }

  /** What one round comes to, unless it goes on. */
  function Ends(want: Hash, k: Path, proofs: map<Hash, Item>): Option<Verdict> {
    if want !in proofs then Some(MissingProofNode(want))
    else
      var n := Decode(Some(want), proofs[want]);
      if n.None? then Some(BadProofNode)
      else
        match Walk(n.value, k)
        case Nothing => Some(Answer(None))
        case AtValue(v) => Some(Answer(Some(v)))
        case AtHash(_, _) => None
        case Crash => Some(Broken)
  }

  lemma {:induction false} EndsCounts(root: Hash, key: Path, proofs: map<Hash, Item>, i: nat, want: Hash, k: Path, rounds: nat)
    requires Reached(root, key, proofs, i, want, k) && i < rounds && Ends(want, k, proofs).Some?
    ensures var r := Ends(want, k, proofs).value;
            && r == Verify(root, key, proofs, rounds)
            && Counts(if r.Answer? && r.value.Some? then i + 1 else i, r, root, key, proofs, rounds)
  {
    var r := Ends(want, k, proofs).value;
    forall n: nat | n > 0 ensures Verify(want, k, proofs, n) == r {}
    ReachedEnd(root, key, proofs, i, want, k, r);
  }

  method VerifyProof(rootHash: Hash, key: Bytes, proofs: map<Hash, Item>, rounds: nat)
    returns (r: Verdict, nodes: nat)
    ensures r == Verify(rootHash, HexOf(key), proofs, rounds)
    ensures Counts(nodes, r, rootHash, HexOf(key), proofs, rounds)
  {
    var k := KeybytesToHex(key);
    var want := rootHash;
    var i := 0;
    while i < rounds
      invariant i <= rounds && Reached(rootHash, HexOf(key), proofs, i, want, k)
    {
      if Ends(want, k, proofs).Some? { EndsCounts(rootHash, HexOf(key), proofs, i, want, k, rounds); }
      if want !in proofs { return MissingProofNode(want), i; }
      var n := Decode(Some(want), proofs[want]);
      if n.None? { return BadProofNode, i; }
      var stop := Follow(n.value, k);
      match stop
      case Nothing => return Answer(None), i;
      case AtValue(v) => return Answer(Some(v)), i + 1;
      case Crash => return Broken, i;
      case AtHash(h, rest) =>
        ReachedNext(rootHash, HexOf(key), proofs, i, want, k, h, rest);
        want, k := h, rest;
      i := i + 1;
    }
    return Unfinished, i;
  }

  // ----- the nodes on the path of a key -----

  /** The inner subtrees met on the way to a key. */
  function PathTrees(t: Tree, key: Path): seq<Tree>
    decreases t
  {
    match t
    case Nil => []
    case Leaf(_) => []
    case Ext(k, child) => [t] + if k <= key then PathTrees(child, key[|k|..]) else []
    case Branch(cs) =>
      [t] + if |key| > 0 && key[0] as int < |cs| then PathTrees(cs[key[0]], key[1..]) else []
  }

  // ----- an ideal database of all items that occur -----

  ghost predicate Injective(hash: Item -> Hash, items: iset<Item>) {
    forall x, y :: x in items && y in items && hash(x) == hash(y) ==> x == y
  }

  /** All node encodings of t are among the items. */
  ghost predicate Within(t: Tree, hash: Item -> Hash, items: iset<Item>)
    decreases t
  {
    && (Inner(t) ==> Encode(t, hash) in items)
    && (t.Ext? ==> Within(t.child, hash, items))
    && (t.Branch? ==> forall i: Byte :: i as int < |t.children| ==> Within(t.children[i], hash, items))
  }

  ghost function ItemOf(h: Hash, hash: Item -> Hash, items: iset<Item>): Option<Item> {
    if exists x :: x in items && hash(x) == h then
      var x :| x in items && hash(x) == h; Some(x)
    else None
  }

  ghost function IdealDb(hash: Item -> Hash, items: iset<Item>): Db {
    Db((p, h: Hash) => ItemOf(h, hash, items), hash)
  }

  lemma {:induction false} StoredIdeally(t: Tree, path: Path, hash: Item -> Hash, items: iset<Item>)
    requires Injective(hash, items) && Within(t, hash, items)
    ensures Stored(t, path, IdealDb(hash, items))
    ensures Inner(t) ==> Held(t, path, IdealDb(hash, items))
    decreases t
  {
    if t.Ext? {
      StoredIdeally(t.child, path + t.key, hash, items);
    } else if t.Branch? {
      forall i: Byte | i as int < |t.children| ensures Stored(t.children[i], path + [i], IdealDb(hash, items)) {
        StoredIdeally(t.children[i], path + [i], hash, items);
      }
    }
  }

  /** Walking inside a node of t ends where the lookup in t would go on. */
  lemma {:induction false} WalkRep(n: Node, t: Tree, path: Path, key: Path, db: Db, items: iset<Item>, root: bool)
    returns (t': Tree)
    requires IsKey(key) && (t.Nil? || WellFormed(t, |key| == 0))
    requires Rep(n, t, path, db, root) && Within(t, db.hash, items)
    ensures match Walk(n, key)
            case Nothing => Get(t, key) == None
            case AtValue(v) => Get(t, key) == Some(v)
            case AtHash(h, rest) =>
              && IsKey(rest) && |rest| > 0 && WellFormed(t', false) && Within(t', db.hash, items)
              && h == db.hash(Encode(t', db.hash)) && Get(t, key) == Get(t', rest)
              && (root || Standalone(t', db.hash))
              && (!n.HashNode? ==> |rest| < |key| && Standalone(t', db.hash))
              && (forall s :: s in PathTrees(t', rest) ==> s in PathTrees(t, key))
            case Crash => false
    decreases n
  {
    t' := t;
    match n
    case NilNode =>
    case ValueNode(_) =>
    case HashNode(_) =>
    case ShortNode(nk, val, _) =>
      if nk <= key {
        SplitKey(nk, key);
        t' := WalkRep(val, t.child, path + nk, key[|nk|..], db, items, false);
      }
    case FullNode(cs, _) =>
      SplitKey([key[0]], key);
      t' := WalkRep(cs[key[0]], t.children[key[0]], path + [key[0]], key[1..], db, items, false);
  }

  /** Every entry of the proof store has the hash it is stored under, and is among the items. */
  ghost predicate GoodProofs(proofs: map<Hash, Item>, hash: Item -> Hash, items: iset<Item>) {
    forall h :: h in proofs ==> hash(proofs[h]) == h && proofs[h] in items
  }

  /** The proof store has every node on the path of the key that is looked up by hash. */
  ghost predicate Covers(proofs: map<Hash, Item>, t: Tree, key: Path, hash: Item -> Hash) {
    forall s :: s in PathTrees(t, key) && Standalone(s, hash) ==> hash(Encode(s, hash)) in proofs
  }

  ghost predicate Answered(r: Verdict, t: Tree, key: Path, proofs: map<Hash, Item>, hash: Item -> Hash, rounds: nat)
    requires Inner(t)
  {
    && (r.Answer? || r.MissingProofNode? || r.Unfinished?)
    && (r.Answer? ==> r.value == Get(t, key))
    && (r.Unfinished? ==> rounds <= |key|)
    && (hash(Encode(t, hash)) in proofs && Covers(proofs, t, key, hash) ==> !r.MissingProofNode?)
  }

  /** Where one round of verification at t leads: an end, or a standalone subtree on the path with the key left. */
  ghost predicate StopOk(stop: Stop, t': Tree, t: Tree, key: Path, hash: Item -> Hash, items: iset<Item>) {
    match stop
    case Nothing => Get(t, key) == None
    case AtValue(v) => Get(t, key) == Some(v)
    case AtHash(h, rest) =>
      && IsKey(rest) && 0 < |rest| < |key| && WellFormed(t', false) && Within(t', hash, items)
      && h == hash(Encode(t', hash)) && Get(t, key) == Get(t', rest) && Standalone(t', hash)
      && (forall s :: s in PathTrees(t', rest) ==> s in PathTrees(t, key))
    case Crash => false
  }

  lemma DecodedWalk(t: Tree, key: Path, hash: Item -> Hash, items: iset<Item>) returns (n: Node, t': Tree)
    requires WellFormed(t, false) && IsKey(key) && |key| > 0
    requires Injective(hash, items) && Within(t, hash, items)
    ensures Decode(Some(hash(Encode(t, hash))), Encode(t, hash)) == Some(n)
    ensures StopOk(Walk(n, key), t', t, key, hash, items)
  {
    var db := IdealDb(hash, items);
    StoredIdeally(t, [], hash, items);
    DecodeEncode(Some(hash(Encode(t, hash))), t, [], db, true);
    n := Decode(Some(hash(Encode(t, hash))), Encode(t, hash)).value;
    t' := WalkRep(n, t, [], key, db, items, true);
  }

  lemma VerifyRound(t: Tree, key: Path, proofs: map<Hash, Item>, hash: Item -> Hash, items: iset<Item>, rounds: nat)
    returns (stop: Stop, t': Tree)
    requires WellFormed(t, false) && IsKey(key) && |key| > 0
    requires Injective(hash, items) && Within(t, hash, items) && GoodProofs(proofs, hash, items)
    requires rounds > 0 && hash(Encode(t, hash)) in proofs
    ensures StopOk(stop, t', t, key, hash, items)
    ensures Verify(hash(Encode(t, hash)), key, proofs, rounds) ==
            if stop.Nothing? then Answer(None)
            else if stop.AtValue? then Answer(Some(stop.value))
            else Verify(stop.hash, stop.rest, proofs, rounds - 1)
  {
    var want := hash(Encode(t, hash));
    assert proofs[want] == Encode(t, hash);
    var n;
    n, t' := DecodedWalk(t, key, hash, items);
    stop := Walk(n, key);
  }

  lemma CoversBelow(proofs: map<Hash, Item>, t: Tree, key: Path, t': Tree, rest: Path, hash: Item -> Hash)
    requires Covers(proofs, t, key, hash) && Standalone(t', hash)
    requires forall s :: s in PathTrees(t', rest) ==> s in PathTrees(t, key)
    ensures Covers(proofs, t', rest, hash) && hash(Encode(t', hash)) in proofs
  {
    assert PathTrees(t', rest)[0] == t';
  }

  /**
    Against any content-addressed proof store, verification at the hash of t either
    answers what t holds, or finds a proof node missing, or was not given enough rounds.
   */
  lemma {:induction false} VerifySound(t: Tree, key: Path, proofs: map<Hash, Item>, hash: Item -> Hash,
                                       items: iset<Item>, rounds: nat)
    requires WellFormed(t, false) && IsKey(key) && |key| > 0
    requires Injective(hash, items) && Within(t, hash, items) && GoodProofs(proofs, hash, items)
    ensures Answered(Verify(hash(Encode(t, hash)), key, proofs, rounds), t, key, proofs, hash, rounds)
    decreases rounds
  {
    if rounds > 0 && hash(Encode(t, hash)) in proofs {
      var stop, t' := VerifyRound(t, key, proofs, hash, items, rounds);
      var r' := Unfinished;
      if stop.AtHash? {
        r' := Verify(hash(Encode(t', hash)), stop.rest, proofs, rounds - 1);
        VerifySound(t', stop.rest, proofs, hash, items, rounds - 1);
      }
      AnsweredRound(stop, t', r', t, key, proofs, hash, items, rounds, Verify(hash(Encode(t, hash)), key, proofs, rounds));
    }
  }

  lemma {:induction false} AnsweredRound(stop: Stop, t': Tree, r': Verdict, t: Tree, key: Path, proofs: map<Hash, Item>,
                                         hash: Item -> Hash, items: iset<Item>, rounds: nat, r: Verdict)
    requires Inner(t) && rounds > 0 && StopOk(stop, t', t, key, hash, items)
    requires stop.AtHash? ==> Answered(r', t', stop.rest, proofs, hash, rounds - 1)
    requires r == if stop.Nothing? then Answer(None) else if stop.AtValue? then Answer(Some(stop.value)) else r'
    ensures Answered(r, t, key, proofs, hash, rounds)
  {
    if stop.AtHash? && Covers(proofs, t, key, hash) {
      CoversBelow(proofs, t, key, t', stop.rest, hash);
    }
  }

  // ----- generation -----

  datatype ProofEntry = ProofEntry(hash: Hash, item: Item)

  /** What Prove puts for the i-th and following trees on the path: the root and the standalone ones, after skipping. */
  function Emission(ts: seq<Tree>, first: bool, skip: nat, hash: Item -> Hash): (r: seq<ProofEntry>)
    requires forall i :: 0 <= i < |ts| ==> Inner(ts[i])
    decreases |ts|
  {
    if ts == [] then []
    else
      assert Inner(ts[0]);
      if !first && !Standalone(ts[0], hash) then Emission(ts[1..], false, skip, hash)
    else if skip > 0 then Emission(ts[1..], false, skip - 1, hash)
    else [ProofEntry(hash(Encode(ts[0], hash)), Encode(ts[0], hash))] + Emission(ts[1..], false, 0, hash)
  }

  lemma PathStep(done: seq<Tree>, t: Tree, key: Path)
    requires t.Ext? || (t.Branch? && |t.children| == 17 && |key| > 0 && key[0] < 17)
    ensures t.Ext? && t.key <= key ==>
              done + PathTrees(t, key) == done + [t] + PathTrees(t.child, key[|t.key|..])
    ensures t.Ext? && !(t.key <= key) ==> done + PathTrees(t, key) == done + [t] + PathTrees(Nil, key)
    ensures t.Branch? ==> done + PathTrees(t, key) == done + [t] + PathTrees(t.children[key[0]], key[1..])
  {
    var rest := PathTrees(t, key)[1..];
    assert PathTrees(t, key) == [t] + rest;
    Regrouped(done, t, rest);
    if t.Branch? {
      assert rest == PathTrees(t.children[key[0]], key[1..]);
    } else if t.key <= key {
      assert rest == PathTrees(t.child, key[|t.key|..]);
    } else {
      assert rest == PathTrees(Nil, key);
    }
  }

  lemma Regrouped(done: seq<Tree>, t: Tree, rest: seq<Tree>)
    ensures done + ([t] + rest) == done + [t] + rest
  {
  }

  /** State of the first loop of Prove: the nodes so far stand for the first trees on the path. */
  ghost predicate Collecting(t: Tree, key: Path, db: Db, nodes: seq<Node>, paths: seq<Path>, trees: seq<Tree>,
                             tn: Node, cur: Tree, path: Path, k: Path)
  {
    && |trees| == |nodes| == |paths| && PathTrees(t, key) == trees + PathTrees(cur, k)
    && Rep(tn, cur, path, db, |nodes| == 0) && (cur.Nil? || WellFormed(cur, |k| == 0))
    && IsKey(k) && Collected(nodes, trees, paths, db)
  }

  ghost predicate Collected(nodes: seq<Node>, trees: seq<Tree>, paths: seq<Path>, db: Db)
    requires |trees| == |nodes| == |paths|
  {
    forall i :: 0 <= i < |nodes| ==>
      (nodes[i].ShortNode? || nodes[i].FullNode?) && Rep(nodes[i], trees[i], paths[i], db, i == 0)
  }

  lemma CollectedSnoc(nodes: seq<Node>, trees: seq<Tree>, paths: seq<Path>, db: Db, n: Node, t: Tree, path: Path)
    requires |trees| == |nodes| == |paths| && Collected(nodes, trees, paths, db)
    requires (n.ShortNode? || n.FullNode?) && Rep(n, t, path, db, |nodes| == 0)
    ensures Collected(nodes + [n], trees + [t], paths + [path], db)
  {
  }

  /** The next node and tree after a short or full node. */
  lemma CollectStep(t: Tree, key: Path, db: Db, nodes: seq<Node>, paths: seq<Path>, trees: seq<Tree>,
                    tn: Node, cur: Tree, path: Path, k: Path)
    requires Collecting(t, key, db, nodes, paths, trees, tn, cur, path, k) && |k| > 0
    ensures tn.ShortNode? && tn.key <= k ==>
              cur.Ext? && Collecting(t, key, db, nodes + [tn], paths + [path], trees + [cur],
                                     tn.val, cur.child, path + tn.key, k[|tn.key|..])
    ensures tn.ShortNode? && !(tn.key <= k) ==>
              Collecting(t, key, db, nodes + [tn], paths + [path], trees + [cur], NilNode, Nil, path, k)
    ensures tn.FullNode? ==>
              k[0] as int < |tn.children| && cur.Branch? && |cur.children| == 17 &&
              Collecting(t, key, db, nodes + [tn], paths + [path], trees + [cur],
                         tn.children[k[0]], cur.children[k[0]], path + [k[0]], k[1..])
    ensures !tn.ValueNode?
  {
    if tn.ShortNode? || tn.FullNode? {
      CollectedSnoc(nodes, trees, paths, db, tn, cur, path);
      PathStep(trees, cur, k);
    }
    if tn.ShortNode? && tn.key <= k {
      SplitKey(tn.key, k);
    } else if tn.FullNode? {
      SplitKey([k[0]], k);
    }
  }

  /** Where the first loop of Prove stands: the nodes so far, the next one, and the key left. */
  datatype Spot = Spot(nodes: seq<Node>, tn: Node, k: Path)

  /** The same in the expanded tree. */
  datatype Ground = Ground(trees: seq<Tree>, paths: seq<Path>, cur: Tree, path: Path)

  ghost predicate OnPath(t: Tree, key: Path, db: Db, s: Spot, g: Ground) {
    Collecting(t, key, db, s.nodes, g.paths, g.trees, s.tn, g.cur, g.path, s.k)
  }

  /** One round of the loop. */
  method CollectOne(t: Spot, db: Db, ghost tree: Tree, ghost key: Path, ghost g: Ground, ghost valid: bool)
    returns (r: Result<Spot>, ghost g': Ground)
    requires |t.k| > 0 && !t.tn.NilNode? && (valid ==> OnPath(tree, key, db, t, g)) && forall p, h :: db.get(p, h) == db.get([], h)
    ensures valid ==> r.Ok? && OnPath(tree, key, db, r.value, g')
    ensures r.Ok? ==>
              && (t.tn.HashNode? ==> r.value.nodes == t.nodes && r.value.k == t.k && !r.value.tn.HashNode?)
              && (!t.tn.HashNode? ==> (t.tn.ShortNode? || t.tn.FullNode?) && r.value.nodes == t.nodes + [t.tn])
              && (!t.tn.HashNode? ==> |r.value.k| < |t.k| || (r.value.k == t.k && r.value.tn.NilNode?))
  {
    var tn, k := t.tn, t.k;
    g' := g;
    if valid { CollectStep(tree, key, db, t.nodes, g.paths, g.trees, tn, g.cur, g.path, k); }
    match tn
    case ShortNode(nk, val, _) =>
      if nk == [] { return Err(Panic), g; }
      if nk <= k {
        g' := Ground(g.trees + [g.cur], g.paths + [g.path], if valid then g.cur.child else Nil, g.path + nk);
        return Ok(Spot(t.nodes + [tn], val, k[|nk|..])), g';
      }
      g' := Ground(g.trees + [g.cur], g.paths + [g.path], Nil, g.path);
      return Ok(Spot(t.nodes + [tn], NilNode, k)), g';
    case FullNode(cs, _) =>
      if k[0] as int >= |cs| { return Err(Panic), g; }
      g' := Ground(g.trees + [g.cur], g.paths + [g.path], if valid then g.cur.children[k[0]] else Nil, g.path + [k[0]]);
      return Ok(Spot(t.nodes + [tn], cs[k[0]], k[1..])), g';
    case HashNode(h) =>
      if valid { ResolveRep(h, g.cur, g.path, db, |t.nodes| == 0); }
      assert db.get([], h) == db.get(g.path, h);
      var rn := ResolveHash(h, [], db);
      if rn.Err? { return Err(rn.error), g; }
      return Ok(Spot(t.nodes, rn.value, k)), g;
    case ValueNode(_) => return Err(Panic), g;
  }

  /** The first loop of Prove: the loaded nodes on the path of the key. */
  method CollectNodes(root: Node, key: Path, store: map<Hash, Item>, hash: Item -> Hash, ghost t: Tree)
    returns (r: Result<seq<Node>>, ghost paths: seq<Path>)
    requires IsKey(key) && |key| > 0
    ensures r.Ok? ==> forall i :: 0 <= i < |r.value| ==> r.value[i].ShortNode? || r.value[i].FullNode?
    ensures Rep(root, t, [], PlainDb(store, hash), true) && Canonical(t) ==>
              && r.Ok? && |r.value| == |paths| == |PathTrees(t, key)|
              && Collected(r.value, PathTrees(t, key), paths, PlainDb(store, hash))
  {
    var db := PlainDb(store, hash);
    ghost var valid := Rep(root, t, [], db, true) && Canonical(t);
    var s := Spot([], root, key);
    ghost var g := Ground([], [], t, []);
    while |s.k| > 0 && !s.tn.NilNode?
      invariant forall i :: 0 <= i < |s.nodes| ==> s.nodes[i].ShortNode? || s.nodes[i].FullNode?
      invariant valid ==> OnPath(t, key, db, s, g)
      decreases |s.k|, if s.tn.HashNode? then 2 else if s.tn.NilNode? then 0 else 1
    {
      var next;
      next, g := CollectOne(s, db, t, key, g, valid);
      if next.Err? { return Err(next.error), g.paths; }
      s := next.value;
    }
    if valid { CollectedPath(t, key, db, s, g); }
    return Ok(s.nodes), g.paths;
  }

  lemma CollectedPath(t: Tree, key: Path, db: Db, s: Spot, g: Ground)
    requires OnPath(t, key, db, s, g) && (s.k == [] || s.tn.NilNode?)
    ensures |s.nodes| == |g.paths| == |PathTrees(t, key)| && Collected(s.nodes, PathTrees(t, key), g.paths, db)
  {
    assert PathTrees(g.cur, s.k) == [];
    assert g.trees + [] == g.trees;
  }

  lemma {:induction false} RefIgnoresPath(n: Node, p: Path, q: Path, force: bool, hash: Item -> Hash)
    ensures HashNodes(n, p, force, false, hash).ref == HashNodes(n, q, force, false, hash).ref
    ensures n.ShortNode? || n.FullNode? ==>
              HashChildren(n, p, false, hash).ref == HashChildren(n, q, false, hash).ref
    decreases n, 1
  {
    if n.ShortNode? {
      RefIgnoresPath(n.val, p + n.key, q + n.key, false, hash);
    } else if n.FullNode? {
      RefsIgnorePath(n.children, p, q, 0, hash);
    }
  }

  lemma {:induction false} RefsIgnorePath(cs: seq<Node>, p: Path, q: Path, i: nat, hash: Item -> Hash)
    ensures HashAll(cs, p, i, false, hash).refs == HashAll(cs, q, i, false, hash).refs
    decreases cs, 0
  {
    if cs != [] {
      RefIgnoresPath(cs[0], p + [ChildIndex(i)], q + [ChildIndex(i)], false, hash);
      RefsIgnorePath(cs[1..], p, q, i + 1, hash);
    }
  }

  lemma {:induction false} PathTreesInner(t: Tree, key: Path)
    ensures forall i :: 0 <= i < |PathTrees(t, key)| ==> Inner(PathTrees(t, key)[i])
    decreases t
  {
    match t
    case Ext(k, child) => if k <= key { PathTreesInner(child, key[|k|..]); }
    case Branch(cs) => if |key| > 0 && key[0] as int < |cs| { PathTreesInner(cs[key[0]], key[1..]); }
    case _ =>
  }

  /** What is put for collapsed encodings: the first and the long ones, after skipping. */
  function Emit(encs: seq<Item>, first: bool, skip: nat, hash: Item -> Hash): seq<ProofEntry>
    decreases |encs|
  {
    if encs == [] then []
    else if !first && Size(encs[0]) < 32 then Emit(encs[1..], false, skip, hash)
    else if skip > 0 then Emit(encs[1..], false, skip - 1, hash)
    else [ProofEntry(hash(encs[0]), encs[0])] + Emit(encs[1..], false, 0, hash)
  }

  /** Before encoding i, what was put and what is still to be put make up the whole. */
  ghost predicate Emitting(encs: seq<Item>, fromLevel: nat, hash: Item -> Hash, i: nat, entries: seq<ProofEntry>, skip: nat)
    requires i <= |encs|
  {
    Emit(encs, true, fromLevel, hash) == entries + Emit(encs[i..], i == 0, skip, hash)
  }

  lemma EmitNext(encs: seq<Item>, fromLevel: nat, hash: Item -> Hash, i: nat, entries: seq<ProofEntry>, skip: nat)
    requires i < |encs| && Emitting(encs, fromLevel, hash, i, entries, skip)
    ensures Size(encs[i]) < 32 && i > 0 ==> Emitting(encs, fromLevel, hash, i + 1, entries, skip)
    ensures (Size(encs[i]) >= 32 || i == 0) && skip > 0 ==> Emitting(encs, fromLevel, hash, i + 1, entries, skip - 1)
    ensures (Size(encs[i]) >= 32 || i == 0) && skip == 0 ==>
              Emitting(encs, fromLevel, hash, i + 1, entries + [ProofEntry(hash(encs[i]), encs[i])], 0)
  {
    var rest := encs[i..];
    assert rest[0] == encs[i] && rest[1..] == encs[i + 1..];
    var e, more := ProofEntry(hash(encs[i]), encs[i]), Emit(encs[i + 1..], false, 0, hash);
    assert entries + ([e] + more) == entries + [e] + more;
  }

  lemma {:induction false} EmissionIs(ts: seq<Tree>, encs: seq<Item>, first: bool, skip: nat, hash: Item -> Hash)
    requires |encs| == |ts| && forall i :: 0 <= i < |ts| ==> Inner(ts[i]) && encs[i] == Encode(ts[i], hash)
    ensures Emission(ts, first, skip, hash) == Emit(encs, first, skip, hash)
    decreases |ts|
  {
    if ts != [] {
      assert Inner(ts[0]) && encs[0] == Encode(ts[0], hash);
      EmissionIs(ts[1..], encs[1..], false, skip, hash);
      if skip > 0 { EmissionIs(ts[1..], encs[1..], false, skip - 1, hash); }
    }
  }

  lemma CollapsedNode(n: Node, t: Tree, path: Path, db: Db, root: bool)
    requires Rep(n, t, path, db, root) && (n.ShortNode? || n.FullNode?)
    ensures HashChildren(n, [], false, db.hash).ref == Encode(t, db.hash)
  {
    HashChildrenRef(n, t, path, root, false, db);
    RefIgnoresPath(n, [], path, false, db.hash);
  }

  /** The second loop of Prove. */
  function Collapsed(nodes: seq<Node>, hash: Item -> Hash): (encs: seq<Item>)
    requires forall i :: 0 <= i < |nodes| ==> nodes[i].ShortNode? || nodes[i].FullNode?
    ensures |encs| == |nodes| && forall i :: 0 <= i < |nodes| ==> encs[i] == HashChildren(nodes[i], [], false, hash).ref
  {
    seq(|nodes|, i requires 0 <= i < |nodes| => HashChildren(nodes[i], [], false, hash).ref)
  }

  method CollapseAt(nodes: seq<Node>, i: nat, hash: Item -> Hash) returns (enc: Item)
    requires i < |nodes| && forall j :: 0 <= j < |nodes| ==> nodes[j].ShortNode? || nodes[j].FullNode?
    ensures enc == Collapsed(nodes, hash)[i]
  {
    enc := HashChildren(nodes[i], [], false, hash).ref;
  }

  method EmitEntries(nodes: seq<Node>, fromLevel: nat, hash: Item -> Hash) returns (entries: seq<ProofEntry>)
    requires forall i :: 0 <= i < |nodes| ==> nodes[i].ShortNode? || nodes[i].FullNode?
    ensures entries == Emit(Collapsed(nodes, hash), true, fromLevel, hash)
  {
    ghost var encs := Collapsed(nodes, hash);
    assert encs[0..] == encs;
    entries := [];
    var skip := fromLevel;
    var i := 0;
    while i < |nodes|
      invariant 0 <= i <= |nodes| && Emitting(encs, fromLevel, hash, i, entries, skip)
    {
      var enc := CollapseAt(nodes, i, hash);
      EmitNext(encs, fromLevel, hash, i, entries, skip);
      if Size(enc) >= 32 || i == 0 {
        if skip > 0 {
          skip := skip - 1;
        } else {
          entries := entries + [ProofEntry(hash(enc), enc)];
        }
      }
      i := i + 1;
    }
  }

  /** Nodes collected along a path emit what their trees do. */
  lemma CollectedEmission(nodes: seq<Node>, ts: seq<Tree>, paths: seq<Path>, db: Db, fromLevel: nat)
    requires |ts| == |nodes| == |paths| && Collected(nodes, ts, paths, db)
    requires forall i :: 0 <= i < |nodes| ==> nodes[i].ShortNode? || nodes[i].FullNode?
    requires forall i :: 0 <= i < |ts| ==> Inner(ts[i])
    ensures Emit(Collapsed(nodes, db.hash), true, fromLevel, db.hash) == Emission(ts, true, fromLevel, db.hash)
  {
    var encs := Collapsed(nodes, db.hash);
    forall i | 0 <= i < |ts| ensures encs[i] == Encode(ts[i], db.hash) {
      CollapsedNode(nodes[i], ts[i], paths[i], db, i == 0);
    }
    EmissionIs(ts, encs, true, fromLevel, db.hash);
  }

  /** Prove: the encodings of the nodes on the path of the key that stand on their own, root first. */
  method Prove(root: Node, key: Bytes, fromLevel: nat, store: map<Hash, Item>, hash: Item -> Hash, ghost t: Tree)
    returns (r: Result<seq<ProofEntry>>)
    ensures forall i :: 0 <= i < |PathTrees(t, HexOf(key))| ==> Inner(PathTrees(t, HexOf(key))[i])
    ensures Rep(root, t, [], PlainDb(store, hash), true) && Canonical(t) ==>
              r == Ok(Emission(PathTrees(t, HexOf(key)), true, fromLevel, hash))
  {
    var k := KeybytesToHex(key);
    ghost var ts := PathTrees(t, k);
    PathTreesInner(t, k);
    ghost var db := PlainDb(store, hash);
    ghost var valid := Rep(root, t, [], db, true) && Canonical(t);
    var collected, paths := CollectNodes(root, k, store, hash, t);
    if collected.Err? { return Err(collected.error); }
    var nodes := collected.value;
    var entries := EmitEntries(nodes, fromLevel, hash);
    if valid { CollectedEmission(nodes, ts, paths, db, fromLevel); }
    return Ok(entries);
  }

  // ----- completeness -----

  function ProofStore(es: seq<ProofEntry>): map<Hash, Item>
    decreases |es|
  {
    if es == [] then map[] else ProofStore(es[1..])[es[0].hash := es[0].item]
  }

  lemma {:induction false} PathTreesWithin(t: Tree, key: Path, hash: Item -> Hash, items: iset<Item>)
    requires Within(t, hash, items)
    ensures forall s :: s in PathTrees(t, key) ==> Inner(s) && Encode(s, hash) in items
    decreases t
  {
    match t
    case Ext(k, child) => if k <= key { PathTreesWithin(child, key[|k|..], hash, items); }
    case Branch(cs) => if |key| > 0 && key[0] as int < |cs| { PathTreesWithin(cs[key[0]], key[1..], hash, items); }
    case _ =>
  }

  lemma {:induction false} EmissionStore(ts: seq<Tree>, first: bool, hash: Item -> Hash, items: iset<Item>)
    requires forall i :: 0 <= i < |ts| ==> Inner(ts[i])
    requires forall s :: s in ts ==> Inner(s) && Encode(s, hash) in items
    ensures GoodProofs(ProofStore(Emission(ts, first, 0, hash)), hash, items)
    ensures forall s :: s in ts && Standalone(s, hash) ==>
              hash(Encode(s, hash)) in ProofStore(Emission(ts, first, 0, hash))
    ensures first && ts != [] ==> hash(Encode(ts[0], hash)) in ProofStore(Emission(ts, first, 0, hash))
    decreases |ts|
  {
    if ts != [] {
      assert Inner(ts[0]);
      assert forall s :: s in ts <==> s == ts[0] || s in ts[1..];
      EmissionStore(ts[1..], false, hash, items);
      var rest := Emission(ts[1..], false, 0, hash);
      if first || Standalone(ts[0], hash) {
        var e := ProofEntry(hash(Encode(ts[0], hash)), Encode(ts[0], hash));
        assert Emission(ts, first, 0, hash) == [e] + rest;
        assert ([e] + rest)[1..] == rest;
      }
    }
  }

  /** Proofs made by Prove verify, for present and for absent keys. */
  lemma ProofComplete(t: Tree, key: Bytes, hash: Item -> Hash, items: iset<Item>, rounds: nat)
    requires WellFormed(t, false) && Injective(hash, items) && Within(t, hash, items)
    requires rounds > 2 * |key| + 1
    ensures forall i :: 0 <= i < |PathTrees(t, HexOf(key))| ==> Inner(PathTrees(t, HexOf(key))[i])
    ensures var proofs := ProofStore(Emission(PathTrees(t, HexOf(key)), true, 0, hash));
            Verify(RootHash(t, hash), HexOf(key), proofs, rounds) == Answer(Get(t, HexOf(key)))
  {
    var k := HexOf(key);
    var ts := PathTrees(t, k);
    PathTreesInner(t, k);
    PathTreesWithin(t, k, hash, items);
    EmissionStore(ts, true, hash, items);
    var proofs := ProofStore(Emission(ts, true, 0, hash));
    assert ts[0] == t;
    VerifySound(t, k, proofs, hash, items, rounds);
  }
}
