/**
  The trie synchroniser (trie/sync.go): requests for missing nodes, each waiting
  for the nodes it depends on, and a memory batch that is flushed in the order in
  which nodes were completed.
 */
module Sync {
  import opened Hex
  import opened Rlp
  import opened TrieNode

  /** What a leaf callback asks for: a storage trie, say, or contract code. */
  datatype Dep = SubTrie(hash: Hash, depth: nat, callback: Option<nat>) | RawEntry(hash: Hash, depth: nat)

  /** What a leaf callback registers, and whether it then succeeds. */
  datatype Answer = Answer(deps: seq<Dep>, ok: bool)

  /** How a blob was requested: as is, or as a trie node with a leaf callback. */
  datatype Kind = Raw | AsNode(callback: Option<nat>)

  /** A downloaded blob; its kind is remembered for the specification only. */
  datatype Blob = Blob(data: Item, kind: Kind)

  /** A pending download; parents are named by the hashes of their requests. */
  datatype Request = Request(kind: Kind, data: Option<Item>, parents: seq<Hash>, depth: nat, deps: int)

  type Blobs = map<Hash, Blob>
  type Requests = map<Hash, Request>

  /** Leaf callbacks by number, and the two hashes that stand for nothing. */
  datatype Env = Env(onLeaf: (nat, Bytes) -> Answer, emptyRoot: Hash, emptyState: Hash)

  datatype State = State(db: Blobs, batch: Blobs, order: seq<Hash>, requests: Requests)

  predicate Known(s: State, h: Hash) {
    h in s.batch || h in s.db
  }

  function KindOf(d: Dep): Kind {
    if d.SubTrie? then AsNode(d.callback) else Raw
  }

  function EmptyHash(d: Dep, env: Env): Hash {
    if d.SubTrie? then env.emptyRoot else env.emptyState
  }

  /** A subtrie counts as present only when its root decodes. */
  predicate Skips(s: State, d: Dep, env: Env) {
    || d.hash == EmptyHash(d, env)
    || d.hash in s.batch
    || (d.hash in s.db && (d.RawEntry? || Decode(Some(d.hash), s.db[d.hash].data).Some?))
  }

  function Schedule(s: State, h: Hash, r: Request): State {
    var r' := if h in s.requests then s.requests[h].(parents := s.requests[h].parents + r.parents) else r;
    s.(requests := s.requests[h := r'])
  }

  function AddToDeps(s: State, p: Hash, n: int): State
    requires p in s.requests
  {
    s.(requests := s.requests[p := s.requests[p].(deps := s.requests[p].deps + n)])
  }

  /** AddSubTrie and AddRawEntry without a parent. */
  function AddRoot(s: State, d: Dep, env: Env): State {
    if Skips(s, d, env) then s else Schedule(s, d.hash, Request(KindOf(d), None, [], d.depth, 0))
  }

  /** AddSubTrie and AddRawEntry on behalf of a pending parent. */
  function AddDep(s: State, d: Dep, p: Hash, env: Env): State
    requires p in s.requests
  {
    if Skips(s, d, env) then s
    else Schedule(AddToDeps(s, p, 1), d.hash, Request(KindOf(d), None, [p], d.depth, 0))
  }

  function AddDeps(s: State, ds: seq<Dep>, p: Hash, env: Env): (r: State)
    requires p in s.requests
    ensures p in r.requests
    decreases |ds|
  {
    if ds == [] then s else AddDeps(AddDep(s, ds[0], p, env), ds[1..], p, env)
  }

  /** The children that a node is scanned for. */
  function Kids(n: Node): seq<Node> {
    match n
    case ShortNode(_, val, _) => [val]
    case FullNode(cs, _) => NonNil(cs)
    case _ => []
  }

  function NonNil(cs: seq<Node>): seq<Node> {
    if cs == [] then [] else (if cs[0].NilNode? then [] else [cs[0]]) + NonNil(cs[1..])
  }

  function KidDepth(n: Node, depth: nat): nat {
    if n.ShortNode? then depth + |n.key| else depth + 1
  }

  /** Outcome of scanning children: the state, the hashes to request, and whether all callbacks succeeded. */
  datatype Scan = Scan(state: State, missing: seq<Hash>, ok: bool)

  function VisitKid(s: State, kid: Node, p: Hash, callback: Option<nat>, env: Env): (r: Scan)
    requires p in s.requests
    ensures p in r.state.requests
  {
    match kid
    case ValueNode(v) =>
      if callback.None? then Scan(s, [], true)
      else
        var answer := env.onLeaf(callback.value, v);
        Scan(AddDeps(s, answer.deps, p, env), [], answer.ok)
    case HashNode(h) => Scan(s, if Known(s, h) then [] else [h], true)
    case _ => Scan(s, [], true)
  }

  function ScanKids(s: State, kids: seq<Node>, p: Hash, callback: Option<nat>, env: Env): (r: Scan)
    requires p in s.requests
    ensures p in r.state.requests
    decreases |kids|
  {
    if kids == [] then Scan(s, [], true)
    else
      var first := VisitKid(s, kids[0], p, callback, env);
      if !first.ok then first
      else
        var rest := ScanKids(first.state, kids[1..], p, callback, env);
        rest.(missing := first.missing + rest.missing)
  }

  function ScheduleAll(s: State, hs: seq<Hash>, p: Hash, depth: nat, callback: Option<nat>): State
    decreases |hs|
  {
    if hs == [] then s
    else ScheduleAll(Schedule(s, hs[0], Request(AsNode(callback), None, [p], depth, 0)), hs[1..], p, depth, callback)
  }

  /** Put a finished request in the batch. */
  function Finish(s: State, h: Hash): (r: State)
    requires h in s.requests
    ensures |r.requests| < |s.requests|
  {
    var req := s.requests[h];
    var data := if req.data.Some? then req.data.value else Str([]);
    Smaller(s.requests, h);
    State(s.db, s.batch[h := Blob(data, req.kind)], s.order + [h], s.requests - {h})
  }

  /** Finish a request, and then every parent that was waiting for it alone. */
  function CommitRequest(s: State, h: Hash): (r: State)
    requires h in s.requests
    ensures |r.requests| < |s.requests|
    decreases |s.requests|, 0
  {
    Notify(Finish(s, h), s.requests[h].parents)
  }

  function Notify(s: State, parents: seq<Hash>): (r: State)
    ensures |r.requests| <= |s.requests|
    decreases |s.requests|, 1, |parents|
  {
    if parents == [] then s
    else if parents[0] !in s.requests then Notify(s, parents[1..])
    else
      var s1 := AddToDeps(s, parents[0], -1);
      SameSize(s.requests, parents[0], s1.requests[parents[0]]);
      var s2 := if s1.requests[parents[0]].deps == 0 then CommitRequest(s1, parents[0]) else s1;
      Notify(s2, parents[1..])
  }

  lemma Smaller(m: Requests, h: Hash)
    requires h in m
    ensures |m - {h}| < |m|
  {
    assert (m - {h}).Keys == m.Keys - {h};
    assert |m.Keys - {h}| == |m.Keys| - 1;
  }

  lemma SameSize(m: Requests, h: Hash, r: Request)
    requires h in m
    ensures |m[h := r]| == |m|
  {
    assert m[h := r].Keys == m.Keys;
    assert |m[h := r]| == |m[h := r].Keys|;
  }

  datatype Outcome = Delivered(committed: bool) | NotRequested | AlreadyProcessed | BadNode | LeafError

  function WithData(s: State, h: Hash, data: Item): State
    requires h in s.requests
  {
    s.(requests := s.requests[h := s.requests[h].(data := Some(data))])
  }

  /** Process, for one result. */
  function Deliver(s: State, h: Hash, data: Item, env: Env): (State, Outcome) {
    if h !in s.requests then (s, NotRequested)
    else if s.requests[h].data.Some? then (s, AlreadyProcessed)
    else
      var req := s.requests[h];
      var s1 := WithData(s, h, data);
      if req.kind.Raw? then (CommitRequest(s1, h), Delivered(true))
      else
        var n := Decode(Some(h), data);
        if n.None? then (s, BadNode) else Expand(s1, h, n.value, env)
  }

  /** Process after decoding: scan the children, then commit or wait for them. */
  function Expand(s: State, h: Hash, n: Node, env: Env): (State, Outcome)
    requires h in s.requests && s.requests[h].kind.AsNode?
  {
    var callback := s.requests[h].kind.callback;
    var scan := ScanKids(s, Kids(n), h, callback, env);
    if !scan.ok then (scan.state, LeafError)
    else if scan.missing == [] && scan.state.requests[h].deps == 0 then (CommitRequest(scan.state, h), Delivered(true))
    else
      var s2 := AddToDeps(scan.state, h, |scan.missing|);
      (ScheduleAll(s2, scan.missing, h, KidDepth(n, s.requests[h].depth), callback), Delivered(false))
  }

  /** The database after the batch entries named by order are written. */
  function Written(db: Blobs, batch: Blobs, order: seq<Hash>): Blobs
    decreases |order|
  {
    if order == [] then db
    else Written(if order[0] in batch then db[order[0] := batch[order[0]]] else db, batch, order[1..])
  }

  /** Commit, stopped by a write error after n entries, or complete. */
  function Flush(s: State, n: nat): State
    requires n <= |s.order|
  {
    var db := Written(s.db, s.batch, s.order[..n]);
    if n == |s.order| then State(db, map[], [], s.requests) else s.(db := db)
  }
}
