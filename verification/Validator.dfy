/**
  Verifying a block (consensus/consensus.go, consensus/validator.go): header and
  body checks, then a replay of the transactions against the claims of the header.
 */
module Validator {
  import opened Hex
  import opened Rlp
  import opened Blocks

  /** One write to the state. */
  datatype StateWrite = StateWrite(key: Bytes, value: Bytes)

  /** The writes made to the parent state so far, oldest first. */
  type Journal = seq<StateWrite>

  datatype Context = Context(beneficiary: Address, signer: Address, number: nat, time: Uint64, gasLimit: Uint64, totalScore: Uint64)

  /** An execution: the writes it leaves behind, and its receipt unless it failed. */
  datatype Execution = Execution(writes: Journal, receipt: Option<Receipt>)

  /** Activations to record and the score of a scheduled block. */
  datatype Slot = Slot(updates: Journal, score: Uint64)

  /** What both sides share on top of one parent block. */
  datatype Env = Env(
    chainTag: nat, vip191: nat, blocklist: nat, blocked: Address -> bool,
    onChain: Id -> Option<bool>,
    execute: (Context, Journal, Tx) -> Execution,
    slot: (Address, Uint64) -> Option<Slot>,
    forkCode: Journal,
    txsRoot: seq<Tx> -> Hash, receiptsRoot: seq<Receipt> -> Hash, stateRoot: Journal -> Hash)

  const DelegationFeature: nat := 0

  function ForkNumber(env: Env): nat {
    if env.vip191 == 0 then 1 else env.vip191
  }

  function Features(env: Env, number: nat): set<nat> {
    if number >= ForkNumber(env) then {DelegationFeature} else {}
  }

  /** The hook that runs before a block is processed. */
  function Preamble(env: Env, number: nat): Journal {
    if number == ForkNumber(env) then env.forkCode else []
  }

  predicate Blocked(env: Env, number: nat, origin: Address) {
    number >= env.blocklist && env.blocked(origin)
  }

  /** The body checks on one transaction. */
  predicate Admissible(env: Env, tx: Tx, number: nat, features: set<nat>) {
    && tx.origin.Some? && !Blocked(env, number, tx.origin.value)
    && tx.chainTag == env.chainTag && number >= tx.refNumber && !IsExpired(tx, number)
    && Compatible(tx, features)
  }

  // ----- the replay -----

  type Seen = map<Id, bool>

  /** findTx: whether a transaction reverted, in this block or on the chain. */
  function Find(env: Env, seen: Seen, id: Id): Option<bool> {
    if id in seen then Some(seen[id]) else env.onChain(id)
  }

  datatype Replayed = Replayed(journal: Journal, seen: Seen, receipts: seq<Receipt>, gasUsed: Uint64)

  predicate MayRun(env: Env, seen: Seen, tx: Tx) {
    Find(env, seen, tx.id).None? && (tx.dependsOn.None? || Find(env, seen, tx.dependsOn.value) == Some(false))
  }

  /** One more transaction. */
  function ReplayOne(env: Env, ctx: Context, r: Replayed, tx: Tx): Option<Replayed> {
    if !MayRun(env, r.seen, tx) then None
    else
      var e := env.execute(ctx, r.journal, tx);
      match e.receipt
      case None => None
      case Some(receipt) =>
        Some(Replayed(r.journal + e.writes, r.seen[tx.id := receipt.reverted], r.receipts + [receipt], Add64(r.gasUsed, receipt.gasUsed)))
  }

  function Replay(env: Env, ctx: Context, base: Journal, txs: seq<Tx>): Option<Replayed>
    decreases |txs|
  {
    if txs == [] then Some(Replayed(base, map[], [], 0))
    else
      match Replay(env, ctx, base, txs[..|txs| - 1])
      case None => None
      case Some(r) => ReplayOne(env, ctx, r, txs[|txs| - 1])
  }

  /** If a prefix cannot be replayed, nor can the whole. */
  lemma {:induction false} ReplayPrefix(env: Env, ctx: Context, base: Journal, txs: seq<Tx>, n: nat)
    requires n <= |txs| && Replay(env, ctx, base, txs).Some?
    ensures Replay(env, ctx, base, txs[..n]).Some?
    decreases |txs|
  {
    if n == |txs| {
      assert txs[..n] == txs;
    } else {
      ReplayPrefix(env, ctx, base, txs[..|txs| - 1], n);
      assert txs[..|txs| - 1][..n] == txs[..n];
    }
  }

  lemma ReplaySnoc(env: Env, ctx: Context, base: Journal, txs: seq<Tx>, tx: Tx)
    ensures Replay(env, ctx, base, txs + [tx]) ==
            match Replay(env, ctx, base, txs) case None => None case Some(r) => ReplayOne(env, ctx, r, tx)
  {
    assert (txs + [tx])[..|txs|] == txs;
  }

  // ----- verdicts -----

  function ContextOf(h: Header): Context {
    Context(h.beneficiary, if h.signer.Some? then h.signer.value else [], h.number, h.timestamp, h.gasLimit, h.totalScore)
  }

  predicate HeaderOk(h: Header, parent: Header, now: nat) {
    && h.timestamp > parent.timestamp && (h.timestamp - parent.timestamp) % BlockInterval == 0
    && h.timestamp <= now + BlockInterval
    && IsValidLimit(h.gasLimit, parent.gasLimit)
    && h.gasUsed <= h.gasLimit
    && h.totalScore > parent.totalScore
  }

  predicate BodyOk(env: Env, b: Block) {
    && b.header.txsRoot == env.txsRoot(b.txs)
    && forall tx :: tx in b.txs ==> Admissible(env, tx, b.header.number, b.header.features)
  }

  predicate ClaimsOk(env: Env, h: Header, r: Replayed) {
    h.gasUsed == r.gasUsed && h.receiptsRoot == env.receiptsRoot(r.receipts) && h.stateRoot == env.stateRoot(r.journal)
  }

  /** The whole of Process: the state and receipts of an accepted block. */
  function Verdict(env: Env, b: Block, parent: Header, now: nat): Option<Replayed> {
    var h := b.header;
    if h.features != Features(env, h.number) || !HeaderOk(h, parent, now) || h.signer.None? then None
    else
      match env.slot(h.signer.value, h.timestamp)
      case None => None
      case Some(slot) =>
        if Add64(parent.totalScore, slot.score) != h.totalScore || !BodyOk(env, b) then None
        else
          match Replay(env, ContextOf(h), Preamble(env, h.number) + slot.updates, b.txs)
          case None => None
          case Some(r) => if ClaimsOk(env, h, r) then Some(r) else None
  }

  method ProcessBlock(env: Env, b: Block, parent: Header, now: nat) returns (r: Option<Replayed>)
    ensures r == Verdict(env, b, parent, now)
  {
    var h := b.header;
    if h.features != Features(env, h.number) || !HeaderOk(h, parent, now) { return None; }
    if h.signer.None? { return None; }
    var slot := env.slot(h.signer.value, h.timestamp);
    if slot.None? || Add64(parent.totalScore, slot.value.score) != h.totalScore { return None; }
    var ok := ValidateBody(env, b);
    if !ok { return None; }
    r := VerifyTxs(env, b, Preamble(env, h.number) + slot.value.updates);
    if r.Some? && !ClaimsOk(env, h, r.value) { return None; }
  }

  method ValidateBody(env: Env, b: Block) returns (ok: bool)
    ensures ok == BodyOk(env, b)
  {
    if b.header.txsRoot != env.txsRoot(b.txs) { return false; }
    var i := 0;
    while i < |b.txs|
      invariant 0 <= i <= |b.txs|
      invariant forall tx :: tx in b.txs[..i] ==> Admissible(env, tx, b.header.number, b.header.features)
    {
      if !Admissible(env, b.txs[i], b.header.number, b.header.features) { return false; }
      i := i + 1;
    }
    return true;
  }

  /** The loop of verifyBlock, up to the first transaction that may not run. */
  method VerifyTxs(env: Env, b: Block, base: Journal) returns (r: Option<Replayed>)
    ensures r == Replay(env, ContextOf(b.header), base, b.txs)
  {
    var ctx := ContextOf(b.header);
    var journal, seen: Seen, receipts, totalGasUsed: Uint64 := base, map[], [], 0;
    var i := 0;
    while i < |b.txs|
      invariant 0 <= i <= |b.txs|
      invariant Replay(env, ctx, base, b.txs[..i]) == Some(Replayed(journal, seen, receipts, totalGasUsed))
    {
      var tx := b.txs[i];
      ReplaySnoc(env, ctx, base, b.txs[..i], tx);
      assert b.txs[..i + 1] == b.txs[..i] + [tx];
      var execution := env.execute(ctx, journal, tx);
      if !MayRun(env, seen, tx) || execution.receipt.None? {
        Stuck(env, ctx, base, b.txs, i + 1);
        return None;
      }
      var receipt := execution.receipt.value;
      journal := journal + execution.writes;
      totalGasUsed := Add64(totalGasUsed, receipt.gasUsed);
      receipts := receipts + [receipt];
      seen := seen[tx.id := receipt.reverted];
      i := i + 1;
    }
    assert b.txs[..|b.txs|] == b.txs;
    return Some(Replayed(journal, seen, receipts, totalGasUsed));
  }

  lemma Stuck(env: Env, ctx: Context, base: Journal, txs: seq<Tx>, n: nat)
    requires n <= |txs| && Replay(env, ctx, base, txs[..n]).None?
    ensures Replay(env, ctx, base, txs).None?
  {
    if Replay(env, ctx, base, txs).Some? { ReplayPrefix(env, ctx, base, txs, n); }
  }

  // ----- what a replay guarantees -----

  /** A dependency met: earlier in the block, or on the chain, and not reverted. */
  ghost predicate DependencyMet(env: Env, txs: seq<Tx>, receipts: seq<Receipt>, i: nat, dep: Id)
    requires i <= |txs| == |receipts|
  {
    || (exists j :: 0 <= j < i && txs[j].id == dep && !receipts[j].reverted)
    || ((forall j :: 0 <= j < i ==> txs[j].id != dep) && env.onChain(dep) == Some(false))
  }

  ghost predicate Fresh(env: Env, txs: seq<Tx>) {
    && (forall i, j :: 0 <= i < j < |txs| ==> txs[i].id != txs[j].id)
    && (forall i :: 0 <= i < |txs| ==> env.onChain(txs[i].id).None?)
  }

  ghost predicate AllMet(env: Env, txs: seq<Tx>, receipts: seq<Receipt>)
    requires |txs| == |receipts|
  {
    forall i :: 0 <= i < |txs| && txs[i].dependsOn.Some? ==> DependencyMet(env, txs, receipts, i, txs[i].dependsOn.value)
  }

  /** No transaction twice, none already on the chain, and every dependency met strictly before. */
  ghost predicate NoRepeats(env: Env, txs: seq<Tx>, receipts: seq<Receipt>) {
    |txs| == |receipts| && Fresh(env, txs) && AllMet(env, txs, receipts)
  }

  /** The seen map is exactly the ids of the block, with their outcomes. */
  ghost predicate SeenOk(txs: seq<Tx>, r: Replayed) {
    && |txs| == |r.receipts|
    && (forall id :: id in r.seen <==> exists i :: 0 <= i < |txs| && txs[i].id == id)
    && (forall i :: 0 <= i < |txs| ==> txs[i].id in r.seen && r.seen[txs[i].id] == r.receipts[i].reverted)
  }

  ghost predicate Sound(env: Env, txs: seq<Tx>, r: Replayed) {
    SeenOk(txs, r) && NoRepeats(env, txs, r.receipts)
  }

  lemma {:induction false} ReplayNoRepeats(env: Env, ctx: Context, base: Journal, txs: seq<Tx>)
    requires Replay(env, ctx, base, txs).Some?
    ensures Sound(env, txs, Replay(env, ctx, base, txs).value)
    decreases |txs|
  {
    if txs == [] {
      assert Replay(env, ctx, base, txs).value == Replayed(base, map[], [], 0);
    } else {
      var front, last := txs[..|txs| - 1], txs[|txs| - 1];
      assert txs == front + [last];
      ReplaySnoc(env, ctx, base, front, last);
      ReplayNoRepeats(env, ctx, base, front);
      ReplayOneSound(env, ctx, front, Replay(env, ctx, base, front).value, last);
    }
  }

  lemma ReplayOneSound(env: Env, ctx: Context, txs: seq<Tx>, r: Replayed, tx: Tx)
    requires Sound(env, txs, r) && ReplayOne(env, ctx, r, tx).Some?
    ensures Sound(env, txs + [tx], ReplayOne(env, ctx, r, tx).value)
  {
    ReplayStep(env, txs, r, tx, env.execute(ctx, r.journal, tx).receipt.value, ReplayOne(env, ctx, r, tx).value);
  }

  lemma ReplayStep(env: Env, txs: seq<Tx>, r: Replayed, tx: Tx, receipt: Receipt, r': Replayed)
    requires SeenOk(txs, r) && NoRepeats(env, txs, r.receipts) && MayRun(env, r.seen, tx)
    requires r'.seen == r.seen[tx.id := receipt.reverted] && r'.receipts == r.receipts + [receipt]
    ensures SeenOk(txs + [tx], r') && NoRepeats(env, txs + [tx], r'.receipts)
  {
    StillSeen(env, txs, r, tx, receipt, r');
    StillFresh(env, txs, r, tx);
    StillAllMet(env, txs, r, tx, receipt);
  }

  lemma StillFresh(env: Env, txs: seq<Tx>, r: Replayed, tx: Tx)
    requires SeenOk(txs, r) && Fresh(env, txs) && MayRun(env, r.seen, tx)
    ensures Fresh(env, txs + [tx])
  {
    assert forall i :: 0 <= i < |txs| ==> txs[i].id in r.seen;
  }

  lemma StillAllMet(env: Env, txs: seq<Tx>, r: Replayed, tx: Tx, receipt: Receipt)
    requires SeenOk(txs, r) && AllMet(env, txs, r.receipts) && MayRun(env, r.seen, tx)
    ensures AllMet(env, txs + [tx], r.receipts + [receipt])
  {
    var next := txs + [tx];
    forall i | 0 <= i < |next| && next[i].dependsOn.Some?
      ensures DependencyMet(env, next, r.receipts + [receipt], i, next[i].dependsOn.value)
    {
      if i < |txs| {
        assert next[i] == txs[i];
        StillMet(env, txs, r.receipts, tx, receipt, i, txs[i].dependsOn.value);
      } else {
        NowMet(env, txs, r, tx, receipt);
      }
    }
  }

  lemma StillSeen(env: Env, txs: seq<Tx>, r: Replayed, tx: Tx, receipt: Receipt, r': Replayed)
    requires SeenOk(txs, r) && tx.id !in r.seen
    requires r'.seen == r.seen[tx.id := receipt.reverted] && r'.receipts == r.receipts + [receipt]
    ensures SeenOk(txs + [tx], r')
  {
    var next := txs + [tx];
    forall id ensures id in r'.seen <==> exists i :: 0 <= i < |next| && next[i].id == id {
      if id in r.seen { var i :| 0 <= i < |txs| && txs[i].id == id; assert next[i].id == id; }
      if id == tx.id { assert next[|txs|].id == id; }
    }
  }

  lemma StillMet(env: Env, txs: seq<Tx>, receipts: seq<Receipt>, tx: Tx, receipt: Receipt, i: nat, dep: Id)
    requires i < |txs| == |receipts| && DependencyMet(env, txs, receipts, i, dep)
    ensures DependencyMet(env, txs + [tx], receipts + [receipt], i, dep)
  {
    if j :| 0 <= j < i && txs[j].id == dep && !receipts[j].reverted {
      assert (txs + [tx])[j].id == dep && !(receipts + [receipt])[j].reverted;
    }
  }

  lemma NowMet(env: Env, txs: seq<Tx>, r: Replayed, tx: Tx, receipt: Receipt)
    requires SeenOk(txs, r) && MayRun(env, r.seen, tx) && tx.dependsOn.Some?
    ensures DependencyMet(env, txs + [tx], r.receipts + [receipt], |txs|, tx.dependsOn.value)
  {
    var dep := tx.dependsOn.value;
    if dep in r.seen {
      var j :| 0 <= j < |txs| && txs[j].id == dep;
      assert (txs + [tx])[j].id == dep && !(r.receipts + [receipt])[j].reverted;
    }
  }

  // ----- exactly which replays there are -----

  /** The sum of the gas used. */
  function GasSum(receipts: seq<Receipt>): nat {
    if receipts == [] then 0 else GasSum(receipts[..|receipts| - 1]) + receipts[|receipts| - 1].gasUsed
  }

  /** Transaction i is executed on the state that the ones before it left, and leaves its own writes behind. */
  ghost predicate ExecutesAt(env: Env, ctx: Context, txs: seq<Tx>, journals: seq<Journal>, receipts: seq<Receipt>, i: nat)
    requires i < |txs| == |receipts| && |journals| == |txs| + 1
  {
    var e := env.execute(ctx, journals[i], txs[i]);
    e.receipt == Some(receipts[i]) && journals[i + 1] == journals[i] + e.writes
  }

  /** The transactions execute one after the other, with these receipts. */
  ghost predicate ExecutesAll(env: Env, ctx: Context, base: Journal, txs: seq<Tx>, journals: seq<Journal>, receipts: seq<Receipt>) {
    && |journals| == |txs| + 1 == |receipts| + 1 && journals[0] == base
    && forall i :: 0 <= i < |txs| ==> ExecutesAt(env, ctx, txs, journals, receipts, i)
  }

  /** What r is, told by the executions and not by the loop. */
  ghost predicate Yields(env: Env, ctx: Context, base: Journal, txs: seq<Tx>, journals: seq<Journal>, r: Replayed) {
    && ExecutesAll(env, ctx, base, txs, journals, r.receipts)
    && r.journal == journals[|txs|] && GasIs(r.gasUsed, r.receipts)
    && Sound(env, txs, r)
  }

  /** The sum as 64 bits hold it. */
  ghost predicate GasIs(used: Uint64, receipts: seq<Receipt>) {
    used == GasSum(receipts) % (MaxUint64 + 1)
  }

  lemma {:induction false} GasMore(used: Uint64, receipts: seq<Receipt>, receipt: Receipt)
    requires GasIs(used, receipts)
    ensures GasIs(Add64(used, receipt.gasUsed), receipts + [receipt])
  {
    assert (receipts + [receipt])[..|receipts|] == receipts;
    SumWraps(GasSum(receipts), used, receipt.gasUsed);
  }

  lemma SumWraps(sum: nat, used: Uint64, more: Uint64)
    requires used == sum % (MaxUint64 + 1)
    ensures Add64(used, more) == (sum + more) % (MaxUint64 + 1)
  {
  }

  lemma {:induction false} ExecutesMore(env: Env, ctx: Context, base: Journal, txs: seq<Tx>, journals: seq<Journal>, receipts: seq<Receipt>, tx: Tx)
    requires ExecutesAll(env, ctx, base, txs, journals, receipts) && env.execute(ctx, journals[|txs|], tx).receipt.Some?
    ensures var e := env.execute(ctx, journals[|txs|], tx);
            ExecutesAll(env, ctx, base, txs + [tx], journals + [journals[|txs|] + e.writes], receipts + [e.receipt.value])
  {
    var e := env.execute(ctx, journals[|txs|], tx);
    var txs', journals', receipts' := txs + [tx], journals + [journals[|txs|] + e.writes], receipts + [e.receipt.value];
    forall i | 0 <= i < |txs'| ensures ExecutesAt(env, ctx, txs', journals', receipts', i) {
      if i < |txs| { assert ExecutesAt(env, ctx, txs, journals, receipts, i); }
    }
  }

  lemma {:induction false} ExecutesFewer(env: Env, ctx: Context, base: Journal, txs: seq<Tx>, journals: seq<Journal>, receipts: seq<Receipt>)
    requires ExecutesAll(env, ctx, base, txs, journals, receipts) && txs != []
    ensures ExecutesAll(env, ctx, base, txs[..|txs| - 1], journals[..|txs|], receipts[..|txs| - 1])
  {
    var n := |txs| - 1;
    var txs', journals', receipts' := txs[..n], journals[..|txs|], receipts[..n];
    forall i | 0 <= i < n ensures ExecutesAt(env, ctx, txs', journals', receipts', i) {
      assert ExecutesAt(env, ctx, txs, journals, receipts, i);
    }
  }

  lemma {:induction false} YieldsMore(env: Env, ctx: Context, base: Journal, txs: seq<Tx>, journals: seq<Journal>, r: Replayed, tx: Tx, r': Replayed)
    requires Yields(env, ctx, base, txs, journals, r) && ReplayOne(env, ctx, r, tx) == Some(r')
    ensures Yields(env, ctx, base, txs + [tx], journals + [r'.journal], r')
  {
    ReplayOneSound(env, ctx, txs, r, tx);
    ExecutesMore(env, ctx, base, txs, journals, r.receipts, tx);
    GasMore(r.gasUsed, r.receipts, env.execute(ctx, r.journal, tx).receipt.value);
    TogetherYield(env, ctx, base, txs + [tx], journals + [r'.journal], r');
  }

  lemma {:induction false} TogetherYield(env: Env, ctx: Context, base: Journal, txs: seq<Tx>, journals: seq<Journal>, r: Replayed)
    requires ExecutesAll(env, ctx, base, txs, journals, r.receipts) && r.journal == journals[|txs|]
    requires GasIs(r.gasUsed, r.receipts) && Sound(env, txs, r)
    ensures Yields(env, ctx, base, txs, journals, r)
  {
  }

  lemma {:induction false} ReplayYields(env: Env, ctx: Context, base: Journal, txs: seq<Tx>) returns (journals: seq<Journal>)
    requires Replay(env, ctx, base, txs).Some?
    ensures Yields(env, ctx, base, txs, journals, Replay(env, ctx, base, txs).value)
    decreases |txs|
  {
    if txs == [] {
      journals := [base];
      assert Replay(env, ctx, base, txs).value == Replayed(base, map[], [], 0);
    } else {
      var front, last := txs[..|txs| - 1], txs[|txs| - 1];
      assert txs == front + [last];
      ReplaySnoc(env, ctx, base, front, last);
      var before := ReplayYields(env, ctx, base, front);
      var r := Replay(env, ctx, base, front).value;
      var r' := Replay(env, ctx, base, txs).value;
      YieldsMore(env, ctx, base, front, before, r, last, r');
      journals := before + [r'.journal];
    }
  }

  lemma {:induction false} FewerRepeats(env: Env, txs: seq<Tx>, receipts: seq<Receipt>)
    requires NoRepeats(env, txs, receipts) && txs != []
    ensures NoRepeats(env, txs[..|txs| - 1], receipts[..|txs| - 1])
  {
    var txs', receipts' := txs[..|txs| - 1], receipts[..|txs| - 1];
    forall i | 0 <= i < |txs'| && txs'[i].dependsOn.Some? ensures DependencyMet(env, txs', receipts', i, txs'[i].dependsOn.value) {
      var dep := txs[i].dependsOn.value;
      assert DependencyMet(env, txs, receipts, i, dep);
      if j :| 0 <= j < i && txs[j].id == dep && !receipts[j].reverted { assert txs'[j].id == dep && !receipts'[j].reverted; }
    }
  }

  /** A transaction that repeats nothing and has its dependency met may run. */
  lemma {:induction false} LastMayRun(env: Env, txs: seq<Tx>, receipts: seq<Receipt>, r: Replayed)
    requires txs != [] && NoRepeats(env, txs, receipts)
    requires SeenOk(txs[..|txs| - 1], r) && r.receipts == receipts[..|txs| - 1]
    ensures MayRun(env, r.seen, txs[|txs| - 1])
  {
    var n := |txs| - 1;
    var front, tx := txs[..n], txs[n];
    assert forall i :: 0 <= i < n ==> front[i] == txs[i];
    if tx.dependsOn.Some? {
      var dep := tx.dependsOn.value;
      assert DependencyMet(env, txs, receipts, n, dep);
      if j :| 0 <= j < n && txs[j].id == dep && !receipts[j].reverted {
        assert front[j].id == dep && r.receipts[j] == receipts[j];
      }
    }
  }

  lemma {:induction false} SeenOnce(txs: seq<Tx>, r: Replayed, r': Replayed)
    requires SeenOk(txs, r) && SeenOk(txs, r') && r.receipts == r'.receipts
    ensures r.seen == r'.seen
  {
    forall id | id in r.seen ensures id in r'.seen && r.seen[id] == r'.seen[id] {
      var i :| 0 <= i < |txs| && txs[i].id == id;
    }
    forall id | id in r'.seen ensures id in r.seen {
      var i :| 0 <= i < |txs| && txs[i].id == id;
    }
  }

  lemma {:induction false} ReplaySucceeds(env: Env, ctx: Context, base: Journal, txs: seq<Tx>, journals: seq<Journal>, receipts: seq<Receipt>)
    requires ExecutesAll(env, ctx, base, txs, journals, receipts) && NoRepeats(env, txs, receipts)
    ensures var r := Replay(env, ctx, base, txs); r.Some? && r.value.receipts == receipts && r.value.journal == journals[|txs|]
    decreases |txs|
  {
    if txs != [] {
      var n := |txs| - 1;
      var front := txs[..n];
      assert txs == front + [txs[n]];
      ExecutesFewer(env, ctx, base, txs, journals, receipts);
      FewerRepeats(env, txs, receipts);
      ReplaySucceeds(env, ctx, base, front, journals[..|txs|], receipts[..n]);
      ReplaySnoc(env, ctx, base, front, txs[n]);
      LastRuns(env, ctx, base, txs, journals, receipts, Replay(env, ctx, base, front).value);
    }
  }

  lemma {:induction false} LastRuns(env: Env, ctx: Context, base: Journal, txs: seq<Tx>, journals: seq<Journal>, receipts: seq<Receipt>, r: Replayed)
    requires txs != [] && ExecutesAll(env, ctx, base, txs, journals, receipts) && NoRepeats(env, txs, receipts)
    requires Replay(env, ctx, base, txs[..|txs| - 1]) == Some(r)
    requires r.receipts == receipts[..|txs| - 1] && r.journal == journals[|txs| - 1]
    ensures var r' := ReplayOne(env, ctx, r, txs[|txs| - 1]); r'.Some? && r'.value.receipts == receipts && r'.value.journal == journals[|txs|]
  {
    var n := |txs| - 1;
    ReplayNoRepeats(env, ctx, base, txs[..n]);
    LastMayRun(env, txs, receipts, r);
    assert ExecutesAt(env, ctx, txs, journals, receipts, n);
    assert receipts == receipts[..n] + [receipts[n]];
  }

  /**
    A replay succeeds exactly if nothing repeats, every dependency is met before, and
    each transaction executes on the state that the ones before it left; and it comes
    to those receipts, that state, and the sum of the gas.
   */
  lemma {:induction false} ReplayIff(env: Env, ctx: Context, base: Journal, txs: seq<Tx>, r: Replayed)
    ensures Replay(env, ctx, base, txs) == Some(r) <==> exists journals :: Yields(env, ctx, base, txs, journals, r)
  {
    if Replay(env, ctx, base, txs) == Some(r) {
      var journals := ReplayYields(env, ctx, base, txs);
    }
    if journals :| Yields(env, ctx, base, txs, journals, r) {
      ReplaySucceeds(env, ctx, base, txs, journals, r.receipts);
      var r' := Replay(env, ctx, base, txs).value;
      var journals' := ReplayYields(env, ctx, base, txs);
      SeenOnce(txs, r, r');
    }
  }
}
