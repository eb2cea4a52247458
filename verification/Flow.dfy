/**
  Packing a block (packer/flow.go, packer/packer.go), and why the verifier accepts
  what the packer produces.
 */
module Packing {
  import opened Hex
  import opened Blocks
  import opened Validator

  // ----- the state under construction -----

  function Concat(layers: seq<Journal>): Journal {
    if layers == [] then [] else Concat(layers[..|layers| - 1]) + layers[|layers| - 1]
  }

  lemma ConcatSnoc(layers: seq<Journal>, last: Journal)
    ensures Concat(layers + [last]) == Concat(layers) + last
  {
    assert (layers + [last])[..|layers|] == layers;
  }

  /** The nth mark is what the first n layers hold. */
  ghost predicate Remembers(marks: seq<Journal>, layers: seq<Journal>) {
    |layers| == |marks| + 1 && forall n :: 0 < n <= |marks| ==> marks[n - 1] == Concat(layers[..n])
  }

  /**
    The stacked state: checkpoints open layers, reverting drops them. The marks are
    what the state held when each checkpoint still open was made.
   */
  class StateStack {
    var layers: seq<Journal>
    ghost var marks: seq<Journal>

    ghost predicate Valid()
      reads this
    {
      Remembers(marks, layers)
    }

    function Journal(): Journal
      reads this
    {
      Concat(layers)
    }

    constructor (base: Journal)
      ensures Valid() && Journal() == base && marks == []
    {
      layers, marks := [base], [];
      new;
      ConcatSnoc([], base);
      assert [] + [base] == [base];
    }

    method NewCheckpoint() returns (revision: nat)
      requires Valid()
      modifies this
      ensures Valid() && Journal() == old(Journal()) && marks == old(marks) + [old(Journal())] && revision == |marks|
    {
      revision := |layers|;
      ConcatSnoc(layers, []);
      assert forall n :: 0 <= n <= |marks| ==> (layers + [[]])[..n] == layers[..n];
      assert (layers + [[]])[..|layers|] == layers;
      layers, marks := layers + [[]], marks + [Concat(layers)];
    }

    /** The state is again what it was when the checkpoint was made, whatever was put and marked since. */
    method RevertTo(revision: nat)
      requires Valid() && 0 < revision
      modifies this
      ensures Valid() && marks == if revision <= |old(marks)| then old(marks)[..revision - 1] else old(marks)
      ensures Journal() == if revision <= |old(marks)| then old(marks)[revision - 1] else old(Journal())
    {
      if revision < |layers| {
        assert forall n :: 0 <= n <= revision ==> layers[..revision][..n] == layers[..n];
        layers, marks := layers[..revision], marks[..revision - 1];
      }
    }

    /** Writes go to the top layer. */
    method Put(writes: Journal)
      requires Valid()
      modifies this
      ensures Valid() && marks == old(marks) && Journal() == old(Journal()) + writes
    {
      var front, top := layers[..|layers| - 1], layers[|layers| - 1];
      ConcatSnoc(front, top);
      ConcatSnoc(front, top + writes);
      assert layers == front + [top];
      assert forall n :: 0 <= n <= |marks| ==> (front + [top + writes])[..n] == layers[..n];
      layers := front + [top + writes];
    }
  }

  // ----- adopting transactions -----

  datatype Adoption = Adopted | BadTx | NotAdoptableNow | NotAdoptableForever | GasLimitReached | KnownTx

  function NoAddress(): Address {
    seq(20, i => 0)
  }

  function OriginOf(tx: Tx): Address {
    if tx.origin.Some? then tx.origin.value else NoAddress()
  }

  /** The checks of Adopt before execution, in order. */
  function Refusal(env: Env, ctx: Context, features: set<nat>, seen: Seen, gasUsed: Uint64, tx: Tx): Option<Adoption> {
    if Blocked(env, ctx.number, OriginOf(tx)) || !Compatible(tx, features) || tx.chainTag != env.chainTag then Some(BadTx)
    else if ctx.number < tx.refNumber then Some(NotAdoptableNow)
    else if IsExpired(tx, ctx.number) then Some(BadTx)
    else if Add64(gasUsed, tx.gas) > ctx.gasLimit then
      Some(if Add64(Add64(gasUsed, TxGas), ClauseGas) <= ctx.gasLimit then NotAdoptableNow else GasLimitReached)
    else if Find(env, seen, tx.id).Some? then Some(KnownTx)
    else if tx.dependsOn.None? then None
    else
      match Find(env, seen, tx.dependsOn.value)
      case None => Some(NotAdoptableNow)
      case Some(reverted) => if reverted then Some(NotAdoptableForever) else None
  }

  /**
    What the outcome of the checks tells: there is none exactly if the verifier would
    admit and run the transaction and its gas fits; a bad transaction stays bad in
    every later block; and the limit is reached only when no transaction fits any more.
   */
  ghost predicate Tells(r: Option<Adoption>, env: Env, ctx: Context, features: set<nat>, seen: Seen, gasUsed: Uint64, tx: Tx) {
    && (r.None? <==> Admissible(env, tx, ctx.number, features) && MayRun(env, seen, tx) && Add64(gasUsed, tx.gas) <= ctx.gasLimit)
    && (r == Some(BadTx) ==> forall later: nat :: later >= ctx.number ==> !Admissible(env, tx, later, features))
    && (r == Some(KnownTx) ==> Find(env, seen, tx.id).Some?)
    && (r == Some(NotAdoptableForever) ==> tx.dependsOn.Some? && Find(env, seen, tx.dependsOn.value) == Some(true))
    && (r == Some(GasLimitReached) && gasUsed <= MaxUint64 - TxGas - ClauseGas ==> gasUsed + TxGas + ClauseGas > ctx.gasLimit)
    && (r == Some(NotAdoptableNow) && ctx.number >= tx.refNumber && Add64(gasUsed, tx.gas) <= ctx.gasLimit ==>
          tx.dependsOn.Some? && Find(env, seen, tx.dependsOn.value).None?)
    && r != Some(Adopted)
  }

  /** A pack in progress: what was adopted, and what it led to. */
  datatype Progress = Progress(txs: seq<Tx>, replayed: Replayed)

  function AdoptOne(env: Env, ctx: Context, features: set<nat>, p: Progress, tx: Tx): (Progress, Adoption) {
    match Refusal(env, ctx, features, p.replayed.seen, p.replayed.gasUsed, tx)
    case Some(why) => (p, why)
    case None =>
      match ReplayOne(env, ctx, p.replayed, tx)
      case None => (p, BadTx)
      case Some(r) => (Progress(p.txs + [tx], r), Adopted)
  }

  /** What execution promises: it needs an origin, and uses no more gas than it is given. */
  ghost predicate Executes(env: Env) {
    forall ctx, journal, tx :: env.execute(ctx, journal, tx).receipt.Some? ==>
      tx.origin.Some? && env.execute(ctx, journal, tx).receipt.value.gasUsed <= tx.gas
  }

  /** The verifier would replay the adopted transactions to the same point. */
  ghost predicate Replayable(env: Env, ctx: Context, features: set<nat>, base: Journal, p: Progress) {
    && Replay(env, ctx, base, p.txs) == Some(p.replayed)
    && forall tx :: tx in p.txs ==> Admissible(env, tx, ctx.number, features)
  }

  lemma {:induction false} AdoptReplayable(env: Env, ctx: Context, features: set<nat>, base: Journal, p: Progress, tx: Tx)
    requires Executes(env) && Replayable(env, ctx, features, base, p)
    ensures Replayable(env, ctx, features, base, AdoptOne(env, ctx, features, p, tx).0)
  {
    var r := ReplayOne(env, ctx, p.replayed, tx);
    if Refusal(env, ctx, features, p.replayed.seen, p.replayed.gasUsed, tx).None? && r.Some? {
      assert env.execute(ctx, p.replayed.journal, tx).receipt.Some?;
      OneMoreReplayable(env, ctx, features, base, p, tx, r.value);
    }
  }

  lemma {:induction false} OneMoreReplayable(env: Env, ctx: Context, features: set<nat>, base: Journal, p: Progress, tx: Tx, r: Replayed)
    requires Replayable(env, ctx, features, base, p) && Admissible(env, tx, ctx.number, features)
    requires ReplayOne(env, ctx, p.replayed, tx) == Some(r)
    ensures Replayable(env, ctx, features, base, Progress(p.txs + [tx], r))
  {
    ReplaySnoc(env, ctx, base, p.txs, tx);
  }

  /**
    Adopted is exactly what the verifier would admit and run, has its gas fit and
    executes; it then comes last in the block, and otherwise the block is as before.
   */
  lemma {:induction false} AdoptIff(env: Env, ctx: Context, p: Progress, tx: Tx)
    requires Executes(env)
    ensures var (p', r) := AdoptOne(env, ctx, Features(env, ctx.number), p, tx);
            var e := env.execute(ctx, p.replayed.journal, tx);
            && (r == Adopted <==> Lawful(env, tx, ctx.number) && MayRun(env, p.replayed.seen, tx) && e.receipt.Some? &&
                                  (p.replayed.gasUsed + tx.gas) % (MaxUint64 + 1) <= ctx.gasLimit)
            && (r != Adopted ==> p' == p)
            && (r == Adopted ==> p'.txs == p.txs + [tx] && p'.replayed.journal == p.replayed.journal + e.writes &&
                                 p'.replayed.receipts == p.replayed.receipts + [e.receipt.value])
  {
    LawfulIff(env, tx, ctx.number);
  }

  /** While gas sums do not wrap, the gas used stays within the limit. */
  lemma AdoptWithinLimit(env: Env, ctx: Context, features: set<nat>, p: Progress, tx: Tx)
    requires Executes(env) && p.replayed.gasUsed <= ctx.gasLimit && p.replayed.gasUsed + tx.gas <= MaxUint64
    ensures AdoptOne(env, ctx, features, p, tx).0.replayed.gasUsed <= ctx.gasLimit
  {
  }

  /** When they do, a transaction too large for the block is adopted, and the limit may be exceeded. */
  lemma WrappedSumIsAdopted(env: Env, ctx: Context, features: set<nat>, p: Progress, tx: Tx)
    requires p.replayed.gasUsed + tx.gas == MaxUint64 + 1
    requires Admissible(env, tx, ctx.number, features) && MayRun(env, p.replayed.seen, tx)
    requires env.execute(ctx, p.replayed.journal, tx).receipt.Some?
    requires ctx.gasLimit < p.replayed.gasUsed + env.execute(ctx, p.replayed.journal, tx).receipt.value.gasUsed <= MaxUint64
    ensures var (p', r) := AdoptOne(env, ctx, features, p, tx); r == Adopted && p'.replayed.gasUsed > ctx.gasLimit
  {
    assert Add64(p.replayed.gasUsed, tx.gas) == 0;
  }

  ghost predicate StaysWithin(env: Env, ctx: Context, features: set<nat>, p: Progress, tx: Tx) {
    Executes(env) && p.replayed.gasUsed <= ctx.gasLimit ==> AdoptOne(env, ctx, features, p, tx).0.replayed.gasUsed <= ctx.gasLimit
  }

  /** However far the block is packed, and whatever executions use, the gas stays within the limit. */
  ghost predicate AlwaysWithin(env: Env, ctx: Context, features: set<nat>, tx: Tx) {
    forall execute: (Context, Journal, Tx) -> Execution, p :: StaysWithin(env.(execute := execute), ctx, features, p, tx)
  }

  /** Exactly when offering an acceptable transaction is harmless: if its gas on top of the limit does not wrap. */
  lemma {:induction false} AlwaysWithinIff(env: Env, ctx: Context, features: set<nat>, tx: Tx)
    requires Admissible(env, tx, ctx.number, features) && MayRun(env, map[], tx)
    ensures AlwaysWithin(env, ctx, features, tx) <==> ctx.gasLimit == MaxUint64 || ctx.gasLimit + tx.gas <= MaxUint64
  {
    if ctx.gasLimit == MaxUint64 {
    } else if ctx.gasLimit + tx.gas <= MaxUint64 {
      forall execute: (Context, Journal, Tx) -> Execution, p ensures StaysWithin(env.(execute := execute), ctx, features, p, tx) {
        var env' := env.(execute := execute);
        if Executes(env') && p.replayed.gasUsed <= ctx.gasLimit { AdoptWithinLimit(env', ctx, features, p, tx); }
      }
    } else {
      var used := MaxUint64 + 1 - tx.gas;
      var env' := env.(execute := Uses(tx, ctx.gasLimit + 1 - used));
      var p := Progress([], Replayed([], map[], [], used));
      UsesExecutes(env, tx, ctx.gasLimit + 1 - used);
      WrappedSumIsAdopted(env', ctx, features, p, tx);
      assert !StaysWithin(env', ctx, features, p, tx);
    }
  }

  /** An execution that succeeds on this transaction alone, with this gas. */
  function Uses(tx: Tx, gas: Uint64): (Context, Journal, Tx) -> Execution {
    (ctx: Context, journal: Journal, t: Tx) => Execution([], if t == tx then Some(Receipt(gas, false, [])) else None)
  }

  lemma UsesExecutes(env: Env, tx: Tx, gas: Uint64)
    requires tx.origin.Some? && gas <= tx.gas
    ensures Executes(env.(execute := Uses(tx, gas)))
  {
  }

  // ----- packing -----

  function Header0(env: Env, ctx: Context, features: set<nat>, parentID: Id, p: Progress): Header {
    Header(parentID, ctx.number, ctx.time, ctx.gasLimit, ctx.beneficiary, p.replayed.gasUsed, ctx.totalScore,
           env.txsRoot(p.txs), features, env.stateRoot(p.replayed.journal), env.receiptsRoot(p.replayed.receipts), Some(ctx.signer))
  }

  /** What Schedule sets up for a producer on top of a parent. */
  ghost predicate Scheduled(env: Env, ctx: Context, features: set<nat>, base: Journal, parent: Header, target: Uint64) {
    && ctx.time > parent.timestamp && (ctx.time - parent.timestamp) % BlockInterval == 0
    && ctx.number == parent.number + 1 && features == Features(env, ctx.number)
    && ctx.gasLimit == PackedLimit(target, parent.gasLimit)
    && var slot := env.slot(ctx.signer, ctx.time);
       && slot.Some? && slot.value.score > 0
       && parent.totalScore + slot.value.score <= MaxUint64
       && ctx.totalScore == Add64(parent.totalScore, slot.value.score)
       && base == Preamble(env, ctx.number) + slot.value.updates
  }

  /** A packed block is accepted, with the same state and receipts, exactly if its gas is within its limit. */
  lemma PackedIsAccepted(
    env: Env, ctx: Context, features: set<nat>, base: Journal, parent: Header, parentID: Id, target: Uint64, p: Progress, now: nat)
    requires Scheduled(env, ctx, features, base, parent, target) && parent.gasLimit >= MinGasLimit
    requires Replayable(env, ctx, features, base, p) && ctx.time <= now + BlockInterval
    ensures Verdict(env, Block(Header0(env, ctx, features, parentID, p), p.txs), parent, now) ==
            if p.replayed.gasUsed <= ctx.gasLimit then Some(p.replayed) else None
  {
    var h := Header0(env, ctx, features, parentID, p);
    PackedLimitIsValid(target, parent.gasLimit, ctx.gasLimit);
    assert ContextOf(h) == ctx;
  }

  /** From this block on transactions may be delegated: the genesis block is never one of those. */
  predicate Delegating(env: Env, number: nat) {
    1 <= number && env.vip191 <= number
  }

  /** What the rules ask of a transaction in a block with this number. */
  ghost predicate Lawful(env: Env, tx: Tx, number: nat) {
    && tx.origin.Some? && !(env.blocklist <= number && env.blocked(tx.origin.value))
    && tx.chainTag == env.chainTag && tx.refNumber <= number <= tx.refNumber + tx.expiration
    && !tx.unusedReserved && (forall f :: f in tx.features ==> f == DelegationFeature && Delegating(env, number))
  }

  /** What the rules ask of a block on top of a parent, its transactions and claims aside. */
  ghost predicate InTurn(env: Env, ctx: Context, slot: Slot, parent: Header, now: nat) {
    && (exists n: nat :: n > 0 && ctx.time == parent.timestamp + n * BlockInterval) && ctx.time <= now + BlockInterval
    && MinGasLimit <= ctx.gasLimit
    && parent.gasLimit - parent.gasLimit / GasLimitBoundDivisor <= ctx.gasLimit <= parent.gasLimit + parent.gasLimit / GasLimitBoundDivisor
    && env.slot(ctx.signer, ctx.time) == Some(slot)
    && parent.totalScore < ctx.totalScore && ctx.totalScore == (parent.totalScore + slot.score) % (MaxUint64 + 1)
  }

  /** b is the block of its transactions: every field of its header is what executing them leads to. */
  ghost predicate Honest(env: Env, b: Block, base: Journal, journals: seq<Journal>, r: Replayed) {
    var ctx := ContextOf(b.header);
    && b.header == Header0(env, ctx, if Delegating(env, ctx.number) then {DelegationFeature} else {}, b.header.parentID, Progress(b.txs, r))
    && Yields(env, ctx, base, b.txs, journals, r) && r.gasUsed <= ctx.gasLimit
    && forall tx :: tx in b.txs ==> Lawful(env, tx, ctx.number)
  }

  /** What is written before the transactions: at the first delegating block the new code, then the activations. */
  function BaseOf(env: Env, number: nat, slot: Slot): Journal {
    (if Delegating(env, number) && !Delegating(env, number - 1) then env.forkCode else []) + slot.updates
  }

  ghost predicate Rightful(env: Env, b: Block, parent: Header, now: nat, slot: Slot, journals: seq<Journal>, r: Replayed) {
    InTurn(env, ContextOf(b.header), slot, parent, now) && Honest(env, b, BaseOf(env, b.header.number, slot), journals, r)
  }

  lemma LawfulIff(env: Env, tx: Tx, number: nat)
    ensures Admissible(env, tx, number, Features(env, number)) <==> Lawful(env, tx, number)
  {
  }

  lemma Rounded(time: nat, parent: nat)
    ensures (time > parent && (time - parent) % BlockInterval == 0) <==> exists n: nat :: n > 0 && time == parent + n * BlockInterval
  {
    if time > parent && (time - parent) % BlockInterval == 0 {
      var n := (time - parent) / BlockInterval;
      assert n > 0 && time == parent + n * BlockInterval;
    }
  }

  lemma {:induction false} RightfulHeader(env: Env, b: Block, parent: Header, now: nat, slot: Slot, journals: seq<Journal>, r: Replayed)
    requires Rightful(env, b, parent, now, slot, journals, r)
    ensures HeaderOk(b.header, parent, now) && b.header.signer.Some? && b.header.features == Features(env, b.header.number)
    ensures Add64(parent.totalScore, slot.score) == b.header.totalScore && ClaimsOk(env, b.header, r)
  {
    Rounded(b.header.timestamp, parent.timestamp);
  }

  lemma {:induction false} RightfulBody(env: Env, b: Block, base: Journal, journals: seq<Journal>, r: Replayed)
    requires Honest(env, b, base, journals, r)
    ensures BodyOk(env, b) && Replay(env, ContextOf(b.header), base, b.txs) == Some(r)
  {
    forall tx | tx in b.txs ensures Admissible(env, tx, b.header.number, b.header.features) { LawfulIff(env, tx, b.header.number); }
    ReplayIff(env, ContextOf(b.header), base, b.txs, r);
  }

  /** What is rightful is accepted. */
  lemma {:induction false} RightfulIsAccepted(env: Env, b: Block, parent: Header, now: nat, slot: Slot, journals: seq<Journal>, r: Replayed)
    requires Rightful(env, b, parent, now, slot, journals, r)
    ensures Verdict(env, b, parent, now) == Some(r)
  {
    var base := BaseOf(env, b.header.number, slot);
    RightfulHeader(env, b, parent, now, slot, journals, r);
    RightfulBody(env, b, base, journals, r);
    assert base == Preamble(env, b.header.number) + slot.updates;
  }

  lemma {:induction false} AcceptedIsRightful(env: Env, b: Block, parent: Header, now: nat, r: Replayed)
    returns (slot: Slot, journals: seq<Journal>)
    requires Verdict(env, b, parent, now) == Some(r)
    ensures Rightful(env, b, parent, now, slot, journals, r)
  {
    var h := b.header;
    slot := env.slot(h.signer.value, h.timestamp).value;
    forall tx | tx in b.txs ensures Lawful(env, tx, h.number) { LawfulIff(env, tx, h.number); }
    Rounded(h.timestamp, parent.timestamp);
    ReplayIff(env, ContextOf(h), BaseOf(env, h.number, slot), b.txs, r);
    journals :| Yields(env, ContextOf(h), BaseOf(env, h.number, slot), b.txs, journals, r);
  }

  /**
    The verifier accepts exactly the blocks that are in turn, whose transactions are
    lawful and execute, and whose header is the one the packer would have made.
   */
  lemma {:induction false} AcceptedIff(env: Env, b: Block, parent: Header, now: nat, r: Replayed)
    ensures Verdict(env, b, parent, now) == Some(r) <==> exists slot, journals :: Rightful(env, b, parent, now, slot, journals, r)
  {
    if Verdict(env, b, parent, now) == Some(r) {
      var slot, journals := AcceptedIsRightful(env, b, parent, now, r);
    }
    if slot, journals :| Rightful(env, b, parent, now, slot, journals, r) {
      RightfulIsAccepted(env, b, parent, now, slot, journals, r);
    }
  }

  /** So the transactions, the context and the parent leave no choice of header. */
  lemma {:induction false} HeaderIsDetermined(env: Env, b1: Block, b2: Block, parent: Header, now1: nat, now2: nat)
    requires Verdict(env, b1, parent, now1).Some? && Verdict(env, b2, parent, now2).Some?
    requires b1.txs == b2.txs && b1.header.parentID == b2.header.parentID && ContextOf(b1.header) == ContextOf(b2.header)
    ensures b1 == b2
  {
    var slot1, journals1 := AcceptedIsRightful(env, b1, parent, now1, Verdict(env, b1, parent, now1).value);
    var slot2, journals2 := AcceptedIsRightful(env, b2, parent, now2, Verdict(env, b2, parent, now2).value);
  }

  function AdoptAll(env: Env, ctx: Context, features: set<nat>, p: Progress, txs: seq<Tx>): Progress
    decreases |txs|
  {
    if txs == [] then p else AdoptAll(env, ctx, features, AdoptOne(env, ctx, features, p, txs[0]).0, txs[1..])
  }

  /** Any sequence of offered transactions, adopted or not, packs into a block the verifier accepts. */
  lemma {:induction false} ProducerAndVerifierAgree(
    env: Env, ctx: Context, features: set<nat>, base: Journal, parent: Header, parentID: Id, target: Uint64,
    p: Progress, offered: seq<Tx>, now: nat)
    requires Executes(env) && Scheduled(env, ctx, features, base, parent, target) && parent.gasLimit >= MinGasLimit
    requires Replayable(env, ctx, features, base, p) && p.replayed.gasUsed <= ctx.gasLimit && ctx.time <= now + BlockInterval
    requires forall tx :: tx in offered ==> ctx.gasLimit + tx.gas <= MaxUint64
    ensures var q := AdoptAll(env, ctx, features, p, offered);
            Verdict(env, Block(Header0(env, ctx, features, parentID, q), q.txs), parent, now) == Some(q.replayed)
    decreases |offered|
  {
    if offered == [] {
      PackedIsAccepted(env, ctx, features, base, parent, parentID, target, p, now);
    } else {
      var tx := offered[0];
      AdoptReplayable(env, ctx, features, base, p, tx);
      AdoptWithinLimit(env, ctx, features, p, tx);
      ProducerAndVerifierAgree(env, ctx, features, base, parent, parentID, target,
                               AdoptOne(env, ctx, features, p, tx).0, offered[1..], now);
    }
  }

  /** The flow of packing one block. */
  class Flow {
    const env: Env
    const ctx: Context
    const features: set<nat>
    const parent: Header
    const parentID: Id
    const state: StateStack
    var processedTxs: Seen
    var gasUsed: Uint64
    var txs: seq<Tx>
    var receipts: seq<Receipt>
    ghost const base: Journal
    ghost const target: Uint64

    ghost function Now(): Progress
      reads this, state
    {
      Progress(txs, Replayed(state.Journal(), processedTxs, receipts, gasUsed))
    }

    ghost predicate Valid()
      reads this, state
    {
      && state.Valid() && Executes(env)
      && Scheduled(env, ctx, features, base, parent, target)
      && Replayable(env, ctx, features, base, Now())
    }

    /** Schedule, for a slot the scheduler granted at `time`. */
    constructor (env: Env, parent: Header, parentID: Id, signer: Address, beneficiary: Address, target: Uint64, time: Uint64, slot: Slot)
      requires Executes(env) && env.slot(signer, time) == Some(slot) && slot.score > 0
      requires time > parent.timestamp && (time - parent.timestamp) % BlockInterval == 0
      requires parent.totalScore + slot.score <= MaxUint64
      ensures Valid() && fresh(state) && txs == [] && gasUsed == 0 && this.env == env && this.parent == parent && this.parentID == parentID
      ensures ctx.beneficiary == beneficiary && ctx.signer == signer && ctx.time == time && this.target == target
    {
      this.env, this.parent, this.parentID := env, parent, parentID;
      var number := parent.number + 1;
      ctx := Context(beneficiary, signer, number, time, PackedLimit(target, parent.gasLimit), Add64(parent.totalScore, slot.score));
      features := Features(env, number);
      state := new StateStack(Preamble(env, number) + slot.updates);
      base := Preamble(env, number) + slot.updates;
      this.target := target;
      processedTxs, gasUsed, txs, receipts := map[], 0, [], [];
    }

    function FindTx(id: Id): Option<bool>
      reads this
    {
      Find(env, processedTxs, id)
    }

    /** A transaction that is not adopted leaves no trace, even if its execution wrote state. */
    method Adopt(tx: Tx) returns (r: Adoption)
      requires Valid()
      modifies this, state
      ensures Valid() && (Now(), r) == AdoptOne(env, ctx, features, old(Now()), tx)
      ensures r != Adopted ==> state.Journal() == old(state.Journal())
      ensures old(gasUsed) <= ctx.gasLimit && old(gasUsed) + tx.gas <= MaxUint64 ==> gasUsed <= ctx.gasLimit
    {
      AdoptReplayable(env, ctx, features, base, Now(), tx);
      var refusal := Check(tx);
      if refusal.Some? { return refusal.value; }
      var receipt := Execute(tx);
      if receipt.None? {
        assert Now() == old(Now());
        return BadTx;
      }
      processedTxs := processedTxs[tx.id := receipt.value.reverted];
      gasUsed := Add64(gasUsed, receipt.value.gasUsed);
      receipts := receipts + [receipt.value];
      txs := txs + [tx];
      assert Now() == AdoptOne(env, ctx, features, old(Now()), tx).0;
      return Adopted;
    }

    method Check(tx: Tx) returns (refusal: Option<Adoption>)
      ensures refusal == Refusal(env, ctx, features, processedTxs, gasUsed, tx)
      ensures tx.origin.Some? ==> Tells(refusal, env, ctx, features, processedTxs, gasUsed, tx)
    {
      if Blocked(env, ctx.number, OriginOf(tx)) || !Compatible(tx, features) || tx.chainTag != env.chainTag { return Some(BadTx); }
      if ctx.number < tx.refNumber { return Some(NotAdoptableNow); }
      if IsExpired(tx, ctx.number) { return Some(BadTx); }
      if Add64(gasUsed, tx.gas) > ctx.gasLimit {
        if Add64(Add64(gasUsed, TxGas), ClauseGas) <= ctx.gasLimit { return Some(NotAdoptableNow); }
        return Some(GasLimitReached);
      }
      if FindTx(tx.id).Some? { return Some(KnownTx); }
      if tx.dependsOn.Some? {
        var dep := FindTx(tx.dependsOn.value);
        if dep.None? { return Some(NotAdoptableNow); }
        if dep.value { return Some(NotAdoptableForever); }
      }
      return None;
    }

    /** Execute behind a checkpoint, and go back to it if the execution fails. */
    method Execute(tx: Tx) returns (receipt: Option<Receipt>)
      requires state.Valid()
      modifies state
      ensures state.Valid()
      ensures var e := env.execute(ctx, old(state.Journal()), tx);
              receipt == e.receipt &&
              state.Journal() == if receipt.Some? then old(state.Journal()) + e.writes else old(state.Journal())
    {
      var execution := env.execute(ctx, state.Journal(), tx);
      var checkpoint := state.NewCheckpoint();
      state.Put(execution.writes);
      receipt := execution.receipt;
      if receipt.None? { state.RevertTo(checkpoint); }
    }

    /** Build the block: it is accepted exactly if its gas is within its limit. */
    method Pack() returns (b: Block)
      requires Valid()
      ensures b == Block(Header0(env, ctx, features, parentID, Now()), txs)
      ensures parent.gasLimit >= MinGasLimit ==>
                forall now: nat :: ctx.time <= now + BlockInterval ==>
                  Verdict(env, b, parent, now) == if gasUsed <= ctx.gasLimit then Some(Now().replayed) else None
    {
      var header := Header(parentID, ctx.number, ctx.time, ctx.gasLimit, ctx.beneficiary, gasUsed, ctx.totalScore,
                           env.txsRoot(txs), features, env.stateRoot(state.Journal()), env.receiptsRoot(receipts), Some(ctx.signer));
      b := Block(header, txs);
      if parent.gasLimit >= MinGasLimit {
        forall now: nat | ctx.time <= now + BlockInterval
          ensures Verdict(env, b, parent, now) == if gasUsed <= ctx.gasLimit then Some(Now().replayed) else None
        {
          PackedIsAccepted(env, ctx, features, base, parent, parentID, target, Now(), now);
        }
      }
    }
  }
}
