/**
  The interpreter loop (vm/interpreter.go, vm/instructions.go): whatever the
  instructions do, the program counter stays on instruction starts.
 */
module Interpreting {
  import opened Hex
  import opened Rlp
  import opened Analysis

  const STOP: Byte := 0x00
  const JUMP: Byte := 0x56
  const JUMPI: Byte := 0x57
  const RETURN: Byte := 0xf3
  const REVERT: Byte := 0xfd
  const SELFDESTRUCT: Byte := 0xff

  const Two64: nat := 0x1_0000_0000_0000_0000

  // ----- jump destinations -----

  /** A destination a program may jump to: section 9.4.3 of the Yellow Paper. */
  predicate IsDestination(code: Bytes, dest: nat) {
    dest < |code| && code[dest] == JUMPDEST && IsStart(code, dest)
  }

  /** Bitmaps by code hash, shared between contracts. */
  class Destinations {
    var bitmaps: map<Hash, seq<bv8>>
    ghost var codes: map<Hash, Bytes>

    ghost predicate Valid()
      reads this
    {
      forall h :: h in bitmaps ==> h in codes && Describes(bitmaps[h], codes[h])
    }

    constructor ()
      ensures Valid() && bitmaps == map[]
    {
      bitmaps, codes := map[], map[];
    }

    method Analyse(codeHash: Hash, code: Bytes)
      requires Valid() && codeHash !in bitmaps
      modifies this
      ensures Valid() && codeHash in bitmaps && codes[codeHash] == code
      ensures forall h :: h != codeHash ==> (h in bitmaps <==> h in old(bitmaps)) && (h in bitmaps ==> codes[h] == old(codes)[h])
    {
      var bits := CodeBitmap(code);
      bitmaps, codes := bitmaps[codeHash := bits[..]], codes[codeHash := code];
    }

    /** dest is a 256-bit word. */
    method Has(codeHash: Hash, code: Bytes, dest: nat) returns (r: bool)
      requires Valid() && |code| <= Two64 / 4 && (codeHash in bitmaps ==> codes[codeHash] == code)
      modifies this
      ensures Valid() && r == IsDestination(code, dest)
      ensures codeHash in bitmaps ==> codes[codeHash] == code
      ensures forall h :: h != codeHash ==> (h in bitmaps <==> h in old(bitmaps)) && (h in bitmaps ==> codes[h] == old(codes)[h])
    {
      var udest := dest % Two64;
      if dest >= Two64 / 4 || udest >= |code| {
        return false;
      }
      if codeHash !in bitmaps { Analyse(codeHash, code); }
      var inCode := CodeSegment(bitmaps[codeHash], udest, code);
      return code[udest] == JUMPDEST && inCode;
    }
  }

  // ----- instructions -----

  type Word = nat

  function GetOp(code: Bytes, pc: nat): Byte {
    if pc < |code| then code[pc] else STOP
  }

  function RightPad(b: Bytes, n: nat): Bytes {
    if |b| >= n then b else b + seq(n - |b|, i => 0)
  }

  /** The bytes that a push of n bytes at pc reads. */
  function PushData(code: Bytes, pc: nat, n: nat): Bytes {
    var startMin := if pc + 1 < |code| then pc + 1 else |code|;
    var endMin := if startMin + n < |code| then startMin + n else |code|;
    RightPad(code[startMin..endMin], n)
  }

  /** They are the bytes that follow, as if the code went on with zeros. */
  lemma PushDataIs(code: Bytes, pc: nat, n: nat)
    requires pc < |code|
    ensures |PushData(code, pc, n)| == n && forall i :: 0 <= i < n ==> PushData(code, pc, n)[i] == GetOp(code, pc + 1 + i)
  {
  }

  /** The number that bytes stand for, most significant first. */
  function WordOf(b: Bytes): Word {
    if b == [] then 0 else 256 * WordOf(b[..|b| - 1]) + b[|b| - 1] as nat
  }

  /** Everything the loop leaves to others: charging, and operations that leave the program counter alone. */
  datatype World<!M> = World(
    charge: (Byte, seq<Word>, M) -> Option<M>,
    operate: (nat, Byte, seq<Word>, M) -> Option<(seq<Word>, M)>)

  datatype Machine<!M> = Machine(stack: seq<Word>, rest: M)

  datatype Outcome<!M> = Failed | Reverted(machine: Machine<M>) | Stopped(machine: Machine<M>) | Aborted

  predicate Halts(op: Byte) {
    op == STOP || op == RETURN || op == SELFDESTRUCT
  }

  /** A step of the program counter: to the next instruction, or from a jump to a destination. */
  ghost predicate Moves(code: Bytes, pc: nat, pc': nat) {
    || pc' == pc + Length(GetOp(code, pc))
    || ((GetOp(code, pc) == JUMP || GetOp(code, pc) == JUMPI) && IsDestination(code, pc'))
  }

  /** All program counters visited: instruction starts, moved between as the code allows. */
  ghost predicate Trace(code: Bytes, pcs: seq<nat>) {
    pcs == [] || (
      var front, last := pcs[..|pcs| - 1], pcs[|pcs| - 1];
      && Trace(code, front) && IsStart(code, last)
      && (front != [] ==> front[|front| - 1] < |code| && Moves(code, front[|front| - 1], last)))
  }

  lemma {:induction false} TraceStarts(code: Bytes, pcs: seq<nat>, k: nat)
    requires Trace(code, pcs) && k < |pcs|
    ensures IsStart(code, pcs[k])
    decreases |pcs|
  {
    if k < |pcs| - 1 { TraceStarts(code, pcs[..|pcs| - 1], k); }
  }

  lemma StartsStay(code: Bytes, pc: nat, pc': nat)
    requires IsStart(code, pc) && pc < |code| && Moves(code, pc, pc')
    ensures IsStart(code, pc')
  {
    ScanNext(code, 0, pc);
  }

  // ----- what a run is -----

  /** Where a program is after a step. */
  datatype Config<!M> = Running(pc: nat, machine: Machine<M>) | Ended(outcome: Outcome<M>)

  /** JUMP and JUMPI, at pc, with the operands on top of the stack: section 9.4.3 and appendix H of the Yellow Paper. */
  ghost predicate JumpsTo<M>(code: Bytes, op: Byte, pc: nat, m: Machine<M>, c: Config<M>) {
    var n, pops := |m.stack|, if op == JUMP then 1 else 2;
    if n < pops then c == Ended(Failed)
    else if op == JUMPI && m.stack[n - 2] == 0 then c == Running(pc + 1, m.(stack := m.stack[..n - pops]))
    else if IsDestination(code, m.stack[n - 1]) then c == Running(m.stack[n - 1], m.(stack := m.stack[..n - pops]))
    else c == Ended(Failed)
  }

  /** The word pushed is that of the bytes after pc, zeros past the end. */
  ghost predicate PushesTo<M>(code: Bytes, n: nat, pc: nat, m: Machine<M>, c: Config<M>) {
    exists data: Bytes :: && |data| == n && (forall i :: 0 <= i < n ==> data[i] == GetOp(code, pc + 1 + i))
                          && c == Running(pc + 1 + n, m.(stack := m.stack + [WordOf(data)]))
  }

  /** Any other instruction: an error ends the run, and then REVERT and the three that halt do. */
  ghost predicate OperatesTo<M>(w: World<M>, op: Byte, pc: nat, m: Machine<M>, c: Config<M>) {
    match w.operate(pc, op, m.stack, m.rest)
    case None => c == Ended(Failed)
    case Some(done) =>
      var m' := Machine(done.0, done.1);
      c == if op == REVERT then Ended(Reverted(m')) else if op in {STOP, RETURN, SELFDESTRUCT} then Ended(Stopped(m')) else Running(pc + 1, m')
  }

  /** One instruction leads from (pc, m) to c. */
  ghost predicate StepsTo<M>(code: Bytes, w: World<M>, pc: nat, m: Machine<M>, c: Config<M>) {
    var op := GetOp(code, pc);
    match w.charge(op, m.stack, m.rest)
    case None => c == Ended(Failed)
    case Some(rest) =>
      var charged := m.(rest := rest);
      if op == JUMP || op == JUMPI then JumpsTo(code, op, pc, charged, c)
      else if 0x60 <= op <= 0x7f then PushesTo(code, (op - 0x5f) as nat, pc, charged, c)
      else OperatesTo(w, op, pc, charged, c)
  }

  /** A program has one way to go on. */
  lemma StepsOnce<M>(code: Bytes, w: World<M>, pc: nat, m: Machine<M>, c1: Config<M>, c2: Config<M>)
    requires StepsTo(code, w, pc, m, c1) && StepsTo(code, w, pc, m, c2)
    ensures c1 == c2
  {
    var op := GetOp(code, pc);
    if w.charge(op, m.stack, m.rest).Some? && op != JUMP && op != JUMPI && 0x60 <= op <= 0x7f {
      var n := (op - 0x5f) as nat;
      var charged := m.(rest := w.charge(op, m.stack, m.rest).value);
      var d1: Bytes :| && |d1| == n && (forall i :: 0 <= i < n ==> d1[i] == GetOp(code, pc + 1 + i))
                       && c1 == Running(pc + 1 + n, charged.(stack := charged.stack + [WordOf(d1)]));
      var d2: Bytes :| && |d2| == n && (forall i :: 0 <= i < n ==> d2[i] == GetOp(code, pc + 1 + i))
                       && c2 == Running(pc + 1 + n, charged.(stack := charged.stack + [WordOf(d2)]));
      assert d1 == d2;
    }
  }

  /** Steps from the start through these program counters and machines. */
  ghost predicate Runs<M>(code: Bytes, w: World<M>, m0: Machine<M>, pcs: seq<nat>, ms: seq<Machine<M>>) {
    && |ms| == |pcs| && (pcs != [] ==> pcs[0] == 0 && ms[0] == m0)
    && forall i :: 0 <= i < |pcs| - 1 ==> StepsTo(code, w, pcs[i], ms[i], Running(pcs[i + 1], ms[i + 1]))
  }

  /** The run ends with the outcome, or is aborted after `budget` instructions; without code there is nothing to run. */
  ghost predicate RunsTo<M(!new)>(
    code: Bytes, w: World<M>, m0: Machine<M>, budget: nat, pcs: seq<nat>, ms: seq<Machine<M>>, outcome: Outcome<M>)
  {
    if code == [] then pcs == [] && ms == [] && outcome == Stopped(m0)
    else
      && Runs(code, w, m0, pcs, ms) && |pcs| <= budget
      && if outcome == Aborted then
           |pcs| == budget && (pcs != [] ==> exists pc, m :: StepsTo(code, w, pcs[|pcs| - 1], ms[|ms| - 1], Running(pc, m)))
         else pcs != [] && StepsTo(code, w, pcs[|pcs| - 1], ms[|ms| - 1], Ended(outcome))
  }

  lemma {:induction false} SameSteps<M>(
    code: Bytes, w: World<M>, m0: Machine<M>, pcs1: seq<nat>, ms1: seq<Machine<M>>, pcs2: seq<nat>, ms2: seq<Machine<M>>, i: nat)
    requires Runs(code, w, m0, pcs1, ms1) && Runs(code, w, m0, pcs2, ms2) && i < |pcs1| && i < |pcs2|
    ensures pcs1[i] == pcs2[i] && ms1[i] == ms2[i]
    decreases i
  {
    if i > 0 {
      SameSteps(code, w, m0, pcs1, ms1, pcs2, ms2, i - 1);
      StepsOnce(code, w, pcs1[i - 1], ms1[i - 1], Running(pcs1[i - 1 + 1], ms1[i - 1 + 1]), Running(pcs2[i - 1 + 1], ms2[i - 1 + 1]));
    }
  }

  lemma {:induction false} NoShorter<M(!new)>(
    code: Bytes, w: World<M>, m0: Machine<M>, budget: nat,
    pcs1: seq<nat>, ms1: seq<Machine<M>>, o1: Outcome<M>, pcs2: seq<nat>, ms2: seq<Machine<M>>, o2: Outcome<M>)
    requires RunsTo(code, w, m0, budget, pcs1, ms1, o1) && RunsTo(code, w, m0, budget, pcs2, ms2, o2)
    ensures |pcs1| >= |pcs2|
  {
    var n := |pcs1| - 1;
    if code != [] && |pcs1| < |pcs2| {
      assert o1 != Aborted;
      SameSteps(code, w, m0, pcs1, ms1, pcs2, ms2, n);
      StepsOnce(code, w, pcs1[n], ms1[n], Ended(o1), Running(pcs2[n + 1], ms2[n + 1]));
      assert false;
    }
  }

  /** Code, machine and budget determine the run: every program counter, every machine and the outcome. */
  lemma {:induction false} RunsOnce<M(!new)>(
    code: Bytes, w: World<M>, m0: Machine<M>, budget: nat,
    pcs1: seq<nat>, ms1: seq<Machine<M>>, o1: Outcome<M>, pcs2: seq<nat>, ms2: seq<Machine<M>>, o2: Outcome<M>)
    requires RunsTo(code, w, m0, budget, pcs1, ms1, o1) && RunsTo(code, w, m0, budget, pcs2, ms2, o2)
    ensures pcs1 == pcs2 && ms1 == ms2 && o1 == o2
  {
    NoShorter(code, w, m0, budget, pcs1, ms1, o1, pcs2, ms2, o2);
    NoShorter(code, w, m0, budget, pcs2, ms2, o2, pcs1, ms1, o1);
    forall i | 0 <= i < |pcs1| ensures pcs1[i] == pcs2[i] && ms1[i] == ms2[i] {
      if code != [] { SameSteps(code, w, m0, pcs1, ms1, pcs2, ms2, i); }
    }
    assert pcs1 == pcs2 && ms1 == ms2;
    if code != [] && pcs1 != [] {
      SameEnd(code, w, pcs1[|pcs1| - 1], ms1[|ms1| - 1], o1, o2);
    }
  }

  lemma {:induction false} SameEnd<M(!new)>(code: Bytes, w: World<M>, pc: nat, m: Machine<M>, o1: Outcome<M>, o2: Outcome<M>)
    requires if o1 == Aborted then exists pc', m' :: StepsTo(code, w, pc, m, Running(pc', m')) else StepsTo(code, w, pc, m, Ended(o1))
    requires if o2 == Aborted then exists pc', m' :: StepsTo(code, w, pc, m, Running(pc', m')) else StepsTo(code, w, pc, m, Ended(o2))
    ensures o1 == o2
  {
    var c1 := if o1 != Aborted then Ended(o1) else var pc', m' :| StepsTo(code, w, pc, m, Running(pc', m')); Running(pc', m');
    var c2 := if o2 != Aborted then Ended(o2) else var pc', m' :| StepsTo(code, w, pc, m, Running(pc', m')); Running(pc', m');
    StepsOnce(code, w, pc, m, c1, c2);
  }

  /** A step that goes on is inside the code, and moves the program counter as the code allows. */
  lemma StepMoves<M>(code: Bytes, w: World<M>, pc: nat, m: Machine<M>, pc': nat, m': Machine<M>)
    requires StepsTo(code, w, pc, m, Running(pc', m'))
    ensures pc < |code| && Moves(code, pc, pc')
  {
  }

  lemma {:induction false} RunsMore<M>(code: Bytes, w: World<M>, m0: Machine<M>, pcs: seq<nat>, ms: seq<Machine<M>>, pc: nat, m: Machine<M>)
    requires Runs(code, w, m0, pcs, ms)
    requires if pcs == [] then pc == 0 && m == m0 else StepsTo(code, w, pcs[|pcs| - 1], ms[|ms| - 1], Running(pc, m))
    ensures Runs(code, w, m0, pcs + [pc], ms + [m])
  {
  }

  /** The loop of Run, until it ends or the abort flag is raised after `budget` instructions. */
  method RunLoop<M(!new)>(code: Bytes, codeHash: Hash, jumpdests: Destinations, w: World<M>, m0: Machine<M>, budget: nat)
    returns (outcome: Outcome<M>, pcs: seq<nat>, ghost ms: seq<Machine<M>>)
    requires jumpdests.Valid() && |code| <= Two64 / 4
    requires codeHash in jumpdests.bitmaps ==> jumpdests.codes[codeHash] == code
    modifies jumpdests
    ensures jumpdests.Valid() && RunsTo(code, w, m0, budget, pcs, ms, outcome)
    ensures Trace(code, pcs) && forall pc :: pc in pcs ==> pc + 33 < Two64
  {
    pcs, ms := [], [];
    if |code| == 0 { return Stopped(m0), pcs, ms; }
    var pc: nat, m, n := 0, m0, 0;
    TraceBegins(code);
    assert pcs + [pc] == [0];
    while n < budget
      invariant jumpdests.Valid() && (codeHash in jumpdests.bitmaps ==> jumpdests.codes[codeHash] == code)
      invariant n == |pcs| <= budget && pc <= |code| + 33
      invariant Runs(code, w, m0, pcs, ms)
      invariant if pcs == [] then pc == 0 && m == m0 else StepsTo(code, w, pcs[|pcs| - 1], ms[|ms| - 1], Running(pc, m))
      invariant Trace(code, pcs + [pc])
      invariant forall x :: x in pcs ==> x + 33 < Two64
    {
      ghost var visited := pcs;
      RunsMore(code, w, m0, pcs, ms, pc, m);
      pcs, ms, n := pcs + [pc], ms + [m], n + 1;
      var c := Step(code, codeHash, jumpdests, w, pc, m);
      if c.Ended? { return c.outcome, pcs, ms; }
      StepMoves(code, w, pc, m, c.pc, c.machine);
      StartsStay(code, pc, c.pc);
      TraceNext(code, visited, pc, c.pc);
      pc, m := c.pc, c.machine;
    }
    assert (pcs + [pc])[..|pcs|] == pcs;
    return Aborted, pcs, ms;
  }

  /** One turn of the loop. */
  method Step<M>(code: Bytes, codeHash: Hash, jumpdests: Destinations, w: World<M>, pc: nat, m: Machine<M>) returns (c: Config<M>)
    requires jumpdests.Valid() && 0 < |code| <= Two64 / 4
    requires codeHash in jumpdests.bitmaps ==> jumpdests.codes[codeHash] == code
    modifies jumpdests
    ensures jumpdests.Valid() && (codeHash in jumpdests.bitmaps ==> jumpdests.codes[codeHash] == code)
    ensures StepsTo(code, w, pc, m, c) && c != Ended(Aborted)
  {
    var op := GetOp(code, pc);
    var charged := w.charge(op, m.stack, m.rest);
    if charged.None? { return Ended(Failed); }
    var m1 := m.(rest := charged.value);
    if op == JUMP || op == JUMPI {
      var taken, next, m' := Jump(code, codeHash, jumpdests, op, pc, m1);
      if !taken { return Ended(Failed); }
      return Running(next, m');
    } else if IsPush(op) {
      var size := Length(op) - 1;
      PushDataIs(code, pc, size);
      return Running(pc + size + 1, m1.(stack := m1.stack + [WordOf(PushData(code, pc, size))]));
    }
    var done := w.operate(pc, op, m1.stack, m1.rest);
    if done.None? { return Ended(Failed); }
    var m' := Machine(done.value.0, done.value.1);
    if op == REVERT { return Ended(Reverted(m')); }
    if Halts(op) { return Ended(Stopped(m')); }
    return Running(pc + 1, m');
  }

  lemma TraceBegins(code: Bytes)
    ensures Trace(code, [0])
  {
    var pcs: seq<nat> := [0];
    assert pcs[..|pcs| - 1] == [] && Trace(code, []) && IsStart(code, 0);
    assert Trace(code, pcs);
  }

  lemma TraceNext(code: Bytes, pcs: seq<nat>, pc: nat, next: nat)
    requires Trace(code, pcs + [pc]) && IsStart(code, next) && pc < |code| && Moves(code, pc, next)
    ensures Trace(code, pcs + [pc] + [next])
  {
    assert (pcs + [pc] + [next])[..|pcs| + 1] == pcs + [pc];
  }

  /** JUMP and JUMPI. */
  method Jump<M>(code: Bytes, codeHash: Hash, jumpdests: Destinations, op: Byte, pc: nat, m: Machine<M>)
    returns (ok: bool, next: nat, m': Machine<M>)
    requires op == JUMP || op == JUMPI
    requires jumpdests.Valid() && 0 < |code| <= Two64 / 4
    requires codeHash in jumpdests.bitmaps ==> jumpdests.codes[codeHash] == code
    modifies jumpdests
    ensures jumpdests.Valid() && (codeHash in jumpdests.bitmaps ==> jumpdests.codes[codeHash] == code)
    ensures JumpsTo(code, op, pc, m, if ok then Running(next, m') else Ended(Failed))
  {
    var pops := if op == JUMP then 1 else 2;
    if |m.stack| < pops { return false, pc, m; }
    var dest := m.stack[|m.stack| - 1];
    m' := m.(stack := m.stack[..|m.stack| - pops]);
    if op == JUMPI && m.stack[|m.stack| - 2] == 0 { return true, pc + 1, m'; }
    ok := jumpdests.Has(codeHash, code, dest);
    next := dest % Two64;
  }
}
