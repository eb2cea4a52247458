/**
  Gas for memory and for calls (vm/gas_table.go, vm/gas.go, vm/contract.go), in
  64-bit arithmetic that may wrap.
 */
module Gas {
  import opened Hex
  import opened Blocks

  const Two64: nat := MaxUint64 + 1
  const MemoryGas: nat := 3
  const QuadCoeffDiv: nat := 512
  const MaxMemory: nat := 0xffffffffe0
  const CallNewAccountGas: nat := 25000
  const CallValueTransferGas: nat := 9000
  const CallStipend: nat := 2300

  function Wrap(n: int): Uint64 {
    n % Two64
  }

  function ToWordSize(size: Uint64): (w: Uint64)
    ensures w * 32 >= size && (size <= MaxUint64 - 31 ==> w * 32 < size + 32)
  {
    if size > MaxUint64 - 31 then MaxUint64 / 32 + 1 else (size + 31) / 32
  }

  /** The fee for w words, without bounds: Appendix H of the Yellow Paper. */
  function Fee(w: nat): nat {
    MemoryGas * w + w * w / QuadCoeffDiv
  }

  /** The fee for w words as it is computed. */
  function TotalFee(w: Uint64): Uint64 {
    var square := Wrap(w * w);
    var linCoef := Wrap(w * MemoryGas);
    var quadCoef := square / QuadCoeffDiv;
    Wrap(linCoef + quadCoef)
  }

  /** The two agree exactly below 2^32 words, although larger memories are let through. */
  lemma FeeIsExact(w: Uint64)
    requires w * 32 <= MaxMemory
    ensures TotalFee(w) == Fee(w) <==> w < 0x1_0000_0000
  {
    if w < 0x1_0000_0000 { SquareBelow(w, 0xFFFF_FFFF); } else { SquareAbove(w); }
    FeeOfSquare(w, w * w);
  }

  lemma FeeOfSquare(w: nat, s: nat)
    requires w < 0x8_0000_0000
    ensures Wrap(Wrap(w * MemoryGas) + Wrap(s) / QuadCoeffDiv) == MemoryGas * w + s / QuadCoeffDiv <==> s < Two64
  {
    WrapSmall(w * MemoryGas);
    WrapDown(s);
    WrapSmall(w * MemoryGas + Wrap(s) / QuadCoeffDiv);
  }

  lemma WrapSmall(n: nat)
    requires n < Two64
    ensures Wrap(n) == n
  {
  }

  lemma WrapDown(s: nat)
    ensures s < Two64 ==> Wrap(s) == s
    ensures s >= Two64 ==> Wrap(s) / QuadCoeffDiv < s / QuadCoeffDiv
  {
    if s >= Two64 {
      assert Wrap(s) + Two64 <= s;
      assert Two64 == QuadCoeffDiv * 0x80_0000_0000_0000;
    }
  }

  lemma SquareBelow(w: nat, m: nat)
    requires w <= m
    ensures w * w <= m * m
  {
    assert w * w <= w * m <= m * m;
  }

  lemma SquareAbove(w: nat)
    requires w >= 0x1_0000_0000
    ensures w * w >= Two64
  {
    assert w * w >= 0x1_0000_0000 * w;
  }

  /** If the wrapped difference can be paid from gas that was not spent on the last fee, it did not wrap. */
  lemma PaidDifference(gas: Uint64, last: Uint64, total: Uint64)
    requires gas + last <= MaxUint64 && Wrap(total - last) <= gas
    ensures Wrap(total - last) == total - last
  {
    if total >= last { WrapSmall(total - last); }
  }

  /** A wrapped difference can be paid from such gas exactly if it did not wrap and is not too large. */
  lemma PayableDifference(gas: Uint64, last: Uint64, total: Uint64, cost: Uint64)
    requires gas + last <= MaxUint64
    ensures Wrap(total - last) + cost <= gas <==> last <= total && total - last + cost <= gas
  {
    if total >= last { WrapSmall(total - last); } else { WrapSmall(total - last + Two64); }
  }

  /** Whole words do not take a size over the guard, nor change the number of words. */
  lemma WholeWords(size: Uint64)
    ensures ToWordSize(size) * 32 <= MaxMemory <==> size <= MaxMemory
    ensures ToWordSize(size) * 32 <= MaxUint64 ==> ToWordSize(ToWordSize(size) * 32) == ToWordSize(size)
  {
  }

  // ----- memory -----

  /** A memory of some whole words, with the fee computed for it. */
  class Memory {
    var length: nat
    var lastGasCost: Uint64

    ghost predicate Valid()
      reads this
    {
      length % 32 == 0 && length <= MaxMemory && lastGasCost == TotalFee(length / 32)
    }

    constructor ()
      ensures Valid() && length == 0
    {
      length, lastGasCost := 0, 0;
    }

    /** memoryGasCost: the fee for growing, charged against what was paid before. */
    method GasCost(newMemSize: Uint64) returns (fee: Option<Uint64>)
      requires Valid()
      modifies `lastGasCost
      ensures fee.None? <==> newMemSize > MaxMemory
      ensures fee.None? ==> lastGasCost == old(lastGasCost)
      ensures fee.Some? ==>
                && Words(newMemSize) * 32 <= MaxMemory && lastGasCost == TotalFee(Words(newMemSize))
                && fee.value == Wrap(lastGasCost - old(lastGasCost))
    {
      if newMemSize == 0 { return Some(0); }
      if newMemSize > MaxMemory { return None; }
      var newMemSizeWords := ToWordSize(newMemSize);
      assert Wrap(newMemSizeWords * 32) == newMemSizeWords * 32;
      if Wrap(newMemSizeWords * 32) > length {
        fee := Some(Wrap(TotalFee(newMemSizeWords) - lastGasCost));
        lastGasCost := TotalFee(newMemSizeWords);
        return fee;
      }
      return Some(0);
    }

    /** The words a memory has after growing to a size. */
    function Words(newMemSize: Uint64): nat
      reads this
    {
      if ToWordSize(newMemSize) * 32 > length then ToWordSize(newMemSize) else length / 32
    }

    /** As a 64-bit number, where the fee is computed. */
    function NewWords(newMemSize: Uint64): Uint64
      requires newMemSize <= MaxMemory && length <= MaxMemory
      reads this
    {
      Words(newMemSize)
    }

    method Resize(size: nat)
      modifies `length
      ensures length == if old(length) < size then size else old(length)
    {
      if length < size { length := size; }
    }
  }

  // ----- contracts -----

  class Contract {
    var gas: Uint64

    constructor (gas: Uint64)
      ensures this.gas == gas
    {
      this.gas := gas;
    }

    method UseGas(amount: Uint64) returns (ok: bool)
      modifies this
      ensures ok <==> amount <= old(gas)
      ensures gas == if ok then old(gas) - amount else old(gas)
    {
      if gas < amount { return false; }
      gas := gas - amount;
      return true;
    }
  }

  /** An instruction: what it costs besides memory, and the memory it touches. */
  datatype Touch = Touch(cost: Uint64, memSize: Uint64)

  function Costs(ts: seq<Touch>): nat {
    if ts == [] then 0 else Costs(ts[..|ts| - 1]) + ts[|ts| - 1].cost
  }

  /** The words of the largest memory touched. */
  function Touched(ts: seq<Touch>): nat {
    if ts == [] then 0
    else
      var before, last := Touched(ts[..|ts| - 1]), ToWordSize(ts[|ts| - 1].memSize);
      if last > before then last else before
  }

  /** After n instructions: no memory was too large, the computed fee did not fall, and there is gas for all. */
  ghost predicate PayableAt(ts: seq<Touch>, gas: nat, n: nat)
    requires 0 < n <= |ts|
  {
    && ts[n - 1].memSize <= MaxMemory
    && var before, after := Touched(ts[..n - 1]), Touched(ts[..n]);
       before <= MaxUint64 && after <= MaxUint64 && TotalFee(before) <= TotalFee(after) && Costs(ts[..n]) + TotalFee(after) <= gas
  }

  ghost predicate PayableTo(ts: seq<Touch>, gas: nat, n: nat)
    requires n <= |ts|
  {
    forall i :: 0 < i <= n ==> PayableAt(ts, gas, i)
  }

  lemma {:induction false} TouchedCovers(ts: seq<Touch>, t: Touch)
    requires t in ts
    ensures t.memSize <= 32 * Touched(ts)
    decreases |ts|
  {
    if t != ts[|ts| - 1] { TouchedCovers(ts[..|ts| - 1], t); }
  }

  /**
    The charges of the interpreter loop: they succeed exactly if there is gas for every
    instruction on the way, and come to all costs and the fee for the memory there is in
    the end, whatever its size.
   */
  method ChargeAll(contract: Contract, mem: Memory, ts: seq<Touch>) returns (ok: bool)
    requires mem.Valid() && mem.length == 0
    modifies contract, mem
    ensures ok <==> PayableTo(ts, old(contract.gas), |ts|)
    ensures ok ==> mem.Valid() && contract.gas + Costs(ts) + TotalFee(mem.length / 32) == old(contract.gas)
    ensures ok ==> mem.length == 32 * Touched(ts) && forall t :: t in ts ==> t.memSize <= mem.length
    ensures ok ==> (contract.gas + Costs(ts) + Fee(mem.length / 32) == old(contract.gas) <==> mem.length / 32 < 0x1_0000_0000)
  {
    var i := 0;
    while i < |ts|
      invariant 0 <= i <= |ts| && mem.Valid() && PayableTo(ts, old(contract.gas), i)
      invariant contract.gas + Costs(ts[..i]) + mem.lastGasCost == old(contract.gas) && mem.length == 32 * Touched(ts[..i])
    {
      ok := ChargeAt(contract, mem, ts, i, old(contract.gas));
      if !ok { return false; }
      i := i + 1;
    }
    assert ts[..|ts|] == ts;
    forall t | t in ts ensures t.memSize <= mem.length { TouchedCovers(ts, t); }
    FeeIsExact(mem.length / 32);
    return true;
  }

  /** Instruction i, after those before it. */
  method ChargeAt(contract: Contract, mem: Memory, ts: seq<Touch>, i: nat, ghost gas: Uint64) returns (ok: bool)
    requires mem.Valid() && i < |ts|
    requires contract.gas + Costs(ts[..i]) + mem.lastGasCost == gas && mem.length == 32 * Touched(ts[..i])
    modifies contract, mem
    ensures ok <==> PayableAt(ts, gas, i + 1)
    ensures ok ==> mem.Valid() && contract.gas + Costs(ts[..i + 1]) + mem.lastGasCost == gas && mem.length == 32 * Touched(ts[..i + 1])
  {
    assert ts[..i + 1][..i] == ts[..i];
    ok := ChargeOne(contract, mem, ts[i]);
  }

  /** One charge; what was spent on memory before is not there to be spent again. */
  method ChargeOne(contract: Contract, mem: Memory, t: Touch) returns (ok: bool)
    requires mem.Valid() && contract.gas + mem.lastGasCost <= MaxUint64
    modifies contract, mem
    ensures ok ==> mem.Valid() && mem.length >= old(mem.length) && mem.length >= t.memSize
    ensures ok ==> contract.gas + t.cost + mem.lastGasCost == old(contract.gas) + old(mem.lastGasCost)
    ensures ok ==> mem.length == if ToWordSize(t.memSize) * 32 > old(mem.length) then ToWordSize(t.memSize) * 32 else old(mem.length)
    ensures ok <==> t.memSize <= MaxMemory &&
                    var fee := TotalFee(if ToWordSize(t.memSize) * 32 > old(mem.length) then ToWordSize(t.memSize) else old(mem.length) / 32);
                    old(mem.lastGasCost) <= fee && t.cost + fee - old(mem.lastGasCost) <= old(contract.gas)
  {
    WholeWords(t.memSize);
    if ToWordSize(t.memSize) * 32 > MaxUint64 { return false; }
    var memorySize := ToWordSize(t.memSize) * 32;
    ghost var words := mem.Words(memorySize);
    var fee := mem.GasCost(memorySize);
    if fee.Some? { PayableDifference(contract.gas, old(mem.lastGasCost), mem.lastGasCost, t.cost); }
    if fee.None? || fee.value + t.cost > MaxUint64 { return false; }
    ok := contract.UseGas(fee.value + t.cost);
    if !ok { return false; }
    PaidDifference(old(contract.gas), old(mem.lastGasCost), mem.lastGasCost);
    if memorySize > 0 { mem.Resize(memorySize); }
    assert mem.length / 32 == words;
  }

  // ----- calls -----

  datatype GasTable = GasTable(calls: Uint64, createBySuicide: Uint64)

  /** callGas; the subtraction wraps when base exceeds what is available. */
  function CallGas(table: GasTable, available: Uint64, base: Uint64, requested: nat): Option<Uint64> {
    var left := Wrap(available - base);
    var gas := left - left / 64;
    if table.createBySuicide > 0 && gas < requested then Some(gas)
    else if requested > MaxUint64 then None
    else Some(requested)
  }

  /** All but one 64th: EIP-150. */
  function AllButOne64th(n: nat): nat {
    n - n / 64
  }

  /** If base and forwarded gas can be paid, then nothing wrapped and the caller keeps its share. */
  lemma ForwardedGas(table: GasTable, available: Uint64, base: Uint64, requested: nat, forwarded: Uint64)
    requires table.createBySuicide > 0 && CallGas(table, available, base, requested) == Some(forwarded)
    requires base + forwarded <= available
    ensures forwarded == if requested < AllButOne64th(available - base) then requested else AllButOne64th(available - base)
  {
    WrapSmall(available - base);
  }

  /** If base alone cannot be paid, then the charge fails, whatever the wrapped subtraction gave. */
  lemma UnpayableBase(table: GasTable, available: Uint64, base: Uint64, requested: nat)
    requires base > available
    ensures match CallGas(table, available, base, requested)
            case None => true
            case Some(forwarded) => base + forwarded > available
  {
  }

  /** Without the cap, what is requested is forwarded as long as it is a 64-bit number. */
  lemma UncappedCall(table: GasTable, available: Uint64, base: Uint64, requested: nat)
    requires table.createBySuicide == 0
    ensures CallGas(table, available, base, requested) == if requested <= MaxUint64 then Some(requested) else None
  {
  }

  datatype CallKind = CallKind(toNewAccount: bool, transfersValue: bool)

  function CallBase(table: GasTable, kind: CallKind): nat {
    table.calls + (if kind.toNewAccount then CallNewAccountGas else 0) + (if kind.transfersValue then CallValueTransferGas else 0)
  }

  /** The charge of a call, and the gas set aside for the callee. */
  method GasCall(table: GasTable, contract: Contract, mem: Memory, memorySize: Uint64, requested: nat, kind: CallKind)
    returns (cost: Option<Uint64>, callGasTemp: Uint64)
    requires mem.Valid() && CallBase(table, kind) <= MaxUint64
    modifies mem`lastGasCost
    ensures cost.Some? <==>
              && memorySize <= MaxMemory
              && var base := CallBase(table, kind) + Wrap(TotalFee(mem.NewWords(memorySize)) - old(mem.lastGasCost));
                 base <= MaxUint64 && var forwarded := CallGas(table, contract.gas, base, requested);
                 forwarded.Some? && base + forwarded.value <= MaxUint64
    ensures cost.Some? ==>
              && memorySize <= MaxMemory && mem.lastGasCost == TotalFee(mem.Words(memorySize))
              && mem.Words(memorySize) * 32 <= MaxMemory
              && var base := CallBase(table, kind) + Wrap(mem.lastGasCost - old(mem.lastGasCost));
                 && base <= MaxUint64 && Some(callGasTemp) == CallGas(table, contract.gas, base, requested)
                 && cost.value == base + callGasTemp
  {
    var gas: Uint64 := CallBase(table, kind);
    callGasTemp := 0;
    var memoryGas := mem.GasCost(memorySize);
    if memoryGas.None? || gas + memoryGas.value > MaxUint64 { return None, callGasTemp; }
    gas := gas + memoryGas.value;
    var forwarded := CallGas(table, contract.gas, gas, requested);
    if forwarded.None? { return None, callGasTemp; }
    callGasTemp := forwarded.value;
    if gas + callGasTemp > MaxUint64 { return None, callGasTemp; }
    return Some(gas + callGasTemp), callGasTemp;
  }

  /** What a call leaves of the caller's gas before anything is forwarded. */
  ghost function AfterBase(table: GasTable, kind: CallKind, gas: nat, words: nat, newWords: nat): int
    requires words <= MaxUint64 && newWords <= MaxUint64
  {
    gas - CallBase(table, kind) - (TotalFee(newWords) - TotalFee(words))
  }

  /** The computed memory fee does not fall, and can be paid along with the base cost. */
  ghost predicate Affordable(table: GasTable, kind: CallKind, gas: nat, words: nat, newWords: nat)
    requires words <= MaxUint64 && newWords <= MaxUint64
  {
    TotalFee(words) <= TotalFee(newWords) && CallBase(table, kind) + TotalFee(newWords) - TotalFee(words) <= gas
  }

  function Lesser(a: nat, b: nat): nat {
    if a < b then a else b
  }

  /** The charge of a call, base and forwarded gas, is computed and can be paid. */
  ghost predicate Charges(table: GasTable, gas: Uint64, base: nat, requested: nat) {
    && base <= MaxUint64
    && var forwarded := CallGas(table, gas, base, requested);
       forwarded.Some? && base + forwarded.value <= gas
  }

  /** Whatever is requested, that is so exactly if the base can be paid. */
  lemma ChargesIff(table: GasTable, gas: Uint64, base: nat, requested: nat)
    requires table.createBySuicide > 0
    ensures Charges(table, gas, base, requested) <==> base <= gas
  {
    if base <= gas { WrapSmall(gas - base); } else if base <= MaxUint64 { UnpayableBase(table, gas, base, requested); }
  }

  lemma AffordableIff(table: GasTable, kind: CallKind, gas: Uint64, words: Uint64, newWords: Uint64)
    requires gas + TotalFee(words) <= MaxUint64 && CallBase(table, kind) <= MaxUint64
    ensures Affordable(table, kind, gas, words, newWords) <==> CallBase(table, kind) + Wrap(TotalFee(newWords) - TotalFee(words)) <= gas
  {
    PayableDifference(gas, TotalFee(words), TotalFee(newWords), CallBase(table, kind));
  }

  lemma CallCharged(table: GasTable, kind: CallKind, gas: Uint64, words: Uint64, newWords: Uint64, requested: nat, base: Uint64, forwarded: Uint64)
    requires table.createBySuicide > 0 && gas + TotalFee(words) <= MaxUint64 && CallBase(table, kind) <= MaxUint64
    requires base == CallBase(table, kind) + Wrap(TotalFee(newWords) - TotalFee(words)) && base + forwarded <= gas
    requires CallGas(table, gas, base, requested) == Some(forwarded)
    ensures var rest := AfterBase(table, kind, gas, words, newWords);
            rest == gas - base && forwarded == Lesser(requested, AllButOne64th(rest))
  {
    PaidDifference(gas, TotalFee(words), TotalFee(newWords));
    ForwardedGas(table, gas, base, requested, forwarded);
  }

  /** Charge a call: the caller keeps a 64th of what the base cost leaves. */
  method ChargeCall(table: GasTable, contract: Contract, mem: Memory, memorySize: Uint64, requested: nat, kind: CallKind)
    returns (ok: bool, callGasTemp: Uint64)
    requires table.createBySuicide > 0 && CallBase(table, kind) <= MaxUint64
    requires mem.Valid() && contract.gas + mem.lastGasCost <= MaxUint64
    modifies contract, mem
    ensures !ok ==> contract.gas == old(contract.gas)
    ensures ok <==> memorySize <= MaxMemory && Affordable(table, kind, old(contract.gas), old(mem.length) / 32, old(mem.NewWords(memorySize)))
    ensures ok ==>
              && mem.Valid() && mem.length >= old(mem.length) && mem.length / 32 == old(mem.NewWords(memorySize))
              && var rest := AfterBase(table, kind, old(contract.gas), old(mem.length) / 32, mem.length / 32);
                 && 0 <= rest <= old(contract.gas) - CallBase(table, kind)
                 && callGasTemp == Lesser(requested, AllButOne64th(rest)) && contract.gas == rest - callGasTemp
  {
    ghost var newWords := mem.Words(memorySize);
    ghost var before, last := contract.gas, mem.lastGasCost;
    if memorySize <= MaxMemory {
      AffordableIff(table, kind, before, mem.length / 32, newWords);
      ChargesIff(table, before, CallBase(table, kind) + Wrap(TotalFee(newWords) - last), requested);
    }
    var cost;
    cost, callGasTemp := GasCall(table, contract, mem, memorySize, requested, kind);
    if cost.None? { return false, callGasTemp; }
    ok := contract.UseGas(cost.value);
    if !ok { return false, callGasTemp; }
    CallCharged(table, kind, before, old(mem.length) / 32, newWords, requested, cost.value - callGasTemp, callGasTemp);
    mem.Resize(ToWordSize(memorySize) * 32);
    assert mem.length / 32 == newWords;
  }

  /**
    A call from charge to return, with a callee that returns no more than it is
    given: no sum wraps, and gas and memory fee together never grow.
   */
  method OpCall(table: GasTable, contract: Contract, mem: Memory, memorySize: Uint64, requested: nat, kind: CallKind, callee: Uint64 -> Uint64)
    returns (ok: bool, forwarded: Uint64)
    requires table.createBySuicide > 0 && CallBase(table, kind) <= MaxUint64
    requires mem.Valid() && contract.gas + mem.lastGasCost <= MaxUint64
    requires forall g: Uint64 :: callee(g) <= g
    modifies contract, mem
    ensures contract.gas <= old(contract.gas)
    ensures ok <==> memorySize <= MaxMemory && Affordable(table, kind, old(contract.gas), old(mem.length) / 32, old(mem.NewWords(memorySize)))
    ensures ok ==>
              && mem.Valid() && contract.gas + mem.lastGasCost <= old(contract.gas) + old(mem.lastGasCost)
              && var rest := AfterBase(table, kind, old(contract.gas), old(mem.length) / 32, mem.length / 32);
                 var stipend := if kind.transfersValue then CallStipend else 0;
                 && rest >= 0
                 && forwarded == Lesser(requested, AllButOne64th(rest)) + stipend
                 && contract.gas == rest - (forwarded - stipend) + callee(forwarded)
  {
    var callGasTemp;
    forwarded := 0;
    ok, callGasTemp := ChargeCall(table, contract, mem, memorySize, requested, kind);
    if !ok { return; }
    forwarded := Wrap(callGasTemp + if kind.transfersValue then CallStipend else 0);
    WrapSmall(callGasTemp + if kind.transfersValue then CallStipend else 0);
    var returned := callee(forwarded);
    WrapSmall(contract.gas + returned);
    contract.gas := Wrap(contract.gas + returned);
  }
}
