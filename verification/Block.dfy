/** Transactions, headers, and the block gas limit (tx/, block/gas_limit.go). */
module Blocks {
  import opened Hex
  import opened Rlp

  const MaxUint64: nat := 0xFFFF_FFFF_FFFF_FFFF
  const MinGasLimit: nat := 1_000_000
  const GasLimitBoundDivisor: nat := 1024
  const TxGas: nat := 5000
  const ClauseGas: nat := 16000
  const BlockInterval: nat := 10

  type Uint64 = n: nat | n <= MaxUint64
  type Id = Hash
  type Address = Bytes

  /** uint64 addition. */
  function Add64(a: Uint64, b: Uint64): (r: Uint64)
    ensures r == if a + b <= MaxUint64 then a + b else a + b - MaxUint64 - 1
  {
    (a + b) % (MaxUint64 + 1)
  }

  datatype Tx = Tx(
    id: Id, origin: Option<Address>, chainTag: nat, refNumber: nat, expiration: nat, gas: Uint64,
    dependsOn: Option<Id>, features: set<nat>, unusedReserved: bool)

  datatype Receipt = Receipt(gasUsed: Uint64, reverted: bool, outputs: Bytes)

  predicate IsExpired(tx: Tx, number: nat) {
    number > tx.refNumber + tx.expiration
  }

  /** TestFeatures succeeds. */
  predicate Compatible(tx: Tx, supported: set<nat>) {
    tx.features <= supported && !tx.unusedReserved
  }

  datatype Header = Header(
    parentID: Id, number: nat, timestamp: Uint64, gasLimit: Uint64, beneficiary: Address, gasUsed: Uint64,
    totalScore: Uint64, txsRoot: Hash, features: set<nat>, stateRoot: Hash, receiptsRoot: Hash, signer: Option<Address>)

  datatype Block = Block(header: Header, txs: seq<Tx>)

  // ----- gas limit -----

  function Min(a: Uint64, b: Uint64): Uint64 {
    if a > b then b else a
  }

  function Distance(a: int, b: int): nat {
    if a > b then a - b else b - a
  }

  predicate IsValidLimit(limit: Uint64, parent: Uint64) {
    limit >= MinGasLimit && Distance(limit, parent) <= parent / GasLimitBoundDivisor
  }

  /** Adjust: of all valid limits, the one nearest to what is asked for. */
  function Adjust(limit: Uint64, delta: int): (r: Uint64)
    requires -0x8000_0000_0000_0000 <= delta < 0x8000_0000_0000_0000
    ensures limit >= MinGasLimit ==> IsValidLimit(r, limit)
    ensures limit >= MinGasLimit ==>
              forall other: Uint64 :: IsValidLimit(other, limit) ==> Distance(r, limit + delta) <= Distance(other, limit + delta)
  {
    var maxDiff := limit / GasLimitBoundDivisor;
    if delta > 0 then
      var diff := Min(delta, maxDiff);
      if MaxUint64 - diff < limit then MaxUint64 else limit + diff
    else
      var diff := Min(-delta, maxDiff);
      if Add64(MinGasLimit, diff) > limit then MinGasLimit else limit - diff
  }

  /** Qualify. */
  function Qualify(limit: Uint64, parent: Uint64): Uint64 {
    var maxDiff := parent / GasLimitBoundDivisor;
    if limit > parent then Adjust(parent, Min(limit - parent, maxDiff)) else Adjust(parent, 0 - Min(parent - limit, maxDiff))
  }

  /** Packer.gasLimit: follow the parent, or approach a target. */
  function PackedLimit(target: Uint64, parent: Uint64): Uint64 {
    if target != 0 then Qualify(target, parent) else parent
  }

  /** The packed limit passes the check, and is the valid value nearest the target. */
  lemma PackedLimitIsValid(target: Uint64, parent: Uint64, other: Uint64)
    requires parent >= MinGasLimit
    ensures IsValidLimit(PackedLimit(target, parent), parent)
    ensures target == 0 ==> PackedLimit(target, parent) == parent
    ensures target != 0 && IsValidLimit(other, parent) ==> Distance(PackedLimit(target, parent), target) <= Distance(other, target)
  {
    assert parent / GasLimitBoundDivisor < 0x8000_0000_0000_0000;
  }
}
