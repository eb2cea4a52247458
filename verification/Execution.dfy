/**
  Executing a transaction (runtime/runtime.go, runtime/resolved_tx.go,
  tx/transaction.go): intrinsic gas, who prepays, what is returned, and the reward.
 */
module Execution {
  import opened Hex
  import opened Blocks

  const TxDataZeroGas: nat := 4
  const TxDataNonZeroGas: nat := 68
  const ClauseGasContractCreation: nat := 48000
  const E18: nat := 1_000_000_000_000_000_000

  datatype Clause = Clause(to: Option<Address>, value: nat, data: Bytes)

  // ----- intrinsic gas -----

  /** The gas for data, without bounds. */
  function DataGas(data: Bytes): nat {
    if data == [] then 0
    else DataGas(data[..|data| - 1]) + if data[|data| - 1] == 0 then TxDataZeroGas else TxDataNonZeroGas
  }

  function ClausesGas(cs: seq<Clause>): nat {
    if cs == [] then 0
    else
      var c := cs[|cs| - 1];
      ClausesGas(cs[..|cs| - 1]) + DataGas(c.data) + if c.to.None? then ClauseGasContractCreation else ClauseGas
  }

  /** The intrinsic gas, without bounds. */
  function Intrinsic(cs: seq<Clause>): nat {
    TxGas + if cs == [] then ClauseGas else ClausesGas(cs)
  }

  /** Four gas for each zero byte and 68 for each other. */
  lemma {:induction false} DataGasIs(data: Bytes)
    ensures DataGas(data) == 4 * multiset(data)[0] + 68 * (|data| - multiset(data)[0])
    decreases |data|
  {
    if data != [] {
      assert data == data[..|data| - 1] + [data[|data| - 1]];
      DataGasIs(data[..|data| - 1]);
    }
  }

  /** The data of all clauses together. */
  function AllData(cs: seq<Clause>): Bytes {
    if cs == [] then [] else AllData(cs[..|cs| - 1]) + cs[|cs| - 1].data
  }

  /** The clauses that create a contract. */
  function Creations(cs: seq<Clause>): set<nat> {
    set i: nat | i < |cs| && cs[i].to.None?
  }

  lemma {:induction false} DataGasAdds(a: Bytes, b: Bytes)
    ensures DataGas(a + b) == DataGas(a) + DataGas(b)
  {
    DataGasIs(a);
    DataGasIs(b);
    DataGasIs(a + b);
  }

  lemma CreationsMore(cs: seq<Clause>)
    requires cs != []
    ensures |Creations(cs)| == |Creations(cs[..|cs| - 1])| + if cs[|cs| - 1].to.None? then 1 else 0
  {
    var n := |cs| - 1;
    assert Creations(cs) == Creations(cs[..n]) + if cs[n].to.None? then {n} else {};
  }

  lemma {:induction false} ClausesGasIs(cs: seq<Clause>)
    ensures ClausesGas(cs) == DataGas(AllData(cs)) + 16000 * |cs| + 32000 * |Creations(cs)|
    decreases |cs|
  {
    if cs != [] {
      var front := cs[..|cs| - 1];
      ClausesGasIs(front);
      CreationsMore(cs);
      DataGasAdds(AllData(front), cs[|cs| - 1].data);
    } else {
      assert Creations(cs) == {};
    }
  }

  /** 5000 gas, and for each clause 16000, 32000 more if it creates a contract, and that of its data; no clauses count as one. */
  lemma {:induction false} IntrinsicIs(cs: seq<Clause>)
    ensures var zeros := multiset(AllData(cs))[0];
            Intrinsic(cs) == 5000 + 16000 * (if cs == [] then 1 else |cs|) + 32000 * |Creations(cs)|
                             + 4 * zeros + 68 * (|AllData(cs)| - zeros)
  {
    ClausesGasIs(cs);
    DataGasIs(AllData(cs));
    if cs == [] { assert Creations(cs) == {}; }
  }

  function InRange(n: nat): Option<Uint64> {
    if n <= MaxUint64 then Some(n) else None
  }

  /** dataGas counts, multiplies and adds; None is an overflow. */
  method DataGas64(data: Bytes) returns (r: Option<Uint64>)
    requires |data| <= MaxUint64
    ensures r == InRange(DataGas(data))
  {
    var z, nz := 0, 0;
    var i := 0;
    while i < |data|
      invariant 0 <= i <= |data| && z + nz == i && TxDataZeroGas * z + TxDataNonZeroGas * nz == DataGas(data[..i])
    {
      assert data[..i + 1][..i] == data[..i];
      if data[i] == 0 { z := z + 1; } else { nz := nz + 1; }
      i := i + 1;
    }
    assert data[..|data|] == data;
    var zgas, nzgas := InRange(TxDataZeroGas * z), InRange(TxDataNonZeroGas * nz);
    if zgas.None? || nzgas.None? { return None; }
    var sum: nat := zgas.value;
    sum := sum + nzgas.value;
    return InRange(sum);
  }

  /** The overflow checks on the way report exactly the sums that do not fit. */
  method IntrinsicGas(cs: seq<Clause>) returns (r: Option<Uint64>)
    requires forall c :: c in cs ==> |c.data| <= MaxUint64
    ensures r == InRange(Intrinsic(cs))
  {
    if |cs| == 0 { return Some(TxGas + ClauseGas); }
    var total: nat := TxGas;
    var i := 0;
    while i < |cs|
      invariant 0 <= i <= |cs| && total == TxGas + ClausesGas(cs[..i]) <= MaxUint64
    {
      var c := cs[i];
      assert cs[..i + 1][..i] == cs[..i];
      ClausesGasGrows(cs, i + 1);
      var gas := DataGas64(c.data);
      if gas.None? || total + gas.value > MaxUint64 { return None; }
      total := total + gas.value;
      var cgas := if c.to.None? then ClauseGasContractCreation else ClauseGas;
      if total + cgas > MaxUint64 { return None; }
      total := total + cgas;
      i := i + 1;
    }
    assert cs[..|cs|] == cs;
    return Some(total);
  }

  lemma {:induction false} ClausesGasGrows(cs: seq<Clause>, n: nat)
    requires n <= |cs|
    ensures ClausesGas(cs[..n]) <= ClausesGas(cs)
    decreases |cs|
  {
    if n == |cs| {
      assert cs[..n] == cs;
    } else {
      ClausesGasGrows(cs[..|cs| - 1], n);
      assert cs[..|cs| - 1][..n] == cs[..n];
    }
  }

  // ----- prices -----

  function GasPrice(base: nat, coef: nat): nat
    requires coef <= 255
  {
    coef * base / 255 + base
  }

  function Share(part: nat, base: nat, gas: nat): nat
    requires gas > 0
  {
    var x: nat := part * base;
    x / gas
  }

  function Pow(b: nat, e: nat): (p: nat)
    ensures b > 0 ==> p > 0
  {
    if e == 0 then 1 else b * Pow(b, e - 1)
  }

  /** The months of blocks up to a number, as proved work counts them. */
  function Months(blockNum: nat): nat {
    blockNum * BlockInterval / 3600 / 24 / 30
  }

  /** What gas is worth after some months: four percent less each month. */
  function Decayed(gas: nat, months: nat): nat {
    gas * Pow(100, months) / Pow(104, months)
  }

  /** workToGas. */
  function WorkToGas(work: nat, blockNum: nat): Uint64 {
    var gas := Decayed(work / 1000, Months(blockNum));
    if gas > MaxUint64 then MaxUint64 else gas
  }

  lemma QuotientBounds(x: nat, d: nat)
    requires d > 0
    ensures x / d * d <= x < x / d * d + d
  {
  }

  lemma Regrouped(q: nat, b: nat)
    ensures q * (104 * b) == 104 * (q * b)
  {
  }

  /** A quotient q of x by d is at most the quotient p of a by b, if x / d is smaller than a / b by a factor. */
  lemma SmallerQuotient(x: nat, d: nat, q: nat, a: nat, b: nat, p: nat)
    requires x == 100 * a && d == 104 * b && q * d <= x && a < p * b + b
    ensures q <= p
  {
    Regrouped(q, b);
    assert q * b <= a;
    if p < q { ProductsGrow(p + 1, q, b); }
    assert (p + 1) * b == p * b + b;
  }

  lemma QuotientLess(x: nat, d: nat, a: nat, b: nat) returns (q: nat, p: nat)
    requires x == 100 * a && d == 104 * b && b > 0
    ensures q <= p && q * d <= x < q * d + d && p * b <= a < p * b + b
  {
    q := Quotient(x, d);
    p := Quotient(a, b);
    SmallerQuotient(x, d, q, a, b, p);
  }

  lemma Quotient(x: nat, d: nat) returns (q: nat)
    requires d > 0
    ensures q * d <= x < q * d + d
  {
    QuotientBounds(x, d);
    q := x / d;
  }

  lemma SameQuotient(x: nat, d: nat, r: nat, q: nat)
    requires r * d <= x < r * d + d && q * d <= x < q * d + d
    ensures r == q
  {
    if r < q {
      ProductsGrow(r + 1, q, d);
    } else if q < r {
      ProductsGrow(q + 1, r, d);
    }
    assert (r + 1) * d == r * d + d && (q + 1) * d == q * d + d;
  }

  lemma QuotientIs(x: nat, d: nat, q: nat)
    requires q * d <= x < q * d + d
    ensures x / d == q
  {
    QuotientBounds(x, d);
    SameQuotient(x, d, x / d, q);
  }

  lemma {:induction false} Powers(gas: nat, months: nat)
    ensures gas * Pow(100, months + 1) == 100 * (gas * Pow(100, months)) && Pow(104, months + 1) == 104 * Pow(104, months)
  {
    Swapped(gas, Pow(100, months));
  }

  lemma Swapped(gas: nat, p: nat)
    ensures gas * (100 * p) == 100 * (gas * p)
  {
  }

  lemma {:induction false} DecaysOnce(gas: nat, months: nat)
    ensures Decayed(gas, months + 1) <= Decayed(gas, months)
  {
    Powers(gas, months);
    var q, p := QuotientLess(gas * Pow(100, months + 1), Pow(104, months + 1), gas * Pow(100, months), Pow(104, months));
    QuotientIs(gas * Pow(100, months + 1), Pow(104, months + 1), q);
    QuotientIs(gas * Pow(100, months), Pow(104, months), p);
  }

  lemma {:induction false} Decays(gas: nat, m: nat, n: nat)
    requires m <= n
    ensures Decayed(gas, n) <= Decayed(gas, m)
    decreases n
  {
    if m < n {
      Decays(gas, m, n - 1);
      DecaysOnce(gas, n - 1);
    }
  }

  /** Work is never worth more at a later block. */
  lemma WorkDecays(work: nat, earlier: nat, later: nat)
    requires earlier <= later
    ensures WorkToGas(work, later) <= WorkToGas(work, earlier)
  {
    Decays(work / 1000, Months(earlier), Months(later));
  }

  /** The price with proved work, worth at most the gas of the transaction. */
  function OverallGasPrice(base: nat, coef: nat, gas: Uint64, workGas: Uint64): nat
    requires coef <= 255 && gas > 0
  {
    if workGas == 0 then GasPrice(base, coef)
    else
      Share(if workGas > gas then gas else workGas, base, gas) + GasPrice(base, coef)
  }

  function Reward(gasUsed: nat, overall: nat, ratio: nat): nat {
    gasUsed * overall * ratio / E18
  }

  lemma OverallAtMostDouble(base: nat, coef: nat, gas: Uint64, workGas: Uint64)
    requires coef <= 255 && gas > 0
    ensures OverallGasPrice(base, coef, gas, workGas) <= 2 * GasPrice(base, coef)
  {
    if workGas != 0 { QuotientAtMost(if workGas > gas then gas else workGas, base, gas); }
  }

  lemma QuotientAtMost(w: nat, base: nat, gas: nat)
    requires w <= gas && gas > 0
    ensures w * base / gas <= base
  {
    var q := w * base / gas;
    assert gas * q <= w * base <= gas * base;
    Cancel(q, base, gas);
  }

  lemma Cancel(q: nat, b: nat, d: nat)
    requires d > 0 && d * q <= d * b
    ensures q <= b
  {
    if b < q { Strict(b, q, d); }
  }

  lemma Strict(b: nat, q: nat, d: nat)
    requires d > 0 && b < q
    ensures d * b < d * q
  {
    assert d * q == d * b + d * (q - b);
  }

  /** Up to a ratio of one half, the reward never exceeds what was paid. */
  lemma RewardAtMostPaid(base: nat, coef: nat, gas: Uint64, workGas: Uint64, gasUsed: nat, ratio: nat)
    requires coef <= 255 && gas > 0 && 2 * ratio <= E18
    ensures Reward(gasUsed, OverallGasPrice(base, coef, gas, workGas), ratio) <= gasUsed * GasPrice(base, coef)
  {
    OverallAtMostDouble(base, coef, gas, workGas);
    HalfOfDouble(gasUsed, OverallGasPrice(base, coef, gas, workGas), GasPrice(base, coef), ratio);
  }

  lemma HalfOfDouble(used: nat, overall: nat, price: nat, ratio: nat)
    requires overall <= 2 * price && 2 * ratio <= E18
    ensures used * overall * ratio / E18 <= used * price
  {
    var paid, x := used * price, used * overall;
    assert x <= used * (2 * price) == 2 * paid;
    ProductsGrow(x, 2 * paid, ratio);
    assert 2 * paid * ratio == paid * (2 * ratio);
    ProductsGrow(2 * ratio, E18, paid);
  }

  lemma ProductsGrow(a: nat, b: nat, c: nat)
    requires a <= b
    ensures a * c <= b * c
  {
  }

  /** No transaction that may be executed ever earns more than it paid. */
  ghost predicate NeverOverpays(ratio: nat) {
    forall cs, base: nat, coef: nat, gas: Uint64, work: nat, refNumber: nat, gasUsed: nat ::
      coef <= 255 && Intrinsic(cs) <= gasUsed <= gas ==>
        Reward(gasUsed, OverallGasPrice(base, coef, gas, WorkToGas(work, refNumber)), ratio) <= gasUsed * GasPrice(base, coef)
  }

  /** And one half is the limit: beyond it even a transaction without clauses earns more than it paid. */
  lemma RewardRatioIsTight(ratio: nat)
    ensures NeverOverpays(ratio) <==> 2 * ratio <= E18
  {
    if 2 * ratio <= E18 {
      forall cs, base: nat, coef: nat, gas: Uint64, work: nat, refNumber: nat, gasUsed: nat | coef <= 255 && Intrinsic(cs) <= gasUsed <= gas
        ensures Reward(gasUsed, OverallGasPrice(base, coef, gas, WorkToGas(work, refNumber)), ratio) <= gasUsed * GasPrice(base, coef)
      {
        RewardAtMostPaid(base, coef, gas, WorkToGas(work, refNumber), gasUsed, ratio);
      }
    } else {
      EmptyTransactionEarns(ratio);
      assert Intrinsic([]) == 21000;
      assert WorkToGas(21_000_000, 0) == 21000;
    }
  }

  lemma EmptyTransactionEarns(ratio: nat)
    requires 2 * ratio > E18
    ensures Reward(21000, OverallGasPrice(1_000_000_000_000_000, 0, 21000, 21000), ratio) > 21000 * GasPrice(1_000_000_000_000_000, 0)
  {
  }

  // ----- what prices are -----

  /** The price is the base price raised by coef / 255 of it, rounded down. */
  ghost predicate PriceWithin(price: nat, base: nat, coef: nat) {
    255 * price <= (255 + coef) * base < 255 * price + 255
  }

  /** The extra is the share of the base price that the proved work has in the gas, rounded down. */
  ghost predicate ExtraWithin(extra: nat, base: nat, gas: nat, workGas: nat) {
    extra * gas <= (if workGas < gas then workGas else gas) * base < extra * gas + gas
  }

  ghost predicate RewardWithin(reward: nat, used: nat, overall: nat, ratio: nat) {
    reward * E18 <= used * overall * ratio < reward * E18 + E18
  }

  lemma GasPriceIs(base: nat, coef: nat)
    requires coef <= 255
    ensures PriceWithin(GasPrice(base, coef), base, coef)
  {
    QuotientBounds(coef * base, 255);
    assert (255 + coef) * base == 255 * base + coef * base;
  }

  /** From the base price to twice the base price, and never less for a higher coefficient. */
  lemma GasPriceGrows(base: nat, coef: nat, higher: nat)
    requires coef <= higher <= 255
    ensures base == GasPrice(base, 0) <= GasPrice(base, coef) <= GasPrice(base, higher) <= GasPrice(base, 255) == 2 * base
  {
    GasPriceIs(base, 0);
    GasPriceIs(base, coef);
    GasPriceIs(base, higher);
    GasPriceIs(base, 255);
    ProductsGrow(255, 255 + coef, base);
    ProductsGrow(255 + coef, 255 + higher, base);
    ProductsGrow(255 + higher, 510, base);
  }

  lemma OverallIs(base: nat, coef: nat, gas: Uint64, workGas: Uint64) returns (extra: nat)
    requires coef <= 255 && gas > 0
    ensures ExtraWithin(extra, base, gas, workGas) && OverallGasPrice(base, coef, gas, workGas) == GasPrice(base, coef) + extra
  {
    var counted := if workGas < gas then workGas else gas;
    extra := if workGas == 0 then 0 else Share(counted, base, gas);
    QuotientBounds(counted * base, gas);
  }

  lemma RewardIs(used: nat, overall: nat, ratio: nat)
    ensures RewardWithin(Reward(used, overall, ratio), used, overall, ratio)
  {
    QuotientBounds(used * overall * ratio, E18);
  }

  /** A thousand units of work are worth one gas at block 0, and 100 / 104 of that after every 30 days of blocks. */
  lemma WorkToGasIs(work: nat, blockNum: nat) returns (gas: nat)
    ensures var months := blockNum / (30 * 24 * 3600 / BlockInterval);
            gas * Pow(104, months) <= work / 1000 * Pow(100, months) < gas * Pow(104, months) + Pow(104, months)
    ensures WorkToGas(work, blockNum) == if gas <= MaxUint64 then gas else MaxUint64
  {
    var months := Months(blockNum);
    MonthsAre(blockNum);
    gas := Decayed(work / 1000, months);
    QuotientBounds(work / 1000 * Pow(100, months), Pow(104, months));
  }

  lemma MonthsAre(blockNum: nat)
    ensures Months(blockNum) == blockNum / (30 * 24 * 3600 / BlockInterval)
  {
    var hours := Quotient(blockNum * BlockInterval, 3600);
    var days := Quotient(hours, 24);
    var months := Quotient(days, 30);
    QuotientIs(blockNum * BlockInterval, 3600, hours);
    QuotientIs(hours, 24, days);
    QuotientIs(days, 30, months);
    BlocksOfMonths(blockNum, hours, days, months);
    QuotientIs(blockNum, 259200, months);
  }

  lemma BlocksOfMonths(blockNum: nat, hours: nat, days: nat, months: nat)
    requires hours * 3600 <= blockNum * BlockInterval < hours * 3600 + 3600
    requires days * 24 <= hours < days * 24 + 24 && months * 30 <= days < months * 30 + 30
    ensures months * 259200 <= blockNum < months * 259200 + 259200
  {
  }

  /** These bounds leave one price each. */
  lemma OnePrice(p: nat, q: nat, base: nat, coef: nat)
    requires PriceWithin(p, base, coef) && PriceWithin(q, base, coef)
    ensures p == q
  {
  }

  /** So what is paid is the gas used at the raised price, up to less than one unit for each gas. */
  ghost predicate PaidWithin(paid: nat, used: nat, base: nat, coef: nat) {
    255 * paid <= used * ((255 + coef) * base) <= 255 * paid + 254 * used
  }

  lemma PaidIs(price: nat, used: nat, base: nat, coef: nat)
    requires PriceWithin(price, base, coef)
    ensures PaidWithin(used * price, used, base, coef)
  {
    var raised := (255 + coef) * base;
    ProductsGrow(255 * price, raised, used);
    ProductsGrow(raised, 255 * price + 254, used);
    assert 255 * price * used == 255 * (used * price) && raised * used == used * raised;
    assert (255 * price + 254) * used == 255 * price * used + 254 * used;
  }

  // ----- who pays -----

  /** Energy and user credit at the block time, and all other state. */
  datatype Ledger = Ledger(energy: map<Address, nat>, credit: map<(Address, Address), nat>, rest: Bytes)

  function EnergyOf(l: Ledger, a: Address): nat {
    if a in l.energy then l.energy[a] else 0
  }

  function CreditOf(l: Ledger, to: Address, user: Address): nat {
    if (to, user) in l.credit then l.credit[(to, user)] else 0
  }

  function AddEnergy(l: Ledger, a: Address, amount: nat): Ledger {
    l.(energy := l.energy[a := EnergyOf(l, a) + amount])
  }

  function SubEnergy(l: Ledger, a: Address, amount: nat): Ledger
    requires amount <= EnergyOf(l, a)
  {
    l.(energy := l.energy[a := EnergyOf(l, a) - amount])
  }

  /** All clauses go to this address. */
  predicate CommonTo(cs: seq<Clause>, to: Option<Address>) {
    if cs != [] && cs[0].to.Some? && forall c :: c in cs ==> c.to == cs[0].to then to == cs[0].to else to == None
  }

  method FindCommonTo(cs: seq<Clause>) returns (to: Option<Address>)
    ensures CommonTo(cs, to)
  {
    if |cs| == 0 || cs[0].to.None? { return None; }
    var i := 1;
    while i < |cs|
      invariant 1 <= i <= |cs| && forall c :: c in cs[..i] ==> c.to == cs[0].to
    {
      if cs[i].to != cs[0].to { return None; }
      i := i + 1;
    }
    return cs[0].to;
  }

  datatype Sender = Sender(origin: Address, delegator: Option<Address>, clauses: seq<Clause>)

  /** Who pays, and whose credit with which contract is used up. */
  datatype Payment = Payment(payer: Address, user: Option<(Address, Address)>)

  /** Everyone who may be asked to pay, in order. */
  ghost function Payers(s: Sender, l: Ledger, sponsorOf: Address -> Option<Address>, to: Option<Address>, prepaid: nat): seq<Payment> {
    match s.delegator
    case Some(d) => [Payment(d, None)]
    case None =>
      var own := [Payment(s.origin, None)];
      match to
      case None => own
      case Some(a) =>
        if CreditOf(l, a, s.origin) < prepaid then own
        else
          var user := Some((a, s.origin));
          (match sponsorOf(a) case None => [] case Some(sp) => [Payment(sp, user)]) + [Payment(a, user)] + own
  }

  predicate Able(p: Payment, l: Ledger, prepaid: nat) {
    prepaid <= EnergyOf(l, p.payer)
  }

  /** r is the first of them with enough energy. */
  ghost predicate IsFirstAble(r: Option<Payment>, ps: seq<Payment>, l: Ledger, prepaid: nat) {
    match r
    case None => forall i :: 0 <= i < |ps| ==> !Able(ps[i], l, prepaid)
    case Some(p) => exists i :: 0 <= i < |ps| && ps[i] == p && Able(p, l, prepaid) && forall j :: 0 <= j < i ==> !Able(ps[j], l, prepaid)
  }

  /** BuyGas: the first payer able to prepay does, and nothing else changes. */
  method BuyGas(s: Sender, l: Ledger, sponsorOf: Address -> Option<Address>, prepaid: nat)
    returns (r: Option<Payment>, l': Ledger, ghost to: Option<Address>)
    ensures CommonTo(s.clauses, to) && IsFirstAble(r, Payers(s, l, sponsorOf, to, prepaid), l, prepaid)
    ensures r.Some? ==> prepaid <= EnergyOf(l, r.value.payer) && l' == SubEnergy(l, r.value.payer, prepaid)
    ensures r.None? ==> l' == l
    ensures r.Some? && r.value.user.Some? ==> prepaid <= CreditOf(l, r.value.user.value.0, r.value.user.value.1)
  {
    var commonTo := FindCommonTo(s.clauses);
    to := commonTo;
    ghost var ps := Payers(s, l, sponsorOf, to, prepaid);
    r, l' := None, l;
    if s.delegator.Some? {
      r := Some(Payment(s.delegator.value, None));
      assert ps[0] == r.value;
      if !Able(r.value, l, prepaid) { return None, l, to; }
    } else {
      if commonTo.Some? && CreditOf(l, commonTo.value, s.origin) >= prepaid {
        var user := Some((commonTo.value, s.origin));
        var sponsor := sponsorOf(commonTo.value);
        if sponsor.Some? && prepaid <= EnergyOf(l, sponsor.value) {
          r := Some(Payment(sponsor.value, user));
          assert ps[0] == r.value;
        } else if prepaid <= EnergyOf(l, commonTo.value) {
          r := Some(Payment(commonTo.value, user));
          assert ps[if sponsor.Some? then 1 else 0] == r.value;
        }
      }
      if r.None? {
        r := Some(Payment(s.origin, None));
        assert ps[|ps| - 1] == r.value;
        if !Able(r.value, l, prepaid) { return None, l, to; }
      }
    }
    l' := SubEnergy(l, r.value.payer, prepaid);
  }
}
