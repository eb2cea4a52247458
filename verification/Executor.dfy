/** The transaction executor (PrepareTransaction and ExecuteTransaction in runtime/runtime.go). */
module Executors {
  import opened Hex
  import opened Blocks
  import opened Execution

  /** A transaction, with the work it proved and the block it refers to. */
  datatype TxCall = TxCall(sender: Sender, gas: Uint64, coef: nat, work: nat, refNumber: nat)

  /** What running a clause gives: new state, gas left, refund counter, and whether the machine failed. */
  datatype ClauseResult = ClauseResult(ledger: Ledger, leftOverGas: Uint64, refund: Uint64, vmErr: bool)

  type Machine = (Ledger, Clause, Uint64) -> Option<ClauseResult>

  /** A machine that never returns more gas than it got. */
  ghost predicate Frugal(run: Machine) {
    forall l, c, g :: run(l, c, g).Some? ==> run(l, c, g).value.leftOverGas <= g
  }

  /** The state and gas after running clauses, and whether one of them failed. */
  datatype Ran = Ran(ledger: Ledger, leftOverGas: Uint64, reverted: bool)

  /** The gas left after a clause, refund included. */
  function LeftAfter(gas: Uint64, o: ClauseResult): Uint64
    requires o.leftOverGas <= gas
  {
    var half := (gas - o.leftOverGas) / 2;
    o.leftOverGas + if half > o.refund then o.refund else half
  }

  /** Clauses in turn: the first failing one takes back all of them, but not their gas. */
  ghost function RunClauses(run: Machine, checkpoint: Ledger, l: Ledger, cs: seq<Clause>, gas: Uint64): Option<Ran>
    requires Frugal(run)
    decreases |cs|
  {
    if cs == [] then Some(Ran(l, gas, false))
    else
      match run(l, cs[0], gas)
      case None => None
      case Some(o) =>
        if o.vmErr then Some(Ran(checkpoint, LeftAfter(gas, o), true))
        else RunClauses(run, checkpoint, o.ledger, cs[1..], LeftAfter(gas, o))
  }

  // ----- what running clauses is -----

  /** after is the gas left with the refund: the whole counter if that is at most half of the gas used, and else half. */
  predicate RefundsTo(before: Uint64, o: ClauseResult, after: Uint64) {
    && o.leftOverGas <= after <= before && 2 * (after - o.leftOverGas) <= before - o.leftOverGas
    && if 2 * o.refund <= before - o.leftOverGas then after == o.leftOverGas + o.refund else before - o.leftOverGas - 1 <= 2 * (after - o.leftOverGas)
  }

  lemma LeftAfterIs(gas: Uint64, o: ClauseResult)
    requires o.leftOverGas <= gas
    ensures RefundsTo(gas, o, LeftAfter(gas, o))
  {
  }

  /** Clause i runs on the state and the gas that the one before it left, and nothing runs after a failure. */
  ghost predicate ClauseAt(run: Machine, l: Ledger, cs: seq<Clause>, outs: seq<ClauseResult>, gases: seq<Uint64>, i: nat)
    requires i < |outs| <= |cs| && |gases| == |outs| + 1
  {
    && run(if i == 0 then l else outs[i - 1].ledger, cs[i], gases[i]) == Some(outs[i])
    && RefundsTo(gases[i], outs[i], gases[i + 1]) && (outs[i].vmErr ==> i == |outs| - 1)
  }

  ghost predicate ClausesRun(run: Machine, l: Ledger, cs: seq<Clause>, gas: Uint64, outs: seq<ClauseResult>, gases: seq<Uint64>) {
    && |outs| <= |cs| && |gases| == |outs| + 1 && gases[0] == gas
    && forall i :: 0 <= i < |outs| ==> ClauseAt(run, l, cs, outs, gases, i)
  }

  /** What it comes to: a failure takes all clauses back, but not their gas; otherwise all clauses have run. */
  ghost predicate ComesTo(checkpoint: Ledger, l: Ledger, cs: seq<Clause>, outs: seq<ClauseResult>, gases: seq<Uint64>, ran: Ran)
    requires |gases| == |outs| + 1
  {
    var n := |outs|;
    if n > 0 && outs[n - 1].vmErr then ran == Ran(checkpoint, gases[n], true)
    else n == |cs| && ran == Ran(if n == 0 then l else outs[n - 1].ledger, gases[n], false)
  }

  ghost predicate Accounts(run: Machine, checkpoint: Ledger, l: Ledger, cs: seq<Clause>, gas: Uint64,
                           outs: seq<ClauseResult>, gases: seq<Uint64>, ran: Ran) {
    ClausesRun(run, l, cs, gas, outs, gases) && ComesTo(checkpoint, l, cs, outs, gases, ran)
  }

  lemma {:induction false} OneMoreClause(run: Machine, l: Ledger, cs: seq<Clause>, gas: Uint64, o: ClauseResult, after: Uint64,
                                         outs: seq<ClauseResult>, gases: seq<Uint64>)
    requires cs != [] && run(l, cs[0], gas) == Some(o) && RefundsTo(gas, o, after) && (o.vmErr ==> outs == [])
    requires ClausesRun(run, o.ledger, cs[1..], after, outs, gases)
    ensures ClausesRun(run, l, cs, gas, [o] + outs, [gas] + gases)
  {
    var outs', gases' := [o] + outs, [gas] + gases;
    forall i | 0 <= i < |outs'| ensures ClauseAt(run, l, cs, outs', gases', i) {
      if i > 0 { assert ClauseAt(run, o.ledger, cs[1..], outs, gases, i - 1); }
    }
  }

  lemma {:induction false} OneLessClause(run: Machine, l: Ledger, cs: seq<Clause>, gas: Uint64, outs: seq<ClauseResult>, gases: seq<Uint64>)
    requires ClausesRun(run, l, cs, gas, outs, gases) && outs != []
    ensures run(l, cs[0], gas) == Some(outs[0]) && RefundsTo(gas, outs[0], gases[1]) && (outs[0].vmErr ==> |outs| == 1)
    ensures ClausesRun(run, outs[0].ledger, cs[1..], gases[1], outs[1..], gases[1..])
  {
    assert ClauseAt(run, l, cs, outs, gases, 0);
    var cs', outs', gases' := cs[1..], outs[1..], gases[1..];
    forall i | 0 <= i < |outs'| ensures ClauseAt(run, outs[0].ledger, cs', outs', gases', i) {
      assert ClauseAt(run, l, cs, outs, gases, i + 1);
    }
  }

  lemma OneRefund(gas: Uint64, o: ClauseResult, a: Uint64, b: Uint64)
    requires RefundsTo(gas, o, a) && RefundsTo(gas, o, b)
    ensures a == b
  {
  }

  lemma {:induction false} ClausesAccount(run: Machine, checkpoint: Ledger, l: Ledger, cs: seq<Clause>, gas: Uint64, ran: Ran)
    returns (outs: seq<ClauseResult>, gases: seq<Uint64>)
    requires Frugal(run) && RunClauses(run, checkpoint, l, cs, gas) == Some(ran)
    ensures Accounts(run, checkpoint, l, cs, gas, outs, gases, ran)
    decreases |cs|
  {
    if cs == [] {
      outs, gases := [], [gas];
    } else {
      var o := run(l, cs[0], gas).value;
      var after := LeftAfter(gas, o);
      LeftAfterIs(gas, o);
      if o.vmErr {
        OneMoreClause(run, l, cs, gas, o, after, [], [after]);
        outs, gases := [o] + [], [gas] + [after];
      } else {
        var outs', gases' := ClausesAccount(run, checkpoint, o.ledger, cs[1..], after, ran);
        OneMoreClause(run, l, cs, gas, o, after, outs', gases');
        outs, gases := [o] + outs', [gas] + gases';
      }
    }
  }

  lemma {:induction false} AccountedClauses(run: Machine, checkpoint: Ledger, l: Ledger, cs: seq<Clause>, gas: Uint64,
                                            outs: seq<ClauseResult>, gases: seq<Uint64>, ran: Ran)
    requires Frugal(run) && Accounts(run, checkpoint, l, cs, gas, outs, gases, ran)
    ensures RunClauses(run, checkpoint, l, cs, gas) == Some(ran)
    decreases |cs|
  {
    if outs != [] {
      OneLessClause(run, l, cs, gas, outs, gases);
      LeftAfterIs(gas, outs[0]);
      OneRefund(gas, outs[0], gases[1], LeftAfter(gas, outs[0]));
      if !outs[0].vmErr {
        AccountedClauses(run, checkpoint, outs[0].ledger, cs[1..], gases[1], outs[1..], gases[1..], ran);
      }
    }
  }

  /** Running clauses comes to ran exactly if there are results of single clauses that lead there. */
  lemma {:induction false} ClausesIff(run: Machine, checkpoint: Ledger, l: Ledger, cs: seq<Clause>, gas: Uint64, ran: Ran)
    requires Frugal(run)
    ensures RunClauses(run, checkpoint, l, cs, gas) == Some(ran) <==>
            exists outs, gases :: Accounts(run, checkpoint, l, cs, gas, outs, gases, ran)
  {
    if RunClauses(run, checkpoint, l, cs, gas) == Some(ran) {
      var outs, gases := ClausesAccount(run, checkpoint, l, cs, gas, ran);
    }
    if outs, gases :| Accounts(run, checkpoint, l, cs, gas, outs, gases, ran) {
      AccountedClauses(run, checkpoint, l, cs, gas, outs, gases, ran);
    }
  }

  datatype Bill = Bill(gasUsed: Uint64, paid: nat, reward: nat, reverted: bool, payer: Address)

  // The quantifier keeps the product folded: nonlinear terms would otherwise be in every proof about the executor.
  ghost predicate Priced(price: nat, base: nat, coef: nat) {
    forall c: nat :: c in {coef} && c <= 255 ==> price == GasPrice(base, c)
  }

  /** What the transaction is charged and rewarded by. */
  datatype Terms = Terms(baseGasPrice: nat, rewardRatio: nat, beneficiary: Address, sponsorOf: Address -> Option<Address>)

  /** The changes a bill makes to a ledger in which the gas was prepaid. */
  function Settle(l: Ledger, p: Payment, credit: nat, prepaid: nat, bill: Bill, beneficiary: Address): Ledger
    requires bill.paid <= prepaid
    requires p.user.Some? ==> bill.paid <= credit
  {
    var l1 := AddEnergy(l, p.payer, prepaid - bill.paid);
    var l2 := if p.user.None? then l1 else l1.(credit := l1.credit[p.user.value := credit - bill.paid]);
    AddEnergy(l2, beneficiary, bill.reward)
  }

  /** A reverted transaction changes the energy of payer and beneficiary and the credit of the user, and nothing else. */
  ghost predicate OnlyBilled(l0: Ledger, l: Ledger, p: Payment, bill: Bill, beneficiary: Address) {
    && l.rest == l0.rest
    && (forall a :: EnergyOf(l, a) + (if a == p.payer then bill.paid else 0) == EnergyOf(l0, a) + if a == beneficiary then bill.reward else 0)
    && (forall to, user ::
          CreditOf(l, to, user) + (if p.user == Some((to, user)) then bill.paid else 0) == CreditOf(l0, to, user))
  }

  lemma SettleBought(l0: Ledger, p: Payment, prepaid: nat, bill: Bill, beneficiary: Address)
    requires bill.paid <= prepaid <= EnergyOf(l0, p.payer)
    requires p.user.Some? ==> prepaid <= CreditOf(l0, p.user.value.0, p.user.value.1)
    ensures var credit := if p.user.Some? then CreditOf(l0, p.user.value.0, p.user.value.1) else 0;
            OnlyBilled(l0, Settle(SubEnergy(l0, p.payer, prepaid), p, credit, prepaid, bill, beneficiary), p, bill, beneficiary)
  {
  }

  class TransactionExecutor {
    const tx: TxCall
    const terms: Terms
    const run: Machine
    const intrinsic: Uint64
    const gasPrice: nat
    const prepaid: nat
    const payment: Payment
    const credit: nat
    const checkpoint: Ledger
    ghost const start: Ledger
    var ledger: Ledger
    var leftOverGas: Uint64
    var outputs: nat
    var reverted: bool
    var finalized: bool

    /** What was settled when the gas was bought. */
    ghost predicate Bought() {
      && Frugal(run) && tx.coef <= 255 && 0 < intrinsic <= tx.gas
      && Priced(gasPrice, terms.baseGasPrice, tx.coef) && prepaid == tx.gas * gasPrice
      && prepaid <= EnergyOf(start, payment.payer) && checkpoint == SubEnergy(start, payment.payer, prepaid)
      && (payment.user.Some? ==> prepaid <= credit == CreditOf(start, payment.user.value.0, payment.user.value.1))
    }

    ghost predicate Valid()
      reads this
    {
      && Bought() && leftOverGas + intrinsic <= tx.gas
      && outputs <= |tx.sender.clauses| && (reverted ==> ledger == checkpoint && outputs == 0)
      && Outcome() == if reverted then Some(Ran(checkpoint, leftOverGas, true))
                      else RunClauses(run, checkpoint, ledger, tx.sender.clauses[outputs..], leftOverGas)
    }

    /** What running all clauses will come to. */
    ghost function Outcome(): Option<Ran>
      requires Frugal(run) && intrinsic <= tx.gas
    {
      RunClauses(run, checkpoint, checkpoint, tx.sender.clauses, tx.gas - intrinsic)
    }

    constructor (tx: TxCall, terms: Terms, run: Machine, intrinsic: Uint64, payment: Payment, ghost start: Ledger, bought: Ledger, credit: nat)
      requires Frugal(run) && tx.coef <= 255 && 0 < intrinsic <= tx.gas
      requires var prepaid := tx.gas * GasPrice(terms.baseGasPrice, tx.coef);
               && prepaid <= EnergyOf(start, payment.payer) && bought == SubEnergy(start, payment.payer, prepaid)
               && (payment.user.Some? ==> prepaid <= credit == CreditOf(start, payment.user.value.0, payment.user.value.1))
      ensures Valid() && this.start == start && !reverted && !finalized && outputs == 0 && ledger == bought
      ensures this.tx == tx && this.terms == terms && this.payment == payment && this.intrinsic == intrinsic
      ensures this.run == run && checkpoint == bought && this.credit == credit
    {
      this.tx, this.terms, this.run, this.intrinsic, this.payment, this.credit := tx, terms, run, intrinsic, payment, credit;
      gasPrice := GasPrice(terms.baseGasPrice, tx.coef);
      prepaid := tx.gas * GasPrice(terms.baseGasPrice, tx.coef);
      checkpoint, ledger, this.start := bought, bought, start;
      leftOverGas, outputs, reverted, finalized := tx.gas - intrinsic, 0, false, false;
    }

    function HasNextClause(): bool
      reads this
    {
      !reverted && outputs < |tx.sender.clauses|
    }

    /** Run the next clause; a failing machine takes back all clauses so far, but not the gas. */
    method NextClause() returns (ok: bool)
      requires Valid() && HasNextClause()
      modifies this
      ensures (!ok ==> Outcome().None?) && (ok ==> Valid()) && finalized == old(finalized)
      ensures ok ==> leftOverGas <= old(leftOverGas) && (reverted || outputs == old(outputs) + 1)
    {
      var output := run(ledger, tx.sender.clauses[outputs], leftOverGas);
      assert tx.sender.clauses[outputs..][1..] == tx.sender.clauses[outputs + 1..];
      if output.None? { return false; }
      leftOverGas := Refunded(leftOverGas, output.value);
      if output.value.vmErr {
        ledger, reverted, outputs := checkpoint, true, 0;
        return true;
      }
      ledger, outputs := output.value.ledger, outputs + 1;
      return true;
    }

    /** Gas used lies between the intrinsic gas and the gas given, and what is not paid is returned. */
    ghost predicate Fair(b: Bill) {
      && intrinsic <= b.gasUsed <= tx.gas && b.paid == b.gasUsed * gasPrice <= prepaid && b.payer == payment.payer
      && (payment.user.Some? ==> b.paid <= credit)
      && IsReward(b.reward, terms.baseGasPrice, terms.rewardRatio, tx, b.gasUsed)
      && (2 * terms.rewardRatio <= E18 ==> b.reward <= b.paid)
    }

    /** Return the gas, adjust the credit, and pay the reward. */
    method Finalize() returns (bill: Option<Bill>)
      requires Valid()
      modifies this
      ensures bill.Some? <==> !old(HasNextClause()) && !old(finalized)
      ensures bill.Some? ==>
                && Fair(bill.value) && Outcome() == Some(Ran(old(ledger), tx.gas - bill.value.gasUsed, bill.value.reverted))
                && ledger == Settle(old(ledger), payment, credit, prepaid, bill.value, terms.beneficiary)
                && (bill.value.reverted ==> OnlyBilled(start, ledger, payment, bill.value, terms.beneficiary))
    {
      if HasNextClause() || finalized { return None; }
      finalized := true;
      var b, returned := MakeBill();
      ledger := Close(ledger, payment, credit, prepaid, returned, b, terms.beneficiary);
      if reverted { SettleBought(start, payment, prepaid, b, terms.beneficiary); }
      return Some(b);
    }

    method MakeBill() returns (b: Bill, returned: nat)
      requires Valid()
      ensures Fair(b) && b.gasUsed == tx.gas - leftOverGas && b.reverted == reverted && prepaid == b.paid + returned
    {
      var gasUsed, paid;
      gasUsed, paid, returned := PaidFor(tx.gas, leftOverGas, gasPrice);
      var reward := ComputeReward(terms.baseGasPrice, terms.rewardRatio, tx, gasPrice, gasUsed);
      b := Bill(gasUsed, paid, reward, reverted, payment.payer);
    }
  }

  /** Apply the refund counter, capped to half of the gas used. */
  method Refunded(gas: Uint64, o: ClauseResult) returns (left: Uint64)
    requires o.leftOverGas <= gas
    ensures left == LeftAfter(gas, o) && RefundsTo(gas, o, left)
  {
    var gasUsed := gas - o.leftOverGas;
    var refund := gasUsed / 2;
    if refund > o.refund { refund := o.refund; }
    left := o.leftOverGas + refund;
  }

  /** The closures that BuyGas left behind, and the reward. */
  method Close(l: Ledger, p: Payment, credit: nat, prepaid: nat, returned: nat, b: Bill, beneficiary: Address) returns (l': Ledger)
    requires prepaid == b.paid + returned && (p.user.Some? ==> b.paid <= credit)
    ensures l' == Settle(l, p, credit, prepaid, b, beneficiary)
  {
    l' := AddEnergy(l, p.payer, returned);
    if p.user.Some? {
      var usedEnergy := prepaid - returned;
      l' := l'.(credit := l'.credit[p.user.value := credit - usedEnergy]);
    }
    l' := AddEnergy(l', beneficiary, b.reward);
  }

  // Quantified for the same reason as Priced.
  ghost predicate IsReward(reward: nat, base: nat, ratio: nat, tx: TxCall, gasUsed: Uint64) {
    forall g: nat :: g in {gasUsed} && tx.coef <= 255 && tx.gas > 0 ==>
      reward == Reward(g, OverallGasPrice(base, tx.coef, tx.gas, WorkToGas(tx.work, tx.refNumber)), ratio)
  }

  method ComputeReward(base: nat, ratio: nat, tx: TxCall, gasPrice: nat, gasUsed: Uint64) returns (reward: nat)
    requires tx.coef <= 255 && tx.gas > 0 && Priced(gasPrice, base, tx.coef)
    ensures IsReward(reward, base, ratio, tx, gasUsed)
    ensures 2 * ratio <= E18 ==> reward <= gasUsed * gasPrice
  {
    reward := Reward(gasUsed, OverallGasPrice(base, tx.coef, tx.gas, WorkToGas(tx.work, tx.refNumber)), ratio);
    if 2 * ratio <= E18 { RewardAtMostPaid(base, tx.coef, tx.gas, WorkToGas(tx.work, tx.refNumber), gasUsed, ratio); }
  }

  /** The price of the gas used and of the gas left, together that of the gas given. */
  method PaidFor(gas: Uint64, left: Uint64, price: nat) returns (used: Uint64, paid: nat, returned: nat)
    requires left <= gas
    ensures used == gas - left && paid == used * price && paid + returned == gas * price
  {
    used := gas - left;
    paid, returned := used * price, left * price;
    Shares(gas, used, left, price);
  }

  lemma Shares(gas: nat, used: nat, left: nat, price: nat)
    requires gas == used + left
    ensures gas * price == used * price + left * price
  {
  }

  /** What a transaction on these terms prepays. */
  function Prepaid(tx: TxCall, terms: Terms): nat
    requires tx.coef <= 255
  {
    tx.gas * GasPrice(terms.baseGasPrice, tx.coef)
  }

  function CreditUsed(l: Ledger, p: Payment): nat {
    if p.user.Some? then CreditOf(l, p.user.value.0, p.user.value.1) else 0
  }

  /** The bill of clauses that ran to an end, and the ledger it leaves. */
  ghost predicate Billed(l: Ledger, l': Ledger, tx: TxCall, terms: Terms, p: Payment, ran: Ran, bill: Bill)
    requires tx.coef <= 255
  {
    && bill.payer == p.payer && bill.reverted == ran.reverted
    && Intrinsic(tx.sender.clauses) <= bill.gasUsed == tx.gas - ran.leftOverGas
    && bill.paid == bill.gasUsed * GasPrice(terms.baseGasPrice, tx.coef) <= Prepaid(tx, terms)
    && IsReward(bill.reward, terms.baseGasPrice, terms.rewardRatio, tx, bill.gasUsed)
    && (p.user.Some? ==> bill.paid <= CreditUsed(l, p))
    && l' == Settle(ran.ledger, p, CreditUsed(l, p), Prepaid(tx, terms), bill, terms.beneficiary)
    && (2 * terms.rewardRatio <= E18 ==> bill.reward <= bill.paid)
    && (bill.reverted ==> OnlyBilled(l, l', p, bill, terms.beneficiary))
  }

  /** What the bill says, told by rates: the payment by base price and coefficient, the reward by those and the proved work. */
  ghost predicate Charged(bill: Bill, tx: TxCall, terms: Terms, workGas: Uint64, price: nat, extra: nat) {
    && PriceWithin(price, terms.baseGasPrice, tx.coef) && ExtraWithin(extra, terms.baseGasPrice, tx.gas, workGas)
    && bill.paid == bill.gasUsed * price && PaidWithin(bill.paid, bill.gasUsed, terms.baseGasPrice, tx.coef)
    && RewardWithin(bill.reward, bill.gasUsed, price + extra, terms.rewardRatio)
  }

  lemma {:induction false} BillIsCharged(l: Ledger, l': Ledger, tx: TxCall, terms: Terms, p: Payment, ran: Ran, bill: Bill)
    requires tx.coef <= 255 && tx.gas > 0 && Billed(l, l', tx, terms, p, ran, bill)
    ensures exists price, extra :: Charged(bill, tx, terms, WorkToGas(tx.work, tx.refNumber), price, extra)
  {
    var base, workGas := terms.baseGasPrice, WorkToGas(tx.work, tx.refNumber);
    var price := GasPrice(base, tx.coef);
    GasPriceIs(base, tx.coef);
    var extra := OverallIs(base, tx.coef, tx.gas, workGas);
    PaidIs(price, bill.gasUsed, base, tx.coef);
    RewardIs(bill.gasUsed, price + extra, terms.rewardRatio);
    assert bill.gasUsed in {bill.gasUsed};
    assert Charged(bill, tx, terms, workGas, price, extra);
  }

  /**
    ExecuteTransaction: the first payer able to prepays, the clauses run, and the
    payer gets back what was not used. A transaction that cannot be paid leaves the
    ledger alone, and a reverted one leaves only its bill behind.
   */
  method ExecuteTransaction(tx: TxCall, terms: Terms, run: Machine, l: Ledger)
    returns (bill: Option<Bill>, l': Ledger, ghost payment: Option<Payment>, ghost to: Option<Address>)
    requires Frugal(run) && tx.coef <= 255 && forall c :: c in tx.sender.clauses ==> |c.data| <= MaxUint64
    ensures payment.Some? ==> Intrinsic(tx.sender.clauses) <= tx.gas
    ensures Intrinsic(tx.sender.clauses) <= tx.gas ==>
              && CommonTo(tx.sender.clauses, to)
              && IsFirstAble(payment, Payers(tx.sender, l, terms.sponsorOf, to, Prepaid(tx, terms)), l, Prepaid(tx, terms))
    ensures payment.None? ==> bill.None? && l' == l
    ensures payment.Some? ==>
              && Prepaid(tx, terms) <= EnergyOf(l, payment.value.payer)
              && var bought := SubEnergy(l, payment.value.payer, Prepaid(tx, terms));
                 var ran := RunClauses(run, bought, bought, tx.sender.clauses, tx.gas - Intrinsic(tx.sender.clauses));
                 && (bill.Some? <==> ran.Some?)
                 && (bill.Some? ==> Billed(l, l', tx, terms, payment.value, ran.value, bill.value))
    ensures bill.Some? ==> exists price, extra :: Charged(bill.value, tx, terms, WorkToGas(tx.work, tx.refNumber), price, extra)
  {
    l', payment, to := l, None, None;
    var intrinsic := IntrinsicGas(tx.sender.clauses);
    if intrinsic.None? || tx.gas < intrinsic.value { return None, l', None, to; }
    var chosen, bought;
    chosen, bought, to := BuyGas(tx.sender, l, terms.sponsorOf, Prepaid(tx, terms));
    payment := chosen;
    if chosen.None? { return None, l', payment, to; }
    var executor := new TransactionExecutor(tx, terms, run, intrinsic.value, chosen.value, l, bought, CreditUsed(l, chosen.value));
    bill := RunAll(executor);
    l' := executor.ledger;
    if bill.Some? {
      ghost var checkpoint := executor.checkpoint;
      ghost var ran := RunClauses(run, checkpoint, checkpoint, tx.sender.clauses, tx.gas - Intrinsic(tx.sender.clauses));
      BillIsCharged(l, l', tx, terms, chosen.value, ran.value, bill.value);
    }
  }

  method RunAll(executor: TransactionExecutor) returns (bill: Option<Bill>)
    requires executor.Valid() && !executor.finalized
    modifies executor
    ensures bill.Some? <==> executor.Outcome().Some?
    ensures bill.Some? ==>
              var ran := executor.Outcome().value;
              && executor.Fair(bill.value) && bill.value.reverted == ran.reverted && bill.value.gasUsed == executor.tx.gas - ran.leftOverGas
              && executor.ledger == Settle(ran.ledger, executor.payment, executor.credit, executor.prepaid, bill.value, executor.terms.beneficiary)
              && (bill.value.reverted ==> OnlyBilled(executor.start, executor.ledger, executor.payment, bill.value, executor.terms.beneficiary))
  {
    while executor.HasNextClause()
      invariant executor.Valid() && !executor.finalized
      decreases if executor.reverted then 0 else 1 + |executor.tx.sender.clauses| - executor.outputs
    {
      var ok := executor.NextClause();
      if !ok { return None; }
    }
    bill := executor.Finalize();
  }
}
