/**
  Energy that grows with time (state/account.go, state/state.go) and its
  settlement around transfers (the Transfer hook in runtime/runtime.go).
 */
module Energy {
  import opened Stage

  const EnergyGrowthRate: nat := 5_000_000_000
  const E18: nat := 1_000_000_000_000_000_000

  /** CalcEnergy. */
  function CalcEnergy(a: Account, time: nat): nat {
    if a.blockTime == 0 || a.balance == 0 || time <= a.blockTime then a.energy
    else a.energy + (time - a.blockTime) * a.balance * EnergyGrowthRate / E18
  }

  /** Since the last settlement every second has added a share of the balance; without one, nothing has. */
  lemma CalcEnergyIs(a: Account, time: nat)
    ensures a.blockTime == 0 || time <= a.blockTime ==> CalcEnergy(a, time) == a.energy
    ensures 0 < a.blockTime < time ==>
              var grown := CalcEnergy(a, time) - a.energy;
              grown * E18 <= (time - a.blockTime) * a.balance * EnergyGrowthRate < grown * E18 + E18
  {
    if 0 < a.blockTime < time { FloorBounds((time - a.blockTime) * a.balance * EnergyGrowthRate); }
  }

  lemma FloorBounds(x: nat)
    ensures x / E18 * E18 <= x < x / E18 * E18 + E18
  {
  }

  /** SetEnergy with what GetEnergy says. */
  function Settle(a: Account, time: nat): Account {
    a.(energy := CalcEnergy(a, time), blockTime := time)
  }

  function SettleAll(a: Account, times: seq<nat>): Account
    decreases |times|
  {
    if times == [] then a else SettleAll(Settle(a, times[0]), times[1..])
  }

  ghost predicate Ascending(from: nat, times: seq<nat>)
    decreases |times|
  {
    times == [] || (from <= times[0] && Ascending(times[0], times[1..]))
  }

  lemma FloorSplit(x: nat, y: nat)
    ensures x / E18 + y / E18 <= (x + y) / E18 <= x / E18 + y / E18 + 1
  {
  }

  /** Settling once more on the way costs at most one unit, and gains nothing. */
  lemma SettleOnce(a: Account, t: nat, end: nat)
    requires 0 < a.blockTime <= t <= end
    ensures CalcEnergy(Settle(a, t), end) <= CalcEnergy(a, end) <= CalcEnergy(Settle(a, t), end) + 1
  {
    var rate := a.balance * EnergyGrowthRate;
    var x, y := (t - a.blockTime) * rate, (end - t) * rate;
    assert x + y == (end - a.blockTime) * rate;
    FloorSplit(x, y);
    Growth(a, t);
    Growth(a, end);
    Growth(Settle(a, t), end);
  }

  lemma Growth(a: Account, time: nat)
    requires 0 < a.blockTime <= time
    ensures CalcEnergy(a, time) == a.energy + (time - a.blockTime) * (a.balance * EnergyGrowthRate) / E18
  {
    assert (time - a.blockTime) * a.balance * EnergyGrowthRate == (time - a.blockTime) * (a.balance * EnergyGrowthRate);
  }

  /** Settling any number of times never yields more than settling once, and loses at most one unit each time. */
  lemma {:induction false} SettlementBound(a: Account, times: seq<nat>, end: nat)
    requires a.blockTime > 0 && Ascending(a.blockTime, times + [end])
    ensures CalcEnergy(SettleAll(a, times), end) <= CalcEnergy(a, end) <= CalcEnergy(SettleAll(a, times), end) + |times|
    decreases |times|
  {
    if times != [] {
      assert (times + [end])[1..] == times[1..] + [end];
      LastAscends(times[0], times[1..], end);
      SettleOnce(a, times[0], end);
      SettlementBound(Settle(a, times[0]), times[1..], end);
    }
  }

  lemma {:induction false} LastAscends(from: nat, times: seq<nat>, end: nat)
    requires Ascending(from, times + [end])
    ensures from <= end
    decreases |times|
  {
    if times != [] {
      assert (times + [end])[1..] == times[1..] + [end];
      LastAscends(times[0], times[1..], end);
    }
  }

  /** Settling on the way never gains anything, whenever the energy is asked for after that. */
  ghost predicate NeverGains(a: Account, t: nat) {
    forall end: nat :: end >= t && end >= a.blockTime ==> CalcEnergy(Settle(a, t), end) <= CalcEnergy(a, end)
  }

  /**
    Exactly when that holds: nothing grows, growth is switched off, or the settlement
    comes no earlier than the last one there was. Block times only increase
    (consensus/validator.go:92-94), so what can occur otherwise is an account that has
    a balance but was never settled; OnSuicideContract makes such accounts.
   */
  lemma NeverGainsIff(a: Account, t: nat)
    ensures NeverGains(a, t) <==> a.balance == 0 || t == 0 || 0 < a.blockTime <= t
  {
    if a.balance > 0 && t > 0 && !(0 < a.blockTime <= t) {
      var end: nat;
      if a.blockTime == 0 { end := FirstSettlement(a, t); } else { end := EarlierSettlement(a, t); }
      assert !NeverGains(a, t);
    } else {
      forall end: nat | end >= t && end >= a.blockTime ensures CalcEnergy(Settle(a, t), end) <= CalcEnergy(a, end) {
        if a.balance > 0 && t > 0 { SettleOnce(a, t, end); }
      }
    }
  }

  /** Energy starts to grow with the first settlement. */
  lemma FirstSettlement(a: Account, t: nat) returns (end: nat)
    requires a.blockTime == 0 < t && a.balance > 0
    ensures end >= t && CalcEnergy(Settle(a, t), end) > CalcEnergy(a, end)
  {
    end := t + E18;
    Growth(Settle(a, t), end);
    Exactly(a.balance * EnergyGrowthRate);
  }

  /** Settling earlier than the last settlement lets the same time count twice, be it ever so short. */
  lemma EarlierSettlement(a: Account, t: nat) returns (end: nat)
    requires 0 < t < a.blockTime && a.balance > 0
    ensures end >= a.blockTime && CalcEnergy(Settle(a, t), end) > CalcEnergy(a, end)
  {
    var rate, k := a.balance * EnergyGrowthRate, a.blockTime - t;
    end := a.blockTime + (E18 - 1) * k;
    Growth(a, end);
    Growth(Settle(a, t), end);
    Positive(k, rate);
    assert end - t == E18 * k;
    Regroup(k, rate);
    Exactly(k * rate);
  }

  lemma Regroup(k: nat, rate: nat)
    ensures (E18 * k) * rate == E18 * (k * rate) && ((E18 - 1) * k) * rate == (E18 - 1) * (k * rate)
  {
  }

  lemma Exactly(x: nat)
    ensures E18 * x / E18 == x
    ensures x > 0 ==> (E18 - 1) * x / E18 < x
  {
  }

  lemma Positive(x: nat, y: nat)
    requires x > 0 && y > 0
    ensures x * y > 0
  {
  }

  // ----- inheriting from a destroyed contract -----

  /** What OnSuicideContract makes of the receiver: it is settled only if the contract had energy. */
  function Heir(r: Account, balance: nat, energy: nat, time: nat): Account {
    var r1 := if energy != 0 then r.(energy := CalcEnergy(r, time) + energy, blockTime := time) else r;
    r1.(balance := r1.balance + balance)
  }

  /** The receiver as it would be, were it settled whenever it receives something. */
  function SettledHeir(r: Account, balance: nat, energy: nat, time: nat): Account {
    if balance == 0 && energy == 0 then r
    else r.(energy := CalcEnergy(r, time) + energy, blockTime := time, balance := r.balance + balance)
  }

  /** The receiver never has more energy than if it had been settled first. */
  ghost predicate InheritsFairly(r: Account, balance: nat, energy: nat, time: nat) {
    forall end: nat :: end >= time ==> CalcEnergy(Heir(r, balance, energy, time), end) <= CalcEnergy(SettledHeir(r, balance, energy, time), end)
  }

  /**
    Exactly when that holds. Otherwise a balance that comes without energy counts for
    the receiver from its last settlement on, long before it was received.
   */
  lemma InheritsFairlyIff(r: Account, balance: nat, energy: nat, time: nat)
    ensures InheritsFairly(r, balance, energy, time) <==> energy > 0 || balance == 0 || r.blockTime == 0 || 0 < time <= r.blockTime
  {
    var heir, settled := Heir(r, balance, energy, time), SettledHeir(r, balance, energy, time);
    if energy > 0 || balance == 0 {
      assert heir == settled;
    } else if r.blockTime == 0 {
      forall end: nat | end >= time ensures CalcEnergy(heir, end) <= CalcEnergy(settled, end) { NeverLess(settled, end); }
    } else if 0 < time <= r.blockTime {
      forall end: nat | end >= time ensures CalcEnergy(heir, end) <= CalcEnergy(settled, end) { LaterStart(settled, r.blockTime, end); }
    } else {
      var end: nat;
      if time == 0 { end := GrowsFrom(r, balance); } else { end := CountsFromBefore(r, balance, time); }
      assert !InheritsFairly(r, balance, energy, time);
    }
  }

  lemma NeverLess(a: Account, end: nat)
    ensures a.energy <= CalcEnergy(a, end)
  {
  }

  /** The later growth starts, the less there is. */
  lemma LaterStart(a: Account, later: nat, end: nat)
    requires 0 < a.blockTime <= later
    ensures CalcEnergy(a.(blockTime := later), end) <= CalcEnergy(a, end)
  {
    if end <= later {
      NeverLess(a, end);
    } else {
      var rate := a.balance * EnergyGrowthRate;
      Growth(a, end);
      Growth(a.(blockTime := later), end);
      var x, y := (end - later) * rate, (later - a.blockTime) * rate;
      assert x + y == (end - a.blockTime) * rate;
      FloorSplit(x, y);
    }
  }

  lemma GrowsFrom(r: Account, balance: nat) returns (end: nat)
    requires r.blockTime > 0 && balance > 0
    ensures CalcEnergy(Heir(r, balance, 0, 0), end) > CalcEnergy(SettledHeir(r, balance, 0, 0), end)
  {
    end := r.blockTime + E18;
    Growth(Heir(r, balance, 0, 0), end);
    Exactly((r.balance + balance) * EnergyGrowthRate);
  }

  lemma CountsFromBefore(r: Account, balance: nat, time: nat) returns (end: nat)
    requires 0 < r.blockTime < time && balance > 0
    ensures end >= time && CalcEnergy(Heir(r, balance, 0, time), end) > CalcEnergy(SettledHeir(r, balance, 0, time), end)
  {
    var before, rate, k := r.balance * EnergyGrowthRate, (r.balance + balance) * EnergyGrowthRate, time - r.blockTime;
    end := time + (E18 - 1) * k;
    Growth(Heir(r, balance, 0, time), end);
    Growth(SettledHeir(r, balance, 0, time), end);
    Growth(r, time);
    Positive(k, rate);
    assert end - r.blockTime == E18 * k;
    Regroup(k, rate);
    Exactly(k * rate);
    Larger(k, before, rate);
    CeilAbove(k * rate, k * before);
  }

  lemma Larger(k: nat, x: nat, y: nat)
    requires k > 0 && x < y
    ensures k * x < k * y
  {
    assert k * y == k * x + k * (y - x);
    Positive(k, y - x);
  }

  lemma CeilAbove(x: nat, y: nat)
    requires y < x
    ensures y / E18 + (E18 - 1) * x / E18 < x
  {
  }

  /** The receiver of a contract funded and destroyed within a block may get a balance without ever being settled. */
  lemma InheritsUnsettled(balance: nat, time: nat)
    requires balance > 0 && time > 0
    ensures var heir := Heir(Account(0, 0, 0, [], [], []), balance, 0, time);
            heir.balance > 0 && heir.blockTime == 0 && !NeverGains(heir, time)
  {
    NeverGainsIff(Heir(Account(0, 0, 0, [], [], []), balance, 0, time), time);
  }

  // ----- transfers -----

  type Accounts = map<Address, Account>

  function AccountAt(m: Accounts, addr: Address): Account {
    if addr in m then m[addr] else Account(0, 0, 0, [], [], [])
  }

  ghost function TotalBalance(m: Accounts): nat
    decreases |m|
  {
    if m == map[] then 0
    else
      var addr :| addr in m;
      Shrinks(m, addr);
      m[addr].balance + TotalBalance(m - {addr})
  }

  lemma Shrinks(m: Accounts, addr: Address)
    requires addr in m
    ensures |m - {addr}| < |m|
  {
    assert (m - {addr}).Keys == m.Keys - {addr};
    assert |m.Keys - {addr}| == |m.Keys| - 1;
  }

  lemma {:induction false} TotalWithout(m: Accounts, addr: Address)
    requires addr in m
    ensures TotalBalance(m) == m[addr].balance + TotalBalance(m - {addr})
    decreases |m|
  {
    var x :| x in m && TotalBalance(m) == m[x].balance + TotalBalance(m - {x});
    if x != addr {
      Shrinks(m, x);
      Shrinks(m, addr);
      TotalWithout(m - {x}, addr);
      TotalWithout(m - {addr}, x);
      assert m - {x} - {addr} == m - {addr} - {x};
    }
  }

  lemma TotalUpdate(m: Accounts, addr: Address, a: Account)
    ensures TotalBalance(m[addr := a]) + AccountAt(m, addr).balance == TotalBalance(m) + a.balance
  {
    var m' := m[addr := a];
    TotalWithout(m', addr);
    if addr in m {
      TotalWithout(m, addr);
      assert m' - {addr} == m - {addr};
    } else {
      assert m' - {addr} == m;
    }
  }

  class State {
    var accounts: Accounts

    constructor (accounts: Accounts)
      ensures this.accounts == accounts
    {
      this.accounts := accounts;
    }

    function GetEnergy(addr: Address, time: nat): nat
      reads this
    {
      CalcEnergy(AccountAt(accounts, addr), time)
    }

    /** From now on the account reads as having this energy; no balance and no other energy changes. */
    method SetEnergy(addr: Address, energy: nat, time: nat)
      modifies this
      ensures GetEnergy(addr, time) == energy
      ensures forall other, t: nat :: other != addr ==> GetEnergy(other, t) == old(GetEnergy(other, t))
      ensures TotalBalance(accounts) == old(TotalBalance(accounts))
      ensures accounts == old(accounts)[addr := AccountAt(old(accounts), addr).(energy := energy, blockTime := time)]
    {
      TotalUpdate(accounts, addr, AccountAt(accounts, addr).(energy := energy, blockTime := time));
      accounts := accounts[addr := AccountAt(accounts, addr).(energy := energy, blockTime := time)];
    }

    method SetBalance(addr: Address, balance: nat)
      modifies this
      ensures accounts == old(accounts)[addr := AccountAt(old(accounts), addr).(balance := balance)]
    {
      accounts := accounts[addr := AccountAt(accounts, addr).(balance := balance)];
    }

    /**
      The Transfer hook: the amount moves, both parties have as much energy as
      before, and nothing else changes; also when a party pays itself.
     */
    method Transfer(sender: Address, recipient: Address, amount: nat, time: nat)
      requires amount <= AccountAt(accounts, sender).balance
      modifies this
      ensures forall addr :: GetEnergy(addr, time) == old(GetEnergy(addr, time))
      ensures TotalBalance(accounts) == old(TotalBalance(accounts))
      ensures sender != recipient ==>
                && AccountAt(accounts, sender).balance == AccountAt(old(accounts), sender).balance - amount
                && AccountAt(accounts, recipient).balance == AccountAt(old(accounts), recipient).balance + amount
      ensures sender == recipient ==> AccountAt(accounts, sender).balance == AccountAt(old(accounts), sender).balance
      ensures forall addr :: addr != sender && addr != recipient ==> AccountAt(accounts, addr) == AccountAt(old(accounts), addr)
      ensures amount > 0 ==> AccountAt(accounts, sender).blockTime == AccountAt(accounts, recipient).blockTime == time
    {
      if amount == 0 { return; }
      var senderEnergy := GetEnergy(sender, time);
      var recipientEnergy := GetEnergy(recipient, time);
      SetEnergy(sender, senderEnergy, time);
      SetEnergy(recipient, recipientEnergy, time);
      Move(sender, recipient, amount);
    }

    /**
      The suicide instruction: OnSuicideContract, then the contract is deleted. Energy
      and balance go to the receiver; what a contract leaves to itself is lost.
     */
    method Suicide(contract: Address, receiver: Address, time: nat)
      modifies this
      ensures contract != receiver ==>
                && AccountAt(accounts, receiver) ==
                   Heir(AccountAt(old(accounts), receiver), AccountAt(old(accounts), contract).balance, old(GetEnergy(contract, time)), time)
                && TotalBalance(accounts) == old(TotalBalance(accounts))
      ensures contract == receiver ==>
                TotalBalance(accounts) == old(TotalBalance(accounts)) - AccountAt(old(accounts), contract).balance
      ensures AccountAt(accounts, contract).IsEmpty()
      ensures forall addr :: addr != contract && addr != receiver ==> AccountAt(accounts, addr) == AccountAt(old(accounts), addr)
    {
      OnSuicideContract(contract, receiver, time);
      Delete(contract);
    }

    /** Energy before balance; neither is taken from the contract, which is deleted afterwards. */
    method OnSuicideContract(contract: Address, receiver: Address, time: nat)
      modifies this
      ensures contract != receiver ==>
                AccountAt(accounts, receiver) ==
                Heir(AccountAt(old(accounts), receiver), AccountAt(old(accounts), contract).balance, old(GetEnergy(contract, time)), time)
      ensures contract != receiver ==>
                && AccountAt(accounts, receiver).balance == AccountAt(old(accounts), receiver).balance + AccountAt(old(accounts), contract).balance
                && (old(GetEnergy(contract, time)) > 0 ==>
                      GetEnergy(receiver, time) == old(GetEnergy(receiver, time)) + old(GetEnergy(contract, time)))
      ensures TotalBalance(accounts) == old(TotalBalance(accounts)) + AccountAt(old(accounts), contract).balance
      ensures AccountAt(accounts, contract).balance ==
              AccountAt(old(accounts), contract).balance * if contract == receiver then 2 else 1
      ensures forall addr :: addr != receiver ==> AccountAt(accounts, addr) == AccountAt(old(accounts), addr)
    {
      var energy := GetEnergy(contract, time);
      if energy != 0 {
        var receiverEnergy := GetEnergy(receiver, time);
        SetEnergy(receiver, receiverEnergy + energy, time);
      }
      var amount := AccountAt(accounts, contract).balance;
      if amount != 0 {
        ghost var m := accounts;
        SetBalance(receiver, AccountAt(accounts, receiver).balance + amount);
        TotalUpdate(m, receiver, accounts[receiver]);
      }
    }

    /** StateDB.Suicide: an account that exists becomes empty. */
    method Delete(addr: Address)
      modifies this
      ensures AccountAt(accounts, addr).IsEmpty()
      ensures TotalBalance(accounts) == old(TotalBalance(accounts)) - AccountAt(old(accounts), addr).balance
      ensures forall other :: other != addr ==> AccountAt(accounts, other) == AccountAt(old(accounts), other)
    {
      if AccountAt(accounts, addr).IsEmpty() { return; }
      TotalUpdate(accounts, addr, Account(0, 0, 0, [], [], []));
      accounts := accounts[addr := Account(0, 0, 0, [], [], [])];
    }

    /** SubBalance, then AddBalance. */
    method Move(sender: Address, recipient: Address, amount: nat)
      requires amount <= AccountAt(accounts, sender).balance
      modifies this
      ensures TotalBalance(accounts) == old(TotalBalance(accounts))
      ensures AccountAt(accounts, sender) == AccountAt(old(accounts), sender).(
                balance := AccountAt(old(accounts), sender).balance - if sender == recipient then 0 else amount)
      ensures sender != recipient ==>
                AccountAt(accounts, recipient) == AccountAt(old(accounts), recipient).(balance := AccountAt(old(accounts), recipient).balance + amount)
      ensures forall addr :: addr != sender && addr != recipient ==> AccountAt(accounts, addr) == AccountAt(old(accounts), addr)
    {
      ghost var m0 := accounts;
      SetBalance(sender, AccountAt(accounts, sender).balance - amount);
      TotalUpdate(m0, sender, accounts[sender]);
      ghost var m1 := accounts;
      SetBalance(recipient, AccountAt(accounts, recipient).balance + amount);
      TotalUpdate(m1, recipient, accounts[recipient]);
    }
  }
}
