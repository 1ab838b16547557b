/** The StateDB object of src/state.go, proved against LedgerSpec and Distribution. */
module StateDb {
  import opened Events
  import opened MapSum
  import opened LedgerSpec
  import opened Distribution

  class StateDB {
    var accounts: map<Address, int>
    var validators: map<Address, Validator>
    var currentSupply: int

    ghost function State(): Ledger
      reads this
    {
      Ledger(accounts, validators, currentSupply)
    }

    constructor ()
      ensures State() == FRESH
      ensures SupplySound(State()) && StakesAddUp(State()) && NonNegative(State())
    {
      accounts, validators, currentSupply := map[], map[], 0;
    }

    /** Reads a balance; a missing account is created on the way. */
    method GetBalance(a: Address) returns (balance: int)
      modifies this`accounts
      ensures accounts == WithAccount(old(accounts), a)
      ensures balance == if a in old(accounts) then old(accounts)[a] else 0
    {
      if a !in accounts {
        accounts := accounts[a := 0];
      }
      balance := accounts[a];
    }

    method SetBalance(a: Address, balance: int)
      modifies this`accounts
      ensures accounts == old(accounts)[a := balance]
    {
      accounts := accounts[a := balance];
    }

    method SetSINARBalance(a: Address, balance: int)
      modifies this`accounts, this`currentSupply
      ensures State() == LedgerSpec.SetBalance(old(State()), a, balance)
    {
      accounts := accounts[a := balance];
      currentSupply := CalculateTotalSINARSupply();
    }

    /** Adds up all accounts in map iteration order. */
    method CalculateTotalSINARSupply() returns (total: int)
      ensures total == Sum(accounts)
    {
      total := 0;
      var rest := accounts.Keys;
      while rest != {}
        invariant rest <= accounts.Keys
        invariant total == Sum(accounts - rest)
        decreases rest
      {
        var a :| a in rest;
        var next := rest - {a};
        assert accounts - next - {a} == accounts - rest;
        SumRemove(accounts - next, a);
        total := total + accounts[a];
        rest := next;
      }
      assert accounts - rest == accounts;
    }

    method AddValidator(address: Address, stake: int, commission: nat) returns (ok: bool)
      modifies this
      ensures var op := Op.AddValidator(address, stake, commission);
        ok == Accepts(old(State()), op) && State() == Step(old(State()), op)
      ensures ok <==> stake >= 1000000
      ensures ok ==> validators == old(validators)[address := Validator(stake, true, commission, map[], stake)]
    {
      if stake < MIN_STAKE {
        return false;
      }
      var _ := GetBalance(address);
      validators := validators[address := Validator(stake, true, commission, map[], stake)];
      return true;
    }

    method RemoveValidator(address: Address)
      modifies this
      ensures State() == Step(old(State()), Op.RemoveValidator(address))
    {
      var _ := GetBalance(address);
      validators := validators - {address};
    }

    method Delegate(delegator: Address, validator: Address, amount: int) returns (ok: bool)
      modifies this
      ensures var op := Op.Delegate(delegator, validator, amount);
        ok == Accepts(old(State()), op) && State() == Step(old(State()), op)
      ensures ok <==> validator in old(validators) && old(validators)[validator].isActive &&
                      (if delegator in old(accounts) then old(accounts)[delegator] else 0) >= amount
      ensures !ok ==> NothingMoved(old(State()), State())
    {
      if validator !in validators || !validators[validator].isActive {
        return false;
      }
      var balance := GetBalance(delegator);
      if balance < amount {
        return false;
      }
      accounts := accounts[delegator := balance - amount];
      var v := validators[validator];
      if delegator !in v.delegators {
        v := v.(delegators := v.delegators[delegator := 0]);
      }
      v := v.(delegators := v.delegators[delegator := v.delegators[delegator] + amount]);
      v := v.(totalStake := v.totalStake + amount);
      assert v == AddDelegation(validators[validator], delegator, amount);
      validators := validators[validator := v];
      return true;
    }

    method Undelegate(delegator: Address, validator: Address, amount: int) returns (ok: bool)
      modifies this
      ensures var op := Op.Undelegate(delegator, validator, amount);
        ok == Accepts(old(State()), op) && State() == Step(old(State()), op)
      ensures ok <==> validator in old(validators) && delegator in old(validators)[validator].delegators &&
                      old(validators)[validator].delegators[delegator] >= amount
      ensures !ok ==> State() == old(State())
    {
      if validator !in validators {
        return false;
      }
      var v := validators[validator];
      if delegator !in v.delegators || v.delegators[delegator] < amount {
        return false;
      }
      v := v.(delegators := v.delegators[delegator := v.delegators[delegator] - amount]);
      if v.delegators[delegator] == 0 {
        v := v.(delegators := v.delegators - {delegator});
      }
      v := v.(totalStake := v.totalStake - amount);
      assert v.delegators == TakeDelegation(validators[validator], delegator, amount).delegators;
      validators := validators[validator := v];
      var balance := GetBalance(delegator);
      accounts := accounts[delegator := balance + amount];
      return true;
    }

    method TransferSINAR(from: Address, to: Address, amount: int) returns (ok: bool)
      modifies this
      ensures var op := Op.Transfer(from, to, amount);
        ok == Accepts(old(State()), op) && State() == Step(old(State()), op)
      ensures ok <==> (if from in old(accounts) then old(accounts)[from] else 0) >= amount
      ensures !ok ==> NothingMoved(old(State()), State())
    {
      var fromBalance := GetBalance(from);
      if fromBalance < amount {
        return false;
      }
      SetSINARBalance(from, fromBalance - amount);
      assert accounts == old(accounts)[from := fromBalance - amount];
      ghost var paid := accounts;
      var toBalance := GetBalance(to);
      SetSINARBalance(to, toBalance + amount);
      assert accounts == paid[to := toBalance + amount];
      return true;
    }

    method MintSINAR(to: Address, amount: int) returns (ok: bool)
      modifies this
      ensures var op := Op.Mint(to, amount);
        ok == Accepts(old(State()), op) && State() == Step(old(State()), op)
      ensures ok <==> old(currentSupply) + amount <= 1000000000000000000000000000
      ensures !ok ==> State() == old(State())
    {
      var newSupply := currentSupply + amount;
      if newSupply > TOTAL_SUPPLY {
        return false;
      }
      var balance := GetBalance(to);
      SetSINARBalance(to, balance + amount);
      assert accounts == old(accounts)[to := balance + amount];
      currentSupply := newSupply;
      return true;
    }

    /** Blockchain.processTransactionInStateDB: the sender pays value and gas, the recipient gets the value. */
    method ProcessTransaction(from: Address, recipient: Option<Address>, value: int, gasPrice: int, gas: nat)
      modifies this`accounts
      ensures State() == Step(old(State()), Transact(from, recipient, value, gasPrice, gas))
      ensures (if from in old(accounts) then old(accounts)[from] else 0) < value + gasPrice * gas ==>
        NothingMoved(old(State()), State())
      ensures (if from in old(accounts) then old(accounts)[from] else 0) >= value + gasPrice * gas ==>
        forall a :: (if a in accounts then accounts[a] else 0) ==
          (if a in old(accounts) then old(accounts)[a] else 0)
          - (if a == from then value + gasPrice * gas else 0) + (if recipient == Some(a) then value else 0)
    {
      var balance := GetBalance(from);
      var required := value + gasPrice * gas;
      if balance >= required {
        SetBalance(from, balance - required);
        assert accounts == old(accounts)[from := balance - required];
        if recipient.Some? {
          ghost var paid := accounts;
          var toBalance := GetBalance(recipient.value);
          SetBalance(recipient.value, toBalance + value);
          assert accounts == paid[recipient.value := toBalance + value];
        }
      }
    }

    method DistributeToWallets(wallets: seq<Address>, totalAmount: int)
      modifies this`accounts, this`currentSupply
      ensures accounts == Pay(old(accounts), wallets, totalAmount)
      ensures currentSupply == if wallets == [] then old(currentSupply) else Sum(accounts)
    {
      if |wallets| == 0 {
        return;
      }
      var amountPerWallet, remainder := totalAmount / |wallets|, totalAmount % |wallets|;
      for i := 0 to |wallets|
        invariant accounts == PayFirst(old(accounts), wallets, totalAmount, i)
        invariant i > 0 ==> currentSupply == Sum(accounts)
      {
        var amount := amountPerWallet;
        if i == |wallets| - 1 {
          amount := amount + remainder;
        }
        SetSINARBalance(wallets[i], amount);
      }
    }

    /** Afterwards the supply is the total supply plus the balances held outside the listed wallets. */
    method InitializeSINARDistribution()
      modifies this`accounts, this`currentSupply
      ensures accounts == PayAll(old(accounts), Categories(PLANS)) && Distributed(old(accounts), accounts)
      ensures currentSupply == Sum(accounts)
      ensures currentSupply == TOTAL_SUPPLY + Sum(old(accounts) - AllWallets(Categories(PLANS)))
      ensures old(accounts) == map[] ==> SupplySound(State())
    {
      DistributeToWallets(Wallets(TEAM), Percent(15));
      DistributeToWallets(Wallets(ECOSYSTEM), Percent(25));
      DistributeToWallets(Wallets(VALIDATORS), Percent(20));
      DistributeToWallets(Wallets(LIQUIDITY), Percent(10));
      DistributeToWallets(Wallets(COMMUNITY), Percent(20));
      DistributeToWallets(Wallets(RESERVE), Percent(10));
      currentSupply := CalculateTotalSINARSupply();
      SixPayments(old(accounts));
      InitialDistributionSum(old(accounts));
      DistributionIsRight(old(accounts));
    }
  }

  /** The six payments in a row are the payment of all shipped categories. */
  lemma SixPayments(accounts: map<Address, int>)
    ensures PayAll(accounts, Categories(PLANS)) ==
      Pay(Pay(Pay(Pay(Pay(Pay(accounts,
        Wallets(TEAM), Percent(15)), Wallets(ECOSYSTEM), Percent(25)), Wallets(VALIDATORS), Percent(20)),
        Wallets(LIQUIDITY), Percent(10)), Wallets(COMMUNITY), Percent(20)), Wallets(RESERVE), Percent(10))
  {
    assert PLANS[..6] == PLANS;
    PayNext(accounts, 1);
    PayNext(accounts, 2);
    PayNext(accounts, 3);
    PayNext(accounts, 4);
    PayNext(accounts, 5);
    PayNext(accounts, 6);
    assert Categories(PLANS[..0]) == [];
  }

  lemma PayNext(accounts: map<Address, int>, k: nat)
    requires 0 < k <= |PLANS|
    ensures PayAll(accounts, Categories(PLANS[..k])) ==
      Pay(PayAll(accounts, Categories(PLANS[..k - 1])), Wallets(PLANS[k - 1]), Percent(PLANS[k - 1].percentage))
  {
    assert PLANS[..k][..k - 1] == PLANS[..k - 1];
    var all := Categories(PLANS[..k]);
    assert all[..|all| - 1] == Categories(PLANS[..k - 1]);
  }
}
