/** The account, staking and token ledger of src/state.go as a value, and what each operation does to it. */
module LedgerSpec {
  import opened Events
  import opened MapSum

  datatype Validator = Validator(
    stake: int,
    isActive: bool,
    commission: nat,
    delegators: map<Address, int>,
    totalStake: int)

  // accounts holds the balance of each account record.
  datatype Ledger = Ledger(
    accounts: map<Address, int>,
    validators: map<Address, Validator>,
    currentSupply: int)

  const MIN_STAKE := 1000000
  const TOTAL_SUPPLY := 1000000000000000000000000000

  const FRESH := Ledger(map[], map[], 0)

  datatype Op =
    | AddValidator(address: Address, stake: int, commission: nat)
    | RemoveValidator(address: Address)
    | Delegate(delegator: Address, validator: Address, amount: int)
    | Undelegate(delegator: Address, validator: Address, amount: int)
    | Transfer(from: Address, to: Address, amount: int)
    | Mint(to: Address, amount: int)
    | Transact(from: Address, recipient: Option<Address>, value: int, gasPrice: int, gas: nat)

  /** GetAccount creates a missing account with balance 0. */
  function WithAccount(accounts: map<Address, int>, a: Address): map<Address, int> {
    if a in accounts then accounts else accounts[a := 0]
  }

  function Balance(accounts: map<Address, int>, a: Address): int {
    if a in accounts then accounts[a] else 0
  }

  /** SetSINARBalance: the supply is recomputed from all accounts. */
  ghost function SetBalance(s: Ledger, a: Address, balance: int): Ledger {
    var accounts := s.accounts[a := balance];
    s.(accounts := accounts, currentSupply := Sum(accounts))
  }

  predicate Accepts(s: Ledger, op: Op) {
    match op
    case AddValidator(_, stake, _) => stake >= MIN_STAKE
    case RemoveValidator(_) => true
    case Delegate(d, v, amount) =>
      v in s.validators && s.validators[v].isActive && Balance(s.accounts, d) >= amount
    case Undelegate(d, v, amount) =>
      v in s.validators && d in s.validators[v].delegators && s.validators[v].delegators[d] >= amount
    case Transfer(from, _, amount) => Balance(s.accounts, from) >= amount
    case Mint(_, amount) => s.currentSupply + amount <= TOTAL_SUPPLY
    case Transact(from, _, value, gasPrice, gas) => Balance(s.accounts, from) >= value + gasPrice * gas
  }

  function Delegated(v: Validator, d: Address): int {
    if d in v.delegators then v.delegators[d] else 0
  }

  function AddDelegation(v: Validator, d: Address, amount: int): Validator {
    v.(delegators := v.delegators[d := Delegated(v, d) + amount], totalStake := v.totalStake + amount)
  }

  function TakeDelegation(v: Validator, d: Address, amount: int): Validator {
    var left := Delegated(v, d) - amount;
    v.(delegators := if left == 0 then v.delegators - {d} else v.delegators[d := left], totalStake := v.totalStake - amount)
  }

  /** The ledger after a refused operation: at most an empty account record has been created. */
  function Refused(s: Ledger, op: Op): Ledger {
    match op
    case AddValidator(_, _, _) => s
    case RemoveValidator(_) => s
    case Delegate(d, v, amount) =>
      if v in s.validators && s.validators[v].isActive then s.(accounts := WithAccount(s.accounts, d)) else s
    case Undelegate(_, _, _) => s
    case Transfer(from, _, _) => s.(accounts := WithAccount(s.accounts, from))
    case Mint(_, _) => s
    case Transact(from, _, _, _, _) => s.(accounts := WithAccount(s.accounts, from))
  }

  ghost function Accepted(s: Ledger, op: Op): Ledger
    requires Accepts(s, op)
  {
    match op
    case AddValidator(a, stake, commission) =>
      s.(accounts := WithAccount(s.accounts, a),
         validators := s.validators[a := Validator(stake, true, commission, map[], stake)])
    case RemoveValidator(a) =>
      s.(accounts := WithAccount(s.accounts, a), validators := s.validators - {a})
    case Delegate(d, v, amount) =>
      s.(accounts := s.accounts[d := Balance(s.accounts, d) - amount],
         validators := s.validators[v := AddDelegation(s.validators[v], d, amount)])
    case Undelegate(d, v, amount) =>
      s.(accounts := s.accounts[d := Balance(s.accounts, d) + amount],
         validators := s.validators[v := TakeDelegation(s.validators[v], d, amount)])
    case Transfer(from, to, amount) =>
      var paid := SetBalance(s, from, Balance(s.accounts, from) - amount);
      SetBalance(paid, to, Balance(paid.accounts, to) + amount)
    case Mint(to, amount) =>
      SetBalance(s, to, Balance(s.accounts, to) + amount).(currentSupply := s.currentSupply + amount)
    case Transact(from, recipient, value, gasPrice, gas) =>
      var paid := s.accounts[from := Balance(s.accounts, from) - (value + gasPrice * gas)];
      s.(accounts := if recipient.None? then paid
                     else paid[recipient.value := Balance(paid, recipient.value) + value])
  }

  ghost function Step(s: Ledger, op: Op): Ledger {
    if Accepts(s, op) then Accepted(s, op) else Refused(s, op)
  }

  ghost function Exec(s: Ledger, ops: seq<Op>): Ledger {
    if ops == [] then s else Step(Exec(s, ops[..|ops| - 1]), ops[|ops| - 1])
  }

  // ---------- the quantities the ledger accounts for ----------

  ghost function DelegatedTo(v: Validator): int {
    Sum(v.delegators)
  }

  ghost function Delegations(validators: map<Address, Validator>): map<Address, int> {
    map a | a in validators :: DelegatedTo(validators[a])
  }

  ghost function TotalDelegated(validators: map<Address, Validator>): int {
    Sum(Delegations(validators))
  }

  /** All balances and all delegated amounts together. */
  ghost function Wealth(s: Ledger): int {
    Sum(s.accounts) + TotalDelegated(s.validators)
  }

  /** What an operation adds to the wealth. Replacing or removing a validator loses what was delegated to it. */
  ghost function WealthChange(s: Ledger, op: Op): int {
    if !Accepts(s, op) then 0
    else match op
      case AddValidator(a, _, _) => if a in s.validators then -DelegatedTo(s.validators[a]) else 0
      case RemoveValidator(a) => if a in s.validators then -DelegatedTo(s.validators[a]) else 0
      case Delegate(_, _, _) => 0
      case Undelegate(_, _, _) => 0
      case Transfer(_, _, _) => 0
      case Mint(_, amount) => amount
      case Transact(_, recipient, value, gasPrice, gas) => -(gasPrice * gas) - if recipient.None? then value else 0
  }

  lemma WithAccountSum(accounts: map<Address, int>, a: Address)
    ensures Sum(WithAccount(accounts, a)) == Sum(accounts)
  {
    if a !in accounts {
      SumUpdate(accounts, a, 0);
    }
  }

  lemma ValidatorSum(validators: map<Address, Validator>, a: Address, v: Validator)
    ensures TotalDelegated(validators[a := v]) ==
      TotalDelegated(validators) - (if a in validators then DelegatedTo(validators[a]) else 0) + DelegatedTo(v)
  {
    assert Delegations(validators[a := v]) == Delegations(validators)[a := DelegatedTo(v)];
    SumUpdate(Delegations(validators), a, DelegatedTo(v));
  }

  lemma ValidatorRemoveSum(validators: map<Address, Validator>, a: Address)
    requires a in validators
    ensures TotalDelegated(validators - {a}) == TotalDelegated(validators) - DelegatedTo(validators[a])
  {
    assert Delegations(validators - {a}) == Delegations(validators) - {a};
    SumRemove(Delegations(validators), a);
  }

  lemma AddDelegationSum(v: Validator, d: Address, amount: int)
    ensures DelegatedTo(AddDelegation(v, d, amount)) == DelegatedTo(v) + amount
  {
    SumUpdate(v.delegators, d, Delegated(v, d) + amount);
  }

  lemma TakeDelegationSum(v: Validator, d: Address, amount: int)
    requires d in v.delegators
    ensures DelegatedTo(TakeDelegation(v, d, amount)) == DelegatedTo(v) - amount
  {
    SumUpdate(v.delegators, d, Delegated(v, d) - amount);
    SumRemove(v.delegators, d);
  }

  lemma RefusedWealth(s: Ledger, op: Op)
    ensures Wealth(Refused(s, op)) == Wealth(s)
  {
    match op
    case Delegate(d, _, _) => WithAccountSum(s.accounts, d);
    case Transfer(from, _, _) => WithAccountSum(s.accounts, from);
    case Transact(from, _, _, _, _) => WithAccountSum(s.accounts, from);
    case _ =>
  }

  lemma ValidatorOpWealth(s: Ledger, op: Op)
    requires Accepts(s, op) && (op.AddValidator? || op.RemoveValidator?)
    ensures Wealth(Accepted(s, op)) == Wealth(s) + WealthChange(s, op)
  {
    match op
    case AddValidator(a, stake, commission) =>
      WithAccountSum(s.accounts, a);
      var v := Validator(stake, true, commission, map[], stake);
      ValidatorSum(s.validators, a, v);
      assert DelegatedTo(v) == 0;
    case RemoveValidator(a) =>
      WithAccountSum(s.accounts, a);
      if a in s.validators {
        ValidatorRemoveSum(s.validators, a);
      } else {
        assert s.validators - {a} == s.validators;
      }
  }

  lemma StakingWealth(s: Ledger, op: Op)
    requires Accepts(s, op) && (op.Delegate? || op.Undelegate?)
    ensures Wealth(Accepted(s, op)) == Wealth(s)
  {
    match op
    case Delegate(d, v, amount) =>
      SumUpdate(s.accounts, d, Balance(s.accounts, d) - amount);
      AddDelegationSum(s.validators[v], d, amount);
      ValidatorSum(s.validators, v, AddDelegation(s.validators[v], d, amount));
    case Undelegate(d, v, amount) =>
      SumUpdate(s.accounts, d, Balance(s.accounts, d) + amount);
      TakeDelegationSum(s.validators[v], d, amount);
      ValidatorSum(s.validators, v, TakeDelegation(s.validators[v], d, amount));
  }

  lemma TransactWealth(s: Ledger, op: Op)
    requires Accepts(s, op) && op.Transact?
    ensures Wealth(Accepted(s, op)) == Wealth(s) + WealthChange(s, op)
  {
    var cost := op.value + op.gasPrice * op.gas;
    var paid := s.accounts[op.from := Balance(s.accounts, op.from) - cost];
    SumUpdate(s.accounts, op.from, Balance(s.accounts, op.from) - cost);
    if op.recipient.Some? {
      SumUpdate(paid, op.recipient.value, Balance(paid, op.recipient.value) + op.value);
    }
  }

  /** Every operation changes the wealth by exactly the stated amount. */
  lemma StepWealth(s: Ledger, op: Op)
    ensures Wealth(Step(s, op)) == Wealth(s) + WealthChange(s, op)
  {
    if !Accepts(s, op) {
      RefusedWealth(s, op);
    } else if op.AddValidator? || op.RemoveValidator? {
      ValidatorOpWealth(s, op);
    } else if op.Delegate? || op.Undelegate? {
      StakingWealth(s, op);
    } else if op.Transfer? {
      TransferSum(s, op.from, op.to, op.amount);
    } else if op.Mint? {
      SumUpdate(s.accounts, op.to, Balance(s.accounts, op.to) + op.amount);
    } else {
      TransactWealth(s, op);
    }
  }

  /** A transfer, to oneself included, leaves the sum of the balances as it was. */
  lemma TransferSum(s: Ledger, from: Address, to: Address, amount: int)
    requires Accepts(s, Transfer(from, to, amount))
    ensures Sum(Accepted(s, Transfer(from, to, amount)).accounts) == Sum(s.accounts)
  {
    var paid := s.accounts[from := Balance(s.accounts, from) - amount];
    SumUpdate(s.accounts, from, Balance(s.accounts, from) - amount);
    SumUpdate(paid, to, Balance(paid, to) + amount);
  }

  ghost function Parties(op: Op): set<Address> {
    match op
    case AddValidator(_, _, _) => {}
    case RemoveValidator(_) => {}
    case Delegate(d, _, _) => {d}
    case Undelegate(d, _, _) => {d}
    case Transfer(from, to, _) => {from, to}
    case Mint(to, _) => {to}
    case Transact(from, recipient, _, _, _) => {from} + if recipient.Some? then {recipient.value} else {}
  }

  /** No operation touches the balance of an account that is not party to it, and a refused one touches none. */
  lemma OnlyPartiesChange(s: Ledger, op: Op, a: Address)
    requires a !in Parties(op) || !Accepts(s, op)
    ensures Balance(Step(s, op).accounts, a) == Balance(s.accounts, a)
  {
  }

  /** An accepted transfer moves the amount from one balance to the other, and nothing if both are the same. */
  lemma TransferBalances(s: Ledger, from: Address, to: Address, amount: int)
    requires Accepts(s, Transfer(from, to, amount))
    ensures var after := Step(s, Transfer(from, to, amount)).accounts;
      if from == to then Balance(after, from) == Balance(s.accounts, from)
      else Balance(after, from) == Balance(s.accounts, from) - amount && Balance(after, to) == Balance(s.accounts, to) + amount
  {
  }

  // ---------- verdicts and effects, spelt out ----------

  /** Everything but the balances is as before, and no balance has changed. */
  ghost predicate NothingMoved(s: Ledger, now: Ledger) {
    now.validators == s.validators && now.currentSupply == s.currentSupply &&
    (forall a :: a in s.accounts ==> a in now.accounts && now.accounts[a] == s.accounts[a]) &&
    (forall a :: a in now.accounts && a !in s.accounts ==> now.accounts[a] == 0)
  }

  /** A validator needs a million of stake; it starts active, with nothing delegated, and replaces any earlier record. */
  lemma AddValidatorMeans(s: Ledger, a: Address, stake: int, commission: nat)
    ensures var op := AddValidator(a, stake, commission); var now := Step(s, op);
      (Accepts(s, op) <==> stake >= 1000000) && (!Accepts(s, op) ==> now == s) &&
      (Accepts(s, op) ==> (NothingMoved(s.(validators := now.validators), now) &&
        now.validators == s.validators[a := Validator(stake, true, commission, map[], stake)]))
  {
  }

  lemma RemoveValidatorMeans(s: Ledger, a: Address)
    ensures var now := Step(s, RemoveValidator(a));
      NothingMoved(s.(validators := now.validators), now) &&
      forall b :: (b in now.validators <==> b in s.validators && b != a) && (b in now.validators ==> now.validators[b] == s.validators[b])
  {
  }

  /** A delegation needs an active validator and the amount; it moves the amount from the balance to the validator's books. */
  lemma DelegateMeans(s: Ledger, d: Address, v: Address, amount: int)
    ensures var op := Delegate(d, v, amount);
      (Accepts(s, op) <==> v in s.validators && s.validators[v].isActive && (if d in s.accounts then s.accounts[d] else 0) >= amount) &&
      (!Accepts(s, op) ==> NothingMoved(s, Step(s, op)))
    ensures Accepts(s, Delegate(d, v, amount)) ==>
      var now := Step(s, Delegate(d, v, amount)); var was := s.validators[v];
      now.accounts == s.accounts[d := (if d in s.accounts then s.accounts[d] else 0) - amount] &&
      now.currentSupply == s.currentSupply &&
      now.validators == s.validators[v := was.(
        delegators := was.delegators[d := (if d in was.delegators then was.delegators[d] else 0) + amount],
        totalStake := was.totalStake + amount)]
  {
  }

  /** An undelegation needs an entry of at least the amount, moves it back, and drops an entry that becomes empty. */
  lemma UndelegateMeans(s: Ledger, d: Address, v: Address, amount: int)
    ensures var op := Undelegate(d, v, amount);
      (Accepts(s, op) <==> v in s.validators && d in s.validators[v].delegators && s.validators[v].delegators[d] >= amount) &&
      (!Accepts(s, op) ==> Step(s, op) == s)
    ensures Accepts(s, Undelegate(d, v, amount)) ==>
      var now := Step(s, Undelegate(d, v, amount)); var was := s.validators[v];
      now.accounts == s.accounts[d := (if d in s.accounts then s.accounts[d] else 0) + amount] &&
      now.currentSupply == s.currentSupply &&
      now.validators.Keys == s.validators.Keys && (forall b :: b in s.validators && b != v ==> now.validators[b] == s.validators[b]) &&
      now.validators[v] == was.(delegators := now.validators[v].delegators, totalStake := was.totalStake - amount) &&
      (d in now.validators[v].delegators <==> was.delegators[d] != amount) &&
      (d in now.validators[v].delegators ==> now.validators[v].delegators[d] == was.delegators[d] - amount) &&
      forall b :: b != d ==> ((b in now.validators[v].delegators <==> b in was.delegators) &&
        (b in was.delegators ==> now.validators[v].delegators[b] == was.delegators[b]))
  {
  }

  /** A transfer needs the amount, moves it from one balance to the other, and recomputes the supply. */
  lemma TransferMeans(s: Ledger, from: Address, to: Address, amount: int)
    ensures var op := Transfer(from, to, amount); var now := Step(s, op);
      (Accepts(s, op) <==> (if from in s.accounts then s.accounts[from] else 0) >= amount) &&
      (!Accepts(s, op) ==> NothingMoved(s, now)) &&
      (Accepts(s, op) ==> (now.validators == s.validators && now.currentSupply == Sum(now.accounts) &&
        forall a :: (if a in now.accounts then now.accounts[a] else 0) ==
          (if a in s.accounts then s.accounts[a] else 0) - (if a == from then amount else 0) + (if a == to then amount else 0)))
  {
  }

  /** A mint needs room below the total supply of a billion tokens and adds the amount to the balance and the supply. */
  lemma MintMeans(s: Ledger, to: Address, amount: int)
    ensures var op := Mint(to, amount); var now := Step(s, op);
      (Accepts(s, op) <==> s.currentSupply + amount <= 1000000000000000000000000000) &&
      (!Accepts(s, op) ==> now == s) &&
      (Accepts(s, op) ==> now == s.(currentSupply := s.currentSupply + amount,
        accounts := s.accounts[to := (if to in s.accounts then s.accounts[to] else 0) + amount]))
  {
  }

  /**
   * A transaction needs value and gas, which the sender pays; the recipient, if there is one, gets the value, and the
   * gas goes to nobody. The supply is not recomputed.
   */
  lemma TransactMeans(s: Ledger, from: Address, recipient: Option<Address>, value: int, gasPrice: int, gas: nat)
    ensures var op := Transact(from, recipient, value, gasPrice, gas); var now := Step(s, op);
      (Accepts(s, op) <==> (if from in s.accounts then s.accounts[from] else 0) >= value + gasPrice * gas) &&
      (!Accepts(s, op) ==> NothingMoved(s, now)) &&
      (Accepts(s, op) ==> (now.validators == s.validators && now.currentSupply == s.currentSupply &&
        forall a :: (if a in now.accounts then now.accounts[a] else 0) ==
          (if a in s.accounts then s.accounts[a] else 0)
          - (if a == from then value + gasPrice * gas else 0) + (if recipient == Some(a) then value else 0)))
  {
  }

  // ---------- invariants over whole runs ----------

  predicate StakingOrTransfer(op: Op) {
    op.Delegate? || op.Undelegate? || op.Transfer?
  }

  /** Over any run of delegations, undelegations and transfers, balances plus delegations stay the same. */
  lemma {:induction false} WealthConserved(s: Ledger, ops: seq<Op>)
    requires forall op :: op in ops ==> StakingOrTransfer(op)
    ensures Wealth(Exec(s, ops)) == Wealth(s)
    decreases |ops|
  {
    if ops != [] {
      var init, last := ops[..|ops| - 1], ops[|ops| - 1];
      assert ops == init + [last];
      assert last in ops;
      WealthConserved(s, init);
      StepWealth(Exec(s, init), last);
    }
  }

  /** Dropping or replacing a validator conserves the wealth exactly when nothing is delegated to it in total. */
  lemma ReplacingValidatorLosesDelegations(s: Ledger, a: Address, stake: int, commission: nat)
    requires a in s.validators && stake >= MIN_STAKE
    ensures Wealth(Step(s, RemoveValidator(a))) == Wealth(s) <==> DelegatedTo(s.validators[a]) == 0
    ensures Wealth(Step(s, AddValidator(a, stake, commission))) == Wealth(s) <==> DelegatedTo(s.validators[a]) == 0
  {
    StepWealth(s, RemoveValidator(a));
    StepWealth(s, AddValidator(a, stake, commission));
  }

  /** TotalStake is the validator's own stake plus everything delegated to it. */
  ghost predicate StakesAddUp(s: Ledger) {
    forall a :: a in s.validators ==> s.validators[a].totalStake == s.validators[a].stake + DelegatedTo(s.validators[a])
  }

  lemma StepKeepsStakes(s: Ledger, op: Op)
    requires StakesAddUp(s)
    ensures StakesAddUp(Step(s, op))
  {
    if Accepts(s, op) {
      match op
      case AddValidator(_, stake, commission) => assert DelegatedTo(Validator(stake, true, commission, map[], stake)) == 0;
      case Delegate(d, v, amount) => AddDelegationSum(s.validators[v], d, amount);
      case Undelegate(d, v, amount) => TakeDelegationSum(s.validators[v], d, amount);
      case _ =>
    }
  }

  /** After any run at all from a fresh state, every validator's TotalStake adds up. */
  lemma {:induction false} StakesAlwaysAddUp(s: Ledger, ops: seq<Op>)
    requires StakesAddUp(s)
    ensures StakesAddUp(Exec(s, ops))
    decreases |ops|
  {
    if ops != [] {
      StakesAlwaysAddUp(s, ops[..|ops| - 1]);
      StepKeepsStakes(Exec(s, ops[..|ops| - 1]), ops[|ops| - 1]);
    }
  }

  /** The recorded supply is the sum of all balances and respects the cap. */
  ghost predicate SupplySound(s: Ledger) {
    s.currentSupply == Sum(s.accounts) <= TOTAL_SUPPLY
  }

  lemma StepKeepsSupply(s: Ledger, op: Op)
    requires SupplySound(s) && (op.Transfer? || op.Mint?)
    ensures SupplySound(Step(s, op))
  {
    if !Accepts(s, op) {
      if op.Transfer? {
        WithAccountSum(s.accounts, op.from);
      }
    } else if op.Transfer? {
      TransferSum(s, op.from, op.to, op.amount);
    } else {
      SumUpdate(s.accounts, op.to, Balance(s.accounts, op.to) + op.amount);
    }
  }

  /** Over any run of transfers and mints the supply is the sum of the balances and never exceeds the total supply. */
  lemma {:induction false} SupplyAlwaysSound(s: Ledger, ops: seq<Op>)
    requires SupplySound(s)
    requires forall op :: op in ops ==> op.Transfer? || op.Mint?
    ensures SupplySound(Exec(s, ops))
    decreases |ops|
  {
    if ops != [] {
      var init, last := ops[..|ops| - 1], ops[|ops| - 1];
      assert ops == init + [last];
      SupplyAlwaysSound(s, init);
      StepKeepsSupply(Exec(s, init), last);
    }
  }

  /** A delegation moves balance without touching the recorded supply, so the equation survives only if nothing moves. */
  lemma DelegateBreaksSupply(s: Ledger, d: Address, v: Address, amount: int)
    requires SupplySound(s)
    ensures var op := Delegate(d, v, amount);
      Step(s, op).currentSupply == Sum(Step(s, op).accounts) <==> !Accepts(s, op) || amount == 0
  {
    SumUpdate(s.accounts, d, Balance(s.accounts, d) - amount);
    WithAccountSum(s.accounts, d);
  }

  ghost predicate NonNegative(s: Ledger) {
    (forall a :: a in s.accounts ==> s.accounts[a] >= 0) &&
    (forall a, d :: a in s.validators && d in s.validators[a].delegators ==> s.validators[a].delegators[d] >= 0)
  }

  predicate NonNegativeAmounts(op: Op) {
    match op
    case Delegate(_, _, amount) => amount >= 0
    case Undelegate(_, _, amount) => amount >= 0
    case Transfer(_, _, amount) => amount >= 0
    case Mint(_, amount) => amount >= 0
    case Transact(_, _, value, gasPrice, _) => value >= 0 && gasPrice >= 0
    case _ => true
  }

  /** With non-negative amounts no operation overdraws an account or a delegation. */
  lemma StepKeepsNonNegative(s: Ledger, op: Op)
    requires NonNegative(s) && NonNegativeAmounts(op)
    ensures NonNegative(Step(s, op))
  {
    if op.Transact? {
      assert op.gasPrice * op.gas >= 0;
    }
  }

  lemma {:induction false} NeverOverdrawn(s: Ledger, ops: seq<Op>)
    requires NonNegative(s) && forall op :: op in ops ==> NonNegativeAmounts(op)
    ensures NonNegative(Exec(s, ops))
    decreases |ops|
  {
    if ops != [] {
      var init, last := ops[..|ops| - 1], ops[|ops| - 1];
      assert ops == init + [last];
      NeverOverdrawn(s, init);
      StepKeepsNonNegative(Exec(s, init), last);
    }
  }

  /**
   * Undelegating what was just delegated restores the ledger, up to the record of an account that did not
   * exist, exactly when the delegator had no entry of amount 0: Undelegate drops such an entry.
   */
  lemma UndelegateUndoesDelegate(s: Ledger, d: Address, v: Address, amount: int)
    requires Accepts(s, Delegate(d, v, amount))
    requires Delegated(s.validators[v], d) >= 0
    ensures Step(Step(s, Delegate(d, v, amount)), Undelegate(d, v, amount)) == s.(accounts := WithAccount(s.accounts, d))
      <==> (d in s.validators[v].delegators ==> s.validators[v].delegators[d] != 0)
  {
    var now := Step(s, Delegate(d, v, amount));
    var back := TakeDelegation(now.validators[v], d, amount);
    var after := Step(now, Undelegate(d, v, amount));
    assert after.validators[v] == back;
    assert now.accounts[d := Balance(now.accounts, d) + amount] == WithAccount(s.accounts, d);
    if d in s.validators[v].delegators && s.validators[v].delegators[d] == 0 {
      assert d !in back.delegators;
    } else {
      assert back.delegators == s.validators[v].delegators;
      assert now.validators[v := back] == s.validators;
    }
  }
}
