/** The initial token distribution of src/state.go. */
module Distribution {
  import opened Events
  import opened MapSum
  import opened LedgerSpec

  ghost predicate Distinct(wallets: seq<Address>) {
    wallets != [] ==> wallets[0] !in wallets[1..] && Distinct(wallets[1..])
  }

  ghost function WalletSet(wallets: seq<Address>): set<Address> {
    set w | w in wallets
  }

  /** An equal share for every wallet; the last one also gets the remainder. */
  function Share(total: int, n: nat, i: nat): int
    requires i < n
  {
    total / n + if i == n - 1 then total % n else 0
  }

  /** The balances after the first k wallets have been set to their shares. */
  function PayFirst(accounts: map<Address, int>, wallets: seq<Address>, total: int, k: nat): map<Address, int>
    requires k <= |wallets|
  {
    if k == 0 then accounts
    else PayFirst(accounts, wallets, total, k - 1)[wallets[k - 1] := Share(total, |wallets|, k - 1)]
  }

  /** distributeToWallets: every listed wallet's balance is overwritten with its share. */
  function Pay(accounts: map<Address, int>, wallets: seq<Address>, total: int): map<Address, int> {
    PayFirst(accounts, wallets, total, |wallets|)
  }

  lemma {:induction false} DistinctIndices(wallets: seq<Address>, i: nat, j: nat)
    requires Distinct(wallets) && i < j < |wallets|
    ensures wallets[i] != wallets[j]
    decreases |wallets|
  {
    if i > 0 {
      DistinctIndices(wallets[1..], i - 1, j - 1);
    } else {
      assert wallets[1..][j - 1] in wallets[1..];
    }
  }

  /** The sum of the first k of n shares. */
  function Shares(total: int, n: nat, k: nat): int
    requires k <= n
  {
    if k == 0 then 0 else Shares(total, n, k - 1) + Share(total, n, k - 1)
  }

  lemma {:induction false} EqualShares(total: int, n: nat, k: nat)
    requires k < n
    ensures Shares(total, n, k) == k * (total / n)
    decreases k
  {
    if k > 0 {
      EqualShares(total, n, k - 1);
      var q := total / n;
      assert (k - 1) * q + q == k * q;
    }
  }

  /** The shares add up to the whole amount: the remainder is neither lost nor paid twice. */
  lemma SharesAddUp(total: int, n: nat)
    requires n > 0
    ensures Shares(total, n, n) == total
  {
    EqualShares(total, n, n - 1);
    var q := total / n;
    assert (n - 1) * q + q == n * q;
  }

  lemma {:induction false} PayFirstOther(accounts: map<Address, int>, wallets: seq<Address>, total: int, k: nat, a: Address)
    requires k <= |wallets| && forall i :: 0 <= i < k ==> wallets[i] != a
    ensures a in PayFirst(accounts, wallets, total, k) <==> a in accounts
    ensures a in accounts ==> PayFirst(accounts, wallets, total, k)[a] == accounts[a]
    decreases k
  {
    if k > 0 {
      PayFirstOther(accounts, wallets, total, k - 1, a);
    }
  }

  /** Paying one more wallet, seen without the accounts in others. */
  lemma PayOneMore(accounts: map<Address, int>, wallets: seq<Address>, total: int, k: nat, others: set<Address>)
    requires Distinct(wallets) && 0 < k <= |wallets| && others !! WalletSet(wallets)
    requires Sum(PayFirst(accounts, wallets, total, k - 1) - others) ==
      Sum(accounts - others - WalletSet(wallets[..k - 1])) + Shares(total, |wallets|, k - 1)
    ensures Sum(PayFirst(accounts, wallets, total, k) - others) ==
      Sum(accounts - others - WalletSet(wallets[..k])) + Shares(total, |wallets|, k)
  {
    var w, share := wallets[k - 1], Share(total, |wallets|, k - 1);
    var before := PayFirst(accounts, wallets, total, k - 1);
    forall i | 0 <= i < k - 1
      ensures wallets[i] != w
    {
      DistinctIndices(wallets, i, k - 1);
    }
    PayFirstOther(accounts, wallets, total, k - 1, w);
    assert w in WalletSet(wallets);
    assert before[w := share] - others == (before - others)[w := share];
    SumUpdate(before - others, w, share);
    var rest := accounts - others - WalletSet(wallets[..k - 1]);
    assert wallets[..k] == wallets[..k - 1] + [w];
    assert accounts - others - WalletSet(wallets[..k]) == rest - {w};
    if w in accounts {
      SumRemove(rest, w);
    } else {
      assert rest - {w} == rest;
    }
  }

  lemma {:induction false} PayFirstSum(accounts: map<Address, int>, wallets: seq<Address>, total: int, k: nat, others: set<Address>)
    requires Distinct(wallets) && k <= |wallets| && others !! WalletSet(wallets)
    ensures Sum(PayFirst(accounts, wallets, total, k) - others) ==
      Sum(accounts - others - WalletSet(wallets[..k])) + Shares(total, |wallets|, k)
    decreases k
  {
    if k == 0 {
      assert accounts - others - WalletSet(wallets[..0]) == accounts - others;
    } else {
      PayFirstSum(accounts, wallets, total, k - 1, others);
      PayOneMore(accounts, wallets, total, k, others);
    }
  }

  /** A category of wallets ends up holding exactly the category amount, and all other balances are untouched. */
  lemma PaySum(accounts: map<Address, int>, wallets: seq<Address>, total: int, others: set<Address>)
    requires Distinct(wallets) && wallets != [] && others !! WalletSet(wallets)
    ensures Sum(Pay(accounts, wallets, total) - others) == Sum(accounts - others - WalletSet(wallets)) + total
    ensures forall a :: a !in wallets ==> Balance(Pay(accounts, wallets, total), a) == Balance(accounts, a)
  {
    PayFirstSum(accounts, wallets, total, |wallets|, others);
    SharesAddUp(total, |wallets|);
    assert wallets[..|wallets|] == wallets;
    forall a | a !in wallets
      ensures Balance(Pay(accounts, wallets, total), a) == Balance(accounts, a)
    {
      PayFirstOther(accounts, wallets, total, |wallets|, a);
    }
  }

  /** Every wallet ends up with an equal share, the last one with the remainder on top. */
  lemma {:induction false} PayBalance(accounts: map<Address, int>, wallets: seq<Address>, total: int, k: nat, i: nat)
    requires Distinct(wallets) && i < k <= |wallets|
    ensures wallets[i] in PayFirst(accounts, wallets, total, k)
    ensures PayFirst(accounts, wallets, total, k)[wallets[i]] ==
      total / |wallets| + if i == |wallets| - 1 then total % |wallets| else 0
    decreases k
  {
    if i < k - 1 {
      DistinctIndices(wallets, i, k - 1);
      PayBalance(accounts, wallets, total, k - 1, i);
    }
  }

  // ---------- several categories ----------

  datatype Category = Category(wallets: seq<Address>, amount: int)

  function PayAll(accounts: map<Address, int>, categories: seq<Category>): map<Address, int> {
    if categories == [] then accounts
    else
      var last := categories[|categories| - 1];
      Pay(PayAll(accounts, categories[..|categories| - 1]), last.wallets, last.amount)
  }

  ghost function AllWallets(categories: seq<Category>): set<Address> {
    set c, w | c in categories && w in c.wallets :: w
  }

  function TotalAmount(categories: seq<Category>): int {
    if categories == [] then 0
    else TotalAmount(categories[..|categories| - 1]) + categories[|categories| - 1].amount
  }

  /** No wallet is listed twice, within a category or across categories, and no category is empty. */
  ghost predicate WellSeparated(categories: seq<Category>) {
    categories != [] ==>
      var init, last := categories[..|categories| - 1], categories[|categories| - 1];
      WellSeparated(init) && last.wallets != [] && Distinct(last.wallets) && WalletSet(last.wallets) !! AllWallets(init)
  }

  lemma AllWalletsSplit(categories: seq<Category>)
    requires categories != []
    ensures AllWallets(categories) ==
      AllWallets(categories[..|categories| - 1]) + WalletSet(categories[|categories| - 1].wallets)
  {
    assert categories == categories[..|categories| - 1] + [categories[|categories| - 1]];
  }

  lemma {:induction false} PayAllSum(accounts: map<Address, int>, categories: seq<Category>, others: set<Address>)
    requires WellSeparated(categories) && others !! AllWallets(categories)
    ensures Sum(PayAll(accounts, categories) - others) ==
      Sum(accounts - others - AllWallets(categories)) + TotalAmount(categories)
    decreases |categories|
  {
    if categories == [] {
      assert accounts - others - AllWallets([]) == accounts - others;
    } else {
      var init, last := categories[..|categories| - 1], categories[|categories| - 1];
      AllWalletsSplit(categories);
      var mine := WalletSet(last.wallets);
      PaySum(PayAll(accounts, init), last.wallets, last.amount, others);
      assert PayAll(accounts, init) - others - mine == PayAll(accounts, init) - (others + mine);
      PayAllSum(accounts, init, others + mine);
      assert accounts - (others + mine) - AllWallets(init) == accounts - others - AllWallets(categories);
    }
  }

  /** Paying well separated categories leaves the categories' amounts plus whatever accounts outside the lists hold. */
  lemma DistributionSum(accounts: map<Address, int>, categories: seq<Category>)
    requires WellSeparated(categories)
    ensures Sum(PayAll(accounts, categories)) == Sum(accounts - AllWallets(categories)) + TotalAmount(categories)
  {
    PayAllSum(accounts, categories, {});
    assert PayAll(accounts, categories) - {} == PayAll(accounts, categories);
    assert accounts - {} == accounts;
  }

  /** So does every wallet of every category. */
  lemma {:induction false} PayAllBalance(accounts: map<Address, int>, categories: seq<Category>, j: nat, i: nat)
    requires WellSeparated(categories) && j < |categories| && i < |categories[j].wallets|
    ensures var n := |categories[j].wallets|; var w := categories[j].wallets[i];
      w in PayAll(accounts, categories) &&
      PayAll(accounts, categories)[w] == categories[j].amount / n + if i == n - 1 then categories[j].amount % n else 0
    decreases |categories|
  {
    var init, last := categories[..|categories| - 1], categories[|categories| - 1];
    if j < |init| {
      PayAllBalance(accounts, init, j, i);
      var w := categories[j].wallets[i];
      assert init[j] in init && w in init[j].wallets;
      assert w in AllWallets(init);
      forall k | 0 <= k < |last.wallets|
        ensures last.wallets[k] != w
      {
        assert last.wallets[k] in WalletSet(last.wallets);
      }
      PayFirstOther(PayAll(accounts, init), last.wallets, last.amount, |last.wallets|, w);
    } else {
      PayBalance(PayAll(accounts, init), last.wallets, last.amount, |last.wallets|, i);
    }
  }

  lemma {:induction false} PayAllOther(accounts: map<Address, int>, categories: seq<Category>, a: Address)
    requires a !in AllWallets(categories)
    ensures Balance(PayAll(accounts, categories), a) == Balance(accounts, a)
    decreases |categories|
  {
    if categories != [] {
      var init, last := categories[..|categories| - 1], categories[|categories| - 1];
      AllWalletsSplit(categories);
      PayAllOther(accounts, init, a);
      forall k | 0 <= k < |last.wallets|
        ensures last.wallets[k] != a
      {
        assert last.wallets[k] in WalletSet(last.wallets);
      }
      PayFirstOther(PayAll(accounts, init), last.wallets, last.amount, |last.wallets|, a);
    }
  }

  // ---------- the distribution the source ships ----------

  /** The address whose 20 bytes all equal b, as in 0x1111...11. */
  function Repeated(b: nat): Address {
    b * 0x0101010101010101010101010101010101010101
  }

  // A shipped category: the repeated bytes step*first, step*(first+1), ... of its wallets, and its percentage.
  datatype Plan = Plan(step: nat, first: nat, count: nat, percentage: nat)

  function ByteAt(plan: Plan, k: nat): nat {
    plan.step * (plan.first + k)
  }

  function Wallets(plan: Plan): seq<Address> {
    seq(plan.count, k requires 0 <= k < plan.count => Repeated(ByteAt(plan, k)))
  }

  function Percent(p: nat): int {
    TOTAL_SUPPLY * p / 100
  }

  const TEAM := Plan(0x11, 1, 5, 15)         // 0x11, 0x22, 0x33, 0x44, 0x55
  const ECOSYSTEM := Plan(0x11, 6, 5, 25)    // 0x66, 0x77, 0x88, 0x99, 0xAA
  const VALIDATORS := Plan(0x11, 11, 5, 20)  // 0xBB, 0xCC, 0xDD, 0xEE, 0xFF
  const LIQUIDITY := Plan(0x10, 1, 3, 10)    // 0x10, 0x20, 0x30
  const COMMUNITY := Plan(0x10, 4, 5, 20)    // 0x40, 0x50, 0x60, 0x70, 0x80
  const RESERVE := Plan(0x10, 9, 3, 10)      // 0x90, 0xA0, 0xB0

  const PLANS: seq<Plan> := [TEAM, ECOSYSTEM, VALIDATORS, LIQUIDITY, COMMUNITY, RESERVE]

  function CategoryOf(plan: Plan): Category {
    Category(Wallets(plan), Percent(plan.percentage))
  }

  function Categories(plans: seq<Plan>): seq<Category> {
    if plans == [] then []
    else Categories(plans[..|plans| - 1]) + [CategoryOf(plans[|plans| - 1])]
  }

  const TOKEN := 1000000000000000000
  const MILLION := 1000000 * TOKEN

  /** The lists and amounts as the source writes them out. */
  lemma ShippedCategories()
    ensures Categories(PLANS) == [
      CategoryOf(TEAM), CategoryOf(ECOSYSTEM), CategoryOf(VALIDATORS),
      CategoryOf(LIQUIDITY), CategoryOf(COMMUNITY), CategoryOf(RESERVE)]
    ensures CategoryOf(TEAM) ==
      Category([0x1111111111111111111111111111111111111111, 0x2222222222222222222222222222222222222222,
                0x3333333333333333333333333333333333333333, 0x4444444444444444444444444444444444444444,
                0x5555555555555555555555555555555555555555], 150 * MILLION)
    ensures CategoryOf(ECOSYSTEM) ==
      Category([0x6666666666666666666666666666666666666666, 0x7777777777777777777777777777777777777777,
                0x8888888888888888888888888888888888888888, 0x9999999999999999999999999999999999999999,
                0xAAAAAAAAAAAAAAAAAAAAAAAAAAAAAAAAAAAAAAAA], 250 * MILLION)
    ensures CategoryOf(VALIDATORS) ==
      Category([0xBBBBBBBBBBBBBBBBBBBBBBBBBBBBBBBBBBBBBBBB, 0xCCCCCCCCCCCCCCCCCCCCCCCCCCCCCCCCCCCCCCCC,
                0xDDDDDDDDDDDDDDDDDDDDDDDDDDDDDDDDDDDDDDDD, 0xEEEEEEEEEEEEEEEEEEEEEEEEEEEEEEEEEEEEEEEE,
                0xFFFFFFFFFFFFFFFFFFFFFFFFFFFFFFFFFFFFFFFF], 200 * MILLION)
    ensures CategoryOf(LIQUIDITY) ==
      Category([0x1010101010101010101010101010101010101010, 0x2020202020202020202020202020202020202020,
                0x3030303030303030303030303030303030303030], 100 * MILLION)
    ensures CategoryOf(COMMUNITY) ==
      Category([0x4040404040404040404040404040404040404040, 0x5050505050505050505050505050505050505050,
                0x6060606060606060606060606060606060606060, 0x7070707070707070707070707070707070707070,
                0x8080808080808080808080808080808080808080], 200 * MILLION)
    ensures CategoryOf(RESERVE) ==
      Category([0x9090909090909090909090909090909090909090, 0xA0A0A0A0A0A0A0A0A0A0A0A0A0A0A0A0A0A0A0A0,
                0xB0B0B0B0B0B0B0B0B0B0B0B0B0B0B0B0B0B0B0B0], 100 * MILLION)
  {
    assert PLANS[..6] == PLANS;
    CategoriesNext(1);
    CategoriesNext(2);
    CategoriesNext(3);
    CategoriesNext(4);
    CategoriesNext(5);
    CategoriesNext(6);
    assert Categories(PLANS[..0]) == [];
  }

  lemma CategoriesNext(k: nat)
    requires 0 < k <= |PLANS|
    ensures Categories(PLANS[..k]) == Categories(PLANS[..k - 1]) + [CategoryOf(PLANS[k - 1])]
  {
    assert PLANS[..k][..k - 1] == PLANS[..k - 1];
  }

  lemma ByteAtGrows(plan: Plan, i: nat, j: nat)
    requires plan.step > 0 && i < j
    ensures ByteAt(plan, i) < ByteAt(plan, j)
  {
    var d := j - i;
    assert plan.step * d > 0;
    assert plan.step * (plan.first + j) == plan.step * (plan.first + i) + plan.step * d;
  }

  lemma {:induction false} DistinctFromIndices(wallets: seq<Address>)
    requires forall i, j :: 0 <= i < j < |wallets| ==> wallets[i] != wallets[j]
    ensures Distinct(wallets)
    decreases |wallets|
  {
    if wallets != [] {
      DistinctFromIndices(wallets[1..]);
    }
  }

  lemma WalletsDistinct(plan: Plan)
    requires plan.step > 0
    ensures Distinct(Wallets(plan))
  {
    forall i, j | 0 <= i < j < plan.count
      ensures Wallets(plan)[i] != Wallets(plan)[j]
    {
      ByteAtGrows(plan, i, j);
    }
    DistinctFromIndices(Wallets(plan));
  }

  /** The category a repeated byte belongs to: no byte serves two categories. */
  function Owner(b: nat): nat {
    if b % 0x11 == 0 then (if b == 0 then 0 else (b / 0x11 - 1) / 5)
    else if b / 0x10 <= 3 then 3
    else if b / 0x10 <= 8 then 4
    else 5
  }

  ghost predicate PlanSound(plan: Plan, owner: nat) {
    plan.count > 0 && plan.step > 0 && forall k: nat :: k < plan.count ==> Owner(ByteAt(plan, k)) == owner
  }

  ghost predicate OwnedBelow(w: Address, n: nat) {
    exists b :: w == Repeated(b) && Owner(b) < n
  }

  lemma PlanWallet(plan: Plan, owner: nat, w: Address)
    requires PlanSound(plan, owner) && w in Wallets(plan)
    ensures !OwnedBelow(w, owner) && OwnedBelow(w, owner + 1)
  {
    var k :| 0 <= k < plan.count && Wallets(plan)[k] == w;
    assert w == Repeated(ByteAt(plan, k));
  }

  lemma {:induction false} PlansSeparated(plans: seq<Plan>)
    requires forall i :: 0 <= i < |plans| ==> PlanSound(plans[i], i)
    ensures WellSeparated(Categories(plans))
    ensures forall w :: w in AllWallets(Categories(plans)) ==> OwnedBelow(w, |plans|)
    decreases |plans|
  {
    if plans != [] {
      var init, last := plans[..|plans| - 1], plans[|plans| - 1];
      PlansSeparated(init);
      var before, all, mine := Categories(init), Categories(plans), CategoryOf(last);
      assert all == before + [mine] && all[..|all| - 1] == before;
      AllWalletsSplit(all);
      WalletsDistinct(last);
      assert |mine.wallets| > 0;
      forall w | w in WalletSet(mine.wallets)
        ensures w !in AllWallets(before) && OwnedBelow(w, |plans|)
      {
        PlanWallet(last, |init|, w);
      }
    }
  }

  lemma ShippedPlansSound()
    ensures forall i :: 0 <= i < |PLANS| ==> PlanSound(PLANS[i], i)
  {
    ElevensSound(1, 0, 15);
    ElevensSound(6, 1, 25);
    ElevensSound(11, 2, 20);
    SixteensSound(LIQUIDITY, 3);
    SixteensSound(COMMUNITY, 4);
    SixteensSound(RESERVE, 5);
  }

  lemma ElevensSound(first: nat, owner: nat, percentage: nat)
    requires first == 5 * owner + 1
    ensures PlanSound(Plan(0x11, first, 5, percentage), owner)
  {
    forall k: nat | k < 5
      ensures Owner(ByteAt(Plan(0x11, first, 5, percentage), k)) == owner
    {
      assert 0x11 * (first + k) % 0x11 == 0 && 0x11 * (first + k) / 0x11 == first + k;
    }
  }

  lemma SixteensSound(plan: Plan, owner: nat)
    requires (plan == LIQUIDITY && owner == 3) || (plan == COMMUNITY && owner == 4) || (plan == RESERVE && owner == 5)
    ensures PlanSound(plan, owner)
  {
    forall k: nat | k < plan.count
      ensures Owner(ByteAt(plan, k)) == owner
    {
      var m := plan.first + k;
      assert 0x10 * m / 0x10 == m && 1 <= m <= 11;
      assert 0x10 * m % 0x11 != 0;
    }
  }

  function TotalPercent(plans: seq<Plan>): int {
    if plans == [] then 0
    else TotalPercent(plans[..|plans| - 1]) + Percent(plans[|plans| - 1].percentage)
  }

  lemma {:induction false} CategoriesAmount(plans: seq<Plan>)
    ensures TotalAmount(Categories(plans)) == TotalPercent(plans)
    decreases |plans|
  {
    if plans != [] {
      var init := plans[..|plans| - 1];
      CategoriesAmount(init);
      assert Categories(plans)[..|Categories(plans)| - 1] == Categories(init);
    }
  }

  lemma ShippedAmount()
    ensures TotalPercent(PLANS) == TOTAL_SUPPLY
  {
    assert PLANS[..5][..4] == PLANS[..4] && PLANS[..4][..3] == PLANS[..3];
    assert PLANS[..3][..2] == PLANS[..2] && PLANS[..2][..1] == PLANS[..1] && PLANS[..1][..0] == [];
    assert TotalPercent(PLANS[..1]) == Percent(15);
    assert TotalPercent(PLANS[..2]) == Percent(15) + Percent(25);
    assert TotalPercent(PLANS[..3]) == Percent(15) + Percent(25) + Percent(20);
    assert TotalPercent(PLANS[..4]) == Percent(15) + Percent(25) + Percent(20) + Percent(10);
    assert TotalPercent(PLANS[..5]) == Percent(15) + Percent(25) + Percent(20) + Percent(10) + Percent(20);
  }

  /** InitializeSINARDistribution distributes exactly the total supply, on top of what unlisted accounts hold. */
  lemma InitialDistributionSum(accounts: map<Address, int>)
    ensures Sum(PayAll(accounts, Categories(PLANS))) ==
      Sum(accounts - AllWallets(Categories(PLANS))) + TOTAL_SUPPLY
  {
    ShippedPlansSound();
    PlansSeparated(PLANS);
    CategoriesAmount(PLANS);
    ShippedAmount();
    DistributionSum(accounts, Categories(PLANS));
  }

  /** Each shipped wallet holds its share of its category's amount, and every other balance is as before. */
  ghost predicate Distributed(was: map<Address, int>, now: map<Address, int>) {
    (forall c, i :: c in Categories(PLANS) && 0 <= i < |c.wallets| ==>
      (c.wallets[i] in now &&
      now[c.wallets[i]] == c.amount / |c.wallets| + if i == |c.wallets| - 1 then c.amount % |c.wallets| else 0)) &&
    forall a :: a !in AllWallets(Categories(PLANS)) ==> Balance(now, a) == Balance(was, a)
  }

  lemma DistributionIsRight(accounts: map<Address, int>)
    ensures Distributed(accounts, PayAll(accounts, Categories(PLANS)))
  {
    ShippedPlansSound();
    PlansSeparated(PLANS);
    var all := Categories(PLANS);
    var now := PayAll(accounts, all);
    forall c, i | c in all && 0 <= i < |c.wallets|
      ensures c.wallets[i] in now &&
        now[c.wallets[i]] == c.amount / |c.wallets| + if i == |c.wallets| - 1 then c.amount % |c.wallets| else 0
    {
      var j :| 0 <= j < |all| && all[j] == c;
      PayAllBalance(accounts, all, j, i);
    }
    forall a | a !in AllWallets(all)
      ensures Balance(now, a) == Balance(accounts, a)
    {
      PayAllOther(accounts, all, a);
    }
  }
}
