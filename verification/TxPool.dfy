/** The transaction pool of src/txpool.go: exchange sort by gas price and greedy selection under a gas limit. */
module TxPool {
  import opened Events

  datatype Tx = Tx(hash: nat, gasPrice: int, gas: uint64)

  ghost predicate Descending(txs: seq<Tx>) {
    forall i, j :: 0 <= i < j < |txs| ==> txs[i].gasPrice >= txs[j].gasPrice
  }

  /** The gas of a list of transactions, without wrap-around. */
  function Gas(txs: seq<Tx>): nat {
    if txs == [] then 0 else Gas(txs[..|txs| - 1]) + txs[|txs| - 1].gas
  }

  /** How many transactions the selection loop takes from the front, its uint64 counter standing at used. */
  function Taken(txs: seq<Tx>, limit: uint64, used: uint64): (k: nat)
    ensures k <= |txs|
  {
    if txs == [] || (used + txs[0].gas) % TWO_64 > limit then 0
    else 1 + Taken(txs[1..], limit, (used + txs[0].gas) % TWO_64)
  }

  /** How many transactions fit from the front when the gas already used is the true sum. */
  function Fitting(txs: seq<Tx>, limit: uint64, used: nat): (k: nat)
    ensures k <= |txs|
  {
    if txs == [] || used + txs[0].gas > limit then 0
    else 1 + Fitting(txs[1..], limit, used + txs[0].gas)
  }

  lemma {:induction false} GasFront(txs: seq<Tx>, k: nat)
    requires 0 < k <= |txs|
    ensures Gas(txs[..k]) == txs[0].gas + Gas(txs[1..][..k - 1])
    decreases k
  {
    assert txs[..k][..k - 1] == txs[..k - 1];
    if k > 1 {
      GasFront(txs, k - 1);
      assert txs[1..][..k - 1][..k - 2] == txs[1..][..k - 2];
    } else {
      assert txs[..0] == [];
    }
  }

  /** Fitting counts the longest prefix whose gas stays within the limit. */
  lemma {:induction false} FittingIsLongest(txs: seq<Tx>, limit: uint64, used: nat)
    requires used <= limit
    ensures var k := Fitting(txs, limit, used);
      used + Gas(txs[..k]) <= limit && (k < |txs| ==> used + Gas(txs[..k + 1]) > limit)
    decreases |txs|
  {
    var k := Fitting(txs, limit, used);
    if k == 0 {
      assert txs[..0] == [];
      if txs != [] {
        GasFront(txs, 1);
        assert txs[1..][..0] == [];
      }
    } else {
      FittingIsLongest(txs[1..], limit, used + txs[0].gas);
      GasFront(txs, k);
      if k < |txs| {
        GasFront(txs, k + 1);
      }
    }
  }

  lemma {:induction false} GasConcat(a: seq<Tx>, b: seq<Tx>)
    ensures Gas(a + b) == Gas(a) + Gas(b)
    decreases |b|
  {
    if b == [] {
      assert a + b == a;
    } else {
      assert (a + b)[..|a + b| - 1] == a + b[..|b| - 1];
      GasConcat(a, b[..|b| - 1]);
    }
  }

  lemma WrapTwice(used: nat, gas: nat, rest: nat)
    ensures ((used + gas) % TWO_64 + rest) % TWO_64 == (used + (gas + rest)) % TWO_64
  {
  }

  /** The loop stops at the first transaction that takes the wrapping counter past the limit. */
  lemma {:induction false} TakenStops(txs: seq<Tx>, limit: uint64, used: uint64, k: nat)
    requires k <= |txs|
    ensures k < Taken(txs, limit, used) ==> (used + Gas(txs[..k + 1])) % 0x1_0000_0000_0000_0000 <= limit
    ensures k == Taken(txs, limit, used) < |txs| ==> (used + Gas(txs[..k + 1])) % 0x1_0000_0000_0000_0000 > limit
    decreases |txs|
  {
    if k < |txs| {
      GasFront(txs, k + 1);
      if k == 0 {
        assert txs[1..][..0] == [];
      } else {
        TakenStops(txs[1..], limit, (used + txs[0].gas) % TWO_64, k - 1);
        WrapTwice(used, txs[0].gas, Gas(txs[1..][..k]));
      }
    }
  }

  /**
   * The loop takes exactly the longest fitting prefix if and only if the first transaction that does not
   * fit keeps the gas counter below 2^64. Otherwise the counter wraps and that transaction is taken too.
   */
  lemma {:induction false} TakenIsLongestFit(txs: seq<Tx>, limit: uint64, used: uint64)
    requires used <= limit
    ensures var k := Fitting(txs, limit, used);
      Taken(txs, limit, used) == k <==> k == |txs| || used + Gas(txs[..k + 1]) < TWO_64
    decreases |txs|
  {
    var k := Fitting(txs, limit, used);
    if txs == [] {
    } else if used + txs[0].gas > limit {
      GasFront(txs, 1);
      assert txs[1..][..0] == [];
    } else {
      TakenIsLongestFit(txs[1..], limit, used + txs[0].gas);
      if k < |txs| {
        GasFront(txs, k + 1);
      }
    }
  }

  /** Two transactions the wrapping counter accepts together although their gas is far beyond the limit. */
  lemma WrapTakesTooMuch(a: Tx, b: Tx)
    requires a.gas == 10 && b.gas == TWO_64 - 5
    ensures Taken([a, b], 100, 0) == 2 && Fitting([a, b], 100, 0) == 1 && Gas([a, b]) > 100
  {
    assert [a, b][1..] == [b];
    assert [b][1..] == [];
    assert [a, b][..1] == [a];
    assert [a][..0] == [];
    assert (0 + a.gas) % TWO_64 == 10;
    assert (10 + b.gas) % TWO_64 == 5;
    assert Taken([b], 100, 10) == 1;
  }

  /** The first i transactions are in their final places: none is cheaper than one behind it. */
  ghost predicate Settled(txs: seq<Tx>, i: nat) {
    forall p, q :: 0 <= p < i && p < q < |txs| ==> txs[p].gasPrice >= txs[q].gasPrice
  }

  /** The loops of sortTransactionsByGasPrice: an exchange sort in place. */
  method ExchangeSort(txs: array<Tx>)
    modifies txs
    ensures Descending(txs[..])
    ensures multiset(txs[..]) == multiset(old(txs[..]))
  {
    var i := 0;
    while i < txs.Length - 1
      invariant 0 <= i && (txs.Length > 0 ==> i <= txs.Length - 1)
      invariant Settled(txs[..], i)
      invariant multiset(txs[..]) == multiset(old(txs[..]))
    {
      BringDearest(txs, i);
      i := i + 1;
    }
  }

  ghost predicate DearestUpTo(txs: seq<Tx>, i: nat, j: nat) {
    forall q :: i < q < j && q < |txs| ==> txs[i].gasPrice >= txs[q].gasPrice
  }

  /** The inner loop: exchanges put the dearest of the remaining transactions into place i. */
  method BringDearest(txs: array<Tx>, i: nat)
    requires i < txs.Length && Settled(txs[..], i)
    modifies txs
    ensures Settled(txs[..], i + 1)
    ensures multiset(txs[..]) == multiset(old(txs[..]))
  {
    var j := i + 1;
    while j < txs.Length
      invariant i + 1 <= j <= txs.Length
      invariant Settled(txs[..], i) && DearestUpTo(txs[..], i, j)
      invariant multiset(txs[..]) == multiset(old(txs[..]))
    {
      if txs[i].gasPrice < txs[j].gasPrice {
        ghost var before := txs[..];
        SwapKeepsSettled(before, i, j);
        txs[i], txs[j] := txs[j], txs[i];
        assert txs[..] == before[i := before[j]][j := before[i]];
      }
      j := j + 1;
    }
    DearestSettles(txs[..], i);
  }

  lemma SwapKeepsSettled(txs: seq<Tx>, i: nat, j: nat)
    requires Settled(txs, i) && DearestUpTo(txs, i, j) && i < j < |txs| && txs[i].gasPrice < txs[j].gasPrice
    ensures var swapped := txs[i := txs[j]][j := txs[i]];
      Settled(swapped, i) && DearestUpTo(swapped, i, j + 1) && multiset(swapped) == multiset(txs)
  {
    var swapped := txs[i := txs[j]][j := txs[i]];
    forall p, q | 0 <= p < i && p < q < |txs|
      ensures swapped[p].gasPrice >= swapped[q].gasPrice
    {
      assert txs[p].gasPrice >= txs[i].gasPrice && txs[p].gasPrice >= txs[j].gasPrice;
    }
  }

  lemma DearestSettles(txs: seq<Tx>, i: nat)
    requires i < |txs| && Settled(txs, i) && DearestUpTo(txs, i, |txs|)
    ensures Settled(txs, i + 1)
  {
  }

  ghost function Hashes(txs: seq<Tx>): set<nat> {
    set tx | tx in txs :: tx.hash
  }

  /** order lists the pool's transactions with hashes outside rest, each exactly once. */
  ghost predicate ListsPool(pool: map<nat, Tx>, rest: set<nat>, order: seq<Tx>) {
    forall tx :: multiset(order)[tx] == if tx.hash in pool && tx.hash !in rest && pool[tx.hash] == tx then 1 else 0
  }

  /** A listing of the whole pool by descending price. */
  ghost predicate PriceOrder(pool: map<nat, Tx>, order: seq<Tx>) {
    ListsPool(pool, {}, order) && Descending(order)
  }

  lemma ListingDistinct(pool: map<nat, Tx>, order: seq<Tx>, i: nat, j: nat)
    requires ListsPool(pool, {}, order) && i < j < |order|
    ensures order[i].hash != order[j].hash
  {
    assert order == order[..j] + order[j..];
    assert order[i] in order[..j] && order[j] in order[j..];
    assert multiset(order)[order[i]] == 1 && multiset(order)[order[j]] == 1;
  }

  /** A listing of the pool contains exactly the pool's transactions. */
  lemma ListingMembers(pool: map<nat, Tx>, order: seq<Tx>)
    requires ListsPool(pool, {}, order)
    ensures forall tx :: tx in order <==> tx.hash in pool && pool[tx.hash] == tx
  {
    forall tx
      ensures tx in order <==> tx.hash in pool && pool[tx.hash] == tx
    {
      assert tx in order <==> multiset(order)[tx] > 0;
    }
  }

  /** Selected and remaining transactions partition the pool. */
  lemma PrefixPartitions(pool: map<nat, Tx>, order: seq<Tx>, k: nat, h: nat)
    requires ListsPool(pool, {}, order) && k <= |order|
    requires forall g :: g in pool ==> pool[g].hash == g
    ensures h in pool <==> h in Hashes(order[..k]) || h in Hashes(order[k..])
    ensures !(h in Hashes(order[..k]) && h in Hashes(order[k..]))
  {
    ListingMembers(pool, order);
    assert order == order[..k] + order[k..];
    if h in pool {
      assert pool[h] in order;
    }
    forall i, j | 0 <= i < k && k <= j < |order|
      ensures order[i].hash != order[j].hash
    {
      ListingDistinct(pool, order, i, j);
    }
  }

  /** No remaining transaction pays more than a selected one. */
  lemma PrefixIsDearest(pool: map<nat, Tx>, order: seq<Tx>, k: nat, h: nat, tx: Tx)
    requires PriceOrder(pool, order) && k <= |order|
    requires h in pool && pool[h].hash == h && h !in Hashes(order[..k]) && tx in order[..k]
    ensures tx.gasPrice >= pool[h].gasPrice
  {
    ListingMembers(pool, order);
    var i :| 0 <= i < k && order[..k][i] == tx;
    var j :| 0 <= j < |order| && order[j] == pool[h];
    assert forall x :: x in order[..k] ==> x.hash in Hashes(order[..k]);
    assert pool[h] !in order[..k];
    assert j >= k;
  }

  class TransactionPool {
    var pending: map<nat, Tx>
    var queued: map<nat, Tx>

    ghost predicate Valid()
      reads this
    {
      (forall h :: h in pending ==> pending[h].hash == h) && pending.Keys !! queued.Keys
    }

    constructor ()
      ensures Valid() && pending == map[] && queued == map[]
    {
      pending, queued := map[], map[];
    }

    method AddTransaction(tx: Tx) returns (ok: bool)
      requires Valid()
      modifies this
      ensures Valid() && queued == old(queued)
      ensures ok <==> tx.hash !in old(pending) && tx.hash !in old(queued)
      ensures pending == if ok then old(pending)[tx.hash := tx] else old(pending)
    {
      if tx.hash in pending || tx.hash in queued {
        return false;
      }
      pending := pending[tx.hash := tx];
      return true;
    }

    method RemoveTransaction(hash: nat)
      requires Valid()
      modifies this
      ensures Valid()
      ensures pending == old(pending) - {hash} && queued == old(queued) - {hash}
    {
      pending, queued := pending - {hash}, queued - {hash};
    }

    /** The pending transactions, dearest first; map iteration order decides among equal prices. */
    method SortTransactionsByGasPrice() returns (txs: array<Tx>)
      requires Valid()
      ensures fresh(txs) && PriceOrder(pending, txs[..])
    {
      var listed: seq<Tx> := [];
      var rest := pending.Keys;
      while rest != {}
        invariant rest <= pending.Keys
        invariant ListsPool(pending, rest, listed)
        decreases rest
      {
        var h :| h in rest;
        rest := rest - {h};
        listed := listed + [pending[h]];
      }
      txs := new Tx[|listed|](i requires 0 <= i < |listed| => listed[i]);
      assert txs[..] == listed;
      ExchangeSort(txs);
    }

    /** Takes transactions dearest first until the gas counter would exceed the limit; order is the price order used. */
    method GetTransactionsForBlock(blockGasLimit: uint64) returns (selected: seq<Tx>, ghost order: seq<Tx>)
      requires Valid()
      modifies this
      ensures Valid() && queued == old(queued)
      ensures PriceOrder(old(pending), order)
      ensures selected == order[..Taken(order, blockGasLimit, 0)]
      ensures pending == old(pending) - Hashes(selected)
    {
      var sorted := SortTransactionsByGasPrice();
      order := sorted[..];
      selected := TakeFront(sorted[..], blockGasLimit);
    }

    /** The selection loop: every transaction taken is deleted from pending. */
    method TakeFront(txs: seq<Tx>, blockGasLimit: uint64) returns (selected: seq<Tx>)
      modifies this`pending
      ensures selected == txs[..Taken(txs, blockGasLimit, 0)]
      ensures pending == old(pending) - Hashes(selected)
    {
      selected := [];
      var currentGas: uint64 := 0;
      ghost var before := pending;
      ghost var taken := Taken(txs, blockGasLimit, 0);
      assert txs[0..] == txs;
      var i := 0;
      while i < |txs|
        invariant 0 <= i <= |txs| && selected == txs[..i]
        invariant pending == before - Hashes(selected)
        invariant taken == i + Taken(txs[i..], blockGasLimit, currentGas)
      {
        var tx := txs[i];
        assert txs[i..][0] == tx && txs[i..][1..] == txs[i + 1..];
        if (currentGas + tx.gas) % TWO_64 > blockGasLimit {
          break;
        }
        HashesSnoc(selected, tx);
        selected := selected + [tx];
        currentGas := (currentGas + tx.gas) % TWO_64;
        pending := pending - {tx.hash};
        assert pending == before - Hashes(selected);
        i := i + 1;
      }
    }
  }

  lemma HashesSnoc(txs: seq<Tx>, tx: Tx)
    ensures Hashes(txs + [tx]) == Hashes(txs) + {tx.hash}
  {
    assert tx in txs + [tx];
  }
}
