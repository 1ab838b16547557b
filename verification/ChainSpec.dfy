/** The chain of blocks as a value. */
module ChainSpec {
  import opened Events
  import opened LedgerSpec

  // A block hash identifies the block: the digest is modelled as injective. NoHash is the all-zero hash.
  datatype BlockHash = NoHash | Digest(block: Block)

  datatype Block = Block(
    number: nat,
    parentHash: BlockHash,
    atroposTime: uint64,
    creator: string,
    transactions: seq<Transaction>,
    events: seq<EventID>)

  function Head(chain: seq<Block>): BlockHash {
    if chain == [] then NoHash else Digest(chain[|chain| - 1])
  }

  /** Block i has number i + 1 and points at block i - 1. */
  ghost predicate Linked(chain: seq<Block>) {
    chain != [] ==>
      var init, last := chain[..|chain| - 1], chain[|chain| - 1];
      Linked(init) && last.number == |chain| && last.parentHash == Head(init)
  }

  /** The block store that holds exactly the blocks of the chain. */
  function BlocksOf(chain: seq<Block>): map<BlockHash, Block> {
    if chain == [] then map[]
    else BlocksOf(chain[..|chain| - 1])[Digest(chain[|chain| - 1]) := chain[|chain| - 1]]
  }

  /** The events of all blocks in chain order. */
  function AllEvents(chain: seq<Block>): seq<EventID> {
    if chain == [] then [] else AllEvents(chain[..|chain| - 1]) + chain[|chain| - 1].events
  }

  ghost predicate NoRepeats(ids: seq<EventID>) {
    forall x :: multiset(ids)[x] <= 1
  }

  lemma {:induction false} StoreHoldsChain(chain: seq<Block>)
    ensures forall h :: h in BlocksOf(chain) <==> h.Digest? && h.block in chain
    ensures forall h :: h in BlocksOf(chain) ==> BlocksOf(chain)[h] == h.block
    decreases |chain|
  {
    if chain != [] {
      var init := chain[..|chain| - 1];
      assert chain == init + [chain[|chain| - 1]];
      StoreHoldsChain(init);
    }
  }

  lemma {:induction false} LinkedNumbers(chain: seq<Block>, i: nat)
    requires Linked(chain) && i < |chain|
    ensures chain[i].number == i + 1
    ensures chain[i].parentHash == if i == 0 then NoHash else Digest(chain[i - 1])
    decreases |chain|
  {
    var init := chain[..|chain| - 1];
    if i < |init| {
      LinkedNumbers(init, i);
      assert init[..i] == chain[..i];
    } else {
      assert init == chain[..i];
    }
  }

  lemma {:induction false} EventIsInSomeBlock(chain: seq<Block>, id: EventID)
    ensures id in AllEvents(chain) <==> exists b :: b in chain && id in b.events
    decreases |chain|
  {
    if chain != [] {
      var init, last := chain[..|chain| - 1], chain[|chain| - 1];
      assert chain == init + [last];
      EventIsInSomeBlock(init, id);
      if id in last.events {
        assert last in chain;
      }
    }
  }

  /** Without repeats, an event belongs to one block and occurs once in it. */
  lemma {:induction false} EventsAreInOneBlock(chain: seq<Block>, i: nat, j: nat, id: EventID)
    requires NoRepeats(AllEvents(chain)) && i < |chain| && j < |chain|
    requires id in chain[i].events && id in chain[j].events
    ensures i == j && multiset(chain[i].events)[id] == 1
    decreases |chain|
  {
    var init, last := chain[..|chain| - 1], chain[|chain| - 1];
    assert multiset(AllEvents(chain)) == multiset(AllEvents(init)) + multiset(last.events);
    assert multiset(AllEvents(chain))[id] <= 1;
    if i < |init| || j < |init| {
      var k := if i < |init| then i else j;
      assert init[k] in init && id in init[k].events;
      EventIsInSomeBlock(init, id);
      assert multiset(AllEvents(init))[id] >= 1;
    }
    if i < |init| && j < |init| {
      assert NoRepeats(AllEvents(init)) by {
        forall x
          ensures multiset(AllEvents(init))[x] <= 1
        {
          assert multiset(AllEvents(chain))[x] <= 1;
        }
      }
      EventsAreInOneBlock(init, i, j, id);
    }
  }

  // ---------- block ranges ----------

  ghost predicate Ascending(blocks: seq<Block>) {
    forall i, j :: 0 <= i < j < |blocks| ==> blocks[i].number < blocks[j].number
  }

  /** Two ascending lists of the same blocks are equal. */
  lemma {:induction false} AscendingUnique(s: seq<Block>, t: seq<Block>)
    requires Ascending(s) && Ascending(t) && forall b :: b in s <==> b in t
    ensures s == t
    decreases |s|
  {
    assert t != [] ==> t[0] in t;
    if s != [] {
      assert s[0] in t && t[0] in s;
      assert s[0] == t[0];
      forall b
        ensures b in s[1..] <==> b in t[1..]
      {
        assert b in s <==> b == s[0] || b in s[1..];
        assert b in t <==> b == t[0] || b in t[1..];
      }
      AscendingUnique(s[1..], t[1..]);
      assert s == [s[0]] + s[1..] && t == [t[0]] + t[1..];
    }
  }

  /** Where sort.Slice puts a block whose number no other block has. */
  function InsertByNumber(b: Block, s: seq<Block>): seq<Block> {
    if s == [] || b.number < s[0].number then [b] + s else [s[0]] + InsertByNumber(b, s[1..])
  }

  lemma {:induction false} InsertKeepsAscending(b: Block, s: seq<Block>)
    requires Ascending(s) && forall c :: c in s ==> c.number != b.number
    ensures Ascending(InsertByNumber(b, s))
    ensures forall c :: c in InsertByNumber(b, s) <==> c == b || c in s
    decreases |s|
  {
    if s == [] || b.number < s[0].number {
    } else {
      var rest := InsertByNumber(b, s[1..]);
      InsertKeepsAscending(b, s[1..]);
      assert forall c :: c in s <==> c == s[0] || c in s[1..];
      assert s[0] in s;
      forall c | c in rest
        ensures s[0].number < c.number
      {
        if c in s[1..] {
          var i :| 0 <= i < |s| - 1 && s[1..][i] == c;
          assert s[i + 1] == c;
        }
      }
    }
  }

  /** The part of a linked chain with numbers in [from, to]. */
  function Range(chain: seq<Block>, from: nat, to: nat): seq<Block> {
    var lo := if from == 0 then 0 else from - 1;
    var hi := if to < |chain| then to else |chain|;
    if lo < hi then chain[lo..hi] else []
  }

  lemma RangeAt(chain: seq<Block>, from: nat, to: nat, i: nat)
    requires Linked(chain) && i < |Range(chain, from, to)|
    ensures var b := Range(chain, from, to)[i];
      b in chain && b.number == (if from == 0 then 0 else from - 1) + i + 1 && from <= b.number <= to
  {
    var lo := if from == 0 then 0 else from - 1;
    assert Range(chain, from, to)[i] == chain[lo + i];
    LinkedNumbers(chain, lo + i);
  }

  lemma RangeHas(chain: seq<Block>, from: nat, to: nat, b: Block)
    requires Linked(chain) && b in chain && from <= b.number <= to
    ensures b in Range(chain, from, to)
  {
    var i :| 0 <= i < |chain| && chain[i] == b;
    LinkedNumbers(chain, i);
    var lo := if from == 0 then 0 else from - 1;
    assert Range(chain, from, to)[i - lo] == b;
  }

  lemma RangeIsAscending(chain: seq<Block>, from: nat, to: nat)
    requires Linked(chain)
    ensures Ascending(Range(chain, from, to))
    ensures forall b :: b in Range(chain, from, to) <==> b in chain && from <= b.number <= to
  {
    var range := Range(chain, from, to);
    forall i, j | 0 <= i < j < |range|
      ensures range[i].number < range[j].number
    {
      RangeAt(chain, from, to, i);
      RangeAt(chain, from, to, j);
    }
    forall b
      ensures b in range <==> b in chain && from <= b.number <= to
    {
      if b in range {
        var i :| 0 <= i < |range| && range[i] == b;
        RangeAt(chain, from, to, i);
      }
      if b in chain && from <= b.number <= to {
        RangeHas(chain, from, to, b);
      }
    }
  }

  // ---------- the ledger effect of a block ----------

  ghost function Settle(s: Ledger, transactions: seq<Transaction>): Ledger {
    if transactions == [] then s
    else
      var before, tx := Settle(s, transactions[..|transactions| - 1]), transactions[|transactions| - 1];
      if tx.sender.None? then before
      else Step(before, Transact(tx.sender.value, tx.recipient, tx.value, tx.gasPrice, tx.gas))
  }

  /** Settling transactions one after the other: first a, then b. */
  lemma {:induction false} SettleConcat(s: Ledger, a: seq<Transaction>, b: seq<Transaction>)
    ensures Settle(s, a + b) == Settle(Settle(s, a), b)
    decreases |b|
  {
    if b == [] {
      assert a + b == a;
    } else {
      assert (a + b)[..|a + b| - 1] == a + b[..|b| - 1];
      SettleConcat(s, a, b[..|b| - 1]);
    }
  }

  /**
   * One transaction: without a known sender, or with one that cannot pay, no balance changes; otherwise the sender pays
   * value and gas, and the recipient, if there is one, gets the value.
   */
  lemma SettleOne(s: Ledger, tx: Transaction)
    ensures var now := Settle(s, [tx]);
      var pays := tx.sender.Some? &&
        (if tx.sender.value in s.accounts then s.accounts[tx.sender.value] else 0) >= tx.value + tx.gasPrice * tx.gas;
      now.validators == s.validators && now.currentSupply == s.currentSupply &&
      forall a :: (if a in now.accounts then now.accounts[a] else 0) ==
        (if a in s.accounts then s.accounts[a] else 0)
        - (if pays && tx.sender == Some(a) then tx.value + tx.gasPrice * tx.gas else 0)
        + (if pays && tx.recipient == Some(a) then tx.value else 0)
  {
    assert [tx][..0] == [];
    assert Settle(s, []) == s;
    if tx.sender.Some? {
      TransactMeans(s, tx.sender.value, tx.recipient, tx.value, tx.gasPrice, tx.gas);
    }
  }

  /** A block's transactions create no money: with non-negative amounts the sum of all balances never grows. */
  lemma {:induction false} SettleCreatesNothing(s: Ledger, transactions: seq<Transaction>)
    requires NonNegative(s) && forall tx :: tx in transactions ==> tx.value >= 0 && tx.gasPrice >= 0
    ensures NonNegative(Settle(s, transactions))
    ensures Wealth(Settle(s, transactions)) <= Wealth(s)
    decreases |transactions|
  {
    if transactions != [] {
      var init, tx := transactions[..|transactions| - 1], transactions[|transactions| - 1];
      assert tx in transactions;
      SettleCreatesNothing(s, init);
      if tx.sender.Some? {
        var op := Transact(tx.sender.value, tx.recipient, tx.value, tx.gasPrice, tx.gas);
        StepWealth(Settle(s, init), op);
        StepKeepsNonNegative(Settle(s, init), op);
        assert tx.gasPrice * tx.gas >= 0;
      }
    }
  }
}
