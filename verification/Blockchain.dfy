/** The block packaging and the chain of src/blockchain.go, proved against ChainSpec. */
module Packaging {
  import opened Events
  import opened Dag
  import opened Median
  import opened Sets
  import opened LedgerSpec
  import opened StateDb
  import opened ChainSpec

  const TIME_WINDOW := 1000  // milliseconds

  function EventIds(events: seq<Event>): seq<EventID> {
    if events == [] then [] else EventIds(events[..|events| - 1]) + [events[|events| - 1].id]
  }

  function Flatten(groups: seq<seq<Event>>): seq<Event> {
    if groups == [] then [] else Flatten(groups[..|groups| - 1]) + groups[|groups| - 1]
  }

  function TransactionsOf(events: seq<Event>): seq<Transaction> {
    if events == [] then [] else TransactionsOf(events[..|events| - 1]) + events[|events| - 1].transactions
  }

  lemma {:induction false} EventIdsAppend(a: seq<Event>, b: seq<Event>)
    ensures EventIds(a + b) == EventIds(a) + EventIds(b)
    decreases |b|
  {
    if b == [] {
      assert a + b == a;
    } else {
      var init, last := b[..|b| - 1], b[|b| - 1];
      assert (a + b)[..|a + b| - 1] == a + init;
      EventIdsAppend(a, init);
    }
  }

  lemma {:induction false} EventIdsAre(events: seq<Event>)
    ensures |EventIds(events)| == |events| && forall i :: 0 <= i < |events| ==> EventIds(events)[i] == events[i].id
    decreases |events|
  {
    if events != [] {
      EventIdsAre(events[..|events| - 1]);
    }
  }

  /** The transactions of the events, one event after the other: the part of event i follows those of the events before it. */
  lemma {:induction false} TransactionsAre(events: seq<Event>, i: nat)
    requires i < |events|
    ensures TransactionsOf([]) == []
    ensures TransactionsOf(events[..i]) + events[i].transactions <= TransactionsOf(events)
    ensures i == |events| - 1 ==> TransactionsOf(events) == TransactionsOf(events[..i]) + events[i].transactions
    decreases |events|
  {
    var init := events[..|events| - 1];
    if i < |init| {
      TransactionsAre(init, i);
      assert init[..i] == events[..i];
    }
  }

  lemma EventIdsSnoc(events: seq<Event>, e: Event)
    ensures EventIds(events + [e]) == EventIds(events) + [e.id]
  {
    assert (events + [e])[..|events|] == events;
  }

  /** Taking one occurrence of the last event of a out of b leaves a rearrangement of the rest of a. */
  lemma TakeLast(a: seq<Event>, b: seq<Event>) returns (left: seq<Event>, right: seq<Event>)
    requires multiset(a) == multiset(b) && a != []
    ensures b == left + [a[|a| - 1]] + right
    ensures multiset(left + right) == multiset(a[..|a| - 1])
  {
    var init, last := a[..|a| - 1], a[|a| - 1];
    assert a == init + [last];
    assert last in multiset(b);
    var j :| 0 <= j < |b| && b[j] == last;
    left, right := b[..j], b[j + 1..];
    assert b == left + [last] + right;
    assert multiset(left + right) == multiset(b) - multiset{last};
    assert multiset(init) == multiset(a) - multiset{last};
  }

  /** Rearranging events rearranges their ids. */
  lemma {:induction false} EventIdsPermuted(a: seq<Event>, b: seq<Event>)
    requires multiset(a) == multiset(b)
    ensures multiset(EventIds(a)) == multiset(EventIds(b))
    decreases |a|
  {
    assert |a| == |multiset(a)| == |multiset(b)| == |b|;
    if a != [] {
      var left, right := TakeLast(a, b);
      EventIdsPermuted(a[..|a| - 1], left + right);
      EventIdsAppend(left, right);
      EventIdsAppend(left + [a[|a| - 1]], right);
      EventIdsSnoc(left, a[|a| - 1]);
    }
  }

  lemma {:induction false} FlattenPrefix(groups: seq<seq<Event>>, k: nat)
    requires k <= |groups|
    ensures exists rest :: Flatten(groups) == Flatten(groups[..k]) + rest
    decreases |groups|
  {
    if k == |groups| {
      assert groups[..k] == groups;
      assert Flatten(groups) == Flatten(groups) + [];
    } else {
      var init := groups[..|groups| - 1];
      FlattenPrefix(init, k);
      assert init[..k] == groups[..k];
      var rest :| Flatten(init) == Flatten(groups[..k]) + rest;
      assert Flatten(groups) == Flatten(groups[..k]) + (rest + groups[|groups| - 1]);
    }
  }

  lemma PrefixTransitive(a: seq<Block>, b: seq<Block>, c: seq<Block>)
    requires a <= b <= c
    ensures a <= c
  {
  }

  lemma AppendAssociative(a: seq<EventID>, b: seq<EventID>, c: seq<EventID>)
    ensures (a + b) + c == a + (b + c)
  {
  }

  lemma NoRepeatsPrefix(a: seq<EventID>, b: seq<EventID>)
    requires NoRepeats(a + b)
    ensures NoRepeats(a)
  {
    forall x
      ensures multiset(a)[x] <= 1
    {
      assert multiset(a + b)[x] <= 1;
    }
  }

  lemma NoRepeatsJoin(a: seq<EventID>, b: seq<EventID>)
    requires NoRepeats(a) && NoRepeats(b)
    requires forall x :: x in b ==> x !in a
    ensures NoRepeats(a + b)
  {
    forall x
      ensures multiset(a + b)[x] <= 1
    {
      assert multiset(a)[x] <= 1 && multiset(b)[x] <= 1;
      assert x in a <==> multiset(a)[x] > 0;
      assert x in b <==> multiset(b)[x] > 0;
    }
  }

  class Blockchain {
    var blocks: map<BlockHash, Block>
    var latest: BlockHash
    const dag: DAG
    const stateDB: StateDB
    ghost var chain: seq<Block>

    /** The store holds exactly the blocks of one linked chain, and latest is its head. */
    ghost predicate Valid()
      reads this
    {
      Linked(chain) && blocks == BlocksOf(chain) && latest == Head(chain)
    }

    constructor (dag: DAG)
      ensures Valid() && chain == [] && this.dag == dag
      ensures fresh(stateDB) && stateDB.State() == FRESH
    {
      this.dag := dag;
      stateDB := new StateDB();
      blocks, latest, chain := map[], NoHash, [];
    }

    method GetLatestBlockNumber() returns (number: nat)
      requires Valid()
      ensures number == |chain|
    {
      number := 0;
      if latest != NoHash {
        StoreHoldsChain(chain);
        LinkedNumbers(chain, |chain| - 1);
        assert latest.block in chain;
        if latest in blocks {
          number := blocks[latest].number;
        }
      }
    }

    /** Builds the successor block of the chain; signed says whether signing it succeeds. */
    method CreateBlock(events: seq<Event>, creator: string, signed: bool) returns (block: Option<Block>)
      requires Valid()
      ensures block.Some? <==> events != [] && signed
      ensures block.Some? ==> block.value.number == |chain| + 1
      ensures block.Some? ==> block.value.parentHash == if chain == [] then NoHash else Digest(chain[|chain| - 1])
      ensures block.Some? ==> block.value.events == EventIds(events) && block.value.creator == creator
      ensures block.Some? ==> |block.value.events| == |events| && forall i :: 0 <= i < |events| ==> block.value.events[i] == events[i].id
      ensures block.Some? ==> block.value.transactions == TransactionsOf(events)
      ensures block.Some? ==> forall times: seq<uint64> ::
        |times| == |events| && (forall i :: 0 <= i < |events| ==> times[i] == events[i].atroposTime) ==>
        block.value.atroposTime == MedianOf(multiset(times))
    {
      if |events| == 0 {
        return None;
      }
      var transactions, eventIDs := ReadEvents(events);
      var times := ReadTimes(events);
      forall others: seq<uint64> | |others| == |events| && forall i :: 0 <= i < |events| ==> others[i] == events[i].atroposTime
        ensures others == times
      {
      }
      var medianTime := MedianValue(times);
      var number := GetLatestBlockNumber();
      if !signed {
        return None;
      }
      return Some(Block(number + 1, latest, medianTime, creator, transactions, eventIDs));
    }

    /** The first loop of CreateBlock. */
    method ReadEvents(events: seq<Event>) returns (transactions: seq<Transaction>, eventIDs: seq<EventID>)
      ensures eventIDs == EventIds(events) && transactions == TransactionsOf(events)
      ensures |eventIDs| == |events| && forall i :: 0 <= i < |events| ==> eventIDs[i] == events[i].id
    {
      transactions, eventIDs := [], [];
      for i := 0 to |events|
        invariant eventIDs == EventIds(events[..i]) && transactions == TransactionsOf(events[..i])
      {
        assert events[..i + 1][..i] == events[..i];
        transactions := transactions + events[i].transactions;
        eventIDs := eventIDs + [events[i].id];
      }
      assert events[..|events|] == events;
      EventIdsAre(events);
    }

    /** The second loop. */
    method ReadTimes(events: seq<Event>) returns (times: seq<uint64>)
      ensures |times| == |events| && forall i :: 0 <= i < |events| ==> times[i] == events[i].atroposTime
    {
      times := [];
      for i := 0 to |events|
        invariant |times| == i && forall k :: 0 <= k < i ==> times[k] == events[k].atroposTime
      {
        times := times + [events[i].atroposTime];
      }
    }

    /** Appends a successor block that the EVM accepts; any other block is refused. */
    method AddBlock(block: Block, evmAccepts: bool) returns (ok: bool)
      requires Valid()
      modifies this, stateDB
      ensures Valid()
      ensures ok <==> (
        block.number == |old(chain)| + 1 && evmAccepts &&
        block.parentHash == if old(chain) == [] then NoHash else Digest(old(chain)[|old(chain)| - 1]))
      ensures ok ==> chain == old(chain) + [block]
      ensures ok ==> stateDB.State() == Settle(old(stateDB.State()), block.transactions)
      ensures !ok ==> chain == old(chain) && stateDB.State() == old(stateDB.State())
    {
      var number := GetLatestBlockNumber();
      if block.number != number + 1 {
        return false;
      }
      if block.parentHash != latest {
        return false;
      }
      if !evmAccepts {
        return false;
      }
      UpdateStateDB(block);
      blocks := blocks[Digest(block) := block];
      latest := Digest(block);
      assert (chain + [block])[..|chain|] == chain;
      chain := chain + [block];
      return true;
    }

    method UpdateStateDB(block: Block)
      modifies stateDB
      ensures stateDB.State() == Settle(old(stateDB.State()), block.transactions)
    {
      ghost var before := stateDB.State();
      for i := 0 to |block.transactions|
        invariant stateDB.State() == Settle(before, block.transactions[..i])
      {
        assert block.transactions[..i + 1][..i] == block.transactions[..i];
        var tx := block.transactions[i];
        if tx.sender.Some? {
          stateDB.ProcessTransaction(tx.sender.value, tx.recipient, tx.value, tx.gasPrice, tx.gas);
        }
      }
      assert block.transactions[..|block.transactions|] == block.transactions;
    }

    method IsEventInBlock(id: EventID) returns (found: bool)
      requires Valid()
      ensures found <==> id in AllEvents(chain)
    {
      StoreHoldsChain(chain);
      EventIsInSomeBlock(chain, id);
      assert forall b :: b in chain ==> Digest(b) in blocks && blocks[Digest(b)] == b;
      var rest := blocks.Keys;
      while rest != {}
        invariant rest <= blocks.Keys
        invariant forall h :: h in blocks && h !in rest ==> id !in blocks[h].events
        decreases rest
      {
        var h :| h in rest;
        if id in blocks[h].events {
          return true;
        }
        rest := rest - {h};
      }
      return false;
    }

    /** The blocks with numbers in the range, in order: a contiguous piece of the chain. */
    method GetBlockRange(from: nat, to: nat) returns (found: seq<Block>)
      requires Valid()
      ensures found == Range(chain, from, to)
    {
      StoreHoldsChain(chain);
      forall i | 0 <= i < |chain|
        ensures chain[i].number == i + 1
      {
        LinkedNumbers(chain, i);
      }
      found := [];
      var rest := blocks.Keys;
      while rest != {}
        invariant rest <= blocks.Keys
        invariant Ascending(found)
        invariant forall b :: b in found <==> b in chain && from <= b.number <= to && Digest(b) !in rest
        decreases rest
      {
        var h :| h in rest;
        var block := blocks[h];
        if from <= block.number <= to {
          InsertKeepsAscending(block, found);
          found := InsertByNumber(block, found);
        }
        rest := rest - {h};
      }
      RangeIsAscending(chain, from, to);
      AscendingUnique(found, Range(chain, from, to));
    }

    /** The finalised events that no block of the chain holds. */
    ghost function Unpackaged(): set<EventID>
      reads this, dag
    {
      set id | id in dag.Data && dag.Data[id].atropos != NO_EVENT && id !in AllEvents(chain)
    }

    method IsUnpackaged(id: EventID) returns (yes: bool)
      requires Valid() && dag.Valid() && id in dag.Events
      ensures yes <==> id in Unpackaged()
    {
      assert dag.Mirrored(id);
      yes := false;
      if dag.Events[id].atropos != NO_EVENT {
        var packaged := IsEventInBlock(id);
        yes := !packaged;
      }
    }

    /** Collects the unpackaged finalised events in map iteration order. */
    method CollectUnpackaged() returns (events: seq<Event>)
      requires Valid() && dag.Valid()
      ensures NoRepeats(EventIds(events))
      ensures forall id :: id in EventIds(events) <==> id in Unpackaged()
    {
      events := [];
      ghost var goal := Unpackaged();
      var rest := dag.Events.Keys;
      while rest != {}
        invariant rest <= dag.Events.Keys
        invariant NoRepeats(EventIds(events))
        invariant forall id :: id in EventIds(events) <==> id in goal && id !in rest
        decreases rest
      {
        var id :| id in rest;
        assert dag.Mirrored(id);
        var yes := IsUnpackaged(id);
        if yes {
          EventIdsSnoc(events, dag.Events[id]);
          NoRepeatsJoin(EventIds(events), [id]);
          events := events + [dag.Events[id]];
        }
        rest := rest - {id};
      }
    }

    /**
     * Packs all finalised events that are in no block yet. groups are their time windows in the order iterated, of
     * which the first built got a block each. signs(k) and evmAccepts(k) say whether signing and executing the k-th
     * block succeeds.
     */
    method ProcessAtroposEvents(creator: string, signs: nat -> bool, evmAccepts: nat -> bool)
      returns (ok: bool, ghost groups: seq<seq<Event>>, ghost built: nat)
      requires Valid() && dag.Valid()
      modifies this, stateDB
      ensures Valid()
      ensures StopsAt(built, |groups|, signs, evmAccepts) && (ok <==> built == |groups|)
      ensures Partition(groups, old(Unpackaged())) && Extends(old(chain), chain, groups, built)
      ensures ok ==> forall id :: id in dag.Data && dag.Data[id].atropos != NO_EVENT ==> id in AllEvents(chain)
      ensures NoRepeats(AllEvents(old(chain))) ==> NoRepeats(AllEvents(chain))
    {
      var events := CollectUnpackaged();
      ghost var before, goal := chain, Unpackaged();
      groups, built := [], 0;
      if |events| == 0 {
        return true, groups, built;
      }
      ok, groups, built := PackWindows(events, creator, signs, evmAccepts);
      PackagingIsSafe(before, chain, groups, built, goal);
    }

    /** Groups the collected events by time window and packs the groups. */
    method PackWindows(events: seq<Event>, creator: string, signs: nat -> bool, evmAccepts: nat -> bool)
      returns (ok: bool, ghost groups: seq<seq<Event>>, ghost built: nat)
      requires Valid() && NoRepeats(EventIds(events))
      modifies this, stateDB
      ensures Valid()
      ensures StopsAt(built, |groups|, signs, evmAccepts) && (ok <==> built == |groups|)
      ensures Partition(groups, set id | id in EventIds(events)) && Extends(old(chain), chain, groups, built)
    {
      var windows := GroupAtroposEventsByTime(events);
      groups := windows;
      GroupedIds(events, groups);
      ok, built := PackGroups(windows, creator, signs, evmAccepts);
    }

    /** One turn of the packaging loop: a block for one group, whose signing and execution may fail. */
    method PackOne(group: seq<Event>, creator: string, signed: bool, evmAccepts: bool) returns (ok: bool)
      requires Valid()
      modifies this, stateDB
      ensures Valid()
      ensures ok <==> group != [] && signed && evmAccepts
      ensures !ok ==> chain == old(chain)
      ensures ok ==> |chain| == |old(chain)| + 1 && old(chain) <= chain
      ensures ok ==> AllEvents(chain) == AllEvents(old(chain)) + EventIds(group)
    {
      var block := CreateBlock(group, creator, signed);
      if block.None? {
        return false;
      }
      ok := AddBlock(block.value, evmAccepts);
    }

    /** The packaging loop: one block per group up to the first that fails. */
    method PackGroups(groups: seq<seq<Event>>, creator: string, signs: nat -> bool, evmAccepts: nat -> bool)
      returns (ok: bool, ghost built: nat)
      requires Valid() && forall k :: 0 <= k < |groups| ==> groups[k] != []
      modifies this, stateDB
      ensures Valid()
      ensures StopsAt(built, |groups|, signs, evmAccepts) && (ok <==> built == |groups|)
      ensures Extends(old(chain), chain, groups, built)
    {
      built := 0;
      assert EventIds(Flatten(groups[..0])) == [];
      for k := 0 to |groups|
        invariant Valid() && built == k
        invariant Extends(old(chain), chain, groups, k)
        invariant forall j :: 0 <= j < k ==> signs(j) && evmAccepts(j)
      {
        ghost var before := chain;
        var added := PackOne(groups[k], creator, signs(k), evmAccepts(k));
        if !added {
          return false, built;
        }
        ExtendsByOne(old(chain), before, chain, groups, k);
        built := k + 1;
      }
      return true, built;
    }
  }

  /** The groups hold each of these events once, one group for each of their time windows. */
  ghost predicate Partition(groups: seq<seq<Event>>, ids: set<EventID>)
    reads *
  {
    NoRepeats(EventIds(Flatten(groups))) && (forall id :: id in EventIds(Flatten(groups)) <==> id in ids) && ByWindow(groups)
  }

  /** The chain after continues the chain before by one block for each of the first k groups. */
  ghost predicate Extends(before: seq<Block>, after: seq<Block>, groups: seq<seq<Event>>, k: nat) {
    k <= |groups| && |after| == |before| + k && before <= after &&
    AllEvents(after) == AllEvents(before) + EventIds(Flatten(groups[..k]))
  }

  lemma ExtendsByOne(start: seq<Block>, before: seq<Block>, after: seq<Block>, groups: seq<seq<Event>>, k: nat)
    requires Extends(start, before, groups, k) && k < |groups|
    requires |after| == |before| + 1 && before <= after && AllEvents(after) == AllEvents(before) + EventIds(groups[k])
    ensures Extends(start, after, groups, k + 1)
  {
    PrefixTransitive(start, before, after);
    FlattenOneMore(groups, k);
    AppendAssociative(AllEvents(start), EventIds(Flatten(groups[..k])), EventIds(groups[k]));
  }

  lemma FlattenOneMore(groups: seq<seq<Event>>, k: nat)
    requires k < |groups|
    ensures EventIds(Flatten(groups[..k + 1])) == EventIds(Flatten(groups[..k])) + EventIds(groups[k])
  {
    assert groups[..k + 1][..k] == groups[..k];
    EventIdsAppend(Flatten(groups[..k]), groups[k]);
  }

  /** Packing a prefix of a partition of new events repeats none, and packing all of it leaves none out. */
  lemma PackagingIsSafe(before: seq<Block>, after: seq<Block>, groups: seq<seq<Event>>, k: nat, ids: set<EventID>)
    requires Extends(before, after, groups, k) && NoRepeats(EventIds(Flatten(groups)))
    requires forall id :: id in EventIds(Flatten(groups)) <==> id in ids
    requires forall id :: id in ids ==> id !in AllEvents(before)
    ensures NoRepeats(AllEvents(before)) ==> NoRepeats(AllEvents(after))
    ensures k == |groups| ==> forall id :: id in ids || id in AllEvents(before) ==> id in AllEvents(after)
  {
    FlattenPrefix(groups, k);
    var rest :| Flatten(groups) == Flatten(groups[..k]) + rest;
    EventIdsAppend(Flatten(groups[..k]), rest);
    NoRepeatsPrefix(EventIds(Flatten(groups[..k])), EventIds(rest));
    if NoRepeats(AllEvents(before)) {
      NoRepeatsJoin(AllEvents(before), EventIds(Flatten(groups[..k])));
    }
    if k == |groups| {
      assert groups[..k] == groups;
    }
  }

  /** k is the first of n blocks that cannot be signed or executed, or n if all can. */
  predicate StopsAt(k: nat, n: nat, signs: nat -> bool, evmAccepts: nat -> bool) {
    k <= n && (forall j :: 0 <= j < k ==> signs(j) && evmAccepts(j)) && (k < n ==> !(signs(k) && evmAccepts(k)))
  }

  /** Grouping neither repeats, drops nor adds an id. */
  lemma GroupedIds(events: seq<Event>, groups: seq<seq<Event>>)
    requires NoRepeats(EventIds(events)) && multiset(Flatten(groups)) == multiset(events)
    ensures NoRepeats(EventIds(Flatten(groups)))
    ensures forall id :: id in EventIds(Flatten(groups)) <==> id in EventIds(events)
  {
    var all, given := EventIds(Flatten(groups)), EventIds(events);
    EventIdsPermuted(Flatten(groups), events);
    forall x
      ensures multiset(all)[x] <= 1
      ensures x in all <==> x in given
    {
      assert multiset(given)[x] <= 1;
      assert x in all <==> multiset(all)[x] > 0;
      assert x in given <==> multiset(given)[x] > 0;
    }
  }

  /** The event's time window of one second. */
  function Window(e: Event): nat
    reads e
  {
    e.atroposTime / TIME_WINDOW
  }

  /** Two events share a group exactly when they share a window. */
  ghost predicate ByWindow(groups: seq<seq<Event>>)
    reads *
  {
    forall j, k, e, f :: 0 <= j < |groups| && 0 <= k < |groups| && e in groups[j] && f in groups[k] ==>
      (e.atroposTime / 1000 == f.atroposTime / 1000 <==> j == k)
  }

  /** Groups events by time window, the groups in map iteration order. */
  method GroupAtroposEventsByTime(events: seq<Event>) returns (result: seq<seq<Event>>)
    ensures multiset(Flatten(result)) == multiset(events)
    ensures forall k :: 0 <= k < |result| ==> result[k] != []
    ensures ByWindow(result)
  {
    var groups := GatherByWindow(events);
    ghost var keys;
    result, keys := ListGroups(groups);
    forall j, k, e, f | 0 <= j < |result| && 0 <= k < |result| && e in result[j] && f in result[k]
      ensures Window(e) == Window(f) <==> j == k
    {
      assert result[j] == groups[keys[j]] && result[k] == groups[keys[k]];
      assert j < k || j == k || k < j;
    }
  }

  /** No group is empty, and each holds events of its own window only. */
  ghost predicate Windowed(groups: map<nat, seq<Event>>)
    reads *
  {
    forall g :: g in groups ==> groups[g] != [] && forall e :: e in groups[g] ==> Window(e) == g
  }

  /** The groups after one more event has been appended to the group of its window. */
  function WithEvent(groups: map<nat, seq<Event>>, e: Event): map<nat, seq<Event>>
    reads e
  {
    groups[Window(e) := (if Window(e) in groups then groups[Window(e)] else []) + [e]]
  }

  lemma WithEventAdds(groups: map<nat, seq<Event>>, e: Event)
    requires Windowed(groups)
    ensures Windowed(WithEvent(groups, e))
    ensures Gathered(WithEvent(groups, e)) == Gathered(groups) + multiset{e}
  {
    GatherOne(groups, Window(e), e);
  }

  lemma CountSnoc(events: seq<Event>, i: nat)
    requires i < |events|
    ensures multiset(events[..i + 1]) == multiset(events[..i]) + multiset{events[i]}
  {
    assert events[..i + 1] == events[..i] + [events[i]];
  }

  /** The loop that appends each event to the group of its window. */
  method GatherByWindow(events: seq<Event>) returns (groups: map<nat, seq<Event>>)
    ensures Gathered(groups) == multiset(events) && Windowed(groups)
  {
    groups := map[];
    for i := 0 to |events|
      invariant Windowed(groups)
      invariant Gathered(groups) == multiset(events[..i])
    {
      WithEventAdds(groups, events[i]);
      CountSnoc(events, i);
      groups := WithEvent(groups, events[i]);
    }
    assert events[..|events|] == events;
  }

  /** Where the collection of groups stands when those in rest are still to come. */
  ghost predicate Collected(groups: map<nat, seq<Event>>, rest: map<nat, seq<Event>>, result: seq<seq<Event>>, keys: seq<nat>) {
    rest.Keys <= groups.Keys && (forall g :: g in rest ==> rest[g] == groups[g]) &&
    Lists(keys, groups.Keys - rest.Keys) && |keys| == |result| &&
    multiset(Flatten(result)) + Gathered(rest) == Gathered(groups) &&
    forall k :: 0 <= k < |result| ==> keys[k] in groups && result[k] == groups[keys[k]]
  }

  lemma CollectOne(groups: map<nat, seq<Event>>, rest: map<nat, seq<Event>>, result: seq<seq<Event>>, keys: seq<nat>, g: nat)
    requires Collected(groups, rest, result, keys) && g in rest
    ensures Collected(groups, rest - {g}, result + [rest[g]], keys + [g])
  {
    GatherSplit(rest, g);
    FlattenSnoc(result, rest[g]);
    ListsSnoc(keys, groups.Keys - rest.Keys, g);
    assert groups.Keys - (rest - {g}).Keys == groups.Keys - rest.Keys + {g};
  }

  /** The loop that collects the groups from the map; keys records the iteration order. */
  method ListGroups(groups: map<nat, seq<Event>>) returns (result: seq<seq<Event>>, ghost keys: seq<nat>)
    ensures multiset(Flatten(result)) == Gathered(groups)
    ensures Lists(keys, groups.Keys) && |keys| == |result|
    ensures forall k :: 0 <= k < |result| ==> keys[k] in groups && result[k] == groups[keys[k]]
  {
    result, keys := [], [];
    var rest := groups;
    while rest.Keys != {}
      invariant Collected(groups, rest, result, keys)
      decreases rest.Keys
    {
      var g :| g in rest.Keys;
      CollectOne(groups, rest, result, keys, g);
      result, keys := result + [rest[g]], keys + [g];
      rest := rest - {g};
    }
    assert groups.Keys - rest.Keys == groups.Keys;
  }

  lemma FlattenSnoc(groups: seq<seq<Event>>, group: seq<Event>)
    ensures Flatten(groups + [group]) == Flatten(groups) + group
  {
    assert (groups + [group])[..|groups|] == groups;
  }

  /** All events in the groups. */
  ghost function Gathered(groups: map<nat, seq<Event>>): multiset<Event> {
    if groups.Keys == {} then multiset{}
    else
      var g :| g in groups.Keys;
      multiset(groups[g]) + Gathered(groups - {g})
  }

  lemma {:induction false} GatherSplit(groups: map<nat, seq<Event>>, g: nat)
    requires g in groups
    ensures Gathered(groups) == multiset(groups[g]) + Gathered(groups - {g})
    decreases |groups.Keys|
  {
    var h :| h in groups.Keys && Gathered(groups) == multiset(groups[h]) + Gathered(groups - {h});
    if h != g {
      GatherSplit(groups - {h}, g);
      GatherSplit(groups - {g}, h);
      assert groups - {h} - {g} == groups - {g} - {h};
    }
  }

  lemma GatherOne(groups: map<nat, seq<Event>>, g: nat, e: Event)
    ensures Gathered(groups[g := (if g in groups then groups[g] else []) + [e]]) == Gathered(groups) + multiset{e}
  {
    var group := if g in groups then groups[g] else [];
    var after := groups[g := group + [e]];
    GatherSplit(after, g);
    assert multiset(after[g]) == multiset(group) + multiset{e};
    if g in groups {
      GatherSplit(groups, g);
      assert after - {g} == groups - {g};
    } else {
      assert after - {g} == groups;
    }
  }
}
