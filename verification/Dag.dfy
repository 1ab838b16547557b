/** The event DAG of src/dag.go, proved against DagSpec. */
module Dag {
  import opened Events
  import opened Graph
  import opened DagSpec
  import Ancestry
  import RoundTheory
  import RoundProperties

  class DAG {
    var Events: map<EventID, Event>
    var Rounds: RoundTable
    ghost var Data: EventMap  // the current contents of the stored events

    /** Event id is stored under its own id, which is not the "not set" id, and Data has its contents. */
    ghost predicate Mirrored(id: EventID)
      requires id in Events && id in Data
      reads this`Events, this`Data, Events[id]
    {
      Events[id].id == id && id != NO_EVENT && Events[id].Data() == Data[id]
    }

    ghost predicate Valid()
      reads this`Events, this`Data, Events.Values
    {
      Data.Keys == Events.Keys &&
      forall id {:trigger Mirrored(id)} :: id in Events ==> Mirrored(id)
    }

    ghost predicate Stores(e: Event)
      reads this`Events
    {
      e.id in Events && Events[e.id] == e
    }

    ghost function State(): DagState
      reads this
    {
      DagState(Data, Rounds)
    }

    constructor ()
      ensures Valid() && State() == EMPTY_DAG
    {
      Events, Rounds, Data := map[], map[], map[];
    }

    method AddEvent(e: Event) returns (ok: bool)
      requires Valid() && e.id != NO_EVENT
      modifies this, e
      ensures Valid()
      ensures ok <==> e.id !in old(Events)
      ensures Events == if ok then old(Events)[e.id := e] else old(Events)
      ensures State() == DagSpec.AddEvent(old(State()), e.id, old(e.Data()))
      ensures forall run :: old(State()) == After(run) ==> State() == After(run + [Entry(e.id, old(e.Data()))])
    {
      forall run
        ensures (run + [Entry(e.id, e.Data())])[..|run|] == run
      {}
      if e.id in Events {
        return false;
      }
      Store(e);
      AssignRound(e);
      return true;
    }

    /** The write d.Events[id] = e for an id that is not stored yet. */
    method Store(e: Event)
      requires Valid() && e.id !in Events && e.id != NO_EVENT
      modifies this`Events, this`Data
      ensures Valid()
      ensures Events == old(Events)[e.id := e] && Data == old(Data)[e.id := e.Data()]
    {
      Events, Data := Events[e.id := e], Data[e.id := e.Data()];
      forall id | id in Events
        ensures Mirrored(id)
      {
        if id != e.id {
          assert old(Mirrored(id));
        }
      }
    }

    method GetParents(e: Event) returns (parents: Option<seq<Event>>)
      requires Valid()
      ensures parents.Some? <==> Known(Data, e.parents)
      ensures parents.Some? ==> |parents.value| == |e.parents|
      ensures parents.Some? ==> forall i :: 0 <= i < |e.parents| ==>
        e.parents[i] in Events && parents.value[i] == Events[e.parents[i]]
    {
      var found: seq<Event> := [];
      for k := 0 to |e.parents|
        invariant |found| == k
        invariant forall i :: 0 <= i < k ==> e.parents[i] in Events && found[i] == Events[e.parents[i]]
      {
        if e.parents[k] !in Events {
          return None;
        }
        found := found + [Events[e.parents[k]]];
      }
      return Some(found);
    }

    method IsAncestor(a: EventID, b: EventID) returns (found: bool)
      requires Valid()
      ensures found <==> Ancestor(Parents(Data), a, b)
    {
      assert Ancestry.GraphOf(Events) == Parents(Data) by {
        forall id | id in Events
          ensures Events[id].parents == Data[id].parents
        {
          assert Mirrored(id);
        }
      }
      found := Ancestry.IsAncestorDfs(Events, a, b);
    }

    /** The height loop of CreateAndAddEvent, which passes over parents that are not stored. */
    method MaxParentHeight(parents: seq<EventID>) returns (height: nat)
      requires Valid()
      ensures height == RoundProperties.MaxHeight(Data, parents)
    {
      height := 0;
      for i := 0 to |parents|
        invariant height == RoundProperties.MaxHeight(Data, parents[..i])
      {
        assert parents[..i + 1][..i] == parents[..i];
        assert parents[i] in Events ==> Mirrored(parents[i]);
        if parents[i] in Events && Events[parents[i]].height > height {
          height := Events[parents[i]].height;
        }
      }
      assert parents[..|parents|] == parents;
    }

    /** Creates the event whose hash is id, one above its highest stored parent, and adds it. */
    method CreateAndAddEvent(id: EventID, creator: string, parents: seq<EventID>, lamport: uint64, txs: seq<Transaction>)
      returns (created: Option<Event>)
      requires Valid() && id != NO_EVENT
      modifies this
      ensures Valid()
      ensures created.Some? <==> id !in old(Events)
      ensures created.Some? ==> fresh(created.value) && created.value.id == id && created.value.transactions == txs
      ensures created.Some? ==> created.value.creator == creator && created.value.parents == parents && created.value.lamport == lamport
      ensures created.Some? ==> forall p :: p in parents && p in old(Data) ==> old(Data)[p].height < created.value.height
      ensures created.Some? ==> Events == old(Events)[id := created.value]
      ensures created.None? ==> Events == old(Events)
      ensures State() == DagSpec.AddEvent(old(State()), id,
                NewEventData(creator, parents, lamport, RoundProperties.NextHeight(old(State()).events, parents)))
    {
      var height := MaxParentHeight(parents);
      RoundProperties.NextHeightIsLeast(Data, parents);
      height := height + 1;
      var e := new Event(id, creator, parents, lamport, height, txs);
      if id in Events {
        return None;
      }
      Store(e);
      AssignRound(e);
      return Some(e);
    }

    /** Data after e, stored or not, has changed. */
    ghost predicate Follows(e: Event, before: EventMap)
      reads this`Events, this`Data, e
    {
      Data == if Stores(e) then before[e.id := e.Data()] else before
    }

    /** AssignRound accepts any event; for one that is not stored it changes the event and the tables, and no stored event. */
    method AssignRound(e: Event)
      requires Valid()
      modifies this`Rounds, this`Data, e
      ensures Valid() && Follows(e, old(Data))
      ensures Stores(e) ==> State() == DagSpec.AssignRound(old(State()), e.id)
      ensures !Stores(e) ==> (e.Data(), Rounds) == AssignUnstored(old(Data), old(Rounds), e.id, old(e.Data()))
    {
      assert e.id in Events ==> Mirrored(e.id);
      assert Stores(e) ==> Data[e.id := e.Data()] == Data;
      var parents := GetParents(e);
      if parents.None? {
        return;
      }
      if |parents.value| == 0 {
        AssignGenesis(e);
      } else {
        ghost var d := State();
        var round, first := AssignAboveParents(e, parents.value);
        if Stores(e) {
          AboveParentsState(d, e.id, round, first);
        }
      }
    }

    /** AssignRound for an event without parents. */
    method AssignGenesis(e: Event)
      requires Valid() && e.parents == []
      modifies this`Rounds, this`Data, e
      ensures Valid() && Follows(e, old(Data))
      ensures e.Data() == old(e.Data()).(round := 0, isRoot := true) && Rounds == Register(old(Rounds), 0, e.id)
      ensures Stores(e) ==> State() == DagSpec.AssignRound(old(State()), e.id)
    {
      ghost var d := State();
      if Stores(e) {
        assert Mirrored(e.id);
        GenesisState(d, e.id);
      }
      SetRoundAndRoot(e, 0);
      EnsureRound(e.round);
      RegisterWitness(e);
    }

    /** AssignRound for an event whose parents are all stored; round and first are what it found. */
    method AssignAboveParents(e: Event, parents: seq<Event>) returns (round: nat, first: bool)
      requires Valid() && e.parents != []
      requires |parents| == |e.parents|
      requires forall i :: 0 <= i < |parents| ==> e.parents[i] in Events && parents[i] == Events[e.parents[i]]
      modifies this`Rounds, this`Data, e
      ensures Valid() && Follows(e, old(Data))
      ensures Known(old(Data), e.parents) && round == NextRound(old(Data), e.parents)
      ensures var placed := old(e.Data()).(round := round);
        (first <==> FirstInRound(if Stores(e) then old(Data)[e.id := placed] else old(Data), e.creator, round, e.lamport)) &&
        e.Data() == if first then placed.(isRoot := true) else placed
      ensures Rounds == if first then Register(old(Rounds), round, e.id) else old(Rounds)
    {
      round := RoundAboveParents(e, parents);
      SetRound(e, round);
      first := RegisterIfWitness(e);
    }

    /** The round of an event with these parents. */
    method RoundAboveParents(e: Event, parents: seq<Event>) returns (round: nat)
      requires Valid() && e.parents != []
      requires |parents| == |e.parents|
      requires forall i :: 0 <= i < |parents| ==> e.parents[i] in Events && parents[i] == Events[e.parents[i]]
      ensures Known(Data, e.parents) && round == NextRound(Data, e.parents)
    {
      round := MaxParentRound(e, parents);
      var allParentsAreRoot := AllParentsAreRoot(e, parents);
      if allParentsAreRoot {
        round := round + 1;
      }
    }

    /** The last step of AssignRound: a witness becomes a root and enters the tables of its round. */
    method RegisterIfWitness(e: Event) returns (isWitness: bool)
      requires Valid()
      modifies this`Rounds, this`Data, e`round, e`isRoot
      ensures Valid() && Follows(e, old(Data))
      ensures isWitness <==> FirstInRound(old(Data), e.creator, old(e.round), e.lamport)
      ensures e.Data() == if isWitness then old(e.Data()).(isRoot := true) else old(e.Data())
      ensures Rounds == if isWitness then Register(old(Rounds), old(e.round), e.id) else old(Rounds)
    {
      assert e.id in Events ==> Mirrored(e.id);
      assert Stores(e) ==> Data[e.id := e.Data()] == Data;
      isWitness := IsWitness(e);
      if isWitness {
        SetRoundAndRoot(e, e.round);
        EnsureRound(e.round);
        RegisterWitness(e);
      }
    }

    method SetRound(e: Event, r: nat)
      requires Valid()
      modifies e`round, this`Data
      ensures Valid() && Follows(e, old(Data))
      ensures e.Data() == old(e.Data()).(round := r)
    {
      e.round := r;
      forall id | id in Events
        ensures MirroredBut(id, e)
      {
        assert old(Mirrored(id));
      }
      Mirror(e);
    }

    method SetRoundAndRoot(e: Event, r: nat)
      requires Valid()
      modifies e`round, e`isRoot, this`Data
      ensures Valid() && Follows(e, old(Data))
      ensures e.Data() == old(e.Data()).(round := r, isRoot := true)
    {
      e.round := r;
      e.isRoot := true;
      forall id | id in Events
        ensures MirroredBut(id, e)
      {
        assert old(Mirrored(id));
      }
      Mirror(e);
    }

    /** Mirrored, except that Data may be behind for the event e. */
    ghost predicate MirroredBut(id: EventID, e: Event)
      requires id in Events && id in Data
      reads this`Events, this`Data, Events[id]
    {
      Events[id].id == id && id != NO_EVENT && (Events[id] != e ==> Events[id].Data() == Data[id])
    }

    /** Brings Data up to date after a change of e. */
    ghost method Mirror(e: Event)
      requires Data.Keys == Events.Keys
      requires forall id {:trigger MirroredBut(id, e)} :: id in Events ==> MirroredBut(id, e)
      modifies this`Data
      ensures Valid() && Follows(e, old(Data))
    {
      if Stores(e) {
        Data := Data[e.id := e.Data()];
      }
      forall id | id in Events
        ensures Mirrored(id)
      {
        assert old(MirroredBut(id, e));
      }
    }

    /** The first loop of AssignRound. */
    method MaxParentRound(e: Event, parents: seq<Event>) returns (round: nat)
      requires Valid() && |parents| == |e.parents|
      requires forall i :: 0 <= i < |parents| ==> e.parents[i] in Events && parents[i] == Events[e.parents[i]]
      ensures Known(Data, e.parents) && round == MaxRound(Data, e.parents)
    {
      ghost var events, ids := Data, e.parents;
      assert Known(events, ids);
      round := 0;
      for i := 0 to |parents|
        invariant round == MaxRound(events, ids[..i])
      {
        assert ids[..i + 1][..i] == ids[..i];
        assert Mirrored(ids[i]);
        if parents[i].round > round {
          round := parents[i].round;
        }
      }
      assert ids[..|parents|] == ids;
    }

    /** The second loop of AssignRound. */
    method AllParentsAreRoot(e: Event, parents: seq<Event>) returns (all: bool)
      requires Valid() && |parents| == |e.parents|
      requires forall i :: 0 <= i < |parents| ==> e.parents[i] in Events && parents[i] == Events[e.parents[i]]
      ensures Known(Data, e.parents) && (all <==> AllRoots(Data, e.parents))
    {
      ghost var events, ids := Data, e.parents;
      assert Known(events, ids);
      for i := 0 to |parents|
        invariant forall j :: 0 <= j < i ==> events[ids[j]].isRoot
      {
        assert Mirrored(ids[i]);
        if !parents[i].isRoot {
          return false;
        }
      }
      return true;
    }

    method IsWitness(e: Event) returns (first: bool)
      requires Valid()
      ensures first <==> FirstInRound(Data, e.creator, e.round, e.lamport)
    {
      var rest := Events.Keys;
      while rest != {}
        invariant rest <= Events.Keys
        invariant forall o :: o in Data && o !in rest ==>
          !(Data[o].creator == e.creator && Data[o].round == e.round && Data[o].lamport < e.lamport)
        decreases rest
      {
        var o :| o in rest;
        var other := Events[o];
        assert Mirrored(o);
        if other.creator == e.creator && other.round == e.round && other.lamport < e.lamport {
          return false;
        }
        rest := rest - {o};
      }
      return true;
    }

    method EnsureRound(r: nat)
      modifies this`Rounds
      ensures Rounds == WithRound(old(Rounds), r)
    {
      if r !in Rounds {
        Rounds := Rounds[r := EMPTY_ROUND];
      }
    }

    /** The two table writes that follow ensureRound. */
    method RegisterWitness(e: Event)
      requires e.round in Rounds
      modifies this`Rounds
      ensures Rounds == Register(old(Rounds), e.round, e.id)
    {
      var info := Rounds[e.round];
      Rounds := Rounds[e.round := info.(witnesses := info.witnesses + {e.id}, roots := info.roots + {e.id})];
    }
  }

  /** What AssignRound does to an event that is not stored: the event afterwards, and the tables. */
  ghost function AssignUnstored(events: EventMap, rounds: RoundTable, id: EventID, e: EventData): (EventData, RoundTable) {
    if !Known(events, e.parents) then (e, rounds)
    else
      var f := e.(round := NextRound(events, e.parents));
      if e.parents == [] || FirstInRound(events, f.creator, f.round, f.lamport)
      then (f.(isRoot := true), Register(rounds, f.round, id))
      else (f, rounds)
  }

  /** An event that is not stored gets the round, the mark and the table entries it would get if it were stored. */
  lemma UnstoredLikeStored(d: DagState, id: EventID, e: EventData)
    requires id !in d.events && id !in e.parents
    ensures var stored := DagSpec.AssignRound(DagState(d.events[id := e], d.rounds), id);
      AssignUnstored(d.events, d.rounds, id, e) == (stored.events[id], stored.rounds)
  {
    var events := d.events[id := e];
    if Known(d.events, e.parents) {
      RoundTheory.NextRoundFrame(d.events, events, e.parents);
      var f := Placed(events, id);
      assert events[id := f][id] == f && forall o :: o in d.events ==> events[id := f][o] == d.events[o];
      assert FirstInRound(events[id := f], f.creator, f.round, f.lamport) <==> FirstInRound(d.events, f.creator, f.round, f.lamport);
    } else {
      assert !Known(events, e.parents);
    }
  }

  lemma GenesisState(d: DagState, id: EventID)
    requires id in d.events && d.events[id].parents == []
    ensures DagSpec.AssignRound(d, id) ==
      DagState(d.events[id := d.events[id].(round := 0, isRoot := true)], Register(d.rounds, 0, id))
  {
  }

  /** AssignRound from the round computed for the event and the outcome of its witness test. */
  lemma AboveParentsState(d: DagState, id: EventID, round: nat, first: bool)
    requires id in d.events && Known(d.events, d.events[id].parents) && d.events[id].parents != []
    requires round == NextRound(d.events, d.events[id].parents)
    requires var e := d.events[id].(round := round);
      first <==> FirstInRound(d.events[id := e], e.creator, round, e.lamport)
    ensures var e := d.events[id].(round := round);
      DagSpec.AssignRound(d, id) ==
      if first
      then DagState(d.events[id := e][id := e.(isRoot := true)], Register(d.rounds, round, id))
      else DagState(d.events[id := e], d.rounds)
  {
    var e := d.events[id].(round := round);
    assert e == Placed(d.events, id);
    assert d.events[id := e][id := e.(isRoot := true)] == d.events[id := e.(isRoot := true)];
  }
}
