/** The readers and re-assigners of rounds: src/round_assignment.go and the scan of src/fame_voting.go. */
module Rounds {
  import opened Events
  import opened Graph
  import opened DagSpec
  import opened Dag
  import opened RoundProperties
  import opened Sets

  class RoundAssignment {
    const dag: DAG

    constructor (dag: DAG)
      ensures this.dag == dag
    {
      this.dag := dag;
    }

    /** The largest round of the table; after a run with known parents, the largest round of any event. */
    method GetLatestRound() returns (latest: nat)
      requires dag.Valid()
      ensures forall r :: r in dag.Rounds ==> r <= latest
      ensures if dag.Rounds == map[] then latest == 0 else latest in dag.Rounds
      ensures forall run :: KnownRun(run) && dag.State() == After(run) ==>
        (forall id :: id in dag.Events ==> dag.Events[id].round <= latest) &&
        (dag.Events != map[] ==> exists id :: id in dag.Events && dag.Events[id].round == latest)
    {
      latest := 0;
      var rest := dag.Rounds.Keys;
      while rest != {}
        invariant rest <= dag.Rounds.Keys
        invariant forall r :: r in dag.Rounds && r !in rest ==> r <= latest
        invariant latest == 0 || latest in dag.Rounds
        invariant dag.Rounds.Keys != {} && rest != dag.Rounds.Keys && latest == 0 ==> 0 in dag.Rounds
        decreases rest
      {
        var r :| r in rest;
        rest := rest - {r};
        if r > latest {
          latest := r;
        }
      }
      assert dag.Rounds == map[] <==> dag.Rounds.Keys == {};
      forall run | KnownRun(run) && dag.State() == After(run)
        ensures forall id :: id in dag.Events ==> dag.Events[id].round <= latest
        ensures dag.Events != map[] ==> exists id :: id in dag.Events && dag.Events[id].round == latest
      {
        LatestIsMaximum(run, dag.Data, latest);
        assert forall id :: id in dag.Data ==> dag.Mirrored(id);
        assert dag.Events != map[] ==> dag.Data.Keys != {};
      }
    }

    /**
     * Assigns rounds to any events, stored or not. On the state of a legal run no stored event changes, and if all
     * the events are stored nothing does.
     */
    method AssignRoundsForEvents(events: seq<Event>)
      requires dag.Valid()
      modifies dag`Rounds, dag`Data, events
      ensures dag.Valid()
      ensures forall run :: LegalRun(run) && old(dag.State()) == After(run) ==> dag.Data == old(dag.Data)
      ensures forall run :: LegalRun(run) && old(dag.State()) == After(run) && (forall e :: e in events ==> dag.Stores(e)) ==>
        dag.State() == old(dag.State())
    {
      for i := 0 to |events|
        invariant dag.Valid()
        invariant forall run :: LegalRun(run) && old(dag.State()) == After(run) ==> dag.Data == old(dag.Data)
        invariant forall run :: LegalRun(run) && old(dag.State()) == After(run) && (forall e :: e in events ==> dag.Stores(e)) ==>
          dag.State() == old(dag.State())
      {
        AssignOne(events[i]);
      }
    }

    /** One step of the loop, for every legal run that left the events as they are. */
    method AssignOne(e: Event)
      requires dag.Valid()
      modifies dag`Rounds, dag`Data, e
      ensures dag.Valid()
      ensures forall run :: LegalRun(run) && old(dag.Data) == After(run).events ==> dag.Data == old(dag.Data)
      ensures forall run :: LegalRun(run) && old(dag.State()) == After(run) && dag.Stores(e) ==> dag.State() == old(dag.State())
    {
      ghost var d := dag.State();
      assert e.id in dag.Events ==> dag.Mirrored(e.id);
      dag.AssignRound(e);
      forall run | LegalRun(run) && d.events == After(run).events && dag.Stores(e)
        ensures dag.Data == d.events
        ensures d == After(run) ==> dag.State() == d
      {
        ReassignKeepsEvents(run, d.rounds, e.id);
        if d == After(run) {
          ReassignIsIdle(run, e.id);
        }
      }
    }
  }

  /** A bound of the table that is in the table is the largest round of any event. */
  lemma LatestIsMaximum(run: Run, events: EventMap, latest: nat)
    requires KnownRun(run) && After(run).events == events
    requires forall r :: r in After(run).rounds ==> r <= latest
    requires After(run).rounds != map[] ==> latest in After(run).rounds
    ensures forall id :: id in events ==> events[id].round <= latest
    ensures events != map[] ==> exists id :: id in events && events[id].round == latest
  {
    forall id | id in events
      ensures events[id].round <= latest
    {
      TableCoversRounds(run, events[id].round);
    }
    if events != map[] {
      var b :| b in events;
      TableCoversRounds(run, events[b].round);
      TableCoversRounds(run, latest);
    }
  }

  // What a witness was given in a round.
  datatype Vote = Vote(witnessID: EventID, round: nat, choice: bool)

  const MIN_VOTE_COUNT := 3

  ghost function VotesOn(votes: map<(EventID, nat), Vote>, w: EventID, round: nat): set<(EventID, nat)> {
    set k | k in votes && votes[k].witnessID == w && votes[k].round == round
  }

  ghost function YesVotesOn(votes: map<(EventID, nat), Vote>, w: EventID, round: nat): set<(EventID, nat)> {
    set k | k in VotesOn(votes, w, round) && votes[k].choice
  }

  /** Votes stored under their own witness and round: there is at most one for each. */
  lemma OneVotePerRound(votes: map<(EventID, nat), Vote>, w: EventID, round: nat)
    requires forall k :: k in votes ==> votes[k].witnessID == k.0 && votes[k].round == k.1
    ensures |VotesOn(votes, w, round)| <= 1
  {
    SubsetSize(VotesOn(votes, w, round), {(w, round)});
  }

  class FameVoting {
    const dag: DAG
    var votes: map<(EventID, nat), Vote>  // keyed by the pair the source formats into a string
    var famousWitnesses: set<EventID>
    var decidedRounds: set<nat>

    constructor (dag: DAG)
      ensures this.dag == dag && votes == map[] && Undecided()
    {
      this.dag, votes, famousWitnesses, decidedRounds := dag, map[], {}, {};
    }

    /** Each vote is stored under its own witness and round, and nothing has been decided. */
    ghost predicate Undecided()
      reads this
    {
      (forall k :: k in votes ==> votes[k].witnessID == k.0 && votes[k].round == k.1) &&
      famousWitnesses == {} && decidedRounds == {}
    }

    /**
     * Votes once on every witness of the round. However often it is called, no witness becomes famous and no
     * round is decided: a witness gets one vote per round, and a decision needs three.
     */
    method StartFameVoting(round: nat) returns (ok: bool)
      requires dag.Valid() && Undecided()
      modifies this
      ensures Undecided()
      ensures ok <==> ScanWitnesses(dag.Data, round) != {}
      ensures forall w :: w in ScanWitnesses(dag.Data, round) ==> (w, round) in votes
      ensures forall k :: k in votes && k !in old(votes) ==>
        k.1 == round && k.0 in ScanWitnesses(dag.Data, round) && votes[k].choice
      ensures forall k :: k in old(votes) ==> k in votes && votes[k] == old(votes)[k]
    {
      if round in decidedRounds {
        return true;
      }
      var witnesses := GetWitnesses(round);
      if witnesses == {} {
        return false;
      }
      var rest := witnesses;
      while rest != {}
        invariant rest <= witnesses && Undecided()
        invariant forall w :: w in witnesses && w !in rest ==> (w, round) in votes
        invariant forall k :: k in votes && k !in old(votes) ==> k.1 == round && k.0 in witnesses && votes[k].choice
        invariant forall k :: k in old(votes) ==> k in votes && votes[k] == old(votes)[k]
        decreases rest
      {
        var w :| w in rest;
        rest := rest - {w};
        if w !in famousWitnesses {
          StartVotingForWitness(w, round);
        }
      }
      return true;
    }

    method StartVotingForWitness(w: EventID, round: nat)
      requires dag.Valid() && Undecided()
      requires w in dag.Data && dag.Data[w].round == round
      modifies this
      ensures Undecided()
      ensures (w, round) in votes && votes == old(votes)[(w, round) := votes[(w, round)]]
      ensures (w, round) in old(votes) ==> votes == old(votes)
      ensures (w, round) !in old(votes) ==> votes[(w, round)].choice
    {
      if (w, round) in votes {
        return;
      }
      var vote := CalculateVote(w, round);
      votes := votes[(w, round) := vote];
      var consensus := CheckConsensus(w, round);
      OneVotePerRound(votes, w, round);
      famousWitnesses := if consensus then famousWitnesses + {w} else famousWitnesses;
      decidedRounds := if consensus then decidedRounds + {round} else decidedRounds;
    }

    /** The vote on a witness of the round itself is always yes: events of one round all see each other. */
    method CalculateVote(w: EventID, round: nat) returns (vote: Vote)
      requires dag.Valid() && w in dag.Data && dag.Data[w].round == round
      ensures vote == Vote(w, round, true)
    {
      var seeCount, totalEvents := 0, 0;
      var rest := dag.Events.Keys;
      while rest != {}
        invariant rest <= dag.Events.Keys && seeCount == totalEvents
        invariant w in rest || totalEvents > 0
        decreases rest
      {
        var id :| id in rest;
        assert dag.Mirrored(id);
        rest := rest - {id};
        if dag.Events[id].round == round {
          totalEvents := totalEvents + 1;
          var sees := CanSee(id, w);
          if sees {
            seeCount := seeCount + 1;
          }
        }
      }
      vote := Vote(w, round, totalEvents > 0 && TwoThirds(seeCount, totalEvents));
    }

    /** At least three votes on the witness in the round, two thirds of them yes. */
    method CheckConsensus(w: EventID, round: nat) returns (consensus: bool)
      ensures var all := set k | k in votes && votes[k].witnessID == w && votes[k].round == round;
        consensus <==> |all| >= 3 && 3 * |set k | k in all && votes[k].choice| >= 2 * |all|
    {
      var yesVotes, totalVotes := 0, 0;
      ghost var yes: set<(EventID, nat)>, all: set<(EventID, nat)> := {}, {};
      var rest := votes.Keys;
      while rest != {}
        invariant rest <= votes.Keys
        invariant totalVotes == |all| && forall k :: k in all <==> k in VotesOn(votes, w, round) && k !in rest
        invariant yesVotes == |yes| && forall k :: k in yes <==> k in YesVotesOn(votes, w, round) && k !in rest
        decreases rest
      {
        var k :| k in rest;
        rest := rest - {k};
        if votes[k].witnessID == w && votes[k].round == round {
          totalVotes, all := totalVotes + 1, all + {k};
          if votes[k].choice {
            yesVotes, yes := yesVotes + 1, yes + {k};
          }
        }
      }
      assert all == VotesOn(votes, w, round) && yes == YesVotesOn(votes, w, round);
      assert all == set k | k in votes && votes[k].witnessID == w && votes[k].round == round;
      assert yes == set k | k in all && votes[k].choice;
      if totalVotes < MIN_VOTE_COUNT {
        return false;
      }
      return TwoThirds(yesVotes, totalVotes);
    }

    method CanSee(a: EventID, b: EventID) returns (sees: bool)
      requires dag.Valid()
      ensures sees <==> (
        a in dag.Data && b in dag.Data &&
        (dag.Data[a].round == dag.Data[b].round ||
         (dag.Data[a].round == dag.Data[b].round + 1 && Ancestor(Parents(dag.Data), b, a))))
    {
      sees := false;
      if a in dag.Events && b in dag.Events {
        assert dag.Mirrored(a) && dag.Mirrored(b);
        if dag.Events[a].round == dag.Events[b].round {
          sees := true;
        } else if dag.Events[a].round == dag.Events[b].round + 1 {
          sees := dag.IsAncestor(b, a);
        }
      }
    }

    /** The witnesses of a round found by scanning all events; after a legal run, those of the table. */
    method GetWitnesses(round: nat) returns (witnesses: set<EventID>)
      requires dag.Valid()
      ensures witnesses == ScanWitnesses(dag.Data, round)
      ensures forall w :: w in witnesses <==> (
        w in dag.Data && dag.Data[w].round == round &&
        (round == 0 || forall o :: o in dag.Data && dag.Data[o].creator == dag.Data[w].creator && dag.Data[o].round == round ==>
          dag.Data[w].lamport <= dag.Data[o].lamport))
      ensures forall run :: LegalRun(run) && dag.State() == After(run) ==>
        witnesses == if round in dag.Rounds then dag.Rounds[round].witnesses else {}
    {
      witnesses := {};
      var rest := dag.Events.Keys;
      while rest != {}
        invariant rest <= dag.Events.Keys
        invariant witnesses == ScanWitnesses(dag.Data, round) - rest
        decreases rest
      {
        var id :| id in rest;
        rest := rest - {id};
        assert dag.Mirrored(id);
        if dag.Events[id].round == round {
          var first := IsWitness(dag.Events[id], round);
          if first {
            witnesses := witnesses + {id};
          }
        }
      }
      forall run | LegalRun(run) && dag.State() == After(run)
        ensures witnesses == if round in dag.Rounds then dag.Rounds[round].witnesses else {}
      {
        ScanAgreesWithTable(run, round);
      }
    }

    method IsWitness(event: Event, round: nat) returns (first: bool)
      requires dag.Valid()
      ensures first <==> round == 0 || forall o ::
        o in dag.Data && dag.Data[o].creator == event.creator && dag.Data[o].round == round ==> event.lamport <= dag.Data[o].lamport
    {
      if round == 0 {
        return true;
      }
      var rest := dag.Events.Keys;
      while rest != {}
        invariant rest <= dag.Events.Keys
        invariant forall o :: o in dag.Data && o !in rest ==>
          !(dag.Data[o].creator == event.creator && dag.Data[o].round == round && dag.Data[o].lamport < event.lamport)
        decreases rest
      {
        var o :| o in rest;
        var other := dag.Events[o];
        assert dag.Mirrored(o);
        if other.creator == event.creator && other.round == round && other.lamport < event.lamport {
          return false;
        }
        rest := rest - {o};
      }
      return true;
    }
  }
}
