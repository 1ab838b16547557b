/** Clotho selection (src/clotho.go) with the famous flags taken as input. */
module Clotho {
  import opened Events
  import opened Graph
  import opened DagSpec
  import opened Dag
  import opened Sets

  const MIN_VISIBILITY := 3

  ghost function EventsInRound(events: EventMap, r: nat): set<EventID> {
    set id | id in events && events[id].round == r
  }

  ghost function Seers(events: EventMap, w: EventID, r: nat): set<EventID> {
    set id | id in EventsInRound(events, r) && CanSee(events, id, w)
  }

  ghost function CreatorsOf(events: EventMap, ids: set<EventID>): set<string>
    requires ids <= events.Keys
  {
    set id | id in ids :: events[id].creator
  }

  /** The creators of round r all of whose events in that round see w. */
  ghost function SureCreators(events: EventMap, w: EventID, r: nat): set<string> {
    set c | c in CreatorsOf(events, EventsInRound(events, r)) &&
            forall id :: id in EventsInRound(events, r) && events[id].creator == c ==> id in Seers(events, w, r)
  }

  predicate Famous(e: EventData) {
    e.isFamous == Some(true)
  }

  /** Conditions 1 to 4 for a witness of round r. */
  ghost predicate Qualifies(events: EventMap, w: EventID, r: nat) {
    w in events && Famous(events[w]) &&
    |EventsInRound(events, r + 1)| >= MIN_VISIBILITY &&
    TwoThirds(|Seers(events, w, r + 1)|, |EventsInRound(events, r + 1)|)
  }

  /** Two thirds of the creators of the next round have an event that sees w. */
  ghost predicate MostCreatorsSee(events: EventMap, w: EventID, r: nat) {
    TwoThirds(|CreatorsOf(events, Seers(events, w, r + 1))|, |CreatorsOf(events, EventsInRound(events, r + 1))|)
  }

  /** For two thirds of the creators of the next round, whichever of their events is looked at first sees w. */
  ghost predicate MostCreatorsSurelySee(events: EventMap, w: EventID, r: nat) {
    TwoThirds(|SureCreators(events, w, r + 1)|, |CreatorsOf(events, EventsInRound(events, r + 1))|)
  }

  /** A selected Clotho: an event of the round that passes conditions 1 to 4 and the sound half of condition 5. */
  ghost predicate GoodClotho(events: EventMap, c: EventID, r: nat) {
    c in events && events[c].round == r && Qualifies(events, c, r) && MostCreatorsSee(events, c, r)
  }

  // ---------- visibility and the conditions, spelt out ----------

  /** The descendants of w in round q, through any number of links. */
  ghost function Descendants(events: EventMap, w: EventID, q: nat): set<EventID> {
    set id | id in events && events[id].round == q && Ancestor(Parents(events), w, id)
  }

  /** The events that see an event of round r: in the next round its descendants, in its own every event, elsewhere none. */
  lemma SeersAre(events: EventMap, w: EventID, r: nat, q: nat)
    requires w in events && events[w].round == r
    ensures Seers(events, w, q) ==
      if q == r + 1 then Descendants(events, w, q) else if q == r then set id | id in events && events[id].round == q else {}
  {
  }

  /** The creators with events in next all of which are in below. */
  ghost function WhollyIn(events: EventMap, next: set<EventID>, below: set<EventID>): set<string>
    requires next <= events.Keys
  {
    set id | id in next && (forall o :: o in next && events[o].creator == events[id].creator ==> o in below) :: events[id].creator
  }

  /**
   * c is a famous event of round r, at least three events lie in the next round, two thirds of them descend from it, and
   * those come from two thirds of the creators of that round.
   */
  ghost predicate WidelySeen(events: EventMap, c: EventID, r: nat) {
    var next, below := EventsInRound(events, r + 1), Descendants(events, c, r + 1);
    c in events && events[c].round == r && events[c].isFamous == Some(true) &&
    |next| >= 3 && 3 * |below| >= 2 * |next| && 3 * |CreatorsOf(events, below)| >= 2 * |CreatorsOf(events, next)|
  }

  /** As before, but all events of two thirds of the creators descend from c. */
  ghost predicate SurelySeen(events: EventMap, c: EventID, r: nat) {
    var next, below := EventsInRound(events, r + 1), Descendants(events, c, r + 1);
    c in events && events[c].round == r && events[c].isFamous == Some(true) &&
    |next| >= 3 && 3 * |below| >= 2 * |next| && 3 * |WhollyIn(events, next, below)| >= 2 * |CreatorsOf(events, next)|
  }

  lemma GoodClothoIsWidelySeen(events: EventMap, c: EventID, r: nat)
    ensures GoodClotho(events, c, r) <==> WidelySeen(events, c, r)
  {
    if c in events && events[c].round == r {
      SeersAre(events, c, r, r + 1);
    }
  }

  lemma SureClothoIsSurelySeen(events: EventMap, c: EventID, r: nat)
    requires c in events && events[c].round == r
    ensures Qualifies(events, c, r) && MostCreatorsSurelySee(events, c, r) <==> SurelySeen(events, c, r)
  {
    SeersAre(events, c, r, r + 1);
    SureCreatorsAre(events, c, r + 1);
  }

  lemma SureCreatorsAre(events: EventMap, w: EventID, r: nat)
    ensures SureCreators(events, w, r) == WhollyIn(events, EventsInRound(events, r), Seers(events, w, r))
  {
    var next := EventsInRound(events, r);
    forall c
      ensures c in SureCreators(events, w, r) <==> c in WhollyIn(events, next, Seers(events, w, r))
    {
      if c in SureCreators(events, w, r) {
        var id :| id in next && events[id].creator == c;
      }
    }
  }

  ghost function CommonDescendants(events: EventMap, a: EventID, b: EventID, r: nat): set<EventID> {
    set id | id in EventsInRound(events, r) && Ancestor(Parents(events), a, id) && Ancestor(Parents(events), b, id)
  }

  /**
   * Quorum intersection: two events of one round that qualify as Clothos have at least a third of the
   * next round's events as common descendants, and that round has at least three events, round 0 included.
   */
  lemma ClothosShareDescendants(events: EventMap, a: EventID, b: EventID, r: nat)
    requires Qualifies(events, a, r) && Qualifies(events, b, r)
    requires events[a].round == r && events[b].round == r
    ensures 3 * |CommonDescendants(events, a, b, r + 1)| >= |EventsInRound(events, r + 1)| >= MIN_VISIBILITY
    ensures CommonDescendants(events, a, b, r + 1) != {}
  {
    var u, sa, sb := EventsInRound(events, r + 1), Seers(events, a, r + 1), Seers(events, b, r + 1);
    Overlap(sa, sb, u);
    assert sa * sb == CommonDescendants(events, a, b, r + 1);
  }

  // ---------- condition 5 and the iteration order ----------

  /** Condition 5 asks the i-th event: no earlier event of the round has its creator. */
  ghost predicate AskedAt(events: EventMap, r: nat, order: seq<EventID>, i: nat) {
    i < |order| && order[i] in EventsInRound(events, r) &&
    forall j :: 0 <= j < i && order[j] in EventsInRound(events, r) ==> events[order[j]].creator != events[order[i]].creator
  }

  /** The creators whose first event of the round sees w. */
  ghost function Answers(events: EventMap, w: EventID, r: nat, order: seq<EventID>): set<string> {
    set i | 0 <= i < |order| && AskedAt(events, r, order, i) && order[i] in Seers(events, w, r) :: events[order[i]].creator
  }

  /** Condition 5 for a witness of round r when the events are iterated in this order. */
  ghost predicate PassesInOrder(events: EventMap, w: EventID, r: nat, order: seq<EventID>) {
    EventsInRound(events, r + 1) != {} &&
    TwoThirds(|Answers(events, w, r + 1, order)|, |CreatorsOf(events, EventsInRound(events, r + 1))|)
  }

  /** The first event of a creator in the order is the one asked. */
  lemma {:induction false} FirstIsAsked(events: EventMap, r: nat, order: seq<EventID>, k: nat) returns (i: nat)
    requires k < |order| && order[k] in EventsInRound(events, r)
    ensures i <= k && AskedAt(events, r, order, i) && events[order[i]].creator == events[order[k]].creator
    decreases k
  {
    if j :| 0 <= j < k && order[j] in EventsInRound(events, r) && events[order[j]].creator == events[order[k]].creator {
      i := FirstIsAsked(events, r, order, j);
    } else {
      i := k;
    }
  }

  /** Whatever the order, the answers lie between the creators that surely see w and those with an event that does. */
  lemma AnswersBetween(events: EventMap, w: EventID, r: nat, order: seq<EventID>)
    requires Lists(order, events.Keys)
    ensures SureCreators(events, w, r) <= Answers(events, w, r, order) <= CreatorsOf(events, Seers(events, w, r))
  {
    forall c | c in SureCreators(events, w, r)
      ensures c in Answers(events, w, r, order)
    {
      var x :| x in EventsInRound(events, r) && events[x].creator == c;
      var k :| 0 <= k < |order| && order[k] == x;
      var i := FirstIsAsked(events, r, order, k);
      assert order[i] in Seers(events, w, r);
    }
  }

  lemma PassesBetween(events: EventMap, w: EventID, r: nat, order: seq<EventID>)
    requires Lists(order, events.Keys)
    ensures PassesInOrder(events, w, r, order) ==> MostCreatorsSee(events, w, r)
    ensures EventsInRound(events, r + 1) != {} && MostCreatorsSurelySee(events, w, r) ==> PassesInOrder(events, w, r, order)
  {
    AnswersBetween(events, w, r + 1, order);
    SubsetSize(SureCreators(events, w, r + 1), Answers(events, w, r + 1, order));
    SubsetSize(Answers(events, w, r + 1, order), CreatorsOf(events, Seers(events, w, r + 1)));
  }

  /** With the seeing events first every creator that can answer does. */
  lemma GenerousOrder(events: EventMap, w: EventID, r: nat) returns (order: seq<EventID>)
    ensures Lists(order, events.Keys) && Answers(events, w, r, order) == CreatorsOf(events, Seers(events, w, r))
  {
    order := ListingWithFirst(events.Keys, Seers(events, w, r));
    AnswersBetween(events, w, r, order);
    forall c | c in CreatorsOf(events, Seers(events, w, r))
      ensures c in Answers(events, w, r, order)
    {
      var x :| x in Seers(events, w, r) && events[x].creator == c;
      var k :| 0 <= k < |order| && order[k] == x;
      var i := FirstIsAsked(events, r, order, k);
      assert order[i] in Seers(events, w, r);
    }
  }

  /** With the seeing events last only the creators that must answer do. */
  lemma StingyOrder(events: EventMap, w: EventID, r: nat) returns (order: seq<EventID>)
    ensures Lists(order, events.Keys) && Answers(events, w, r, order) == SureCreators(events, w, r)
  {
    var blind := events.Keys - Seers(events, w, r);
    order := ListingWithFirst(events.Keys, blind);
    AnswersBetween(events, w, r, order);
    forall i | 0 <= i < |order| && AskedAt(events, r, order, i) && order[i] in Seers(events, w, r)
      ensures events[order[i]].creator in SureCreators(events, w, r)
    {
      forall x | x in EventsInRound(events, r) && events[x].creator == events[order[i]].creator
        ensures x in Seers(events, w, r)
      {
        var k :| 0 <= k < |order| && order[k] == x;
        assert x !in Seers(events, w, r) ==> k < |blind| <= i;
      }
    }
  }

  /** Some iteration order passes condition 5 exactly if two thirds of the next round's creators have an event that sees w. */
  lemma SomeOrderPasses(events: EventMap, w: EventID, r: nat)
    ensures (exists order :: Lists(order, events.Keys) && PassesInOrder(events, w, r, order)) <==>
      EventsInRound(events, r + 1) != {} && MostCreatorsSee(events, w, r)
  {
    var generous := GenerousOrder(events, w, r + 1);
    if order :| Lists(order, events.Keys) && PassesInOrder(events, w, r, order) {
      PassesBetween(events, w, r, order);
    }
  }

  /** Every iteration order passes it exactly if for two thirds of those creators all events of the round see w. */
  lemma EveryOrderPasses(events: EventMap, w: EventID, r: nat)
    ensures (forall order :: Lists(order, events.Keys) ==> PassesInOrder(events, w, r, order)) <==>
      EventsInRound(events, r + 1) != {} && MostCreatorsSurelySee(events, w, r)
  {
    var stingy := StingyOrder(events, w, r + 1);
    if EventsInRound(events, r + 1) != {} && MostCreatorsSurelySee(events, w, r) {
      forall order | Lists(order, events.Keys)
        ensures PassesInOrder(events, w, r, order)
      {
        PassesBetween(events, w, r, order);
      }
    }
  }

  /** In particular the order does not matter when each creator has one event in the next round. */
  lemma OneEventPerCreatorDecides(events: EventMap, w: EventID, r: nat)
    requires forall x, y ::
      (x in EventsInRound(events, r + 1) && y in EventsInRound(events, r + 1) && events[x].creator == events[y].creator)
      ==> x == y
    ensures MostCreatorsSee(events, w, r) <==> MostCreatorsSurelySee(events, w, r)
  {
    var next, sees := EventsInRound(events, r + 1), Seers(events, w, r + 1);
    forall c
      ensures c in CreatorsOf(events, sees) <==> c in SureCreators(events, w, r + 1)
    {
      if c in CreatorsOf(events, sees) {
        var x :| x in sees && events[x].creator == c;
        assert x in next;
        assert c in CreatorsOf(events, next);
      }
      if c in SureCreators(events, w, r + 1) {
        var x :| x in next && events[x].creator == c;
        assert x in sees;
      }
    }
    assert CreatorsOf(events, sees) == SureCreators(events, w, r + 1);
  }

  lemma CreatorsAdd(events: EventMap, ids: set<EventID>, id: EventID)
    requires ids <= events.Keys && id in events
    ensures CreatorsOf(events, ids + {id}) == CreatorsOf(events, ids) + {events[id].creator}
  {
    assert id in ids + {id};
    forall c | c in CreatorsOf(events, ids)
      ensures c in CreatorsOf(events, ids + {id})
    {
      var x :| x in ids && events[x].creator == c;
      assert x in ids + {id};
    }
  }

  lemma NoCreatorsNoEvents(events: EventMap, ids: set<EventID>)
    requires ids <= events.Keys
    ensures CreatorsOf(events, ids) == {} <==> ids == {}
  {
    assert forall id :: id in ids ==> events[id].creator in CreatorsOf(events, ids);
  }

  /** The events of the round among the first ones of the order. */
  ghost function Handled(events: EventMap, r: nat, order: seq<EventID>): set<EventID> {
    set x | x in order && x in EventsInRound(events, r)
  }

  /** One more event is asked if its creator has not been met. */
  lemma AnswersSnoc(events: EventMap, w: EventID, r: nat, order: seq<EventID>, id: EventID)
    ensures Handled(events, r, order + [id]) == Handled(events, r, order) + if id in EventsInRound(events, r) then {id} else {}
    ensures Answers(events, w, r, order + [id]) ==
      if id in Seers(events, w, r) && events[id].creator !in CreatorsOf(events, Handled(events, r, order))
      then Answers(events, w, r, order) + {events[id].creator} else Answers(events, w, r, order)
  {
    var more := order + [id];
    forall i: nat | i < |order|
      ensures AskedAt(events, r, more, i) <==> AskedAt(events, r, order, i)
      ensures more[i] == order[i]
    {
      assert forall j :: 0 <= j <= i ==> more[j] == order[j];
    }
    if id in EventsInRound(events, r) {
      assert AskedAt(events, r, more, |order|) <==> events[id].creator !in CreatorsOf(events, Handled(events, r, order)) by {
        assert forall j :: 0 <= j < |order| ==> more[j] == order[j] && order[j] in order;
      }
    }
    assert more[|order|] == id;
    forall c
      ensures c in Answers(events, w, r, order) ==> c in Answers(events, w, r, more)
    {
      if c in Answers(events, w, r, order) {
        var i :| 0 <= i < |order| && AskedAt(events, r, order, i) && order[i] in Seers(events, w, r) && events[order[i]].creator == c;
        assert AskedAt(events, r, more, i) && more[i] == order[i];
      }
    }
  }

  /** The creators met in the first events of the order. */
  ghost function Met(events: EventMap, r: nat, order: seq<EventID>): set<string> {
    CreatorsOf(events, Handled(events, r, order))
  }

  lemma MetSnoc(events: EventMap, w: EventID, r: nat, order: seq<EventID>, id: EventID)
    requires id in events
    ensures Met(events, r, order + [id]) == Met(events, r, order) + if id in EventsInRound(events, r) then {events[id].creator} else {}
    ensures Answers(events, w, r, order + [id]) == Answers(events, w, r, order) +
      if id in Seers(events, w, r) && events[id].creator !in Met(events, r, order) then {events[id].creator} else {}
  {
    AnswersSnoc(events, w, r, order, id);
    CreatorsAdd(events, Handled(events, r, order), id);
  }

  /** The events considered for a round: its famous events; for round 0 its genesis events, or else at most one event. */
  ghost predicate Considered(events: EventMap, r: nat, famous: set<EventID>) {
    var genesis := set id | id in events && events[id].round == 0 && events[id].creator == "genesis";
    famous <= EventsInRound(events, r) &&
    if r > 0 then famous == set id | id in events && events[id].round == r && events[id].isFamous == Some(true)
    else if genesis != {} then famous == genesis
    else |famous| <= 1 && (EventsInRound(events, 0) != {} ==> famous != {})
  }

  lemma AnyFamous(events: EventMap, r: nat, famous: set<EventID>)
    requires Considered(events, r, famous)
    ensures famous != {} <==> exists c :: c in events && events[c].round == r && (r == 0 || events[c].isFamous == Some(true))
  {
    if famous != {} {
      var c :| c in famous;
      assert c in EventsInRound(events, r);
    }
    if c :| c in events && events[c].round == r && (r == 0 || events[c].isFamous == Some(true)) {
      assert c in EventsInRound(events, r);
      if r > 0 {
        assert c in famous;
      }
    }
  }

  /**
   * A right selection for a round: all of it is widely seen, and every event considered that is surely seen is in it. In
   * round 0 the genesis events are considered, or else at most one event.
   */
  ghost predicate Selection(events: EventMap, r: nat, selected: set<EventID>) {
    (forall c :: c in selected ==> WidelySeen(events, c, r)) &&
    (forall c :: SurelySeen(events, c, r) && c in events && (r > 0 || events[c].creator == "genesis") ==> c in selected) &&
    (r == 0 ==> |selected| <= 1 || forall c :: c in selected && c in events ==> events[c].creator == "genesis")
  }

  lemma SelectionIsRight(events: EventMap, r: nat, famous: set<EventID>, selected: set<EventID>)
    requires Considered(events, r, famous) && selected <= famous
    requires forall c :: c in selected ==> WidelySeen(events, c, r)
    requires forall c :: c in famous && SurelySeen(events, c, r) ==> c in selected
    ensures Selection(events, r, selected)
  {
    SubsetSize(selected, famous);
    var genesis := set id | id in events && events[id].round == 0 && events[id].creator == "genesis";
    forall c | SurelySeen(events, c, r) && c in events && (r > 0 || events[c].creator == "genesis")
      ensures c in famous
    {
      if r == 0 {
        assert c in genesis;
      }
    }
  }

  lemma SelectionShares(events: EventMap, selected: set<EventID>, r: nat)
    requires forall c :: c in selected ==> WidelySeen(events, c, r)
    ensures forall a, b :: a in selected && b in selected ==>
      3 * |CommonDescendants(events, a, b, r + 1)| >= |EventsInRound(events, r + 1)| >= MIN_VISIBILITY
  {
    forall a, b | a in selected && b in selected
      ensures 3 * |CommonDescendants(events, a, b, r + 1)| >= |EventsInRound(events, r + 1)| >= MIN_VISIBILITY
    {
      GoodClothoIsWidelySeen(events, a, r);
      GoodClothoIsWidelySeen(events, b, r);
      ClothosShareDescendants(events, a, b, r);
    }
  }

  // The variables of the loop of condition 5.
  datatype Tally = Tally(validators: set<string>, validatorCount: nat, seeCount: nat)

  /** The variables are right for these creators met and these answers. */
  ghost predicate Counts(t: Tally, met: set<string>, answers: set<string>) {
    t.validators == met && t.validatorCount == |met| && answers <= met && t.seeCount == |answers|
  }

  /** The body of the loop, for an event of the round. */
  function Ask(t: Tally, creator: string, sees: bool): Tally {
    if creator in t.validators then t
    else Tally(t.validators + {creator}, t.validatorCount + 1, if sees then t.seeCount + 1 else t.seeCount)
  }

  lemma AskCounts(t: Tally, met: set<string>, answers: set<string>, creator: string, sees: bool)
    requires Counts(t, met, answers)
    ensures Counts(Ask(t, creator, sees), met + {creator}, answers + if sees && creator !in met then {creator} else {})
  {
    if creator in met {
      assert met + {creator} == met;
    }
  }

  lemma AskStep(events: EventMap, w: EventID, r: nat, order: seq<EventID>, t: Tally, id: EventID)
    requires id in events && Counts(t, Met(events, r, order), Answers(events, w, r, order))
    ensures Counts(if id in EventsInRound(events, r) then Ask(t, events[id].creator, id in Seers(events, w, r)) else t,
      Met(events, r, order + [id]), Answers(events, w, r, order + [id]))
  {
    MetSnoc(events, w, r, order, id);
    AskCounts(t, Met(events, r, order), Answers(events, w, r, order), events[id].creator, id in Seers(events, w, r));
  }

  class ClothoSelector {
    const dag: DAG
    var clothos: map<nat, set<EventID>>

    constructor (dag: DAG)
      ensures this.dag == dag && clothos == map[]
    {
      this.dag, clothos := dag, map[];
    }

    /** Selects the Clothos of a round once; later calls for the round leave the selection alone. */
    method SelectClothos(round: nat) returns (ok: bool)
      requires dag.Valid()
      modifies this
      ensures round in old(clothos) ==> ok && clothos == old(clothos)
      ensures !ok ==> clothos == old(clothos)
      ensures ok ==> round in clothos && clothos == old(clothos)[round := clothos[round]]
      ensures ok && round !in old(clothos) ==> Selection(dag.Data, round, clothos[round])
      ensures ok && round !in old(clothos) ==> forall a, b :: a in clothos[round] && b in clothos[round] ==>
        3 * |CommonDescendants(dag.Data, a, b, round + 1)| >= |EventsInRound(dag.Data, round + 1)| >= MIN_VISIBILITY
      ensures round !in old(clothos) ==>
        (ok <==> exists c :: c in dag.Data && dag.Data[c].round == round && (round == 0 || dag.Data[c].isFamous == Some(true)))
    {
      if round in clothos {
        return true;
      }
      var famous := GetFamousWitnesses(round);
      AnyFamous(dag.Data, round, famous);
      if famous == {} {
        return false;
      }
      var selected := SelectFromWitnesses(famous, round);
      SelectionIsRight(dag.Data, round, famous, selected);
      SelectionShares(dag.Data, selected, round);
      clothos := clothos[round := selected];
      return true;
    }

    method SelectFromWitnesses(witnesses: set<EventID>, round: nat) returns (selected: set<EventID>)
      requires dag.Valid() && witnesses <= EventsInRound(dag.Data, round)
      ensures selected <= witnesses
      ensures forall c :: c in selected ==> WidelySeen(dag.Data, c, round)
      ensures forall c :: c in witnesses && SurelySeen(dag.Data, c, round) ==> c in selected
    {
      selected := {};
      var rest := witnesses;
      while rest != {}
        invariant rest <= witnesses && selected <= witnesses - rest
        invariant forall c :: c in selected ==> WidelySeen(dag.Data, c, round)
        invariant forall c :: c in witnesses - rest && SurelySeen(dag.Data, c, round) ==> c in selected
        decreases rest
      {
        var w :| w in rest;
        rest := rest - {w};
        ghost var order;
        var candidate;
        candidate, order := IsClothoCandidate(w, round);
        if candidate {
          selected := selected + {w};
        }
      }
    }

    /** The five conditions; the fifth depends on the order in which the events happened to be iterated. */
    method IsClothoCandidate(w: EventID, round: nat) returns (candidate: bool, ghost order: seq<EventID>)
      requires dag.Valid() && w in EventsInRound(dag.Data, round)
      ensures Lists(order, dag.Data.Keys)
      ensures candidate <==> Qualifies(dag.Data, w, round) && PassesInOrder(dag.Data, w, round, order)
      ensures candidate ==> WidelySeen(dag.Data, w, round)
      ensures SurelySeen(dag.Data, w, round) ==> candidate
    {
      order := SomeListing(dag.Data.Keys);
      candidate := false;
      GoodClothoIsWidelySeen(dag.Data, w, round);
      SureClothoIsSurelySeen(dag.Data, w, round);
      assert dag.Mirrored(w);
      if dag.Events[w].isFamous != Some(true) {
        return;
      }
      var hasEvents := HasEventsInNextRound(w, round);
      if !hasEvents {
        return;
      }
      var consensus := HasConsensusInNextRound(w, round);
      if !consensus {
        return;
      }
      var visible := HasProperVisibility(w, round);
      if !visible {
        return;
      }
      candidate, order := SatisfiesByzantineFaultTolerance(w, round);
    }

    /** The counting loop of conditions 2 to 4: the events of a round, and those of them that see w. */
    method CountRound(w: EventID, r: nat) returns (total: nat, see: nat)
      requires dag.Valid()
      ensures total == |EventsInRound(dag.Data, r)| && see == |Seers(dag.Data, w, r)|
    {
      total, see := 0, 0;
      ghost var next, sees := EventsInRound(dag.Data, r), Seers(dag.Data, w, r);
      ghost var counted: set<EventID>, seeing: set<EventID> := {}, {};
      var rest := dag.Events.Keys;
      while rest != {}
        invariant rest <= dag.Events.Keys
        invariant total == |counted| && forall x :: x in counted <==> x in next && x !in rest
        invariant see == |seeing| && forall x :: x in seeing <==> x in sees && x !in rest
        decreases rest
      {
        var id :| id in rest;
        var inRound, canSee := LookAt(id, w, r);
        rest := rest - {id};
        if inRound {
          total, counted := total + 1, counted + {id};
        }
        if canSee {
          see, seeing := see + 1, seeing + {id};
        }
      }
      assert counted == next && seeing == sees;
    }

    /** The body of the counting loop: is the event of this round, and if so, does it see w? */
    method LookAt(id: EventID, w: EventID, r: nat) returns (inRound: bool, sees: bool)
      requires dag.Valid() && id in dag.Events
      ensures inRound <==> id in EventsInRound(dag.Data, r)
      ensures sees <==> id in Seers(dag.Data, w, r)
    {
      assert dag.Mirrored(id);
      inRound, sees := dag.Events[id].round == r, false;
      if inRound {
        sees := CanSeeEvent(id, w);
      }
    }

    method HasEventsInNextRound(w: EventID, round: nat) returns (ok: bool)
      requires dag.Valid()
      ensures ok <==> (round == 0 && EventsInRound(dag.Data, 1) == {}) ||
                      |EventsInRound(dag.Data, round + 1)| >= MIN_VISIBILITY
    {
      var count, _ := CountRound(w, round + 1);
      if round == 0 && count == 0 {
        return true;
      }
      return count >= MIN_VISIBILITY;
    }

    method HasConsensusInNextRound(w: EventID, round: nat) returns (ok: bool)
      requires dag.Valid()
      ensures ok <==> if EventsInRound(dag.Data, round + 1) == {} then round == 0
                      else TwoThirds(|Seers(dag.Data, w, round + 1)|, |EventsInRound(dag.Data, round + 1)|)
    {
      var total, see := CountRound(w, round + 1);
      if round == 0 && total == 0 {
        return true;
      }
      if total == 0 {
        return false;
      }
      return TwoThirds(see, total);
    }

    method HasProperVisibility(w: EventID, round: nat) returns (ok: bool)
      requires dag.Valid()
      ensures ok <==> EventsInRound(dag.Data, round + 1) != {} &&
                      TwoThirds(|Seers(dag.Data, w, round + 1)|, |EventsInRound(dag.Data, round + 1)|)
    {
      var total, see := CountRound(w, round + 1);
      if total == 0 {
        return false;
      }
      return TwoThirds(see, total);
    }

    /** Condition 5: of each creator only the event the map iteration yields first is asked. */
    method SatisfiesByzantineFaultTolerance(w: EventID, round: nat) returns (ok: bool, ghost order: seq<EventID>)
      requires dag.Valid()
      ensures Lists(order, dag.Data.Keys) && (ok <==> PassesInOrder(dag.Data, w, round, order))
      ensures ok ==> EventsInRound(dag.Data, round + 1) != {} && MostCreatorsSee(dag.Data, w, round)
      ensures EventsInRound(dag.Data, round + 1) != {} && MostCreatorsSurelySee(dag.Data, w, round) ==> ok
    {
      var validatorCount, seeCount;
      validatorCount, seeCount, order := AskCreators(w, round + 1);
      NoCreatorsNoEvents(dag.Data, EventsInRound(dag.Data, round + 1));
      PassesBetween(dag.Data, w, round, order);
      if validatorCount == 0 {
        return false, order;
      }
      return TwoThirds(seeCount, validatorCount), order;
    }

    /** The loop of condition 5. */
    method AskCreators(w: EventID, r: nat) returns (validatorCount: nat, seeCount: nat, ghost order: seq<EventID>)
      requires dag.Valid()
      ensures Lists(order, dag.Data.Keys)
      ensures validatorCount == |CreatorsOf(dag.Data, EventsInRound(dag.Data, r))|
      ensures seeCount == |Answers(dag.Data, w, r, order)|
    {
      ghost var events := dag.Data;
      var validators: set<string> := {};
      validatorCount, seeCount, order := 0, 0, [];
      var rest := dag.Events.Keys;
      while rest != {}
        invariant rest <= dag.Events.Keys && Lists(order, events.Keys - rest)
        invariant Counts(Tally(validators, validatorCount, seeCount), Met(events, r, order), Answers(events, w, r, order))
        decreases rest
      {
        var id :| id in rest;
        var inRound, see := LookAt(id, w, r);
        assert dag.Mirrored(id);
        AskStep(events, w, r, order, Tally(validators, validatorCount, seeCount), id);
        ListsRest(order, events.Keys, rest, id);
        rest, order := rest - {id}, order + [id];
        if inRound {
          var creator := dag.Events[id].creator;
          if creator !in validators {
            validators := validators + {creator};
            validatorCount := validatorCount + 1;
            if see {
              seeCount := seeCount + 1;
            }
          }
        }
      }
      assert events.Keys - rest == events.Keys;
      assert Handled(events, r, order) == EventsInRound(events, r);
    }

    method CanSeeEvent(a: EventID, b: EventID) returns (sees: bool)
      requires dag.Valid()
      ensures sees <==> CanSee(dag.Data, a, b)
      ensures sees <==> (
        a in dag.Data && b in dag.Data &&
        (dag.Data[a].round == dag.Data[b].round ||
         (dag.Data[a].round == dag.Data[b].round + 1 && Ancestor(Parents(dag.Data), b, a))))
    {
      if a !in dag.Events || b !in dag.Events {
        return false;
      }
      assert dag.Mirrored(a) && dag.Mirrored(b);
      if dag.Events[a].round == dag.Events[b].round {
        return true;
      }
      if dag.Events[a].round == dag.Events[b].round + 1 {
        sees := dag.IsAncestor(b, a);
        return;
      }
      return false;
    }

    /** Round 0 takes the genesis events, or some one event if there are none; other rounds take the famous events. */
    method GetFamousWitnesses(round: nat) returns (famous: set<EventID>)
      requires dag.Valid()
      ensures Considered(dag.Data, round, famous)
    {
      famous := {};
      var rest := dag.Events.Keys;
      if round == 0 {
        while rest != {}
          invariant rest <= dag.Events.Keys
          invariant famous == set id | id in EventsInRound(dag.Data, 0) - rest && dag.Data[id].creator == "genesis"
          decreases rest
        {
          var id :| id in rest;
          assert dag.Mirrored(id);
          rest := rest - {id};
          if dag.Events[id].round == 0 && dag.Events[id].creator == "genesis" {
            famous := famous + {id};
          }
        }
        if famous == {} {
          rest := dag.Events.Keys;
          while rest != {}
            invariant rest <= dag.Events.Keys && EventsInRound(dag.Data, 0) <= rest
            decreases rest
          {
            var id :| id in rest;
            assert dag.Mirrored(id);
            rest := rest - {id};
            if dag.Events[id].round == 0 {
              famous := {id};
              return;
            }
          }
        }
        return;
      }
      while rest != {}
        invariant rest <= dag.Events.Keys
        invariant famous == set id | id in EventsInRound(dag.Data, round) - rest && Famous(dag.Data[id])
        decreases rest
      {
        var id :| id in rest;
        assert dag.Mirrored(id);
        rest := rest - {id};
        if dag.Events[id].round == round && dag.Events[id].isFamous == Some(true) {
          famous := famous + {id};
        }
      }
    }
  }
}
