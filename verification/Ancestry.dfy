/** The two ancestor searches: the depth-first one of DAG and the breadth-first one of Poset. */
module Ancestry {
  import opened Events
  import opened Graph

  function GraphOf(events: map<EventID, Event>): Graph {
    map id | id in events :: events[id].parents
  }

  /** Every parent of a newly visited stored event has been visited too. */
  ghost predicate Explored(events: map<EventID, Event>, newly: set<EventID>, visited: set<EventID>) {
    forall x, y :: x in newly && x in events && y in events[x].parents ==> y in visited
  }

  /** The recursive closure of DAG.IsAncestor together with the variables it captures. */
  class AncestorSearch {
    const events: map<EventID, Event>
    const target: EventID
    var visited: set<EventID>

    constructor (events: map<EventID, Event>, target: EventID)
      ensures this.events == events && this.target == target && visited == {}
    {
      this.events, this.target, visited := events, target, {};
    }

    method Dfs(current: EventID) returns (found: bool)
      requires target !in visited
      modifies this
      ensures found ==> Ancestor(GraphOf(events), target, current)
      ensures !found ==> old(visited) <= visited && current in visited && target !in visited
      ensures !found ==> Explored(events, visited - old(visited), visited)
      decreases events.Keys - visited
    {
      ghost var g := GraphOf(events);
      if current == target {
        AncestorSelf(g, target);
        return true;
      }
      if current in visited {
        return false;
      }
      visited := visited + {current};
      if current !in events {
        return false;
      }
      var parents := events[current].parents;
      for i := 0 to |parents|
        invariant old(visited) + {current} <= visited && target !in visited
        invariant forall j :: 0 <= j < i ==> parents[j] in visited
        invariant Explored(events, visited - old(visited) - {current}, visited)
      {
        var viaParent := Dfs(parents[i]);
        if viaParent {
          AncestorStep(g, target, parents[i], current);
          return true;
        }
      }
      return false;
    }
  }

  /** DAG.IsAncestor: depth-first search with one visited set shared by all branches. */
  method IsAncestorDfs(events: map<EventID, Event>, a: EventID, b: EventID) returns (found: bool)
    ensures found <==> Ancestor(GraphOf(events), a, b)
  {
    var search := new AncestorSearch(events, a);
    found := search.Dfs(b);
    if !found && Ancestor(GraphOf(events), a, b) {
      ClosedContainsAncestors(GraphOf(events), search.visited, a, b);
    }
  }

  /** Poset.isAncestor: breadth-first search with a queue that may hold an id several times. */
  method IsAncestorBfs(events: map<EventID, Event>, ancestor: EventID, descendant: EventID) returns (found: bool)
    ensures found <==> Ancestor(GraphOf(events), ancestor, descendant)
  {
    ghost var g := GraphOf(events);
    var visited: set<EventID> := {};
    var queue := [descendant];
    AncestorSelf(g, descendant);
    while |queue| > 0
      invariant ancestor !in visited
      invariant descendant in visited || descendant in queue
      invariant forall q :: q in queue ==> Ancestor(g, q, descendant)
      invariant forall x, y :: x in visited && x in events && y in events[x].parents ==> y in visited || y in queue
      decreases events.Keys - visited, |queue|
    {
      var current := queue[0];
      ghost var before := queue;
      queue := queue[1..];
      assert forall q :: q in before ==> q == current || q in queue;
      if current == ancestor {
        return true;
      }
      if current in visited {
        continue;
      }
      visited := visited + {current};
      if current !in events {
        continue;
      }
      ghost var rest := queue;
      var parents := events[current].parents;
      for i := 0 to |parents|
        invariant queue == rest + parents[..i]
      {
        queue := queue + [parents[i]];
      }
      assert parents[..|parents|] == parents;
      forall q | q in parents
        ensures Ancestor(g, q, descendant)
      {
        AncestorSelf(g, q);
        AncestorStep(g, q, q, current);
        AncestorTransitive(g, q, current, descendant);
      }
    }
    if Ancestor(g, ancestor, descendant) {
      ClosedContainsAncestors(g, visited, ancestor, descendant);
    }
    return false;
  }
}
