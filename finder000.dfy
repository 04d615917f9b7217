/**
 * DijkstraWikipediaPathFinder000: the engine run on the raw cache graph,
 * towards the single goal id, with unit cost and a tie breaker that
 * returns its second argument.
 */
module Finder000 {
  import opened Wrappers
  import opened WikiGraph
  import opened Dijkstra
  import opened GraphSearch

  /** tieBreaker(ID0, ID1) = ID1: the candidate seen first keeps a tie. */
  function Caps000(g: Graph): Caps {
    GraphCaps(g, TieBreakerRule((id0: Vertex, id1: Vertex) => id1))
  }

  /** No candidate ever displaces a different incumbent at equal distance. */
  lemma TiesKeepIncumbent(g: Graph, k: Vertex, incumbent: Vertex, d: nat)
    requires k != incumbent
    ensures !Caps000(g).prefer(k, incumbent, d)
  {
  }

  /** find(start, goal) */
  method Find(g: Graph, start: Label, goal: Label) returns (r: Result<seq<Label>, Fault>)
    requires g.Valid()
    ensures !g.Has(start) || !g.Has(goal) ==> r == Success([])
    ensures start == goal ==> r == Success([])
    ensures r.Failure? <==> g.Has(start) && g.Has(goal) && start != goal && g.Outgoing(g.Lookup(start)).None?
    ensures r.Failure? ==> r.error == NullPointer
    ensures r.Success? && r.value != [] ==> |r.value| >= 2 && Connects(g, r.value, start, goal)
    ensures r.Success? && r.value != [] ==> forall p | Connects(g, p, start, goal) :: |r.value| <= |p|
    ensures r.Success? && r.value == [] && start != goal ==> forall p :: !Connects(g, p, start, goal)
  {
    if !g.Has(start) || !g.Has(goal) {
      return Success([]);
    }
    var startId := g.Lookup(start);
    var endId := g.Lookup(goal);
    assert startId == endId <==> start == goal;
    var c := Caps000(g);
    GraphCapsFacts(g, c.prefer);
    var pathA := PathTo(c, startId, endId, g.articleIds.Keys);
    if pathA.Failure? {
      return Failure(pathA.error);
    }
    if |pathA.value| == 0 {
      if start != goal {
        forall p | Connects(g, p, start, goal) ensures false {
          ConnectsIsRoute(g, c.prefer, p, start, goal);
        }
      }
      return Success([]);
    }
    var pathB := ToLabels(g, pathA.value);
    RouteIsLinked(g, c.prefer, pathA.value, pathB);
    forall p | Connects(g, p, start, goal) ensures |pathB| <= |p| {
      ConnectsIsRoute(g, c.prefer, p, start, goal);
    }
    return Success(pathB);
  }
}
