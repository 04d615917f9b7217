/**
 * DijkstraWikipediaPathFinder001: a direct-neighbour fast path, then the
 * engine from the start into the core (the adjacency map cut down to the
 * articles of known adjacency), aimed at the core articles that lead into
 * the goal; the goal is appended when the engine path stops short of it.
 * Equal distances go to the article of higher centrality score.
 */
module Finder001 {
  import opened Wrappers
  import opened WikiGraph
  import opened Dijkstra
  import opened GraphSearch
  import opened CoreSplit

  /** The static fields: the core adjacency map and the centrality scores
      (loaded or computed by power iteration, which is not modelled). */
  datatype Finder = Finder(core: map<Id, set<Id>>, priorities: map<Id, real>)

  /** A core built from this cache or from an earlier state of it: every
      core article has known adjacency containing its core next hops, and
      next hops stay in the core. */
  ghost predicate Fits(g: Graph, core: map<Id, set<Id>>) {
    forall v | v in core :: v in g.cache && core[v] <= g.cache[v] && core[v] <= core.Keys
  }

  lemma BuiltCoreFits(g: Graph, core: map<Id, set<Id>>)
    requires CoreMap(g, core)
    ensures Fits(g, core)
  {
  }

  /** The cache only grows, so a core that fits keeps fitting. */
  lemma FitsAfterGrowth(g: Graph, r: Graph, core: map<Id, set<Id>>)
    requires Fits(g, core) && Grows(g, r)
    ensures Fits(r, core)
  {
    forall v | v in core ensures v in r.cache && core[v] <= r.cache[v] {
      assert g.cache[v] <= r.cache[v];
    }
  }

  /** tieBreaker(ID0, ID1): the strictly higher priority, else ID1. */
  function TieBreaker(f: Finder, id0: Id, id1: Id): (r: Id)
    ensures r == id0 || r == id1
    ensures r == id0 <==> id0 == id1 || Priority(f.priorities, id0) > Priority(f.priorities, id1)
  {
    if Priority(f.priorities, id0) > Priority(f.priorities, id1) then id0 else id1
  }

  /** The anonymous engine of find: unit cost; the raw adjacency for the
      start and the core adjacency elsewhere; `has` admits the start, the
      core and the goals. */
  function Caps001(f: Finder, g: Graph, startId: Id, goals: set<Id>): Caps {
    Caps((u: Vertex, v: Vertex) => 1,
         (id: Vertex) => if id == startId then g.Outgoing(id) else if id in f.core then Some(f.core[id]) else None,
         (id: Vertex) => id == startId || id in f.core || id in goals,
         TieBreakerRule((id0: Vertex, id1: Vertex) => TieBreaker(f, id0, id1)))
  }

  /** On a tie the candidate replaces the incumbent exactly when its
      priority is strictly higher. */
  lemma HigherPriorityWins(f: Finder, g: Graph, startId: Id, goals: set<Id>)
    ensures ScoredTies(Caps001(f, g, startId, goals).prefer, (id: Vertex) => Priority(f.priorities, id), (d: nat) => true)
  {
  }

  /** Every step the engine may take is an edge of the cache graph, and the
      engine only ever names registered articles. */
  lemma CapsFacts(f: Finder, g: Graph, startId: Id, goals: set<Id>)
    requires g.Valid() && Fits(g, f.core)
    ensures UnitCost(Caps001(f, g, startId, goals))
    ensures Closed(Caps001(f, g, startId, goals), g.articleIds.Keys)
    ensures forall u, v :: Edge(Caps001(f, g, startId, goals), u, v) ==> g.Edge(u, v)
  {
    var c := Caps001(f, g, startId, goals);
    forall v | c.nextHop(v).Some? ensures c.nextHop(v).value <= g.articleIds.Keys {
      if v != startId {
        assert f.core[v] <= g.cache[v];
      }
    }
    forall u, v | Edge(c, u, v) ensures g.Edge(u, v) {
      if u != startId {
        assert f.core[u] <= g.cache[u];
      }
    }
  }

  /** find(start, goal) */
  method Find(f: Finder, g: Graph, start: Label, goal: Label) returns (r: Result<seq<Label>, Fault>)
    requires g.Valid() && Fits(g, f.core)
    ensures r.Success?
    ensures !g.Has(start) || !g.Has(goal) ==> r == Success([])
    ensures g.Has(start) && g.Has(goal) && g.Edge(g.Lookup(start), g.Lookup(goal)) ==> r == Success([start, goal])
    ensures g.Has(start) && g.Has(goal) && g.Outgoing(g.Lookup(start)) in {None, Some({})} ==> r == Success([])
    ensures g.Has(start) && g.Has(goal) && !g.Edge(g.Lookup(start), g.Lookup(goal)) &&
            CorePreds(f.core.Keys, g, g.Lookup(goal)) == {}
            ==> r == Success([])
    ensures g.Has(start) && g.Lookup(start) in f.core && start == goal && !g.Edge(g.Lookup(start), g.Lookup(goal))
            ==> r == Success([])
    ensures r.Success? && r.value != [] ==> |r.value| >= 2 && Connects(g, r.value, start, goal)
  {
    if !g.Has(start) || !g.Has(goal) {
      return Success([]);
    }
    var startId := g.Lookup(start);
    var endId := g.Lookup(goal);
    var outs := g.Outgoing(startId);
    if outs.Some? && endId in outs.value {
      return Success([start, goal]);
    }
    if outs.None? || outs.value == {} {
      return Success([]);
    }
    var toCore := GoToCore(f.core.Keys, g, endId);
    var goals := toCore.value;
    if endId !in goals {
      goals := goals + {endId};
    }
    var c := Caps001(f, g, startId, goals);
    CapsFacts(f, g, startId, goals);
    var engineGoals := GoToCore(f.core.Keys, g, endId);
    var pathA := Explore(c, startId, engineGoals.value, g.articleIds.Keys);
    if pathA.value == [] {
      return Success([]);
    }
    var pathB, pathC := CompleteToGoal(g, c, pathA.value, start, goal);
    return Success(pathC);
  }
}
