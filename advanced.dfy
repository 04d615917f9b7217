/**
 * AdvancedDijkstraWikipediaPathFinder: an inline unit-cost Dijkstra over the
 * core (articles of known adjacency) that never enters the frontier
 * (articles of unknown adjacency).  A start outside the core is promoted
 * first: it is expanded online when its adjacency is unknown, then moved
 * from the frontier into the core.  Its loop has the engine's shape step
 * for step, with a relaxation that skips frontier articles, so it is
 * modelled by the engine with a next-hop function that leaves them out.
 */
module Advanced {
  import opened Wrappers
  import opened WikiGraph
  import opened Dijkstra
  import opened GraphSearch
  import opened CoreSplit
  import opened Wikipedia

  /** `e.getValue() == distance.get(next)` compares two boxed Integers by
      reference; autoboxing shares the objects only for values up to 127. */
  const BoxCacheHigh: nat := 127

  /** The tie rule of the selection loop: equal distances, as the reference
      comparison sees them, and a strictly higher priority. */
  function BoxedTie(priorities: map<Id, real>): (Vertex, Vertex, nat) -> bool {
    (k: Vertex, incumbent: Vertex, d: nat) => d <= BoxCacheHigh && Priority(priorities, k) > Priority(priorities, incumbent)
  }

  /** On a tie up to distance 127 the higher priority wins; beyond it the
      reference comparison fails and the incumbent always stays. */
  lemma BoxedTieScored(priorities: map<Id, real>)
    ensures ScoredTies(BoxedTie(priorities), (v: Vertex) => Priority(priorities, v), (d: nat) => d <= BoxCacheHigh)
  {
  }

  /** searchCore's loop as an engine instance: unit cost, has(int), and the
      adjacency of expanded articles without the frontier. */
  function CoreCaps(g: Graph, frontier: set<Id>, priorities: map<Id, real>): Caps {
    Caps((u: Vertex, v: Vertex) => 1,
         (v: Vertex) => if v in g.cache then Some(g.cache[v] - frontier) else None,
         (v: Vertex) => g.HasId(v),
         BoxedTie(priorities))
  }

  /** Every step of the search is a link of the cache graph that avoids the
      frontier. */
  lemma CoreCapsFacts(g: Graph, frontier: set<Id>, priorities: map<Id, real>)
    requires g.Valid()
    ensures UnitCost(CoreCaps(g, frontier, priorities))
    ensures Closed(CoreCaps(g, frontier, priorities), g.articleIds.Keys)
    ensures forall u, v :: Edge(CoreCaps(g, frontier, priorities), u, v) ==> g.Edge(u, v) && v !in frontier
  {
  }

  /** The invariant of the static sets over the cache graph `g`. */
  ghost predicate Split(g: Graph, core: set<Id>, frontier: set<Id>) {
    g.Valid() && core !! frontier && core <= g.cache.Keys
  }

  /** Promotion keeps the sets disjoint; the invariant holds again once the
      start has known adjacency. */
  lemma Promoted(g: Graph, r: Graph, core: set<Id>, frontier: set<Id>, startId: Id)
    requires Split(g, core, frontier) && Grows(g, r) && r.Valid()
    ensures (core + {startId}) !! (frontier - {startId})
    ensures startId in r.cache ==> Split(r, core + {startId}, frontier - {startId})
  {
    forall v | v in core ensures v in r.cache {
      assert v in g.cache;
    }
  }

  /** The tail of find: `path.add(endId)` when the core path stops short of
      the goal, then the ids translated back to titles. */
  method Complete(g: Graph, frontier: set<Id>, priorities: map<Id, real>, path: seq<Id>, start: Label, end: Label)
    returns (out: seq<Label>)
    requires g.Valid() && g.Has(start) && g.Has(end)
    requires |path| >= 2 && Route(CoreCaps(g, frontier, priorities), path, g.Lookup(start)) && path[0] !in frontier
    requires path[|path| - 1] == g.Lookup(end) || g.Edge(path[|path| - 1], g.Lookup(end))
    ensures |out| >= 2 && Connects(g, out, start, end)
    ensures forall i | 0 <= i < |out| - 1 :: g.Lookup(out[i]) !in frontier
  {
    var c := CoreCaps(g, frontier, priorities);
    CoreCapsFacts(g, frontier, priorities);
    var ids;
    ids, out := CompleteToGoal(g, c, path, start, end);
    forall i | 0 <= i < |out| - 1 ensures g.Lookup(out[i]) !in frontier {
      if i > 0 {
        assert i < |path| && ids[i] == path[i];
        assert Edge(c, path[i - 1], path[i]);
      }
    }
  }

  class AdvancedFinder {
    /** The cache the static fields were built from. */
    const wiki: WikipediaCache
    var frontier: set<Id>
    var core: set<Id>
    /** The centrality scores (power iteration, not modelled). */
    const priorities: map<Id, real>

    /** The split stays disjoint and every core article has known adjacency. */
    ghost predicate Valid()
      reads this, wiki
    {
      Split(wiki.Snapshot(), core, frontier)
    }

    /** The static initialisers: buildFrontier, then buildCore. */
    constructor (wiki: WikipediaCache, priorities: map<Id, real>)
      requires wiki.Valid()
      ensures Valid() && this.wiki == wiki && this.priorities == priorities
      ensures forall v :: v in core <==> wiki.Snapshot().HasId(v) && wiki.Snapshot().Outgoing(v).Some?
      ensures forall v :: v in frontier <==> wiki.Snapshot().HasId(v) && wiki.Snapshot().Outgoing(v).None?
      ensures core + frontier == wiki.articleIds.Keys
    {
      this.wiki := wiki;
      this.priorities := priorities;
      var f := BuildFrontier(wiki.Snapshot());
      var c := BuildCoreSet(wiki.Snapshot());
      Partition(wiki.Snapshot(), c, f);
      frontier := f;
      core := c;
    }

    /** The promotion at the head of searchCore: a start outside the core
        is looked up by title (fetched when its adjacency is unknown), then
        moved from the frontier into the core. */
    method Promote(startId: Id, page: seq<Anchor>)
      requires Valid() && wiki.Snapshot().HasId(startId)
      modifies this, wiki
      ensures core == old(core) + {startId} && frontier == old(frontier) - {startId}
      ensures var g := old(wiki.Snapshot());
              wiki.Snapshot() == if startId in old(core) || startId in g.cache then g else Expand(g, g.articleIds[startId], page)
      ensures wiki.Valid() && Grows(old(wiki.Snapshot()), wiki.Snapshot())
      ensures core !! frontier && (startId in wiki.cache ==> Valid())
    {
      ghost var g0 := wiki.Snapshot();
      if startId !in core {
        var article := wiki.articleIds[startId];
        var outs := wiki.OutgoingOf(article, page);
        ExpandGrows(g0, article, page);
        frontier := frontier - {startId};
        core := core + {startId};
      }
      Promoted(g0, wiki.Snapshot(), old(core), old(frontier), startId);
    }

    /** searchCore(startId, endIds): promotion of the start, then the loop.
        A start whose adjacency is still unknown after promotion makes the
        `continue`s spin forever unless it is itself a goal. */
    method SearchCore(startId: Id, endIds: set<Id>, page: seq<Anchor>) returns (r: Result<seq<Id>, Fault>)
      requires Valid() && wiki.Snapshot().HasId(startId)
      modifies this, wiki
      ensures core == old(core) + {startId} && frontier == old(frontier) - {startId}
      ensures var g := old(wiki.Snapshot());
              wiki.Snapshot() == if startId in old(core) || startId in g.cache then g else Expand(g, g.articleIds[startId], page)
      ensures wiki.Valid() && Grows(old(wiki.Snapshot()), wiki.Snapshot())
      ensures startId in wiki.cache ==> Valid()
      ensures r.Failure? <==> startId !in endIds && wiki.Snapshot().Outgoing(startId).None?
      ensures r.Failure? ==> r.error == Diverges
      ensures startId in endIds ==> r == Success([])
      ensures var c := CoreCaps(wiki.Snapshot(), frontier, priorities);
              r.Success? && r.value != [] ==>
                && Route(c, r.value, startId) && |r.value| >= 2 && r.value[|r.value| - 1] in endIds
                && forall p | Route(c, p, startId) && p[|p| - 1] in endIds :: |r.value| <= |p|
      ensures var c := CoreCaps(wiki.Snapshot(), frontier, priorities);
              r.Success? && r.value == [] && startId !in endIds ==>
                forall p | Route(c, p, startId) :: p[|p| - 1] !in endIds
    {
      Promote(startId, page);
      var g := wiki.Snapshot();
      if startId !in endIds && g.Outgoing(startId).None? {
        return Failure(Diverges);
      }
      var c := CoreCaps(g, frontier, priorities);
      CoreCapsFacts(g, frontier, priorities);
      r := Explore(c, startId, endIds, g.articleIds.Keys);
    }

    /** find(start, end) */
    method Find(start: Label, end: Label, page: seq<Anchor>) returns (r: Result<seq<Label>, Fault>)
      requires Valid()
      modifies this, wiki
      ensures !old(wiki.Snapshot()).Has(start) || !old(wiki.Snapshot()).Has(end) ==>
                r == Success([]) && core == old(core) && frontier == old(frontier) && wiki.Snapshot() == old(wiki.Snapshot())
      ensures var g := old(wiki.Snapshot());
              g.Has(start) && g.Has(end) ==>
                && core == old(core) + {g.Lookup(start)}
                && frontier == old(frontier) - {g.Lookup(start)}
                && wiki.Snapshot() == if g.Lookup(start) in old(core) || g.Lookup(start) in g.cache then g
                                      else Expand(g, start, page)
      ensures var g := old(wiki.Snapshot());
              r.Failure? <==> && g.Has(start) && g.Has(end)
                              && g.Lookup(start) !in CorePreds(old(core), g, g.Lookup(end))
                              && wiki.Snapshot().Outgoing(g.Lookup(start)).None?
      ensures r.Failure? ==> r.error == Diverges
      ensures r.Success? ==> Valid()
      ensures var g := old(wiki.Snapshot());
              g.Has(start) && g.Has(end) && CorePreds(old(core), g, g.Lookup(end)) == {} && r.Success? ==> r == Success([])
      ensures r.Success? && r.value != [] ==>
                && |r.value| >= 2 && Connects(wiki.Snapshot(), r.value, start, end)
                && forall i | 0 <= i < |r.value| - 1 :: wiki.Snapshot().Lookup(r.value[i]) !in frontier
    {
      var g0 := wiki.Snapshot();
      if !g0.Has(start) || !g0.Has(end) {
        return Success([]);
      }
      var startId := g0.Lookup(start);
      var endId := g0.Lookup(end);
      var toCore := GoToCore(core, g0, endId);
      var endIds := toCore.value;
      ghost var core0 := core;
      var path := SearchCore(startId, endIds, page);
      var g := wiki.Snapshot();
      GrowsKeepsLookup(g0, g, start);
      GrowsKeepsLookup(g0, g, end);
      if path.Failure? {
        return Failure(path.error);
      }
      if path.value == [] {
        return Success([]);
      }
      CorePredsLead(core0, g0, g, endId, path.value[|path.value| - 1]);
      var out := Complete(g, frontier, priorities, path.value, start, end);
      return Success(out);
    }
  }
}
