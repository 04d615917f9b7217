/**
 * DijkstraWikipediaPathFinder: an inline copy of the engine's loop towards
 * the single goal `endId`, with unit cost and a selection that replaces the
 * incumbent only on a strictly smaller distance.  Its loop has the
 * engine's shape step for step, so it is modelled by the engine with those
 * parameters; the one difference is what happens at a start of unknown
 * adjacency: the two `continue`s leave `current` unchanged and the loop
 * never ends, where the engine would iterate over null.
 */
module InlineDijkstra {
  import opened Wrappers
  import opened WikiGraph
  import opened Dijkstra
  import opened GraphSearch

  /** The selection keeps the incumbent on every tie. */
  function InlineCaps(g: Graph): Caps {
    GraphCaps(g, (k: Vertex, incumbent: Vertex, d: nat) => false)
  }

  /** Selection replaces the incumbent only on a strictly smaller distance. */
  lemma TiesKeepEarlier(g: Graph, k: Vertex, incumbent: Vertex, d: nat)
    ensures !InlineCaps(g).prefer(k, incumbent, d)
  {
  }

  /** The `!has(current)` prelude before the loop is dead: `current` is the
      start, whose label was found registered. */
  lemma PreludeDead(g: Graph, start: Label)
    requires g.Valid() && g.Has(start)
    ensures InlineCaps(g).has(g.Lookup(start))
  {
  }

  /** find(start, end) */
  method Find(g: Graph, start: Label, end: Label) returns (r: Result<seq<Label>, Fault>)
    requires g.Valid()
    ensures !g.Has(start) || !g.Has(end) ==> r == Success([])
    ensures start == end ==> r == Success([])
    ensures r.Failure? <==> g.Has(start) && g.Has(end) && start != end && g.Outgoing(g.Lookup(start)).None?
    ensures r.Failure? ==> r.error == Diverges
    ensures r.Success? && r.value != [] ==> |r.value| >= 2 && Connects(g, r.value, start, end)
    ensures r.Success? && r.value != [] ==> forall p | Connects(g, p, start, end) :: |r.value| <= |p|
    ensures r.Success? && r.value == [] && start != end ==> forall p :: !Connects(g, p, start, end)
  {
    if !g.Has(start) || !g.Has(end) {
      return Success([]);
    }
    var startId := g.Lookup(start);
    var endId := g.Lookup(end);
    assert startId == endId <==> start == end;
    var current := startId;
    if current != endId && g.Outgoing(current).None? {
      // `continue` without advancing `current`
      return Failure(Diverges);
    }
    var c := InlineCaps(g);
    GraphCapsFacts(g, c.prefer);
    var pathA := PathTo(c, startId, endId, g.articleIds.Keys);
    if |pathA.value| == 0 {
      if start != end {
        forall p | Connects(g, p, start, end) ensures false {
          ConnectsIsRoute(g, c.prefer, p, start, end);
        }
      }
      return Success([]);
    }
    var out := ToLabels(g, pathA.value);
    RouteIsLinked(g, c.prefer, pathA.value, out);
    forall p | Connects(g, p, start, end) ensures |out| <= |p| {
      ConnectsIsRoute(g, c.prefer, p, start, end);
    }
    return Success(out);
  }
}
