/**
 * DijkstraWikipediaPathFinder002: finder 001 whose engine skips a random
 * sample of core articles, drawn once, when the finder is built, from a
 * lookup table in which low-priority articles own more slots.
 */
module Finder002 {
  import opened Wrappers
  import opened WikiGraph
  import opened Dijkstra
  import opened GraphSearch
  import opened CoreSplit
  import opened Finder001
  import opened Decimation

  /** The order in which core.keySet() yields the core articles: each once. */
  predicate KeyOrder(order: seq<Id>, keys: set<Id>) {
    && (forall i, j | 0 <= i < j < |order| :: order[i] != order[j])
    && (forall v | v in keys :: v in order)
    && (forall i | 0 <= i < |order| :: order[i] in keys)
  }

  lemma {:induction false} KeyOrderSize(order: seq<Id>, keys: set<Id>)
    requires KeyOrder(order, keys)
    ensures |keys| == |order|
    decreases |order|
  {
    if order != [] {
      var last := order[|order| - 1];
      var init := order[..|order| - 1];
      assert KeyOrder(init, keys - {last}) by {
        forall v ensures v in keys - {last} <==> v in init {
          if v in order && v != last {
            var i :| 0 <= i < |order| && order[i] == v;
            assert i < |order| - 1;
            assert init[i] == v;
          }
        }
      }
      KeyOrderSize(init, keys - {last});
    }
  }

  /** The table the corrected fill leaves: the layout, then unwritten zeros. */
  function Table(order: seq<Id>, priorities: map<Id, real>): (t: seq<Id>)
    requires |Layout(order, priorities)| <= SlotsPerArticle * |order|
    ensures |t| == SlotsPerArticle * |order|
  {
    var L := Layout(order, priorities);
    L + Repeat(0, SlotsPerArticle * |order| - |L|)
  }

  /** The articles the sampling loop would pick from the table. */
  function Drawn(table: seq<Id>, quota: nat, draws: seq<nat>): set<Id>
    requires InRange(draws, quota, |table|)
  {
    set k | 0 <= k < quota :: table[draws[k]]
  }

  class DecimatingFinder {
    /** The inherited static fields of finder 001. */
    const base: Finder
    var decimationRatio: real
    var decimatedVertices: set<Id>

    constructor (base: Finder, decimationRatio: real)
      ensures this.base == base && this.decimationRatio == decimationRatio
      ensures decimatedVertices == {}
    {
      this.base := base;
      this.decimationRatio := decimationRatio;
      decimatedVertices := {};
    }

    /** setDecimatedVertices with the corrected fill; `order` is the
        iteration order of the core keys and `draws` are the values of
        rnd.nextInt(lookupTable.length). */
    method SetDecimatedVertices(order: seq<Id>, draws: seq<nat>) returns (r: Result<(), Fault>)
      requires KeyOrder(order, base.core.Keys)
      requires InRange(draws, Quota(decimationRatio, |order|), SlotsPerArticle * |order|)
      modifies this
      ensures decimationRatio == old(decimationRatio)
      ensures r.Failure? ==> r.error == IndexOutOfBounds
      ensures var L := Layout(order, base.priorities);
              r.Failure? ==> |L| > SlotsPerArticle * |order|
      ensures (forall v | v in base.core :: 0.0 <= Priority(base.priorities, v)) ==> r.Success?
      ensures r.Success? ==> |decimatedVertices| <= Quota(decimationRatio, |base.core|)
      ensures r.Success? ==> decimatedVertices <= base.core.Keys + {0}
      ensures var L := Layout(order, base.priorities);
              |L| <= SlotsPerArticle * |order| ==>
                decimatedVertices == Drawn(Table(order, base.priorities), Quota(decimationRatio, |order|), draws)
    {
      KeyOrderSize(order, base.core.Keys);
      if forall v | v in base.core :: 0.0 <= Priority(base.priorities, v) {
        LayoutLength(order, base.priorities);
      }
      var lookupTable := Fill(order, base.priorities);
      if lookupTable.Failure? {
        return Failure(lookupTable.error);
      }
      var L := Layout(order, base.priorities);
      var table := lookupTable.value;
      var quota := Quota(decimationRatio, |order|);
      decimatedVertices := Sample(table, quota, draws);
      if |L| <= SlotsPerArticle * |order| {
        assert table == Table(order, base.priorities);
      }
      forall v | v in decimatedVertices ensures v in base.core.Keys + {0} {
        var k :| 0 <= k < quota && table[draws[k]] == v;
        assert table[draws[k]] == 0 || table[draws[k]] in order;
      }
      return Success(());
    }

    /** The anonymous engine of find: as in finder 001, except that `has`
        admits the core articles that are not decimated, and the goal. */
    function Caps002(g: Graph, startId: Id, endId: Id): Caps
      reads this
    {
      var core := base.core;
      var decimated := decimatedVertices;
      Caps001(base, g, startId, {}).(has := (id: Vertex) => (id in core && id !in decimated) || id == endId)
    }

    /** find(start, goal); the decimated set is only read. */
    method Find(g: Graph, start: Label, goal: Label) returns (r: Result<seq<Label>, Fault>)
      requires g.Valid() && Fits(g, base.core)
      ensures !g.Has(start) || !g.Has(goal) ==> r == Success([])
      ensures g.Has(start) && g.Has(goal) && g.Edge(g.Lookup(start), g.Lookup(goal)) ==> r == Success([start, goal])
      ensures r.Failure? <==> && g.Has(start) && g.Has(goal) && g.Outgoing(g.Lookup(start)).None?
                              && g.Lookup(start) !in CorePreds(base.core.Keys, g, g.Lookup(goal))
      ensures r.Failure? ==> r.error == NullPointer
      ensures r.Success? && r.value != [] ==> |r.value| >= 2 && Connects(g, r.value, start, goal)
      ensures r.Success? && r.value != [] ==>
                forall i | 0 < i < |r.value| - 2 ::
                  r.value[i] in g.invArticleIds &&
                  (r.value[i] == goal || (g.Lookup(r.value[i]) in base.core && g.Lookup(r.value[i]) !in decimatedVertices))
    {
      if !g.Has(start) || !g.Has(goal) {
        return Success([]);
      }
      var startId := g.Lookup(start);
      var endId := g.Lookup(goal);
      var outs := g.Outgoing(startId);
      if outs.Some? && endId in outs.value {
        return Success([start, goal]);
      }
      var c := Caps002(g, startId, endId);
      CapsFacts(base, g, startId, {});
      var engineGoals := GoToCore(base.core.Keys, g, endId);
      var pathA := Explore(c, startId, engineGoals.value, g.articleIds.Keys);
      if pathA.Failure? {
        return Failure(pathA.error);
      }
      if pathA.value == [] {
        return Success([]);
      }
      var pathB, pathC := CompleteToGoal(g, c, pathA.value, start, goal);
      forall i | 0 < i < |pathC| - 2
        ensures (pathC[i] == goal || (g.Lookup(pathC[i]) in base.core && g.Lookup(pathC[i]) !in decimatedVertices))
      {
        assert i < |pathA.value| - 1 && pathB[i] == pathA.value[i];
        assert Eligible(c, pathA.value[i]);
        if pathB[i] == endId {
          assert g.articleIds[g.Lookup(pathC[i])] == pathC[i];
        }
      }
      return Success(pathC);
    }
  }

  /** new DijkstraWikipediaPathFinder002(decimationRatio): the constructor
      propagates the exception of setDecimatedVertices. */
  method New(base: Finder, decimationRatio: real, order: seq<Id>, draws: seq<nat>)
    returns (r: Result<DecimatingFinder, Fault>)
    requires KeyOrder(order, base.core.Keys)
    requires InRange(draws, Quota(decimationRatio, |order|), SlotsPerArticle * |order|)
    ensures (forall v | v in base.core :: 0.0 <= Priority(base.priorities, v)) ==> r.Success?
    ensures r.Success? ==> fresh(r.value) && r.value.base == base && r.value.decimationRatio == decimationRatio
    ensures r.Success? ==> |r.value.decimatedVertices| <= Quota(decimationRatio, |base.core|)
    ensures r.Success? ==> r.value.decimatedVertices <= base.core.Keys + {0}
  {
    var f := new DecimatingFinder(base, decimationRatio);
    var filled := f.SetDecimatedVertices(order, draws);
    if filled.Failure? {
      return Failure(filled.error);
    }
    return Success(f);
  }
}
