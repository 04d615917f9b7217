/**
 * What the finders share: the engine instantiated on the raw cache graph,
 * label paths, and the loop that turns an id path into labels.
 */
module GraphSearch {
  import opened Wrappers
  import opened WikiGraph
  import opened Dijkstra

  /** The engine's four methods over the whole cache: unit cost,
      nextHop = outgoing(int), has = has(int), and the given tie rule. */
  function GraphCaps(g: Graph, prefer: (Vertex, Vertex, nat) -> bool): Caps {
    Caps((u: Vertex, v: Vertex) => 1, (v: Vertex) => g.Outgoing(v), (v: Vertex) => g.HasId(v), prefer)
  }

  lemma GraphCapsFacts(g: Graph, prefer: (Vertex, Vertex, nat) -> bool)
    requires g.Valid()
    ensures Closed(GraphCaps(g, prefer), g.articleIds.Keys) && UnitCost(GraphCaps(g, prefer))
    ensures forall u, v :: Edge(GraphCaps(g, prefer), u, v) <==> g.Edge(u, v)
  {
    var c := GraphCaps(g, prefer);
    forall v | c.nextHop(v).Some? ensures c.nextHop(v).value <= g.articleIds.Keys {
      assert c.nextHop(v) == g.Outgoing(v);
    }
  }

  /** Every label is registered and consecutive labels are linked. */
  predicate Linked(g: Graph, p: seq<Label>) {
    && (forall i | 0 <= i < |p| :: g.Has(p[i]))
    && (forall i | 0 <= i < |p| - 1 :: g.Edge(g.Lookup(p[i]), g.Lookup(p[i + 1])))
  }

  /** A label path from `start` to `goal` through the cache graph. */
  predicate Connects(g: Graph, p: seq<Label>, start: Label, goal: Label) {
    |p| >= 1 && p[0] == start && p[|p| - 1] == goal && Linked(g, p)
  }

  /** The id sequence a label path stands for. */
  function IdsOf(g: Graph, p: seq<Label>): (q: seq<Id>)
    requires forall i | 0 <= i < |p| :: g.Has(p[i])
    ensures |q| == |p| && forall i | 0 <= i < |p| :: q[i] == g.Lookup(p[i])
  {
    seq(|p|, i requires 0 <= i < |p| => g.Lookup(p[i]))
  }

  /** The label array of an id path: pathB[i] = lookup(pathA[i]). */
  method ToLabels(g: Graph, ids: seq<Id>) returns (out: seq<Label>)
    requires g.Valid() && forall i | 0 <= i < |ids| :: g.HasId(ids[i])
    ensures |out| == |ids|
    ensures forall i | 0 <= i < |ids| :: g.Has(out[i]) && g.Lookup(out[i]) == ids[i]
  {
    out := [];
    var i := 0;
    while i < |ids|
      invariant 0 <= i <= |ids| && |out| == i
      invariant forall k | 0 <= k < i :: g.Has(out[k]) && g.Lookup(out[k]) == ids[k]
    {
      var name := g.Name(ids[i]);
      out := out + [name.value];
      i := i + 1;
    }
  }

  /** A label path over the cache graph is a route the engine can walk:
      every vertex with an outgoing edge has known adjacency. */
  lemma {:induction false} ConnectsIsRoute(g: Graph, prefer: (Vertex, Vertex, nat) -> bool,
                                           p: seq<Label>, start: Label, goal: Label)
    requires g.Valid() && Connects(g, p, start, goal)
    ensures Route(GraphCaps(g, prefer), IdsOf(g, p), g.Lookup(start))
    ensures IdsOf(g, p)[|p| - 1] == g.Lookup(goal)
  {
    var c := GraphCaps(g, prefer);
    var q := IdsOf(g, p);
    GraphCapsFacts(g, prefer);
    forall i | 0 <= i < |q| - 1 ensures Edge(c, q[i], q[i + 1]) {
      assert g.Edge(g.Lookup(p[i]), g.Lookup(p[i + 1]));
    }
    forall i | 0 < i < |q| - 1 ensures Eligible(c, q[i]) {
      assert g.Edge(g.Lookup(p[i]), g.Lookup(p[i + 1]));
    }
  }

  /** Consecutive ids are edges of the cache graph. */
  ghost predicate IdsLinked(g: Graph, ids: seq<Id>) {
    forall i | 0 <= i < |ids| - 1 :: g.Edge(ids[i], ids[i + 1])
  }

  /** Labels that name linked ids form a linked label path. */
  lemma LabelsLinked(g: Graph, ids: seq<Id>, out: seq<Label>)
    requires IdsLinked(g, ids)
    requires |out| == |ids| && forall i | 0 <= i < |ids| :: g.Has(out[i]) && g.Lookup(out[i]) == ids[i]
    ensures Linked(g, out)
  {
    forall i | 0 <= i < |out| - 1 ensures g.Edge(g.Lookup(out[i]), g.Lookup(out[i + 1])) {
      assert g.Edge(ids[i], ids[i + 1]);
    }
  }

  /** The labels of an engine route over the cache graph are linked. */
  lemma RouteIsLinked(g: Graph, prefer: (Vertex, Vertex, nat) -> bool, ids: seq<Id>, out: seq<Label>)
    requires g.Valid() && |ids| >= 1 && Route(GraphCaps(g, prefer), ids, ids[0])
    requires |out| == |ids| && forall i | 0 <= i < |ids| :: g.Has(out[i]) && g.Lookup(out[i]) == ids[i]
    ensures Linked(g, out)
  {
    GraphCapsFacts(g, prefer);
    forall i | 0 <= i < |ids| - 1 ensures g.Edge(ids[i], ids[i + 1]) {
      assert Edge(GraphCaps(g, prefer), ids[i], ids[i + 1]);
    }
    LabelsLinked(g, ids, out);
  }

  /** The copy of an engine path into an array one longer, with `last` in
      the final slot. */
  method Append(path: seq<Id>, last: Id) returns (r: seq<Id>)
    ensures r == path + [last]
  {
    var a := new Id[|path| + 1];
    var i := 0;
    while i < |path|
      invariant 0 <= i <= |path|
      invariant a[..i] == path[..i]
    {
      a[i] := path[i];
      i := i + 1;
    }
    a[|path|] := last;
    assert a[..|path|] == path;
    r := a[..];
  }

  /** The tail shared by the core-based finders: `endId` is appended when
      the engine path stops at an article linking to the goal, then the
      ids are translated back to titles. */
  method CompleteToGoal(g: Graph, c: Caps, path: seq<Id>, start: Label, end: Label)
    returns (ids: seq<Id>, out: seq<Label>)
    requires g.Valid() && g.Has(start) && g.Has(end)
    requires forall u, v :: Edge(c, u, v) ==> g.Edge(u, v)
    requires |path| >= 2 && Route(c, path, g.Lookup(start))
    requires path[|path| - 1] == g.Lookup(end) || g.Edge(path[|path| - 1], g.Lookup(end))
    ensures ids == if path[|path| - 1] == g.Lookup(end) then path else path + [g.Lookup(end)]
    ensures |out| == |ids| && forall i | 0 <= i < |ids| :: g.Has(out[i]) && g.Lookup(out[i]) == ids[i]
    ensures |out| >= 2 && Connects(g, out, start, end)
  {
    var endId := g.Lookup(end);
    ids := path;
    assert IdsLinked(g, ids) by {
      forall i | 0 <= i < |ids| - 1 ensures g.Edge(ids[i], ids[i + 1]) {
        assert Edge(c, ids[i], ids[i + 1]);
      }
    }
    if ids[|ids| - 1] != endId {
      ids := Append(path, endId);
      assert IdsLinked(g, ids) by {
        forall i | 0 <= i < |ids| - 1 ensures g.Edge(ids[i], ids[i + 1]) {
          if i < |path| - 1 {
            assert ids[i] == path[i] && ids[i + 1] == path[i + 1];
            assert Edge(c, path[i], path[i + 1]);
          }
        }
      }
    }
    forall i | 0 <= i < |ids| ensures g.HasId(ids[i]) {
      if i < |ids| - 1 {
        assert g.Edge(ids[i], ids[i + 1]);
      } else {
        assert g.Edge(ids[i - 1], ids[i]);
      }
    }
    out := ToLabels(g, ids);
    LabelsLinked(g, ids, out);
    assert g.Lookup(out[0]) == g.Lookup(start);
    assert g.Lookup(out[|out| - 1]) == endId;
  }
}
