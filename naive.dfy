/**
 * NaiveWikipediaPathFinder: a depth-first search over simple paths of at
 * most six articles, on one shared list that every recursive call extends
 * and shrinks again, stopping at the first path that reaches the goal.
 * The adjacency of each article on the path is read with outgoing(String);
 * its online fetch is not modelled, so the model reads a fixed cache graph
 * and an article of unknown adjacency is one whose fetch brought no links:
 * iterating over the resulting null throws.
 */
module Naive {
  import opened Wrappers
  import opened WikiGraph
  import opened GraphSearch

  /** maxPath: the longest list the search extends. */
  const MaxPath: nat := 6

  predicate Distinct(p: seq<Label>) {
    forall i, j | 0 <= i < j < |p| :: p[i] != p[j]
  }

  /** A list the search may stand on: from the start, without repeats, and
      along links once it holds more than the start. */
  ghost predicate Trail(g: Graph, p: seq<Label>, start: Label) {
    |p| >= 1 && p[0] == start && Distinct(p) && (|p| == 1 || Linked(g, p))
  }

  /** A path the search accepts as winning. */
  ghost predicate Wins(g: Graph, p: seq<Label>, start: Label, end: Label) {
    |p| <= MaxPath && Distinct(p) && Connects(g, p, start, end)
  }

  /** outgoing(article) gives null: unregistered, or never expanded. */
  predicate Unexpandable(g: Graph, article: Label) {
    !g.Has(article) || g.Outgoing(g.Lookup(article)).None?
  }

  /** The list the search works on once `path.add(start)` has run. */
  function Root(items: seq<Label>, start: Label): (p: seq<Label>)
    ensures items != [] ==> p == items
    ensures items == [] ==> p == [start]
  {
    if items == [] then [start] else items
  }

  /** A winning path through the list continues it with one of the
      outgoing links of its last article, which is not on the list yet. */
  lemma WinStep(g: Graph, p: seq<Label>, w: seq<Label>, start: Label, end: Label)
    requires g.Valid() && |p| >= 1 && p <= w && |w| > |p| && Distinct(w) && Connects(g, w, start, end)
    ensures g.Has(p[|p| - 1]) && g.Has(w[|p|])
    ensures g.Edge(g.Lookup(p[|p| - 1]), g.Lookup(w[|p|]))
    ensures w[|p|] !in p && p + [w[|p|]] <= w
  {
    assert w[|p| - 1] == p[|p| - 1];
    assert g.Edge(g.Lookup(w[|p| - 1]), g.Lookup(w[|p|]));
    assert w[..|p|] == p;
    assert w[..|p| + 1] == p + [w[|p|]];
  }

  /** The search has ruled out every winning path through the list whose
      next article is outside `todo`. */
  ghost predicate Covered(g: Graph, p: seq<Label>, start: Label, end: Label, todo: set<Id>) {
    forall w | p <= w && Wins(g, w, start, end) :: |w| > |p| && g.Lookup(w[|p|]) in todo
  }

  /** After one link is done (skipped as already on the list, or searched
      without a win), it is covered too. */
  lemma {:induction false} CoverStep(g: Graph, p: seq<Label>, start: Label, end: Label, todo: set<Id>, toId: Id, toArticle: Label)
    requires g.Valid() && |p| >= 1 && Covered(g, p, start, end, todo)
    requires g.Has(toArticle) && g.Lookup(toArticle) == toId
    requires toArticle in p || forall w | p + [toArticle] <= w :: !Wins(g, w, start, end)
    ensures Covered(g, p, start, end, todo - {toId})
  {
    forall w | p <= w && Wins(g, w, start, end) ensures g.Lookup(w[|p|]) in todo - {toId} {
      WinStep(g, p, w, start, end);
    }
  }

  /** Extending a trail by an unvisited outgoing link keeps it a trail. */
  lemma TrailStep(g: Graph, p: seq<Label>, start: Label, next: Label)
    requires g.Valid() && Trail(g, p, start) && g.Has(p[|p| - 1]) && g.Has(next) && next !in p
    requires g.Edge(g.Lookup(p[|p| - 1]), g.Lookup(next))
    ensures Trail(g, p + [next], start)
  {
    var q := p + [next];
    forall i | 0 <= i < |q| ensures g.Has(q[i]) {
      if i < |p| && |p| > 1 {
        assert g.Has(p[i]);
      }
    }
    forall i | 0 <= i < |q| - 1 ensures g.Edge(g.Lookup(q[i]), g.Lookup(q[i + 1])) {
      if i < |p| - 1 {
        assert q[i] == p[i] && q[i + 1] == p[i + 1];
      }
    }
    forall i, j | 0 <= i < j < |q| ensures q[i] != q[j] {
      if j == |p| {
        assert q[i] == p[i];
      }
    }
  }

  /** The shared `path` list, an ArrayList<String> passed to every call. */
  class PathList {
    var items: seq<Label>

    constructor ()
      ensures items == []
    {
      items := [];
    }
  }

  class NaiveFinder {
    var winningPath: Option<seq<Label>>

    constructor ()
      ensures winningPath == None
    {
      winningPath := None;
    }

    /** The recorded win, when there is one, is a winning path. */
    ghost predicate WinOk(g: Graph, start: Label, end: Label)
      reads this
    {
      winningPath.Some? ==> Wins(g, winningPath.value, start, end)
    }

    /** find(start, end): reset, search from an empty list, return the win. */
    method Find(g: Graph, start: Label, end: Label) returns (r: Result<Option<seq<Label>>, Fault>)
      requires g.Valid()
      modifies this
      ensures r.Failure? ==> r.error == NullPointer
      ensures r.Failure? ==> exists w | |w| <= MaxPath && Trail(g, w, start) :: Unexpandable(g, w[|w| - 1])
      ensures r.Success? ==> r.value == winningPath
      ensures r.Success? && r.value.Some? ==> Wins(g, r.value.value, start, end)
      ensures r.Success? && r.value.None? ==> forall w :: !Wins(g, w, start, end)
      ensures r.Success? && start == end ==> r.value == Some([start])
    {
      winningPath := None;
      var path := new PathList();
      var searched := Search(g, start, end, path);
      if searched.Failure? {
        return Failure(searched.error);
      }
      return Success(winningPath);
    }

    /** find(start, end, path).  On a normal return the list is as it was
        (after the initial `path.add(start)`); an exception leaves it
        extended. */
    method Search(g: Graph, start: Label, end: Label, path: PathList) returns (r: Result<(), Fault>)
      requires g.Valid() && Trail(g, Root(path.items, start), start) && WinOk(g, start, end)
      modifies this, path
      decreases MaxPath + 2 - |path.items|, 3
      ensures r.Failure? ==> r.error == NullPointer
      ensures r.Success? ==> path.items == Root(old(path.items), start) && WinOk(g, start, end)
      ensures old(winningPath).Some? ==> r.Success? && winningPath == old(winningPath)
      ensures var p := Root(old(path.items), start);
              old(winningPath).None? && winningPath.Some? ==> p <= winningPath.value
      ensures var p := Root(old(path.items), start);
              old(winningPath).None? && |p| <= MaxPath && p[|p| - 1] == end ==> winningPath == Some(p)
      ensures var p := Root(old(path.items), start);
              r.Success? && winningPath.None? ==> forall w | p <= w :: !Wins(g, w, start, end)
      ensures var p := Root(old(path.items), start);
              r.Failure? ==> exists w | p <= w && |w| <= MaxPath && Trail(g, w, start) :: Unexpandable(g, w[|w| - 1])
    {
      if path.items == [] {
        path.items := [start];
      }
      var p := path.items;
      if |p| > MaxPath {
        return Success(());
      }
      if winningPath.Some? {
        return Success(());
      }
      var last := p[|p| - 1];
      if last == end {
        winningPath := Some(p);
      }
      if !g.Has(last) {
        assert Unexpandable(g, p[|p| - 1]);
        return Failure(NullPointer);
      }
      var outs := g.Outgoing(g.Lookup(last));
      if outs.None? {
        assert Unexpandable(g, p[|p| - 1]);
        return Failure(NullPointer);
      }
      if last == end {
        assert Connects(g, p, start, end);
      }
      if winningPath.None? {
        forall w | p <= w && Wins(g, w, start, end) ensures |w| > |p| && g.Lookup(w[|p|]) in outs.value {
          WinStep(g, p, w, start, end);
        }
      }
      r := SearchLinks(g, start, end, path, outs.value);
    }

    /** The loop of find(start, end, path) over the links of the last
        article: add, recurse, remove, for each link not on the list yet. */
    method SearchLinks(g: Graph, start: Label, end: Label, path: PathList, outs: set<Id>) returns (r: Result<(), Fault>)
      requires g.Valid() && Trail(g, path.items, start) && WinOk(g, start, end) && |path.items| <= MaxPath
      requires g.Has(path.items[|path.items| - 1]) && g.Outgoing(g.Lookup(path.items[|path.items| - 1])) == Some(outs)
      requires winningPath.Some? ==> path.items <= winningPath.value
      requires winningPath.None? ==> Covered(g, path.items, start, end, outs)
      modifies this, path
      decreases MaxPath + 2 - |path.items|, 2
      ensures r.Failure? ==> r.error == NullPointer
      ensures r.Success? ==> path.items == old(path.items) && WinOk(g, start, end)
      ensures old(winningPath).Some? ==> winningPath == old(winningPath)
      ensures winningPath.Some? ==> old(path.items) <= winningPath.value
      ensures r.Success? && winningPath.None? ==> forall w | old(path.items) <= w :: !Wins(g, w, start, end)
      ensures var p := old(path.items);
              r.Failure? ==> exists w | p <= w && |w| <= MaxPath && Trail(g, w, start) :: Unexpandable(g, w[|w| - 1])
    {
      var p := path.items;
      var todo := outs;
      while todo != {}
        invariant todo <= outs && path.items == p
        invariant WinOk(g, start, end)
        invariant old(winningPath).Some? ==> winningPath == old(winningPath)
        invariant winningPath.Some? ==> p <= winningPath.value
        invariant winningPath.None? ==> Covered(g, p, start, end, todo)
        decreases |todo|
      {
        var toId :| toId in todo;
        var searched := SearchLink(g, start, end, path, todo, toId);
        if searched.Failure? {
          return searched;
        }
        todo := todo - {toId};
      }
      if winningPath.None? {
        forall w | p <= w && Wins(g, w, start, end) ensures false {
          WinStep(g, p, w, start, end);
        }
      }
      return Success(());
    }

    /** The body of that loop for one link `toId` still to do. */
    method SearchLink(g: Graph, start: Label, end: Label, path: PathList, todo: set<Id>, toId: Id) returns (r: Result<(), Fault>)
      requires g.Valid() && Trail(g, path.items, start) && WinOk(g, start, end) && |path.items| <= MaxPath
      requires g.Has(path.items[|path.items| - 1]) && toId in todo && g.HasId(toId)
      requires g.Edge(g.Lookup(path.items[|path.items| - 1]), toId)
      requires winningPath.Some? ==> path.items <= winningPath.value
      requires winningPath.None? ==> Covered(g, path.items, start, end, todo)
      modifies this, path
      decreases MaxPath + 2 - |path.items|, 1
      ensures r.Failure? ==> r.error == NullPointer
      ensures r.Success? ==> path.items == old(path.items) && WinOk(g, start, end)
      ensures old(winningPath).Some? ==> winningPath == old(winningPath)
      ensures winningPath.Some? ==> old(path.items) <= winningPath.value
      ensures r.Success? && winningPath.None? ==> Covered(g, old(path.items), start, end, todo - {toId})
      ensures var p := old(path.items);
              r.Failure? ==> exists w | p <= w && |w| <= MaxPath && Trail(g, w, start) :: Unexpandable(g, w[|w| - 1])
    {
      var p := path.items;
      var toArticle := g.Name(toId).value;
      if toArticle !in path.items {
        TrailStep(g, p, start, toArticle);
        r := Branch(g, start, end, path, toArticle);
        if r.Failure? {
          return r;
        }
      }
      if winningPath.None? {
        CoverStep(g, p, start, end, todo, toId, toArticle);
      }
      return Success(());
    }

    /** One iteration of that loop: `path.add(toArticle)`, the recursive
        call, then `path.remove(path.size() - 1)` unless it threw. */
    method Branch(g: Graph, start: Label, end: Label, path: PathList, toArticle: Label) returns (r: Result<(), Fault>)
      requires g.Valid() && |path.items| <= MaxPath && Trail(g, path.items + [toArticle], start) && WinOk(g, start, end)
      modifies this, path
      decreases MaxPath + 2 - |path.items|, 0
      ensures r.Failure? ==> r.error == NullPointer
      ensures r.Success? ==> path.items == old(path.items) && WinOk(g, start, end)
      ensures old(winningPath).Some? ==> winningPath == old(winningPath)
      ensures var q := old(path.items) + [toArticle];
              old(winningPath).None? && winningPath.Some? ==> q <= winningPath.value
      ensures var q := old(path.items) + [toArticle];
              r.Success? && winningPath.None? ==> forall w | q <= w :: !Wins(g, w, start, end)
      ensures var q := old(path.items) + [toArticle];
              r.Failure? ==> exists w | q <= w && |w| <= MaxPath && Trail(g, w, start) :: Unexpandable(g, w[|w| - 1])
    {
      var p := path.items;
      path.items := path.items + [toArticle];
      r := Search(g, start, end, path);
      if r.Success? {
        path.items := path.items[..|path.items| - 1];
        assert path.items == p;
      }
    }
  }
}
