/**
 * The core/frontier split of the cache graph: the core holds the articles
 * whose adjacency is known, the frontier those whose adjacency is not.
 * goToCore maps a goal to the core articles that lead into it.
 */
module CoreSplit {
  import opened Wrappers
  import opened WikiGraph

  /** buildFrontier: every registered article of unknown adjacency. */
  method BuildFrontier(g: Graph) returns (frontier: set<Id>)
    requires g.Valid()
    ensures forall v :: v in frontier <==> g.HasId(v) && g.Outgoing(v).None?
  {
    frontier := {};
    var todo := g.Articles();
    while todo != {}
      invariant todo <= g.invArticleIds.Keys
      invariant forall v :: v in frontier <==> v in g.articleIds && g.articleIds[v] !in todo && g.Outgoing(v).None?
      decreases |todo|
    {
      var article :| article in todo;
      var articleId := g.Lookup(article);
      if g.Outgoing(articleId).None? {
        frontier := frontier + {articleId};
      }
      todo := todo - {article};
    }
  }

  /** buildCore of the advanced finder: every registered article of known adjacency. */
  method BuildCoreSet(g: Graph) returns (core: set<Id>)
    requires g.Valid()
    ensures forall v :: v in core <==> g.HasId(v) && g.Outgoing(v).Some?
  {
    core := {};
    var todo := g.Articles();
    while todo != {}
      invariant todo <= g.invArticleIds.Keys
      invariant forall v :: v in core <==> v in g.articleIds && g.articleIds[v] !in todo && g.Outgoing(v).Some?
      decreases |todo|
    {
      var article :| article in todo;
      var articleId := g.Lookup(article);
      if g.Outgoing(articleId).Some? {
        core := core + {articleId};
      }
      todo := todo - {article};
    }
  }

  /** The two sets partition the registered ids. */
  lemma Partition(g: Graph, core: set<Id>, frontier: set<Id>)
    requires forall v :: v in core <==> g.HasId(v) && g.Outgoing(v).Some?
    requires forall v :: v in frontier <==> g.HasId(v) && g.Outgoing(v).None?
    ensures core !! frontier && core + frontier == g.articleIds.Keys
  {
    assert core + frontier == g.articleIds.Keys by {
      forall v | v in g.articleIds ensures v in core + frontier {
        if g.Outgoing(v).Some? {
          assert v in core;
        } else {
          assert v in frontier;
        }
      }
    }
  }

  /** The adjacency map of the core: each known adjacency cut down to the core. */
  ghost predicate CoreMap(g: Graph, core: map<Id, set<Id>>) {
    && (forall v :: v in core <==> v in g.cache)
    && (forall v | v in core :: core[v] == g.cache[v] * core.Keys)
  }

  /** The inner loop of buildCore: the next hops that are core keys. */
  method Restrict(outs: set<Id>, keys: set<Id>) returns (nextHops: set<Id>)
    ensures forall v :: v in nextHops <==> v in outs && v in keys
  {
    nextHops := {};
    var todo := outs;
    while todo != {}
      invariant todo <= outs
      invariant forall v :: v in nextHops <==> v in outs - todo && v in keys
      decreases |todo|
    {
      var nextHopId :| nextHopId in todo;
      if nextHopId in keys {
        nextHops := nextHops + {nextHopId};
      }
      todo := todo - {nextHopId};
    }
  }

  /** The first pass of buildCore (finders 001 and 002): every article of
      known adjacency keyed to an empty set. */
  method KeyKnown(g: Graph) returns (tmp: map<Id, set<Id>>)
    requires g.Valid()
    ensures forall v :: v in tmp <==> v in g.cache
    ensures forall v | v in tmp :: tmp[v] == {}
  {
    tmp := map[];
    var todo := g.Articles();
    while todo != {}
      invariant todo <= g.invArticleIds.Keys
      invariant forall v :: v in tmp <==> v in g.articleIds && g.articleIds[v] !in todo && v in g.cache
      invariant forall v | v in tmp :: tmp[v] == {}
      decreases |todo|
    {
      var article :| article in todo;
      var articleId := g.Lookup(article);
      if g.Outgoing(articleId).Some? {
        tmp := tmp[articleId := {}];
      }
      todo := todo - {article};
    }
  }

  /** buildCore of finders 001 and 002: after the first pass, the second
      replaces each value by the next hops that are core keys. */
  method BuildCoreMap(g: Graph) returns (core: map<Id, set<Id>>)
    requires g.Valid()
    ensures CoreMap(g, core)
  {
    var tmp := KeyKnown(g);
    var keys := tmp.Keys;
    var rest := keys;
    while rest != {}
      invariant rest <= keys && tmp.Keys == keys
      invariant forall v | v in keys - rest :: tmp[v] == g.cache[v] * keys
      decreases |rest|
    {
      var articleId :| articleId in rest;
      var nextHops := Restrict(g.cache[articleId], keys);
      tmp := tmp[articleId := nextHops];
      rest := rest - {articleId};
    }
    core := tmp;
  }

  /** What goToCore promises: the goal itself when it is a core article,
      otherwise every core article with an edge to it. */
  function CorePreds(core: set<Id>, g: Graph, articleId: Id): set<Id> {
    if articleId in core then {articleId}
    else set v | v in core && g.Edge(v, articleId)
  }

  /** Each article goToCore returns is the goal or links to it, in the
      graph it was computed on and in every larger one. */
  lemma CorePredsLead(core: set<Id>, g: Graph, r: Graph, articleId: Id, v: Id)
    requires Grows(g, r) && v in CorePreds(core, g, articleId)
    ensures v == articleId || r.Edge(v, articleId)
  {
    if v != articleId {
      assert g.Edge(v, articleId);
    }
  }

  /** goToCore(articleId).  The loop calls outgoing(cId).contains on every
      core article, which throws on one of unknown adjacency. */
  method GoToCore(core: set<Id>, g: Graph, articleId: Id) returns (r: Result<set<Id>, Fault>)
    ensures r.Failure? <==> articleId !in core && !(core <= g.cache.Keys)
    ensures r.Failure? ==> r.error == NullPointer
    ensures r.Success? ==> r.value == CorePreds(core, g, articleId)
  {
    if articleId in core {
      return Success({articleId});
    }
    var prevInCore: set<Id> := {};
    var todo := core;
    while todo != {}
      invariant todo <= core && core - todo <= g.cache.Keys
      invariant forall v :: v in prevInCore <==> v in core - todo && g.Edge(v, articleId)
      decreases |todo|
    {
      var cId :| cId in todo;
      var outs := g.Outgoing(cId);
      if outs.None? {
        return Failure(NullPointer);
      }
      if articleId in outs.value {
        prevInCore := prevInCore + {cId};
      }
      todo := todo - {cId};
    }
    return Success(prevInCore);
  }

  /** priority(id): the stored centrality score, or 0.75 when none is stored. */
  function Priority(priorities: map<Id, real>, id: Id): real {
    if id in priorities then priorities[id] else 0.75
  }
}
