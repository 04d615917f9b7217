/**
 * The mutable graph store.  Its three maps and the change counter are the
 * fields the Java object updates in place; `Snapshot()` is the value the
 * path finders read.
 */
module Wikipedia {
  import opened Wrappers
  import opened WikiGraph
  import CacheFormat

  class WikipediaCache {
    var articleIds: map<Id, Label>
    var invArticleIds: map<Label, Id>
    var cache: map<Id, set<Id>>
    var nofChanges: nat

    function Snapshot(): Graph
      reads this
    {
      Graph(articleIds, invArticleIds, cache)
    }

    ghost predicate Valid()
      reads this
    {
      Snapshot().Valid()
    }

    /** The private constructor runs load(): no file leaves the maps empty,
        a file is parsed into them.  `Open` below covers a malformed file.
        The loaded cache is valid when there is no file or the file is one
        that _store wrote; load itself checks nothing beyond the syntax. */
    constructor (file: Option<string>)
      requires file.Some? ==> CacheFormat.Decode(file.value).Success?
      ensures file.None? ==> Snapshot() == EmptyGraph() && Valid()
      ensures file.Some? ==> Snapshot() == CacheFormat.Decode(file.value).value
      ensures forall g: Graph | g.Valid() && CacheFormat.Storable(g) && file == Some(CacheFormat.Encode(g)) ::
                Snapshot() == g && Valid()
      ensures nofChanges == 0
    {
      var g := if file.None? then EmptyGraph() else CacheFormat.Decode(file.value).value;
      articleIds, invArticleIds, cache := g.articleIds, g.invArticleIds, g.cache;
      nofChanges := 0;
      new;
      forall h: Graph | h.Valid() && CacheFormat.Storable(h) && file == Some(CacheFormat.Encode(h))
        ensures Snapshot() == h && Valid()
      {
        CacheFormat.StoreThenLoad(h);
      }
    }

    /** createOrLookup: the existing id of a registered label, otherwise the
        next dense id, recorded in both maps. */
    method CreateOrLookup(article: Label) returns (id: Id)
      requires Valid()
      modifies this
      ensures Snapshot() == Register(old(Snapshot()), article)
      ensures Valid() && id == Snapshot().Lookup(article)
      ensures old(Snapshot().Has(article)) ==> id == old(Snapshot().Lookup(article))
      ensures !old(Snapshot().Has(article)) ==> id == old(|articleIds|)
      ensures nofChanges == old(nofChanges)
    {
      ghost var g := Snapshot();
      if article in invArticleIds {
        id := invArticleIds[article];
      } else {
        var n := |articleIds|;
        invArticleIds := invArticleIds[article := n];
        articleIds := articleIds[n := article];
        id := n;
      }
      assert Snapshot() == Register(g, article);
    }

    /** addLink: registers both labels and puts the target into the source's
        adjacency, creating it when unknown.  Nothing else changes; the
        periodic store() is left out. */
    method AddLink(from: Label, to: Label)
      requires Valid()
      modifies this
      ensures Valid()
      ensures Snapshot() == AddLinkValue(old(Snapshot()), from, to)
      ensures nofChanges == old(nofChanges) + 1
    {
      var fromId := CreateOrLookup(from);
      var toId := CreateOrLookup(to);
      LookupAfterRegister(old(Snapshot()), from, to);
      // a fresh empty set when the adjacency is unknown, then the add
      cache := WithLink(Snapshot(), fromId, toId).cache;
      nofChanges := nofChanges + 1;
    }

    /** The link loop of onlineLookup over the anchors of the fetched page;
        the fetch itself is the parameter `page`. */
    method OnlineLookup(article: Label, page: seq<Anchor>)
      requires Valid()
      modifies this
      ensures Valid() && Snapshot() == Expand(old(Snapshot()), article, page)
      ensures nofChanges == old(nofChanges) + LinkCount(page)
    {
      ghost var g0 := Snapshot();
      var k := 0;
      while k < |page|
        invariant 0 <= k <= |page|
        invariant Valid() && Snapshot() == Expand(g0, article, page[..k])
        invariant nofChanges == old(nofChanges) + LinkCount(page[..k])
      {
        var a := page[k];
        ghost var before := Snapshot();
        ExpandSnoc(g0, article, page, k);
        if IsArticleLink(a) {
          AddLink(article, LinkTarget(a.href));
        }
        assert Snapshot() == Visit(before, article, a);
        k := k + 1;
      }
      assert page[..k] == page;
    }

    /** outgoing(String): an unregistered or unexpanded article is fetched
        first (the fetched page is the parameter `page`); the id lookup
        afterwards unboxes null when the article is still unregistered. */
    method OutgoingOf(article: Label, page: seq<Anchor>) returns (r: Result<Option<set<Id>>, Fault>)
      requires Valid()
      modifies this
      ensures Valid()
      ensures var g := old(Snapshot());
              Snapshot() == if g.Has(article) && g.Lookup(article) in g.cache then g else Expand(g, article, page)
      ensures r.Failure? <==> !Snapshot().Has(article)
      ensures r.Failure? ==> r.error == NullPointer
      ensures r.Success? ==> r.value == Snapshot().Outgoing(Snapshot().Lookup(article))
    {
      if article !in invArticleIds || invArticleIds[article] !in cache {
        OnlineLookup(article, page);
      }
      if article !in invArticleIds {
        return Failure(NullPointer);
      }
      return Success(Snapshot().Outgoing(invArticleIds[article]));
    }
  }

  /** The singleton's construction: a malformed file is an exception
      escaping the constructor (the parse errors are unchecked, so load()
      does not catch them); otherwise the cache holds the file's graph. */
  method Open(file: Option<string>) returns (r: Result<WikipediaCache, Fault>)
    ensures r.Failure? <==> file.Some? && CacheFormat.Decode(file.value).Failure?
    ensures r.Failure? ==> r.error == CacheFormat.Decode(file.value).error
    ensures r.Success? ==> fresh(r.value) && r.value.nofChanges == 0
    ensures r.Success? && file.None? ==> r.value.Snapshot() == EmptyGraph()
    ensures r.Success? && file.Some? ==> r.value.Snapshot() == CacheFormat.Decode(file.value).value
  {
    if file.Some? && CacheFormat.Decode(file.value).Failure? {
      return Failure(CacheFormat.Decode(file.value).error);
    }
    var c := new WikipediaCache(file);
    return Success(c);
  }
}
