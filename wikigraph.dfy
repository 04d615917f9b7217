/**
 * The link graph as the cache holds it: a bijection between article labels
 * and dense integer ids, and for every expanded article the set of ids it
 * links to.  A vertex whose adjacency is absent from `cache` is unknown
 * (never expanded), which is different from a known, empty adjacency.
 */
module WikiGraph {
  import opened Wrappers

  type Id = nat
  type Label = string

  datatype Graph = Graph(articleIds: map<Id, Label>, invArticleIds: map<Label, Id>, cache: map<Id, set<Id>>)
  {
    /** Ids are exactly 0..N-1, the two maps are mutual inverses and every
        adjacency key and target is a registered id. */
    ghost predicate Valid() {
      DenseIds() && IdsInverse() && LabelsInverse() && CacheRegistered()
    }

    ghost predicate DenseIds() {
      forall i: Id :: i in articleIds <==> i < |articleIds|
    }

    ghost predicate IdsInverse() {
      forall i | i in articleIds :: articleIds[i] in invArticleIds && invArticleIds[articleIds[i]] == i
    }

    ghost predicate LabelsInverse() {
      forall a | a in invArticleIds :: invArticleIds[a] in articleIds && articleIds[invArticleIds[a]] == a
    }

    ghost predicate CacheRegistered() {
      forall v | v in cache :: v in articleIds && cache[v] <= articleIds.Keys
    }

    /** has(String) */
    predicate Has(article: Label) {
      article in invArticleIds
    }

    /** has(int) */
    predicate HasId(articleId: Id) {
      articleId in articleIds
    }

    /** lookup(String); the Java method unboxes null for an unregistered label. */
    function Lookup(article: Label): (id: Id)
      requires Has(article)
      ensures Valid() ==> HasId(id) && articleIds[id] == article
    {
      invArticleIds[article]
    }

    /** lookup(int); None stands for the null of an unregistered id. */
    function Name(articleId: Id): (r: Option<Label>)
      ensures Valid() && r.Some? ==> Has(r.value) && Lookup(r.value) == articleId
      ensures r.None? ==> !HasId(articleId)
    {
      if articleId in articleIds then Some(articleIds[articleId]) else None
    }

    /** outgoing(int); None is the unknown adjacency. */
    function Outgoing(articleId: Id): (r: Option<set<Id>>)
      ensures r.None? <==> articleId !in cache
      ensures Valid() && r.Some? ==> HasId(articleId) && r.value <= articleIds.Keys
    {
      if articleId in cache then Some(cache[articleId]) else None
    }

    /** articles(): the keys of the label map, which under Valid are exactly
        the titles of the registered ids. */
    function Articles(): (r: set<Label>)
      ensures forall a :: a in r <==> Has(a)
      ensures Valid() ==> forall a :: a in r <==> exists i | i in articleIds :: articleIds[i] == a
    {
      invArticleIds.Keys
    }

    /** Number of registered articles; the next fresh id. */
    function Size(): nat {
      |articleIds|
    }

    /** A directed edge between two ids. */
    predicate Edge(u: Id, v: Id) {
      u in cache && v in cache[u]
    }
  }

  /** There are as many articles as registered ids: the label map is a bijection. */
  lemma ArticlesCount(g: Graph)
    requires g.Valid()
    ensures |g.Articles()| == g.Size()
  {
    ImageSize(g, g.articleIds.Keys);
    assert g.Articles() == set i | i in g.articleIds.Keys :: g.articleIds[i];
  }

  /** Distinct ids carry distinct titles, so a set of ids has as many titles. */
  lemma {:induction false} ImageSize(g: Graph, s: set<Id>)
    requires g.Valid() && s <= g.articleIds.Keys
    ensures |set i | i in s :: g.articleIds[i]| == |s|
    decreases |s|
  {
    if s == {} {
      assert (set i | i in s :: g.articleIds[i]) == {};
    } else {
      var x :| x in s;
      var rest := s - {x};
      ImageSize(g, rest);
      var img := set i | i in rest :: g.articleIds[i];
      assert (set i | i in s :: g.articleIds[i]) == img + {g.articleIds[x]};
      forall j | j in rest ensures g.articleIds[j] != g.articleIds[x] {
        assert g.invArticleIds[g.articleIds[j]] == j;
      }
    }
  }

  /** The graph after createOrLookup(article): a registered label is left
      alone, a new one gets the next dense id. */
  function Register(g: Graph, article: Label): (r: Graph)
    requires g.Valid()
    ensures r.Valid() && r.Has(article) && r.cache == g.cache
    ensures g.Has(article) ==> r == g
    ensures !g.Has(article) ==> r.Lookup(article) == g.Size() && r.Size() == g.Size() + 1
    ensures forall i | i in g.articleIds :: i in r.articleIds && r.articleIds[i] == g.articleIds[i]
    ensures forall a | g.Has(a) :: r.Has(a) && r.Lookup(a) == g.Lookup(a)
  {
    if g.Has(article) then g
    else
      var n := |g.articleIds|;
      var r := Graph(g.articleIds[n := article], g.invArticleIds[article := n], g.cache);
      RegisterKeepsValid(g, article);
      r
  }

  lemma RegisterKeepsValid(g: Graph, article: Label)
    requires g.Valid() && !g.Has(article)
    ensures var n := |g.articleIds|;
            Graph(g.articleIds[n := article], g.invArticleIds[article := n], g.cache).Valid()
  {
    var n := |g.articleIds|;
    assert n !in g.articleIds;
    var ids := g.articleIds[n := article];
    var inv := g.invArticleIds[article := n];
    var r := Graph(ids, inv, g.cache);
    assert |ids| == n + 1;
    assert r.DenseIds() by {
      forall i: Id ensures i in ids <==> i < |ids| {
        assert i in g.articleIds <==> i < n;
      }
    }
    assert r.IdsInverse() by {
      forall i | i in ids
        ensures ids[i] in inv && inv[ids[i]] == i
      {
        if i != n {
          assert ids[i] == g.articleIds[i];
          assert g.articleIds[i] in g.invArticleIds;
        }
      }
    }
    assert r.LabelsInverse() by {
      forall a | a in inv
        ensures inv[a] in ids && ids[inv[a]] == a
      {
        if a != article {
          assert inv[a] == g.invArticleIds[a];
          assert g.invArticleIds[a] in g.articleIds;
        }
      }
    }
    assert r.CacheRegistered();
  }

  /** Registering a second label keeps the id of the first. */
  lemma LookupAfterRegister(g: Graph, a: Label, b: Label)
    requires g.Valid()
    ensures var g1 := Register(g, a);
            Register(g1, b).Lookup(a) == g1.Lookup(a)
  {
  }

  /** The graph after the adjacency of `fromId` gained `toId`. */
  function WithLink(g: Graph, fromId: Id, toId: Id): (r: Graph)
    requires g.Valid() && g.HasId(fromId) && g.HasId(toId)
    ensures r.Valid() && r.articleIds == g.articleIds && r.invArticleIds == g.invArticleIds
    ensures r.Outgoing(fromId) == Some((if fromId in g.cache then g.cache[fromId] else {}) + {toId})
    ensures forall v :: v != fromId ==> r.Outgoing(v) == g.Outgoing(v)
  {
    var old_ := if fromId in g.cache then g.cache[fromId] else {};
    Graph(g.articleIds, g.invArticleIds, g.cache[fromId := old_ + {toId}])
  }

  /** The empty cache the constructor starts from. */
  function EmptyGraph(): (g: Graph)
    ensures g.Valid() && g.Size() == 0
  {
    Graph(map[], map[], map[])
  }

  // ----- The href filter of onlineLookup -----

  /** An anchor element of a fetched page: its href attribute and its text. */
  datatype Anchor = Anchor(href: string, text: string)

  const WikiPrefix: string := "/wiki/"

  /** The nine namespace markers that exclude a link. */
  const NamespaceMarkers: seq<string> :=
    ["Category:", "Special:", "Template:", "Portal:", "Talk:", "Help:", "Template_talk:", "File:", "Book:"]

  predicate StartsWith(s: string, prefix: string) {
    |prefix| <= |s| && s[..|prefix|] == prefix
  }

  predicate OccursAt(s: string, sub: string, i: nat)
    requires i + |sub| <= |s|
  {
    s[i..i + |sub|] == sub
  }

  /** String.contains */
  predicate Contains(s: string, sub: string) {
    exists i: nat | i + |sub| <= |s| :: OccursAt(s, sub, i)
  }

  /** The article name of a link: href.substring(6). */
  function LinkTarget(href: string): string
    requires StartsWith(href, WikiPrefix)
  {
    href[|WikiPrefix|..]
  }

  /** Whether onlineLookup adds a link for this anchor. */
  predicate IsArticleLink(a: Anchor) {
    && StartsWith(a.href, WikiPrefix)
    && a.text != ""
    && (forall m | m in NamespaceMarkers :: !Contains(LinkTarget(a.href), m))
  }

  /** A link into one of the excluded namespaces is never added. */
  lemma NamespaceLinkRejected(marker: string, rest: string, text: string)
    requires marker in NamespaceMarkers
    ensures !IsArticleLink(Anchor(WikiPrefix + marker + rest, text))
  {
    var href := WikiPrefix + marker + rest;
    assert StartsWith(href, WikiPrefix);
    assert LinkTarget(href) == marker + rest;
    assert OccursAt(marker + rest, marker, 0);
  }

  /** Every marker ends in a colon, so a colon-free target is never excluded. */
  lemma ColonFreeLinkAccepted(title: string, text: string)
    requires ':' !in title
    requires text != ""
    ensures IsArticleLink(Anchor(WikiPrefix + title, text))
  {
    var href := WikiPrefix + title;
    assert LinkTarget(href) == title;
    forall m | m in NamespaceMarkers
      ensures !Contains(title, m)
    {
      assert |m| > 0 && m[|m| - 1] == ':';
      forall i: nat | i + |m| <= |title|
        ensures !OccursAt(title, m, i)
      {
        assert title[i + |m| - 1] in title;
      }
    }
  }

  // ----- The graph after addLink and after the link loop of onlineLookup -----

  /** addLink(from, to) on a value: register both labels, then add the
      edge.  The cache only grows, the edge from -> to is there afterwards,
      and no other adjacency changes. */
  function AddLinkValue(g: Graph, from: Label, to: Label): (r: Graph)
    requires g.Valid()
    ensures r.Valid() && r.Has(from) && r.Has(to)
    ensures Grows(g, r)
    ensures r.Edge(r.Lookup(from), r.Lookup(to))
    ensures r.Outgoing(r.Lookup(from)) == Some((if r.Lookup(from) in g.cache then g.cache[r.Lookup(from)] else {}) + {r.Lookup(to)})
    ensures forall v :: v != r.Lookup(from) ==> r.Outgoing(v) == g.Outgoing(v)
  {
    var g1 := Register(Register(g, from), to);
    var r := WithLink(g1, g1.Lookup(from), g1.Lookup(to));
    AddLinkFacts(g, from, to, g1, r);
    r
  }

  lemma AddLinkFacts(g: Graph, from: Label, to: Label, g1: Graph, r: Graph)
    requires g.Valid() && g1 == Register(Register(g, from), to)
    requires r == WithLink(g1, g1.Lookup(from), g1.Lookup(to))
    ensures Grows(g, r)
    ensures r.Lookup(from) == g1.Lookup(from) && r.Lookup(to) == g1.Lookup(to)
    ensures r.Outgoing(r.Lookup(from)) == Some((if r.Lookup(from) in g.cache then g.cache[r.Lookup(from)] else {}) + {r.Lookup(to)})
    ensures forall v :: v != r.Lookup(from) ==> r.Outgoing(v) == g.Outgoing(v)
  {
    var g0 := Register(g, from);
    RegisterGrows(g, from);
    RegisterGrows(g0, to);
    GrowsTransitive(g, g0, g1);
    LinkGrows(g1, g1.Lookup(from), g1.Lookup(to));
    GrowsTransitive(g, g1, r);
  }

  lemma RegisterGrows(g: Graph, article: Label)
    requires g.Valid()
    ensures Grows(g, Register(g, article))
  {
  }

  lemma LinkGrows(g: Graph, fromId: Id, toId: Id)
    requires g.Valid() && g.HasId(fromId) && g.HasId(toId)
    ensures Grows(g, WithLink(g, fromId, toId))
  {
    var r := WithLink(g, fromId, toId);
    forall v | v in g.cache ensures v in r.cache && g.cache[v] <= r.cache[v] {
      assert g.Outgoing(v) == Some(g.cache[v]);
      if v != fromId {
        assert r.Outgoing(v) == g.Outgoing(v);
      }
    }
  }

  /** One anchor of the fetched page: a link is added only when it passes the filter. */
  function Visit(g: Graph, article: Label, a: Anchor): (r: Graph)
    requires g.Valid()
    ensures r.Valid()
  {
    if IsArticleLink(a) then AddLinkValue(g, article, LinkTarget(a.href)) else g
  }

  /** The graph after onlineLookup(article) processed the anchors of `page` in order. */
  function Expand(g: Graph, article: Label, page: seq<Anchor>): (r: Graph)
    requires g.Valid()
    ensures r.Valid()
    decreases |page|
  {
    if page == [] then g
    else Visit(Expand(g, article, page[..|page| - 1]), article, page[|page| - 1])
  }

  /** How many anchors of `page` onlineLookup hands to addLink. */
  function LinkCount(page: seq<Anchor>): (n: nat)
    ensures n <= |page|
    decreases |page|
  {
    if page == [] then 0
    else LinkCount(page[..|page| - 1]) + (if IsArticleLink(page[|page| - 1]) then 1 else 0)
  }

  /** One more anchor of the page is one more Visit, and one more link
      exactly when the anchor passes the filter. */
  lemma ExpandSnoc(g: Graph, article: Label, page: seq<Anchor>, k: nat)
    requires g.Valid() && k < |page|
    ensures Expand(g, article, page[..k + 1]) == Visit(Expand(g, article, page[..k]), article, page[k])
    ensures LinkCount(page[..k + 1]) == LinkCount(page[..k]) + (if IsArticleLink(page[k]) then 1 else 0)
  {
    assert page[..k + 1][..k] == page[..k];
  }

  /** Registered ids keep their labels, and a known adjacency only grows. */
  predicate Grows(g: Graph, r: Graph) {
    && (forall i | i in g.articleIds :: i in r.articleIds && r.articleIds[i] == g.articleIds[i])
    && (forall a | a in g.invArticleIds :: a in r.invArticleIds && r.invArticleIds[a] == g.invArticleIds[a])
    && (forall v | v in g.cache :: v in r.cache && g.cache[v] <= r.cache[v])
  }

  /** A registered label keeps its id as the graph grows. */
  lemma GrowsKeepsLookup(g: Graph, r: Graph, article: Label)
    requires Grows(g, r) && g.Has(article)
    ensures r.Has(article) && r.Lookup(article) == g.Lookup(article)
  {
  }

  lemma {:induction false} ExpandGrows(g: Graph, article: Label, page: seq<Anchor>)
    requires g.Valid()
    ensures Grows(g, Expand(g, article, page))
    decreases |page|
  {
    if page != [] {
      var mid := Expand(g, article, page[..|page| - 1]);
      ExpandGrows(g, article, page[..|page| - 1]);
      VisitGrows(mid, article, page[|page| - 1]);
      GrowsTransitive(g, mid, Expand(g, article, page));
    }
  }

  lemma GrowsTransitive(g: Graph, mid: Graph, r: Graph)
    requires Grows(g, mid) && Grows(mid, r)
    ensures Grows(g, r)
  {
  }

  /** One anchor: the graph only grows, and a link that passes the filter
      becomes an edge from the article. */
  lemma VisitGrows(g: Graph, article: Label, a: Anchor)
    requires g.Valid()
    ensures Grows(g, Visit(g, article, a))
    ensures var r := Visit(g, article, a);
            IsArticleLink(a) ==> r.Has(article) && r.Has(LinkTarget(a.href)) && r.Edge(r.Lookup(article), r.Lookup(LinkTarget(a.href)))
  {
    if IsArticleLink(a) {
      var g1 := Register(Register(g, article), LinkTarget(a.href));
      assert Grows(g, g1);
    }
  }

  /** Every anchor that passes the filter ends up as an edge from the article. */
  lemma {:induction false} ExpandAddsLinks(g: Graph, article: Label, page: seq<Anchor>)
    requires g.Valid()
    ensures var r := Expand(g, article, page);
            forall a | a in page && IsArticleLink(a) ::
              r.Has(article) && r.Has(LinkTarget(a.href)) && r.Edge(r.Lookup(article), r.Lookup(LinkTarget(a.href)))
    decreases |page|
  {
    if page != [] {
      var init := page[..|page| - 1];
      var mid := Expand(g, article, init);
      var r := Expand(g, article, page);
      var last := page[|page| - 1];
      ExpandAddsLinks(g, article, init);
      assert r == Visit(mid, article, last);
      VisitGrows(mid, article, last);
      forall a | a in page && IsArticleLink(a)
        ensures r.Has(article) && r.Has(LinkTarget(a.href)) && r.Edge(r.Lookup(article), r.Lookup(LinkTarget(a.href)))
      {
        if a != last {
          assert a in init;
        }
      }
    }
  }

  /** Only the article's own adjacency changes. */
  lemma {:induction false} ExpandTouchesOnlyArticle(g: Graph, article: Label, page: seq<Anchor>, v: Id)
    requires g.Valid()
    requires var r := Expand(g, article, page); r.Has(article) ==> v != r.Lookup(article)
    ensures Expand(g, article, page).Outgoing(v) == g.Outgoing(v)
    decreases |page|
  {
    if page != [] {
      var init := page[..|page| - 1];
      var mid := Expand(g, article, init);
      var r := Expand(g, article, page);
      var last := page[|page| - 1];
      assert r == Visit(mid, article, last);
      if IsArticleLink(last) {
        var g0 := Register(mid, article);
        var g1 := Register(g0, LinkTarget(last.href));
        assert r == WithLink(g1, g1.Lookup(article), g1.Lookup(LinkTarget(last.href)));
        assert r.Lookup(article) == g1.Lookup(article);
        assert r.Outgoing(v) == g1.Outgoing(v);
        assert mid.Has(article) ==> mid.Lookup(article) == g1.Lookup(article);
      }
      assert r.Outgoing(v) == mid.Outgoing(v);
      ExpandTouchesOnlyArticle(g, article, init, v);
    }
  }

  /** A page without article links leaves the graph as it was. */
  lemma {:induction false} ExpandWithoutLinks(g: Graph, article: Label, page: seq<Anchor>)
    requires g.Valid()
    requires forall a | a in page :: !IsArticleLink(a)
    ensures Expand(g, article, page) == g
    decreases |page|
  {
    if page != [] {
      ExpandWithoutLinks(g, article, page[..|page| - 1]);
    }
  }

  /** The adjacency of an id before the page is read; an unknown one counts as empty. */
  function Known(g: Graph, id: Id): set<Id> {
    if id in g.cache then g.cache[id] else {}
  }

  /** The ids, in `r`, of the targets of the anchors of `page` that pass the filter. */
  function Targets(r: Graph, page: seq<Anchor>): set<Id> {
    set a | a in page && IsArticleLink(a) && r.Has(LinkTarget(a.href)) :: r.Lookup(LinkTarget(a.href))
  }

  predicate HasArticleLink(page: seq<Anchor>) {
    exists a | a in page :: IsArticleLink(a)
  }

  /** After onlineLookup over a page with at least one article link, the
      article's adjacency is exactly its old one (empty when unknown) plus
      the targets of the links that pass the filter. */
  lemma {:induction false} ExpandAdjacency(g: Graph, article: Label, page: seq<Anchor>)
    requires g.Valid()
    ensures var r := Expand(g, article, page);
            HasArticleLink(page) ==>
              r.Has(article) && r.Outgoing(r.Lookup(article)) == Some(Known(g, r.Lookup(article)) + Targets(r, page))
    decreases |page|
  {
    if page != [] {
      var init := page[..|page| - 1];
      var last := page[|page| - 1];
      var mid := Expand(g, article, init);
      assert page == init + [last];
      if HasArticleLink(init) {
        ExpandAdjacency(g, article, init);
        ExpandAddsLinks(g, article, init);
      } else {
        ExpandWithoutLinks(g, article, init);
      }
      VisitAdjacency(g, mid, article, init, last);
    }
  }

  /** The step of ExpandAdjacency: one more anchor, visited after `init`. */
  lemma VisitAdjacency(g: Graph, mid: Graph, article: Label, init: seq<Anchor>, last: Anchor)
    requires g.Valid() && mid.Valid()
    requires HasArticleLink(init) ==>
               mid.Has(article) && mid.Outgoing(mid.Lookup(article)) == Some(Known(g, mid.Lookup(article)) + Targets(mid, init))
    requires forall a | a in init && IsArticleLink(a) :: mid.Has(LinkTarget(a.href))
    requires !HasArticleLink(init) ==> mid == g
    ensures var r := Visit(mid, article, last);
            HasArticleLink(init + [last]) ==>
              r.Has(article) && r.Outgoing(r.Lookup(article)) == Some(Known(g, r.Lookup(article)) + Targets(r, init + [last]))
  {
    var r := Visit(mid, article, last);
    if !IsArticleLink(last) {
      assert r == mid;
      SkipAdjacency(g, mid, article, init, last);
    } else {
      var t := LinkTarget(last.href);
      assert r == AddLinkValue(mid, article, t);
      TargetsSnoc(r, init, last);
      if HasArticleLink(init) {
        AdjacencyStep(g, mid, r, article, t, init);
      } else {
        FirstLinkAdjacency(g, r, article, t, init);
      }
    }
  }

  /** An anchor that fails the filter changes neither the graph nor the targets. */
  lemma SkipAdjacency(g: Graph, mid: Graph, article: Label, init: seq<Anchor>, last: Anchor)
    requires !IsArticleLink(last)
    requires HasArticleLink(init) ==>
               mid.Has(article) && mid.Outgoing(mid.Lookup(article)) == Some(Known(g, mid.Lookup(article)) + Targets(mid, init))
    ensures HasArticleLink(init + [last]) ==>
              mid.Has(article) && mid.Outgoing(mid.Lookup(article)) == Some(Known(g, mid.Lookup(article)) + Targets(mid, init + [last]))
  {
    TargetsSnoc(mid, init, last);
    assert Targets(mid, init + [last]) == Targets(mid, init);
    if HasArticleLink(init + [last]) {
      LinkBeforeLast(init, last);
    }
  }

  /** The first article link of the page starts from the old adjacency. */
  lemma FirstLinkAdjacency(g: Graph, r: Graph, article: Label, t: Label, init: seq<Anchor>)
    requires g.Valid() && r == AddLinkValue(g, article, t) && !HasArticleLink(init)
    ensures r.Outgoing(r.Lookup(article)) == Some(Known(g, r.Lookup(article)) + (Targets(r, init) + {r.Lookup(t)}))
  {
    NoTargets(r, init);
    assert Targets(r, init) + {r.Lookup(t)} == {r.Lookup(t)};
  }

  lemma LinkBeforeLast(init: seq<Anchor>, last: Anchor)
    requires HasArticleLink(init + [last]) && !IsArticleLink(last)
    ensures HasArticleLink(init)
  {
    var a :| a in init + [last] && IsArticleLink(a);
    assert a in init;
  }

  /** One more link from the article adds the id of its target and keeps the rest. */
  lemma AdjacencyStep(g: Graph, mid: Graph, r: Graph, article: Label, t: Label, init: seq<Anchor>)
    requires mid.Valid() && r == AddLinkValue(mid, article, t) && mid.Has(article)
    requires mid.Outgoing(mid.Lookup(article)) == Some(Known(g, mid.Lookup(article)) + Targets(mid, init))
    requires forall a | a in init && IsArticleLink(a) :: mid.Has(LinkTarget(a.href))
    ensures r.Lookup(article) == mid.Lookup(article)
    ensures r.Outgoing(r.Lookup(article)) == Some(Known(g, r.Lookup(article)) + (Targets(r, init) + {r.Lookup(t)}))
  {
    GrowsKeepsLookup(mid, r, article);
    TargetsGrow(mid, r, init);
    var id := mid.Lookup(article);
    assert Known(mid, id) == Known(g, id) + Targets(mid, init);
    assert r.Outgoing(id) == Some(Known(mid, id) + {r.Lookup(t)});
    assert Known(g, id) + Targets(mid, init) + {r.Lookup(t)} == Known(g, id) + (Targets(r, init) + {r.Lookup(t)});
  }

  /** One more anchor adds its target exactly when it passes the filter. */
  lemma TargetsSnoc(r: Graph, init: seq<Anchor>, last: Anchor)
    ensures Targets(r, init + [last]) ==
            Targets(r, init) + (if IsArticleLink(last) && r.Has(LinkTarget(last.href)) then {r.Lookup(LinkTarget(last.href))} else {})
  {
    var page := init + [last];
    forall a | a in page ensures a in init || a == last {
    }
    assert forall a | a in init :: a in page;
  }

  /** A grown graph gives the same ids to targets that were already registered. */
  lemma TargetsGrow(mid: Graph, r: Graph, page: seq<Anchor>)
    requires Grows(mid, r)
    requires forall a | a in page && IsArticleLink(a) :: mid.Has(LinkTarget(a.href))
    ensures Targets(r, page) == Targets(mid, page)
  {
    forall a | a in page && IsArticleLink(a) ensures r.Has(LinkTarget(a.href)) && r.Lookup(LinkTarget(a.href)) == mid.Lookup(LinkTarget(a.href)) {
      GrowsKeepsLookup(mid, r, LinkTarget(a.href));
    }
  }

  lemma NoTargets(r: Graph, page: seq<Anchor>)
    requires !HasArticleLink(page)
    ensures Targets(r, page) == {}
  {
  }
}
