# Wikipedia path finders over a link cache

This project models the core of a "Wikipedia game" solver: a list of
strategies that look for a chain of links from one article to another.
The strategies work over a cache of the link graph, which is modelled as well.

- **The cache** (`WikipediaCache`) is a bijection between article titles and
  dense integer ids. For every article whose page has been fetched, it also
  holds the set of ids that page links to.
  - An article can be registered but never fetched; its adjacency is then
    *unknown*. That is different from a known adjacency that happens to be
    empty.
  - Fetching a page runs the anchors of the page through a link filter and
    adds each link that passes.
  - The cache is written to and read back from a text file.
- **The Dijkstra engine** (`AbstractDijkstraAlgorithm`) is a Dijkstra search
  over a `cost` hook, with a linear selection step. Subclasses supply four
  hooks: `cost`, `nextHop`, `has` and `tieBreaker`. Every finder sets the
  cost to one per link.
  - It stops as soon as a goal has a predecessor.
  - It rebuilds the path backwards through `previous`.
- **Finder 000** runs the engine on the raw cache graph.
- **The inline finder** (`DijkstraWikipediaPathFinder`) is a hand-inlined
  copy of the engine loop.
- **Finder 001** adds a direct-neighbour fast path. It then searches into the
  *core*: the articles of known adjacency, with their adjacency cut down to
  the core. The search is aimed at the core articles that link to the goal,
  and ties go to the higher centrality score.
- **Finder 002** is finder 001 with a random *decimated* set of core articles
  that the search skips. The set is drawn from a lookup table in which
  low-priority articles own more slots.
- **The advanced finder** keeps a core/frontier split of the articles. It
  promotes the start into the core, fetching it first if needed. Its search
  never enters the frontier.
- **The naive finder** is a depth-first search over simple paths of at most
  six articles. It works on one shared list.
- **The composite finder** returns the first acceptable answer from its list
  of strategies. An exception thrown by a strategy is not caught.
- **The canonizing finder** maps a typed title onto the registered article
  with the same normal form before it asks an inner strategy.

How the model is laid out:

- The cache graph is a value, `WikiGraph.Graph`, whose `Valid()` predicate
  states the bijection and the footprint of the adjacency map.
- The Java object whose maps change in place is the class
  `Wikipedia.WikipediaCache`. Its methods are proved against value functions
  on the graph: `Register`, `AddLinkValue` and `Expand`.
- The engine, `Dijkstra`, is one imperative search parameterised by a `Caps`
  value holding the four hooks. It also takes the tie rule `prefer`, which
  lets the inline variants state their own selection test.
- Finders 000, 001 and 002 and the advanced finder are that engine with
  their own hooks. The inline finder, a hand copy of the loop in the source,
  is the engine with `prefer` always false, and `Diverges` where the source
  spins at a start of unknown adjacency. The `Find` of each of these five
  states the following:
  - when the answer is empty;
  - when it throws;
  - that a non-empty answer is a chain of cache links from the start to the
    goal;
  - where the finder promises it, that the answer is shortest.
- The naive finder's `Find` states when it throws and that it finds a path
  of at most six articles whenever one exists. The composite
  and canonizing finders' `Find` relate their result to the answers of the
  inner strategies.
- Exceptions are modelled as the `Failure` case of a `Result`:
  - `NullPointer` for a null unboxed or iterated;
  - `IndexOutOfBounds` for an array index out of range;
  - `NumberFormat` for a `parseInt` failure;
  - `Diverges` for a loop that never ends.

Every input the source takes from outside the model becomes a parameter:

- the fetched page, as a sequence of anchors;
- the file text;
- the hash iteration order of key sets, as a sequence or as a
  nondeterministic choice;
- the random draws, as a sequence of table indices;
- the centrality scores, as a map;
- what an inner strategy answers, as a function whose result may be
  `Failure` with the exception the strategy throws.

## Model

| member | source | states |
|---|---|---|
| WikiGraph.Graph.Lookup | src/main/java/wikipedia/WikipediaCache.java:57-60 | the id of a registered title is registered and names that title again |
| WikiGraph.Graph.Name | src/main/java/wikipedia/WikipediaCache.java:62-65 | a registered id gives its title, whose id is that id again; an unregistered id gives null |
| WikiGraph.Graph.Outgoing | src/main/java/wikipedia/WikipediaCache.java:80-83 | null exactly for an id of unknown adjacency; a known adjacency holds only registered ids |
| WikiGraph.Graph.Articles | src/main/java/wikipedia/WikipediaCache.java:75-78 | the titles returned are exactly the registered ones: under `Valid`, exactly the titles some registered id carries |
| WikiGraph.ArticlesCount | src/main/java/wikipedia/WikipediaCache.java:75-78 | there are exactly as many titles as registered ids |
| WikiGraph.Register | src/main/java/wikipedia/WikipediaCache.java:34-43 | a registered title keeps its id and the graph is unchanged; a new one gets the next dense id; the graph stays valid; old ids and titles keep their mappings |
| WikiGraph.LookupAfterRegister | src/main/java/wikipedia/WikipediaCache.java:46-47 | registering the target title does not change the id just given to the source title |
| WikiGraph.WithLink | src/main/java/wikipedia/WikipediaCache.java:48-50 | the source's adjacency becomes its old one (empty if unknown) plus the target; every other adjacency and both maps are unchanged |
| WikiGraph.EmptyGraph | src/main/java/wikipedia/WikipediaCache.java:19-23 | the empty cache is valid and holds no article |
| WikiGraph.AddLinkValue | src/main/java/wikipedia/WikipediaCache.java:45-50 | after addLink both titles are registered, the graph stays valid and only grows, the link from the source to the target is present, the source's adjacency is its old set (or the empty set when unknown) plus the target, and no other adjacency changes |
| WikiGraph.NamespaceLinkRejected | src/main/java/wikipedia/WikipediaCache.java:100-110 | a `/wiki/` link into one of the nine excluded namespaces is never added |
| WikiGraph.ColonFreeLinkAccepted | src/main/java/wikipedia/WikipediaCache.java:100-110 | a `/wiki/` link with non-empty text and a colon-free target is always added |
| WikiGraph.ExpandSnoc | src/main/java/wikipedia/WikipediaCache.java:98-112 | processing one more anchor of the page is one more visit |
| WikiGraph.GrowsKeepsLookup | src/main/java/wikipedia/WikipediaCache.java:34-43 | as the cache grows, a registered title keeps its id |
| WikiGraph.GrowsTransitive | src/main/java/wikipedia/WikipediaCache.java:45-55 | growth of the cache composes |
| WikiGraph.VisitGrows | src/main/java/wikipedia/WikipediaCache.java:100-110 | one anchor only grows the cache; a link that passes the filter becomes an edge from the article |
| WikiGraph.ExpandGrows | src/main/java/wikipedia/WikipediaCache.java:92-118 | fetching a page never removes an id, a title or a link |
| WikiGraph.ExpandAddsLinks | src/main/java/wikipedia/WikipediaCache.java:92-118 | every anchor of the page that passes the filter ends up as an edge from the fetched article |
| WikiGraph.ExpandAdjacency | src/main/java/wikipedia/WikipediaCache.java:92-118 | when the page has an article link, the fetched article's adjacency afterwards is exactly its old one (empty when unknown) plus the targets of the links that pass the filter, and nothing else |
| WikiGraph.ExpandTouchesOnlyArticle | src/main/java/wikipedia/WikipediaCache.java:92-118 | fetching a page changes the adjacency of that article only |
| WikiGraph.ExpandWithoutLinks | src/main/java/wikipedia/WikipediaCache.java:92-118 | a page without article links leaves the cache exactly as it was (in particular, the adjacency stays unknown) |
| Wikipedia.WikipediaCache.constructor | src/main/java/wikipedia/WikipediaCache.java:19-28 | without a file the maps are empty and valid; with a well-formed file they hold the decoded graph, which is the stored graph and valid when `_store` wrote the file; the change counter is zero |
| Wikipedia.Open | src/main/java/wikipedia/WikipediaCache.java:151-191 | a malformed file is an escaping exception carrying the parse error; otherwise a fresh cache holding the decoded graph |
| Wikipedia.WikipediaCache.CreateOrLookup | src/main/java/wikipedia/WikipediaCache.java:34-43 | the new state is `Register` of the old; the returned id is the old id, or the old size for a new title; the counter is unchanged |
| Wikipedia.WikipediaCache.AddLink | src/main/java/wikipedia/WikipediaCache.java:45-55 | the new state is `AddLinkValue` of the old one; stays valid; the change counter goes up by one |
| Wikipedia.WikipediaCache.OnlineLookup | src/main/java/wikipedia/WikipediaCache.java:92-118 | the anchor loop leaves the cache equal to `Expand` of the old cache over the page; stays valid; the change counter goes up by exactly the number of anchors that pass the link filter (`LinkCount`), one per addLink |
| Wikipedia.WikipediaCache.OutgoingOf | src/main/java/wikipedia/WikipediaCache.java:85-90 | the page is fetched exactly when the title is unregistered or of unknown adjacency; an exception exactly when the title is still unregistered afterwards; otherwise outgoing of its id |
| CacheFormat.NatToString | src/main/java/wikipedia/WikipediaCache.java:131-149 | the decimal text of an id is non-empty and all digits |
| CacheFormat.ParseNatToString | src/main/java/wikipedia/WikipediaCache.java:164-191 | parseInt reads back the decimal text of every id that fits in an int |
| CacheFormat.ReadWrittenLines | src/main/java/wikipedia/WikipediaCache.java:131-191 | reading the lines of a written file gives back the lines, for lines without terminators |
| CacheFormat.SplitAllTerminated | src/main/java/wikipedia/WikipediaCache.java:180-189 | splitting tab-terminated fields at every tab gives the fields and one trailing empty field |
| CacheFormat.LabelLineReadsBack | src/main/java/wikipedia/WikipediaCache.java:171-179 | an `id TAB title` line parses back to that id and title |
| CacheFormat.AdjacencyLineReadsBack | src/main/java/wikipedia/WikipediaCache.java:180-189 | an adjacency line parses back to its id and exactly its target set |
| CacheFormat.LabelLinesReadBack | src/main/java/wikipedia/WikipediaCache.java:171-179 | the label loop over the stored label lines rebuilds both maps and leaves the adjacency lines |
| CacheFormat.AdjacencyLinesReadBack | src/main/java/wikipedia/WikipediaCache.java:180-189 | the adjacency loop over the stored adjacency lines rebuilds every known adjacency, empty ones included |
| CacheFormat.EncodedLinesRead | src/main/java/wikipedia/WikipediaCache.java:131-149 | the lines `_store` writes are the lines `_load` reads |
| CacheFormat.EncodedLinesDecode | src/main/java/wikipedia/WikipediaCache.java:164-191 | parsing the stored lines gives back the graph |
| CacheFormat.StoreThenLoad | src/main/java/wikipedia/WikipediaCache.java:131-191 | `_load` of what `_store` wrote is the same graph: both maps and every adjacency, for titles that are non-empty and free of tabs and line breaks |
| Dijkstra.ContainsAny | src/main/java/graph/AbstractDijkstraAlgorithm.java:50-58 | true exactly when the two sets share an element |
| Dijkstra.PickFromIntersect | src/main/java/graph/AbstractDijkstraAlgorithm.java:60-67 | none exactly when the sets are disjoint; otherwise an element of both |
| Dijkstra.SelectNext | src/main/java/graph/AbstractDijkstraAlgorithm.java:99-121 | none exactly when no unvisited expandable vertex has a distance; otherwise such a vertex of least distance, and under a scored tie rule no tied candidate scores higher |
| Dijkstra.Relax | src/main/java/graph/AbstractDijkstraAlgorithm.java:81-97 | every target found for the first time or strictly improved gets the distance through the current vertex and that vertex as its predecessor; nothing else changes |
| Dijkstra.UnitWeight | src/main/java/graph/AbstractDijkstraAlgorithm.java:69-145 | under unit cost a path weighs its number of links |
| Dijkstra.Search | src/main/java/graph/AbstractDijkstraAlgorithm.java:77-122 | the loop throws exactly when the start is not a goal and has no `nextHop`; otherwise it stops with the search invariants established |
| Dijkstra.Rebuild | src/main/java/graph/AbstractDijkstraAlgorithm.java:124-141 | the path built backwards through `previous` is a route from the start to the chosen goal whose weight is the goal's distance |
| Dijkstra.ReachesKnown | src/main/java/graph/AbstractDijkstraAlgorithm.java:105-121 | once nothing is left to select, every walkable route ends at a vertex with a distance |
| Dijkstra.Explore | src/main/java/graph/AbstractDijkstraAlgorithm.java:69-145 | throws exactly when the start is not a goal and has no `nextHop`; empty when the start is a goal; a non-empty result is a route of at least two vertices ending in a goal and, under unit cost, no longer than any such route; an empty result otherwise means no route reaches a goal |
| Dijkstra.PathTo | src/main/java/graph/AbstractDijkstraAlgorithm.java:147-150 | the same, towards a single goal |
| GraphSearch.GraphCapsFacts | src/main/java/path/DijkstraWikipediaPathFinder000.java:25-34 | the four hooks over the cache have unit cost, name only registered ids, and their edges are exactly the cache's links |
| GraphSearch.ToLabels | src/main/java/path/DijkstraWikipediaPathFinder000.java:41-43 | each output title is registered and has the id at the same position |
| GraphSearch.ConnectsIsRoute | src/main/java/path/DijkstraWikipediaPathFinder000.java:25-34 | every title chain along cache links is a route the engine can walk |
| GraphSearch.RouteIsLinked | src/main/java/path/DijkstraWikipediaPathFinder000.java:40-46 | the titles of an engine route are linked in the cache |
| GraphSearch.Append | src/main/java/path/DijkstraWikipediaPathFinder001.java:77-84 | the copy into a longer array is the path with the goal appended |
| GraphSearch.CompleteToGoal | src/main/java/path/DijkstraWikipediaPathFinder001.java:77-89 | the goal is appended exactly when the engine path stops short of it, and the titles then form a chain of cache links from the start to the goal |
| Finder000.TiesKeepIncumbent | src/main/java/path/DijkstraWikipediaPathFinder000.java:27 | with `tieBreaker = ID1`, a tied candidate never displaces the incumbent |
| Finder000.Find | src/main/java/path/DijkstraWikipediaPathFinder000.java:17-47 | empty for unregistered titles or start == goal; throws exactly when the start has unknown adjacency; a non-empty answer is a shortest chain of cache links; an empty answer otherwise means none exists |
| InlineDijkstra.TiesKeepEarlier | src/main/java/path/DijkstraWikipediaPathFinder.java:70-71 | the selection replaces the incumbent only on a strictly smaller distance |
| InlineDijkstra.PreludeDead | src/main/java/path/DijkstraWikipediaPathFinder.java:28-32 | the `!has(current)` prelude never runs, because the start is registered |
| InlineDijkstra.Find | src/main/java/path/DijkstraWikipediaPathFinder.java:14-95 | as finder 000, except that a start of unknown adjacency makes the loop spin forever instead of throwing |
| CoreSplit.BuildFrontier | src/main/java/path/AdvancedDijkstraWikipediaPathFinder.java:183-195 | the frontier is exactly the registered ids of unknown adjacency |
| CoreSplit.BuildCoreSet | src/main/java/path/AdvancedDijkstraWikipediaPathFinder.java:197-209 | the core is exactly the registered ids of known adjacency |
| CoreSplit.Partition | src/main/java/path/AdvancedDijkstraWikipediaPathFinder.java:183-209 | core and frontier are disjoint and together cover every registered id |
| CoreSplit.Restrict | src/main/java/path/DijkstraWikipediaPathFinder001.java:199-204 | the next hops kept are exactly the targets that are core keys |
| CoreSplit.KeyKnown | src/main/java/path/DijkstraWikipediaPathFinder001.java:188-196 | the first pass keys exactly the articles of known adjacency, each to an empty set |
| CoreSplit.BuildCoreMap | src/main/java/path/DijkstraWikipediaPathFinder001.java:186-208 | the core map holds exactly the articles of known adjacency, each mapped to its adjacency cut down to the core |
| CoreSplit.CorePredsLead | src/main/java/path/DijkstraWikipediaPathFinder001.java:111-125 | each article `goToCore` returns is the goal or links to it, in every later state of the cache |
| CoreSplit.GoToCore | src/main/java/path/AdvancedDijkstraWikipediaPathFinder.java:134-148 | the goal alone when it is in the core; otherwise exactly the core articles linking to it; throws exactly when the goal is outside the core and some core article has unknown adjacency |
| Finder001.BuiltCoreFits | src/main/java/path/DijkstraWikipediaPathFinder001.java:186-208 | a core built from the cache fits it |
| Finder001.FitsAfterGrowth | src/main/java/path/DijkstraWikipediaPathFinder001.java:186-208 | the core built at class load keeps fitting as the cache grows |
| Finder001.HigherPriorityWins | src/main/java/path/DijkstraWikipediaPathFinder001.java:64 | on a tie the candidate wins exactly when its priority is strictly higher |
| Finder001.CapsFacts | src/main/java/path/DijkstraWikipediaPathFinder001.java:62-71 | the search has unit cost, names only registered ids, and every step it takes is a cache link |
| Finder001.Find | src/main/java/path/DijkstraWikipediaPathFinder001.java:44-90 | never throws; empty for unregistered titles; `[start, goal]` for a direct link; empty when the start's adjacency is unknown or empty, or when nothing in the core leads to the goal; a non-empty answer is a chain of cache links from start to goal |
| Finder002.KeyOrderSize | src/main/java/path/DijkstraWikipediaPathFinder002.java:87-89 | an iteration order of the core keys has one entry per key |
| Finder002.DecimatingFinder.constructor | src/main/java/path/DijkstraWikipediaPathFinder002.java:36-40 | the ratio is stored and the decimated set starts empty |
| Finder002.DecimatingFinder.SetDecimatedVertices | src/main/java/path/DijkstraWikipediaPathFinder002.java:84-104 | with non-negative priorities it never throws; the decimated set is the set of table entries at the drawn slots, holds at most the quota of articles, and only core articles or the unwritten 0 |
| Finder002.New | src/main/java/path/DijkstraWikipediaPathFinder002.java:36-40 | with the corrected fill and non-negative priorities, construction succeeds; the new finder's decimated set respects the quota and the core |
| Finder002.DecimatingFinder.Find | src/main/java/path/DijkstraWikipediaPathFinder002.java:43-82 | empty for unregistered titles; `[start, goal]` for a direct link; throws exactly when the start is not a goal target and has unknown adjacency; a non-empty answer is a chain of cache links whose inner articles are non-decimated core articles or the goal |
| Decimation.Slots | src/main/java/path/DijkstraWikipediaPathFinder002.java:93-95 | a non-negative priority owns at most 5 slots, all 5 below 0.6, and fewer from 0.6 up |
| Decimation.SlotsCount | src/main/java/path/DijkstraWikipediaPathFinder002.java:94 | the inner fill loop runs exactly `Slots` times |
| Decimation.LayoutPrefix | src/main/java/path/DijkstraWikipediaPathFinder002.java:89-96 | the table prefix written for the first keys is a prefix of the whole layout |
| Decimation.LayoutMembers | src/main/java/path/DijkstraWikipediaPathFinder002.java:89-96 | every laid-out slot holds a core article |
| Decimation.LayoutLength | src/main/java/path/DijkstraWikipediaPathFinder002.java:86-96 | with non-negative priorities the layout fits the table, and fills it exactly when every priority is below 0.6 (both directions) |
| Decimation.FillDone | src/main/java/path/DijkstraWikipediaPathFinder002.java:89-96 | where the outer loop stops, the part filled so far is a prefix of the layout (the whole layout when all keys were processed) |
| Decimation.WriteRunAsWritten | src/main/java/path/DijkstraWikipediaPathFinder002.java:94-95 | with `++i`, one article's run lands one slot late and throws exactly when it would reach the table's end |
| Decimation.FillAsWritten | src/main/java/path/DijkstraWikipediaPathFinder002.java:86-96 | the fill as written throws exactly when the core is non-empty and the layout needs the whole table; otherwise the layout lies shifted one slot, with slot 0 left 0 |
| Decimation.OneLowPriorityOverflows | src/main/java/path/DijkstraWikipediaPathFinder002.java:86-96 | a one-article core whose priority is below 0.6 overflows the table as written |
| Decimation.WriteRun | src/main/java/path/DijkstraWikipediaPathFinder002.java:94-95 | with `i++`, one article's run follows the earlier ones and throws exactly when it would pass the table's end |
| Decimation.Fill | src/main/java/path/DijkstraWikipediaPathFinder002.java:86-96 | whenever the layout fits, the table is the layout followed by zeros; every slot holds a core article or 0 |
| Decimation.Sample | src/main/java/path/DijkstraWikipediaPathFinder002.java:97-103 | the decimated set is exactly the table entries at the drawn slots and has at most the quota of elements |
| Advanced.BoxedTieScored | src/main/java/path/AdvancedDijkstraWikipediaPathFinder.java:100-103 | on a tie the higher priority wins only up to distance 127, where boxed Integers are shared; beyond that the reference comparison fails |
| Advanced.CoreCapsFacts | src/main/java/path/AdvancedDijkstraWikipediaPathFinder.java:59-88 | the search has unit cost, stays among registered ids, and every step is a cache link that avoids the frontier |
| Advanced.Promoted | src/main/java/path/AdvancedDijkstraWikipediaPathFinder.java:53-58 | promotion keeps core and frontier disjoint, and keeps the split invariant once the start has known adjacency |
| Advanced.Complete | src/main/java/path/AdvancedDijkstraWikipediaPathFinder.java:25-33 | the answer is a chain of cache links from start to end, and every article but the last is outside the frontier |
| Advanced.AdvancedFinder.constructor | src/main/java/path/AdvancedDijkstraWikipediaPathFinder.java:183-209 | the frontier is the unknown-adjacency articles and the core the known ones; they partition the registered ids |
| Advanced.AdvancedFinder.Promote | src/main/java/path/AdvancedDijkstraWikipediaPathFinder.java:53-58 | the start moves from the frontier to the core; its page is fetched exactly when it was outside the core with unknown adjacency; the cache only grows |
| Advanced.AdvancedFinder.SearchCore | src/main/java/path/AdvancedDijkstraWikipediaPathFinder.java:44-125 | diverges exactly when the start is not a goal and still has unknown adjacency; otherwise the engine's guarantees over the core without the frontier: shortest route to a goal, or none exists |
| Advanced.AdvancedFinder.Find | src/main/java/path/AdvancedDijkstraWikipediaPathFinder.java:17-34 | empty, changing nothing, for unregistered titles; diverges exactly when the start is outside `goToCore` of the goal and has unknown adjacency after promotion; a non-empty answer is a chain of cache links from start to end avoiding the frontier before the end |
| Naive.WinStep | src/main/java/path/NaiveWikipediaPathFinder.java:40-50 | a winning path that extends the list continues it with an outgoing link of its last article that is not on the list yet |
| Naive.CoverStep | src/main/java/path/NaiveWikipediaPathFinder.java:42-50 | a link skipped as already on the list, or searched without a win, rules out every winning path through it |
| Naive.TrailStep | src/main/java/path/NaiveWikipediaPathFinder.java:45-47 | adding an outgoing link that is not on the list keeps the list a simple linked path |
| Naive.PathList.constructor | src/main/java/path/NaiveWikipediaPathFinder.java:20 | the shared list starts empty |
| Naive.NaiveFinder.constructor | src/main/java/path/NaiveWikipediaPathFinder.java:14 | no winning path yet |
| Naive.NaiveFinder.Find | src/main/java/path/NaiveWikipediaPathFinder.java:17-22 | throws only when some simple path of at most six articles from the start ends at an article of unknown adjacency; otherwise a winning path (simple, at most six articles, linked, start to end) when one exists and null exactly when none does; `[start]` when start == end |
| Naive.NaiveFinder.Search | src/main/java/path/NaiveWikipediaPathFinder.java:24-51 | a normal return restores the list; an earlier win is kept; a new win extends the list; a list already ending at the goal is the win; no win means no winning path extends the list |
| Naive.NaiveFinder.SearchLinks | src/main/java/path/NaiveWikipediaPathFinder.java:40-50 | the loop over the last article's links restores the list and finds a win through it when one exists |
| Naive.NaiveFinder.SearchLink | src/main/java/path/NaiveWikipediaPathFinder.java:42-50 | one link of the loop: after it, no winning path goes through that link unless one was found |
| Naive.NaiveFinder.Branch | src/main/java/path/NaiveWikipediaPathFinder.java:47-49 | add, recurse, remove: the list is restored unless the call threw, and no win through the extended list is missed |
| Composite.FirstAcceptableSpec | src/main/java/path/CompositeWikipediaPathFinder.java:20-28 | an exception is the one thrown by the first strategy that did not return an unacceptable answer; a non-empty result is the acceptable answer of such a strategy; the empty result exactly when every strategy returned and none acceptably |
| Composite.LaterIgnored | src/main/java/path/CompositeWikipediaPathFinder.java:20-28 | strategies added after the first exception or acceptable answer make no difference |
| Composite.CompositeFinder.constructor | src/main/java/path/CompositeWikipediaPathFinder.java:11 | the list starts empty |
| Composite.CompositeFinder.Add | src/main/java/path/CompositeWikipediaPathFinder.java:13-17 | appends the strategy and returns the composite itself |
| Composite.CompositeFinder.Find | src/main/java/path/CompositeWikipediaPathFinder.java:20-28 | the result is `FirstAcceptable` of the answers; it stops at the first strategy that throws (propagating its exception) or answers a path of at least two titles from start to goal; otherwise it is empty after asking all |
| Canonizing.SkipDashes | src/main/java/path/CanonizingPathFinder.java:20 | the result is empty or does not start with `-` or `_` |
| Canonizing.SkipDashesStrips | src/main/java/path/CanonizingPathFinder.java:20 | the result is the suffix of the input after a prefix made only of `-` and `_`, and it does not start with either |
| Canonizing.Collapse | src/main/java/path/CanonizingPathFinder.java:20 | the result holds no `-` or `_` and is no longer than the input |
| Canonizing.UpperChar | src/main/java/path/CanonizingPathFinder.java:20 | upper-casing neither makes nor removes a `-` or `_`, and leaves no lower-case ASCII letter |
| Canonizing.UpperSkip | src/main/java/path/CanonizingPathFinder.java:20-23 | upper-casing commutes with dropping a leading dash run |
| Canonizing.KeysAgree | src/main/java/path/CanonizingPathFinder.java:20-23 | collapse-then-upper (the typed title) equals upper-then-collapse (each article) |
| Canonizing.FirstMatchSpec | src/main/java/path/CanonizingPathFinder.java:21-26 | none exactly when no article has the normal form; otherwise the first that has it |
| Canonizing.Canonical | src/main/java/path/CanonizingPathFinder.java:18-29 | the result is the title itself or a registered article |
| Canonizing.Canonize | src/main/java/path/CanonizingPathFinder.java:18-29 | the loop returns the first article of the same normal form, else the title |
| Canonizing.CanonicalIdempotent | src/main/java/path/CanonizingPathFinder.java:42-54 | canonizing a canonized title changes nothing |
| Canonizing.SameFormSameArticle | src/main/java/path/CanonizingPathFinder.java:18-29 | registered titles of one normal form all canonize to one registered article of that form |
| Canonizing.Find | src/main/java/path/CanonizingPathFinder.java:32-60 | the inner strategy's exception for the canonized titles propagates unchanged; otherwise null exactly when its answer is null or shorter than two, and else that answer |

## Left out

- The network fetch of a page (Jsoup) is not modelled: the anchors of the fetched page are the parameter `page`. The fetch's exception handling is not modelled either.
- The periodic `store()` every 512 changes in addLink is left out. It only writes the file, whose format is modelled by `CacheFormat`.
- File opening and writing (`FileReader`, `FileWriter`) are left out: the file is its text. Opening an existing file is modelled as `Wikipedia.Open`.
- Hash iteration order of Java sets and maps is modelled as a nondeterministic choice (`:|`) or an input order.
  - `CacheFormat.EncodeLines` writes ids and targets in ascending order, one of the orders `_store` can produce.
- CacheFormat.EncodedLinesDecode: the parse is proved to give back the graph only for the ascending order that `EncodeLines` writes, not for every hash order `_store` may use.
- CacheFormat.StoreThenLoad: the round trip is proved for the ascending write order only, as for `EncodedLinesDecode`.
- Negative ids in a cache file parse as a `NumberFormat` failure, because ids are natural numbers here. Java would accept them as keys.
- Integer widths are mostly out of scope:
  - ids, distances and the change counter are unbounded, so the 32-bit overflow of `nofChanges` and of ids is not modelled;
  - the `int` range is modelled only where `parseInt` rejects text, and in the boxed-Integer cache at 127.
- `Random` is modelled as the sequence of draws `rnd.nextInt(lookupTable.length)`. Doubles are modelled as exact reals.
- The power iteration of finder 001 and of the advanced finder (`eigen`, `eigenvalues`) is left out: the scores are a parameter map. So is the reading and writing of finder 001's priorities file.
- `toUpperCase` is modelled on ASCII letters only. Unicode case mapping is out of scope.
- CacheFormat.ParseInt: `Integer.parseInt` is modelled on the ASCII digits `0`..`9`. Java also accepts the other Unicode decimal digits (Arabic-Indic ones, say), so a cache file whose numbers use them loads in Java but is a `NumberFormat` failure of `CacheFormat.Decode` and `Wikipedia.Open` here.
- Dijkstra.Search: the tie rules are stated per hook (`Finder000.TiesKeepIncumbent`, `InlineDijkstra.TiesKeepEarlier`, `Finder001.HigherPriorityWins`, `Advanced.BoxedTieScored`) and for one selection step (`Dijkstra.SelectNext`). No `Find` contract says which of several shortest routes is returned, because the search does not carry a score through its loop.
- The canonizing finder's miner runs and `store` calls (`DepthFirstWikipediaMiner`, CanonizingPathFinder.java:42-54) are not part of this model. The titles list is unchanged, so the re-canonize is proved to be the identity.
- The naive finder reads a fixed cache graph: the online fetch inside `outgoing(String)` is not modelled. An article of unknown adjacency is treated as one whose fetch brought no links, so iterating over the null throws.
- The inner strategies of the composite and canonizing finders are parameters: a function giving the answer, or the exception the strategy throws.
- `DownloadingPathFinder`, `WikiGameScraper`, `Main` and the miner are not part of this model.
- Dijkstra.Explore: minimality is stated for unit cost only, which every finder uses. For general costs the result is stated to be a route to a goal and nothing more.
- InlineDijkstra.Find: the endless loop at a start of unknown adjacency is the `Diverges` result. The loop itself is not run.
- Advanced.AdvancedFinder.Find: "empty when no core article leads to the goal" is stated only for a successful return. The divergence case is stated separately.
- Finder002.DecimatingFinder.Find: the claim about inner articles covers positions 1 to length−3. The next-to-last article is the engine's goal, which the source never checks against the decimated set.
- Decimation.Fill: when negative priorities make the layout longer than the table, only the exception and its cause are stated, not where the overrun happens.
- Finder002.New: construction success is stated for the corrected fill (`Decimation.Fill`). As written, the constructor throws whenever the layout fills the table, for example when every core priority is below 0.6 (see Findings).
- Finder002.DecimatingFinder.SetDecimatedVertices: modelled with the corrected fill. The fill as written is `Decimation.FillAsWritten` (see Findings).

## Findings

| source | as written | input that shows it | evidently intended | confidence | as-written member | corrected member |
|---|---|---|---|---|---|---|
| src/main/java/path/DijkstraWikipediaPathFinder002.java:94-95 | the fill writes `lookupTable[++i]`, so the first run starts at slot 1 and the final write can land at index `core.size()*5` | a core of one article with priority below 0.6: five writes go to slots 1..5 of a five-slot table, and the constructor throws ArrayIndexOutOfBoundsException | `lookupTable[i++]`, filling slots 0..n-1 | not executed | Decimation.FillAsWritten (with Decimation.OneLowPriorityOverflows) | Decimation.Fill (with Decimation.LayoutLength) |
