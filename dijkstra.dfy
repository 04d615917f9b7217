/**
 * AbstractDijkstraAlgorithm: Dijkstra's search with a linear selection of
 * the next vertex, parameterised by the four abstract methods.  It stops
 * as soon as some goal has a predecessor and rebuilds the path backwards
 * through `previous`.
 */
module Dijkstra {
  import opened Wrappers

  type Vertex = nat

  /** The abstract methods of the engine.  `prefer(k, incumbent, d)` is the
      test that lets a candidate `k` replace the incumbent when both are at
      distance `d`; the engine derives it from `tieBreaker`, the inline
      variants state their own.  Costs are non-negative (every subclass
      uses 1). */
  datatype Caps = Caps(cost: (Vertex, Vertex) -> nat,
                       nextHop: Vertex -> Option<set<Vertex>>,
                       has: Vertex -> bool,
                       prefer: (Vertex, Vertex, nat) -> bool)

  /** The engine's tie rule: the candidate wins a tie when the tie breaker
      names it. */
  function TieBreakerRule(tieBreaker: (Vertex, Vertex) -> Vertex): (Vertex, Vertex, nat) -> bool {
    (k: Vertex, inc: Vertex, d: nat) => tieBreaker(k, inc) == k
  }

  /** A vertex the selection loop may expand. */
  predicate Eligible(c: Caps, v: Vertex) {
    c.has(v) && c.nextHop(v).Some?
  }

  predicate Edge(c: Caps, u: Vertex, v: Vertex) {
    c.nextHop(u).Some? && v in c.nextHop(u).value
  }

  /** A path the engine can walk: from `start`, along `nextHop`, through
      eligible interior vertices only. */
  predicate Route(c: Caps, p: seq<Vertex>, start: Vertex) {
    && |p| >= 1 && p[0] == start
    && (forall i | 0 <= i < |p| - 1 :: Edge(c, p[i], p[i + 1]))
    && (forall i | 0 < i < |p| - 1 :: Eligible(c, p[i]))
  }

  function Weight(c: Caps, p: seq<Vertex>): nat
    decreases |p|
  {
    if |p| <= 1 then 0 else Weight(c, p[..|p| - 1]) + c.cost(p[|p| - 2], p[|p| - 1])
  }

  ghost predicate UnitCost(c: Caps) {
    forall u, v :: c.cost(u, v) == 1
  }

  /** Every vertex `nextHop` can name lies in `universe`: the graph is finite. */
  ghost predicate Closed(c: Caps, universe: set<Vertex>) {
    forall v :: c.nextHop(v).Some? ==> c.nextHop(v).value <= universe
  }

  /** A tie rule that prefers a strictly higher score, whenever `ok` holds of
      the shared distance. */
  ghost predicate ScoredTies(prefer: (Vertex, Vertex, nat) -> bool, score: Vertex -> real, ok: nat -> bool) {
    forall a, b, d :: a != b ==> (prefer(a, b, d) <==> ok(d) && score(a) > score(b))
  }

  predicate Candidate(c: Caps, dist: map<Vertex, nat>, visited: set<Vertex>, k: Vertex) {
    k in dist && k !in visited && Eligible(c, k)
  }

  /** containsAny */
  function ContainsAny(a: set<Vertex>, b: set<Vertex>): (r: bool)
    ensures r <==> a * b != {}
  {
    var found := exists x | x in b :: x in a;
    assert a * b != {} ==> found by {
      if a * b != {} {
        var x :| x in a * b;
        assert x in b && x in a;
      }
    }
    assert found ==> a * b != {} by {
      if found {
        var x :| x in b && x in a;
        assert x in a * b;
      }
    }
    found
  }

  /** pickRandomFromIntersect: some common element, in hash order. */
  method PickFromIntersect(a: set<Vertex>, b: set<Vertex>) returns (r: Option<Vertex>)
    ensures r.None? <==> !ContainsAny(a, b)
    ensures r.Some? ==> r.value in a && r.value in b
  {
    if a * b == {} {
      return None;
    }
    var x :| x in a * b;
    return Some(x);
  }

  /** The selection loop: an unvisited eligible vertex of least distance,
      or None when there is none.  Among equal distances the outcome
      depends on the hash order; under a scored tie rule no tied candidate
      has a higher score. */
  method SelectNext(c: Caps, dist: map<Vertex, nat>, visited: set<Vertex>,
                    ghost score: Vertex -> real, ghost ok: nat -> bool)
    returns (next: Option<Vertex>)
    ensures next.None? <==> forall k | k in dist :: !Candidate(c, dist, visited, k)
    ensures next.Some? ==> Candidate(c, dist, visited, next.value)
    ensures next.Some? ==> Nearest(c, dist, visited, dist[next.value])
    ensures next.Some? && ScoredTies(c.prefer, score, ok) ==>
              forall k | Candidate(c, dist, visited, k) && dist[k] == dist[next.value] && ok(dist[k]) ::
                score(k) <= score(next.value)
  {
    var todo := dist.Keys;
    next := None;
    while todo != {}
      invariant todo <= dist.Keys
      invariant next.Some? ==> Candidate(c, dist, visited, next.value) && next.value !in todo
      invariant next.None? ==> forall k | k in dist && k !in todo :: !Candidate(c, dist, visited, k)
      invariant next.Some? ==> forall k | k !in todo && Candidate(c, dist, visited, k) :: dist[next.value] <= dist[k]
      invariant next.Some? && ScoredTies(c.prefer, score, ok) ==>
                  forall k | k !in todo && Candidate(c, dist, visited, k) && dist[k] == dist[next.value] && ok(dist[k]) ::
                    score(k) <= score(next.value)
      decreases todo
    {
      var k :| k in todo;
      todo := todo - {k};
      if k !in visited && c.has(k) && c.nextHop(k).Some? {
        if next.None? || dist[k] < dist[next.value] || (dist[k] == dist[next.value] && c.prefer(k, next.value, dist[k])) {
          next := Some(k);
        }
      }
    }
  }

  /** `u` offers `v` a new or strictly shorter distance. */
  predicate Improves(c: Caps, dist: map<Vertex, nat>, u: Vertex, v: Vertex)
    requires u in dist
  {
    v !in dist || dist[u] + c.cost(u, v) < dist[v]
  }

  /** The state after relaxing every target in `outs` from `u`: each
      improved target gets the distance through `u` and `u` as predecessor;
      nothing else changes. */
  ghost predicate Relaxation(c: Caps, dist: map<Vertex, nat>, prev: map<Vertex, Vertex>, u: Vertex, outs: set<Vertex>,
                             dist': map<Vertex, nat>, prev': map<Vertex, Vertex>)
    requires u in dist
  {
    && dist'.Keys == dist.Keys + outs
    && (forall v | v in outs :: dist'[v] == if Improves(c, dist, u, v) then dist[u] + c.cost(u, v) else dist[v])
    && (forall v | v in dist && v !in outs :: dist'[v] == dist[v])
    && (forall v :: v in prev' <==> v in prev || (v in outs && Improves(c, dist, u, v)))
    && (forall v {:trigger prev'[v]} | v in outs && Improves(c, dist, u, v) :: prev'[v] == u)
    && (forall v {:trigger prev'[v]} | v in prev && !(v in outs && Improves(c, dist, u, v)) :: prev'[v] == prev[v])
  }

  /** The relaxation loop over `nextHop(u)`. */
  method Relax(c: Caps, dist: map<Vertex, nat>, prev: map<Vertex, Vertex>, u: Vertex, outs: set<Vertex>)
    returns (dist': map<Vertex, nat>, prev': map<Vertex, Vertex>)
    requires u in dist
    ensures Relaxation(c, dist, prev, u, outs, dist', prev')
  {
    dist', prev' := dist, prev;
    var todo := outs;
    while todo != {}
      invariant todo <= outs
      invariant u in dist' && dist'[u] == dist[u]
      invariant dist'.Keys == dist.Keys + (outs - todo)
      invariant forall v | v in outs - todo :: dist'[v] == if Improves(c, dist, u, v) then dist[u] + c.cost(u, v) else dist[v]
      invariant forall v | v in dist && v !in outs - todo :: dist'[v] == dist[v]
      invariant forall v :: v in prev' <==> v in prev || (v in outs - todo && Improves(c, dist, u, v))
      invariant forall v | v in outs - todo && Improves(c, dist, u, v) :: prev'[v] == u
      invariant forall v | v in prev && !(v in outs - todo && Improves(c, dist, u, v)) :: prev'[v] == prev[v]
      decreases todo
    {
      var v :| v in todo;
      todo := todo - {v};
      if v !in dist' {
        dist' := dist'[v := dist'[u] + c.cost(u, v)];
        prev' := prev'[v := u];
      } else {
        var d1 := dist'[v];
        var d2 := dist'[u] + c.cost(u, v);
        if d2 < d1 {
          dist' := dist'[v := d2];
          prev' := prev'[v := u];
        }
      }
    }
  }

  // ----- Routes and their weights -----

  lemma {:induction false} WeightPrefix(c: Caps, q: seq<Vertex>, j: nat)
    requires 1 <= j <= |q|
    ensures Weight(c, q[..j]) <= Weight(c, q)
    decreases |q|
  {
    if j < |q| {
      assert q[..|q| - 1][..j] == q[..j];
      WeightPrefix(c, q[..|q| - 1], j);
    } else {
      assert q[..j] == q;
    }
  }

  lemma WeightStep(c: Caps, q: seq<Vertex>, j: nat)
    requires 2 <= j <= |q|
    ensures Weight(c, q[..j]) == Weight(c, q[..j - 1]) + c.cost(q[j - 2], q[j - 1])
  {
    assert q[..j][..j - 1] == q[..j - 1];
  }

  lemma {:induction false} WeightCons(c: Caps, x: Vertex, p: seq<Vertex>)
    requires |p| >= 1
    ensures Weight(c, [x] + p) == c.cost(x, p[0]) + Weight(c, p)
    decreases |p|
  {
    var xp := [x] + p;
    if |p| == 1 {
      assert xp[..1] == [x];
    } else {
      assert xp[..|xp| - 1] == [x] + p[..|p| - 1];
      WeightCons(c, x, p[..|p| - 1]);
    }
  }

  lemma {:induction false} UnitWeight(c: Caps, p: seq<Vertex>)
    requires UnitCost(c) && |p| >= 1
    ensures Weight(c, p) == |p| - 1
    decreases |p|
  {
    if |p| > 1 {
      UnitWeight(c, p[..|p| - 1]);
    }
  }

  lemma RoutePrefix(c: Caps, q: seq<Vertex>, start: Vertex, j: nat)
    requires Route(c, q, start) && 1 <= j <= |q|
    ensures Route(c, q[..j], start)
  {
    var r := q[..j];
    forall i | 0 <= i < |r| - 1 ensures Edge(c, r[i], r[i + 1]) {
      assert r[i] == q[i] && r[i + 1] == q[i + 1];
    }
    forall i | 0 < i < |r| - 1 ensures Eligible(c, r[i]) {
      assert r[i] == q[i];
    }
  }

  // ----- The search invariants -----

  /** Every expanded vertex has had its targets relaxed. */
  ghost predicate RelaxedAll(c: Caps, dist: map<Vertex, nat>, visited: set<Vertex>) {
    forall u | u in visited ::
      && u in dist && c.nextHop(u).Some?
      && forall v | v in c.nextHop(u).value :: v in dist && dist[v] <= dist[u] + c.cost(u, v)
  }

  /** An expanded vertex is no farther than any route reaching it. */
  ghost predicate Settled(c: Caps, start: Vertex, dist: map<Vertex, nat>, visited: set<Vertex>) {
    forall q {:trigger Route(c, q, start)} | Route(c, q, start) && q[|q| - 1] in visited :: q[|q| - 1] in dist && dist[q[|q| - 1]] <= Weight(c, q)
  }

  /** Every expandable vertex closer than `bound` has been expanded. */
  ghost predicate Below(c: Caps, start: Vertex, visited: set<Vertex>, bound: nat) {
    forall q {:trigger Route(c, q, start)} | Route(c, q, start) && Weight(c, q) < bound && (|q| == 1 || Eligible(c, q[|q| - 1])) :: q[|q| - 1] in visited
  }

  /** The predecessor links: each was set while expanding its target's
      predecessor, along an edge, and an expanded vertex's predecessor was
      expanded before it. */
  ghost predicate PrevLinks(c: Caps, dist: map<Vertex, nat>, prev: map<Vertex, Vertex>,
                            visited: set<Vertex>, order: map<Vertex, nat>) {
    forall v {:trigger prev[v]} | v in prev ::
      && prev[v] in visited && prev[v] in order && prev[v] in dist && v in dist
      && Edge(c, prev[v], v)
      && dist[v] == dist[prev[v]] + c.cost(prev[v], v)
      && (v in visited ==> v in order && order[prev[v]] < order[v])
  }

  /** Once a goal has a predecessor, under unit cost: every such goal is at
      distance lastD + 1 and no route reaches a goal in fewer edges. */
  ghost predicate GoalFacts(c: Caps, start: Vertex, goals: set<Vertex>, dist: map<Vertex, nat>,
                            prev: map<Vertex, Vertex>, lastD: nat) {
    ContainsAny(prev.Keys, goals) && UnitCost(c) ==>
      && (forall g | g in prev && g in goals :: g in dist && dist[g] == lastD + 1)
      && (forall p {:trigger Route(c, p, start)} | Route(c, p, start) && p[|p| - 1] in goals :: |p| >= lastD + 2)
  }

  /** The first vertex of a route that leaves the expanded set is known,
      and no farther than the route. */
  lemma FirstExit(c: Caps, start: Vertex, q: seq<Vertex>, visited: set<Vertex>, dist: map<Vertex, nat>)
    returns (j: nat)
    requires Route(c, q, start) && q[0] in visited && q[|q| - 1] !in visited
    requires RelaxedAll(c, dist, visited) && Settled(c, start, dist, visited)
    ensures 0 < j < |q| && q[j] !in visited && q[j] in dist
    ensures dist[q[j]] <= Weight(c, q)
    ensures j < |q| - 1 ==> Eligible(c, q[j])
  {
    j := 1;
    while q[j] in visited
      invariant 1 <= j < |q|
      invariant q[j - 1] in visited
      decreases |q| - j
    {
      j := j + 1;
    }
    RoutePrefix(c, q, start, j);
    assert q[..j][j - 1] == q[j - 1];
    assert Edge(c, q[j - 1], q[j]);
    WeightStep(c, q, j + 1);
    assert q[..j + 1][..j] == q[..j];
    WeightPrefix(c, q, j + 1);
  }

  lemma SettleCurrent(c: Caps, start: Vertex, dist: map<Vertex, nat>, visited: set<Vertex>, current: Vertex)
    requires current in dist && current !in visited
    requires start in dist && dist[start] == 0
    requires visited == {} ==> current == start
    requires visited != {} ==> start in visited
    requires RelaxedAll(c, dist, visited) && Settled(c, start, dist, visited)
    requires Nearest(c, dist, visited, dist[current])
    ensures Settled(c, start, dist, visited + {current})
  {
    forall q | Route(c, q, start) && q[|q| - 1] in visited + {current}
      ensures q[|q| - 1] in dist && dist[q[|q| - 1]] <= Weight(c, q)
    {
      if q[|q| - 1] !in visited && visited != {} {
        var j := FirstExit(c, start, q, visited, dist);
        if q[j] != current {
          assert Candidate(c, dist, visited, q[j]);
        }
      }
    }
  }

  lemma BelowNext(c: Caps, start: Vertex, dist: map<Vertex, nat>, visited: set<Vertex>, next: Vertex)
    requires start in visited && next in dist && next !in visited
    requires RelaxedAll(c, dist, visited) && Settled(c, start, dist, visited)
    requires Nearest(c, dist, visited, dist[next])
    ensures Below(c, start, visited, dist[next])
  {
    forall q | Route(c, q, start) && Weight(c, q) < dist[next] && (|q| == 1 || Eligible(c, q[|q| - 1]))
      ensures q[|q| - 1] in visited
    {
      if |q| > 1 && q[|q| - 1] !in visited {
        var j := FirstExit(c, start, q, visited, dist);
        assert false;
      }
    }
  }

  /** At the head of the iteration that first gives a goal a predecessor,
      every route to a goal is at least two edges longer than the distance
      being expanded. */
  lemma GoalsFar(c: Caps, start: Vertex, goals: set<Vertex>, dist: map<Vertex, nat>, prev: map<Vertex, Vertex>,
                 visited: set<Vertex>, d: nat, p: seq<Vertex>)
    requires UnitCost(c) && start !in goals
    requires dist.Keys == prev.Keys + {start} && !ContainsAny(prev.Keys, goals)
    requires RelaxedAll(c, dist, visited) && Below(c, start, visited, d)
    requires Route(c, p, start) && p[|p| - 1] in goals
    ensures |p| >= d + 2
  {
    var n := |p|;
    RoutePrefix(c, p, start, n - 1);
    UnitWeight(c, p[..n - 1]);
  }

  /** Every expanded vertex is the start or could be expanded. */
  ghost predicate Origins(c: Caps, start: Vertex, visited: set<Vertex>) {
    forall u | u in visited :: u == start || Eligible(c, u)
  }

  /** Every rank handed out so far is below `step`. */
  ghost predicate Ranked(order: map<Vertex, nat>, step: nat) {
    forall u | u in order :: order[u] < step
  }

  /** No expanded vertex is farther than `d`. */
  ghost predicate Floor(dist: map<Vertex, nat>, visited: set<Vertex>, d: nat) {
    forall u | u in visited :: u in dist && dist[u] <= d
  }

  /** No candidate is nearer than `d`. */
  ghost predicate Nearest(c: Caps, dist: map<Vertex, nat>, visited: set<Vertex>, d: nat) {
    forall k | Candidate(c, dist, visited, k) :: d <= dist[k]
  }

  /** The vertices `vs` keep their distances from `d0` to `d1`. */
  ghost predicate Kept(d0: map<Vertex, nat>, d1: map<Vertex, nat>, vs: set<Vertex>) {
    forall u | u in vs :: u in d0 && u in d1 && d1[u] == d0[u]
  }

  /** The bookkeeping of the search that every iteration keeps. */
  ghost predicate Structure(c: Caps, start: Vertex, U: set<Vertex>, dist: map<Vertex, nat>, prev: map<Vertex, Vertex>,
                            visited: set<Vertex>, order: map<Vertex, nat>, step: nat) {
    && dist.Keys <= U && visited <= dist.Keys
    && start in dist && dist[start] == 0 && start !in prev && dist.Keys == prev.Keys + {start}
    && Origins(c, start, visited)
    && order.Keys == visited && Ranked(order, step)
    && PrevLinks(c, dist, prev, visited, order)
    && RelaxedAll(c, dist, visited)
    && Settled(c, start, dist, visited)
  }

  /** `current` is the vertex the selection loop chose. */
  ghost predicate Selected(c: Caps, start: Vertex, dist: map<Vertex, nat>, visited: set<Vertex>, current: Vertex) {
    && current in dist && current !in visited
    && Floor(dist, visited, dist[current])
    && Nearest(c, dist, visited, dist[current])
    && Below(c, start, visited, dist[current])
  }

  lemma KeepsExpanded(c: Caps, current: Vertex, outs: set<Vertex>, d0: map<Vertex, nat>, p0: map<Vertex, Vertex>,
                      v0: set<Vertex>, d1: map<Vertex, nat>, p1: map<Vertex, Vertex>)
    requires current in d0 && Relaxation(c, d0, p0, current, outs, d1, p1)
    requires Floor(d0, v0, d0[current])
    ensures Kept(d0, d1, v0 + {current})
  {
    forall u | u in v0 + {current} ensures u in d0 && u in d1 && d1[u] == d0[u] {
      if u in outs {
        assert !Improves(c, d0, current, u);
      }
    }
  }

  lemma RelaxedAfter(c: Caps, current: Vertex, outs: set<Vertex>, d0: map<Vertex, nat>, p0: map<Vertex, Vertex>,
                     v0: set<Vertex>, d1: map<Vertex, nat>, p1: map<Vertex, Vertex>)
    requires current in d0 && c.nextHop(current) == Some(outs) && Relaxation(c, d0, p0, current, outs, d1, p1)
    requires RelaxedAll(c, d0, v0) && Kept(d0, d1, v0 + {current})
    ensures RelaxedAll(c, d1, v0 + {current})
  {
    forall u | u in v0 + {current}
      ensures u in d1 && c.nextHop(u).Some? && forall v | v in c.nextHop(u).value :: v in d1 && d1[v] <= d1[u] + c.cost(u, v)
    {
      forall v | v in c.nextHop(u).value ensures v in d1 && d1[v] <= d1[u] + c.cost(u, v) {
        if u != current {
          assert v in d0 && d0[v] <= d0[u] + c.cost(u, v);
        }
      }
    }
  }

  lemma SettledAfter(c: Caps, start: Vertex, d0: map<Vertex, nat>, d1: map<Vertex, nat>, v1: set<Vertex>)
    requires Settled(c, start, d0, v1) && Kept(d0, d1, v1)
    ensures Settled(c, start, d1, v1)
  {
    forall q | Route(c, q, start) && q[|q| - 1] in v1
      ensures q[|q| - 1] in d1 && d1[q[|q| - 1]] <= Weight(c, q)
    {
      assert d1[q[|q| - 1]] == d0[q[|q| - 1]];
    }
  }

  lemma LinksAfter(c: Caps, current: Vertex, outs: set<Vertex>, d0: map<Vertex, nat>, p0: map<Vertex, Vertex>,
                   v0: set<Vertex>, o0: map<Vertex, nat>, step: nat, d1: map<Vertex, nat>, p1: map<Vertex, Vertex>)
    requires current in d0 && current !in v0 && c.nextHop(current) == Some(outs)
    requires Relaxation(c, d0, p0, current, outs, d1, p1)
    requires o0.Keys == v0 && Ranked(o0, step) && PrevLinks(c, d0, p0, v0, o0)
    requires Floor(d0, v0, d0[current]) && Kept(d0, d1, v0 + {current})
    ensures PrevLinks(c, d1, p1, v0 + {current}, o0[current := step])
  {
    var v1 := v0 + {current};
    var o1 := o0[current := step];
    forall v | v in p1
      ensures && p1[v] in v1 && p1[v] in o1 && p1[v] in d1 && v in d1
              && Edge(c, p1[v], v)
              && d1[v] == d1[p1[v]] + c.cost(p1[v], v)
              && (v in v1 ==> v in o1 && o1[p1[v]] < o1[v])
    {
      if v in outs && Improves(c, d0, current, v) {
        assert v !in v1;
      } else {
        assert p1[v] == p0[v];
        assert d1[v] == d0[v];
      }
    }
  }

  lemma KeysAfter(c: Caps, start: Vertex, U: set<Vertex>, current: Vertex, outs: set<Vertex>,
                  d0: map<Vertex, nat>, p0: map<Vertex, Vertex>, d1: map<Vertex, nat>, p1: map<Vertex, Vertex>)
    requires current in d0 && Relaxation(c, d0, p0, current, outs, d1, p1)
    requires d0.Keys <= U && outs <= U
    requires start in d0 && d0[start] == 0 && start !in p0 && d0.Keys == p0.Keys + {start}
    ensures d1.Keys <= U && start in d1 && d1[start] == 0 && start !in p1 && d1.Keys == p1.Keys + {start}
  {
    assert !Improves(c, d0, current, start);
  }

  lemma OrderAfter(c: Caps, start: Vertex, current: Vertex, v0: set<Vertex>, o0: map<Vertex, nat>, step: nat)
    requires Origins(c, start, v0)
    requires v0 == {} ==> current == start
    requires v0 != {} ==> Eligible(c, current)
    requires o0.Keys == v0 && Ranked(o0, step)
    ensures Origins(c, start, v0 + {current})
    ensures o0[current := step].Keys == v0 + {current} && Ranked(o0[current := step], step + 1)
  {
  }

  lemma CandidatesAfter(c: Caps, current: Vertex, outs: set<Vertex>, d0: map<Vertex, nat>, p0: map<Vertex, Vertex>,
                        v0: set<Vertex>, d1: map<Vertex, nat>, p1: map<Vertex, Vertex>)
    requires current in d0 && Relaxation(c, d0, p0, current, outs, d1, p1)
    requires Nearest(c, d0, v0, d0[current])
    ensures Nearest(c, d1, v0 + {current}, d0[current])
  {
    forall k | Candidate(c, d1, v0 + {current}, k) ensures d0[current] <= d1[k] {
      if !(k in outs && Improves(c, d0, current, k)) {
        assert Candidate(c, d0, v0, k);
      }
    }
  }

  lemma NewLinks(c: Caps, current: Vertex, outs: set<Vertex>, d0: map<Vertex, nat>, p0: map<Vertex, Vertex>,
                 d1: map<Vertex, nat>, p1: map<Vertex, Vertex>)
    requires current in d0 && Relaxation(c, d0, p0, current, outs, d1, p1)
    ensures forall g | g in p1 && g !in p0 :: g in d1 && d1[g] == d0[current] + c.cost(current, g)
  {
    forall g | g in p1 && g !in p0 ensures g in d1 && d1[g] == d0[current] + c.cost(current, g) {
      assert g in outs && Improves(c, d0, current, g);
    }
  }

  lemma FloorAfter(d0: map<Vertex, nat>, d1: map<Vertex, nat>, v1: set<Vertex>, d: nat)
    requires Kept(d0, d1, v1) && Floor(d0, v1, d)
    ensures Floor(d1, v1, d)
  {
  }

  /** The iteration that first gives a goal a predecessor fixes, under
      unit cost, the distance of every goal found and a lower bound on the
      length of every route to a goal. */
  lemma GoalStep(c: Caps, start: Vertex, goals: set<Vertex>, current: Vertex,
                 d0: map<Vertex, nat>, p0: map<Vertex, Vertex>, v0: set<Vertex>,
                 d1: map<Vertex, nat>, p1: map<Vertex, Vertex>)
    requires start !in goals && current in d0
    requires d0.Keys == p0.Keys + {start} && !ContainsAny(p0.Keys, goals)
    requires RelaxedAll(c, d0, v0) && Below(c, start, v0, d0[current])
    requires forall g | g in p1 && g !in p0 :: g in d1 && d1[g] == d0[current] + c.cost(current, g)
    ensures GoalFacts(c, start, goals, d1, p1, d0[current])
  {
    if ContainsAny(p1.Keys, goals) && UnitCost(c) {
      forall p | Route(c, p, start) && p[|p| - 1] in goals ensures |p| >= d0[current] + 2 {
        GoalsFar(c, start, goals, d0, p0, v0, d0[current], p);
      }
      forall g | g in p1 && g in goals ensures g in d1 && d1[g] == d0[current] + 1 {
        assert g !in p0;
      }
    }
  }

  /** When nothing is left to expand and no goal has a predecessor, no
      route reaches a goal. */
  lemma Unreachable(c: Caps, start: Vertex, goals: set<Vertex>, dist: map<Vertex, nat>, prev: map<Vertex, Vertex>,
                    visited: set<Vertex>)
    requires start !in goals && start in visited && RelaxedAll(c, dist, visited)
    requires dist.Keys == prev.Keys + {start} && prev.Keys * goals == {}
    requires forall k | k in dist :: !Candidate(c, dist, visited, k)
    ensures forall p | Route(c, p, start) :: p[|p| - 1] !in goals
  {
    forall p | Route(c, p, start) ensures p[|p| - 1] !in goals {
      ReachesKnown(c, start, dist, visited, p);
    }
  }

  /** Expanding `current`: the bookkeeping survives the relaxation, the
      distances of expanded vertices stay put, nothing unexpanded is nearer
      than `current`, and each new predecessor link is one edge from it. */
  lemma ExpandStep(c: Caps, start: Vertex, U: set<Vertex>, current: Vertex, outs: set<Vertex>,
                   d0: map<Vertex, nat>, p0: map<Vertex, Vertex>, v0: set<Vertex>, o0: map<Vertex, nat>, step: nat,
                   d1: map<Vertex, nat>, p1: map<Vertex, Vertex>)
    requires Structure(c, start, U, d0, p0, v0, o0, step) && Selected(c, start, d0, v0, current)
    requires v0 == {} ==> current == start
    requires v0 != {} ==> start in v0 && Eligible(c, current)
    requires c.nextHop(current) == Some(outs) && outs <= U
    requires Relaxation(c, d0, p0, current, outs, d1, p1)
    ensures Structure(c, start, U, d1, p1, v0 + {current}, o0[current := step], step + 1)
    ensures Floor(d1, v0 + {current}, d0[current])
    ensures Nearest(c, d1, v0 + {current}, d0[current])
    ensures forall g | g in p1 && g !in p0 :: g in d1 && d1[g] == d0[current] + c.cost(current, g)
  {
    var v1 := v0 + {current};
    SettleCurrent(c, start, d0, v0, current);
    KeepsExpanded(c, current, outs, d0, p0, v0, d1, p1);
    RelaxedAfter(c, current, outs, d0, p0, v0, d1, p1);
    SettledAfter(c, start, d0, d1, v1);
    LinksAfter(c, current, outs, d0, p0, v0, o0, step, d1, p1);
    KeysAfter(c, start, U, current, outs, d0, p0, d1, p1);
    OrderAfter(c, start, current, v0, o0, step);
    CandidatesAfter(c, current, outs, d0, p0, v0, d1, p1);
    NewLinks(c, current, outs, d0, p0, d1, p1);
    assert Floor(d0, v1, d0[current]);
    FloorAfter(d0, d1, v1, d0[current]);
  }

  /** Choosing `next` makes it the selected vertex of the next iteration. */
  lemma SelectStep(c: Caps, start: Vertex, U: set<Vertex>, dist: map<Vertex, nat>, prev: map<Vertex, Vertex>,
                   visited: set<Vertex>, order: map<Vertex, nat>, step: nat, d: nat, next: Vertex)
    requires Structure(c, start, U, dist, prev, visited, order, step) && start in visited
    requires Floor(dist, visited, d) && Nearest(c, dist, visited, d)
    requires Candidate(c, dist, visited, next) && Nearest(c, dist, visited, dist[next])
    ensures Selected(c, start, dist, visited, next)
  {
    BelowNext(c, start, dist, visited, next);
  }

  function Rank(order: map<Vertex, nat>, step: nat, v: Vertex): nat {
    if v in order then order[v] else step
  }

  /** What the search loop keeps at the head of every iteration. */
  ghost predicate Searching(c: Caps, start: Vertex, goals: set<Vertex>, U: set<Vertex>,
                            dist: map<Vertex, nat>, prev: map<Vertex, Vertex>, visited: set<Vertex>, current: Vertex,
                            order: map<Vertex, nat>, step: nat, lastD: nat) {
    && Structure(c, start, U, dist, prev, visited, order, step)
    && Selected(c, start, dist, visited, current)
    && (visited == {} ==> current == start && prev == map[])
    && (visited != {} ==> start in visited && start !in goals && c.nextHop(start).Some? && Eligible(c, current))
    && GoalFacts(c, start, goals, dist, prev, lastD)
  }

  /** What the search loop leaves behind when it stops without a fault:
      either a goal has a predecessor, or the start is a goal and nothing was
      expanded, or nothing is left to expand. */
  ghost predicate Stopped(c: Caps, start: Vertex, goals: set<Vertex>, U: set<Vertex>,
                          dist: map<Vertex, nat>, prev: map<Vertex, Vertex>, visited: set<Vertex>,
                          order: map<Vertex, nat>, step: nat, lastD: nat) {
    && Structure(c, start, U, dist, prev, visited, order, step)
    && GoalFacts(c, start, goals, dist, prev, lastD)
    && (start in goals ==> prev == map[])
    && (start !in goals ==>
          start in visited && (ContainsAny(prev.Keys, goals) || forall k | k in dist :: !Candidate(c, dist, visited, k)))
  }

  lemma SearchBegins(c: Caps, start: Vertex, goals: set<Vertex>, U: set<Vertex>)
    requires start in U
    ensures Searching(c, start, goals, U, map[start := 0], map[], {}, start, map[], 0, 0)
  {
    var dist: map<Vertex, nat> := map[start := 0];
    assert Settled(c, start, dist, {});
    assert Below(c, start, {}, 0);
  }

  /** The state right after an expansion at distance `d`: the bookkeeping
      holds, no expanded vertex is farther than `d`, no candidate nearer,
      and the start has been expanded. */
  ghost predicate Expanded(c: Caps, start: Vertex, goals: set<Vertex>, U: set<Vertex>,
                           dist: map<Vertex, nat>, prev: map<Vertex, Vertex>, visited: set<Vertex>,
                           order: map<Vertex, nat>, step: nat, d: nat, lastD: nat) {
    && Structure(c, start, U, dist, prev, visited, order, step)
    && Floor(dist, visited, d) && Nearest(c, dist, visited, d)
    && GoalFacts(c, start, goals, dist, prev, lastD)
    && start in visited && start !in goals && c.nextHop(start).Some?
  }

  /** One expansion, as far as the invariant is concerned. */
  lemma Advance(c: Caps, start: Vertex, goals: set<Vertex>, U: set<Vertex>, current: Vertex, outs: set<Vertex>,
                d0: map<Vertex, nat>, p0: map<Vertex, Vertex>, v0: set<Vertex>, o0: map<Vertex, nat>, step: nat,
                lastD: nat, d1: map<Vertex, nat>, p1: map<Vertex, Vertex>)
    returns (lastD': nat)
    requires Searching(c, start, goals, U, d0, p0, v0, current, o0, step, lastD)
    requires current !in goals && !ContainsAny(p0.Keys, goals)
    requires c.nextHop(current) == Some(outs) && Closed(c, U)
    requires Relaxation(c, d0, p0, current, outs, d1, p1)
    ensures Expanded(c, start, goals, U, d1, p1, v0 + {current}, o0[current := step], step + 1, d0[current], lastD')
    ensures ContainsAny(p1.Keys, goals) || lastD' == lastD
  {
    ExpandStep(c, start, U, current, outs, d0, p0, v0, o0, step, d1, p1);
    lastD' := lastD;
    if ContainsAny(p1.Keys, goals) {
      lastD' := d0[current];
      GoalStep(c, start, goals, current, d0, p0, v0, d1, p1);
    }
  }

  /** Selecting `next` after an expansion gives the invariant back. */
  lemma Resume(c: Caps, start: Vertex, goals: set<Vertex>, U: set<Vertex>,
               dist: map<Vertex, nat>, prev: map<Vertex, Vertex>, visited: set<Vertex>, next: Vertex,
               order: map<Vertex, nat>, step: nat, d: nat, lastD: nat)
    requires Expanded(c, start, goals, U, dist, prev, visited, order, step, d, lastD)
    requires Candidate(c, dist, visited, next) && Nearest(c, dist, visited, dist[next])
    ensures Searching(c, start, goals, U, dist, prev, visited, next, order, step, lastD)
  {
    SelectStep(c, start, U, dist, prev, visited, order, step, d, next);
  }

  /** The loop condition fails: the search stops with a goal current or
      with a goal that has a predecessor. */
  lemma Finish(c: Caps, start: Vertex, goals: set<Vertex>, U: set<Vertex>,
               dist: map<Vertex, nat>, prev: map<Vertex, Vertex>, visited: set<Vertex>, current: Vertex,
               order: map<Vertex, nat>, step: nat, lastD: nat)
    requires Searching(c, start, goals, U, dist, prev, visited, current, order, step, lastD)
    requires current in goals || ContainsAny(prev.Keys, goals)
    ensures Stopped(c, start, goals, U, dist, prev, visited, order, step, lastD)
  {
  }

  /** Nothing is left to select: the search stops exhausted. */
  lemma Exhaust(c: Caps, start: Vertex, goals: set<Vertex>, U: set<Vertex>,
                dist: map<Vertex, nat>, prev: map<Vertex, Vertex>, visited: set<Vertex>,
                order: map<Vertex, nat>, step: nat, d: nat, lastD: nat)
    requires Expanded(c, start, goals, U, dist, prev, visited, order, step, d, lastD)
    requires forall k | k in dist :: !Candidate(c, dist, visited, k)
    ensures Stopped(c, start, goals, U, dist, prev, visited, order, step, lastD)
  {
  }

  lemma Shrinks(U: set<Vertex>, visited: set<Vertex>, v: Vertex)
    requires v in U && v !in visited
    ensures |U - (visited + {v})| < |U - visited|
  {
    assert U - visited == (U - (visited + {v})) + {v};
  }

  /** One iteration of the search loop on an expandable `current`: mark it
      visited, relax its targets, and select the next vertex, or none. */
  method Iterate(c: Caps, start: Vertex, goals: set<Vertex>, ghost U: set<Vertex>,
                 dist: map<Vertex, nat>, prev: map<Vertex, Vertex>, visited: set<Vertex>, current: Vertex,
                 ghost order: map<Vertex, nat>, ghost step: nat, ghost lastD: nat)
    returns (dist': map<Vertex, nat>, prev': map<Vertex, Vertex>, visited': set<Vertex>, next: Option<Vertex>,
             ghost order': map<Vertex, nat>, ghost step': nat, ghost lastD': nat)
    requires Searching(c, start, goals, U, dist, prev, visited, current, order, step, lastD)
    requires current !in goals && !ContainsAny(prev.Keys, goals)
    requires c.nextHop(current).Some? && Closed(c, U)
    ensures visited' == visited + {current} && current !in visited
    ensures next.Some? ==> Searching(c, start, goals, U, dist', prev', visited', next.value, order', step', lastD')
    ensures next.None? ==> Stopped(c, start, goals, U, dist', prev', visited', order', step', lastD')
  {
    var outs := c.nextHop(current).value;
    visited' := visited + {current};
    order', step' := order[current := step], step + 1;
    dist', prev' := Relax(c, dist, prev, current, outs);
    lastD' := Advance(c, start, goals, U, current, outs, dist, prev, visited, order, step, lastD, dist', prev');
    // The tie rules are stated per hook and for SelectNext alone; the loop
    // does not carry a score, so no Find contract says which of several
    // shortest routes is returned.
    next := SelectNext(c, dist', visited', v => 0.0, d => false);
    if next.None? {
      Exhaust(c, start, goals, U, dist', prev', visited', order', step', dist[current], lastD');
    } else {
      Resume(c, start, goals, U, dist', prev', visited', next.value, order', step', dist[current], lastD');
    }
  }

  /** The search loop of path(Integer, Collection): expand the current
      vertex, relax its targets and select the next one, until a goal is
      current or has a predecessor, or nothing is left to expand.  `failed`
      is the NullPointerException the relaxation loop raises when the start
      has no `nextHop`. */
  method Search(c: Caps, start: Vertex, goals: set<Vertex>, ghost universe: set<Vertex>)
    returns (failed: bool, dist: map<Vertex, nat>, prev: map<Vertex, Vertex>, visited: set<Vertex>,
             ghost order: map<Vertex, nat>, ghost step: nat, ghost lastD: nat)
    requires Closed(c, universe)
    ensures failed <==> start !in goals && c.nextHop(start).None?
    ensures !failed ==> Stopped(c, start, goals, universe + {start}, dist, prev, visited, order, step, lastD)
  {
    ghost var U := universe + {start};
    dist := map[start := 0];
    prev := map[];
    visited := {};
    var current := start;
    order, step, lastD := map[], 0, 0;
    SearchBegins(c, start, goals, U);
    while current !in goals && !ContainsAny(prev.Keys, goals)
      invariant Searching(c, start, goals, U, dist, prev, visited, current, order, step, lastD)
      invariant visited == {} ==> current == start
      invariant visited != {} ==> start !in goals && c.nextHop(start).Some?
      invariant visited <= U && current in U
      decreases |U - visited|
    {
      if c.nextHop(current).None? {
        return true, dist, prev, visited, order, step, lastD;
      }
      ghost var v0 := visited;
      var next;
      dist, prev, visited, next, order, step, lastD :=
        Iterate(c, start, goals, U, dist, prev, visited, current, order, step, lastD);
      Shrinks(U, v0, current);
      if next.None? {
        return false, dist, prev, visited, order, step, lastD;
      }
      current := next.value;
    }
    Finish(c, start, goals, U, dist, prev, visited, current, order, step, lastD);
    failed := false;
  }

  /** path(Integer, Collection). */
  method Explore(c: Caps, start: Vertex, goals: set<Vertex>, ghost universe: set<Vertex>)
    returns (r: Result<seq<Vertex>, Fault>)
    requires Closed(c, universe)
    ensures r.Failure? <==> start !in goals && c.nextHop(start).None?
    ensures r.Failure? ==> r.error == NullPointer
    ensures start in goals ==> r == Success([])
    ensures r.Success? && r.value != [] ==>
              Route(c, r.value, start) && |r.value| >= 2 && r.value[|r.value| - 1] in goals
    ensures r.Success? && r.value == [] && start !in goals ==>
              forall p | Route(c, p, start) :: p[|p| - 1] !in goals
    ensures r.Success? && r.value != [] && UnitCost(c) ==>
              forall p | Route(c, p, start) && p[|p| - 1] in goals :: |r.value| <= |p|
  {
    var failed, dist, prev, visited, order, step, lastD := Search(c, start, goals, universe);
    if failed {
      return Failure(NullPointer);
    }
    // build path
    var pick := PickFromIntersect(prev.Keys, goals);
    if pick.None? {
      if start !in goals {
        Unreachable(c, start, goals, dist, prev, visited);
      }
      return Success([]);
    }
    var path := Rebuild(c, start, pick.value, dist, prev, visited, order, step);
    if UnitCost(c) {
      UnitWeight(c, path);
    }
    return Success(path);
  }

  /** path(int, int): the search towards a single goal, Collections.singleton. */
  method PathTo(c: Caps, start: Vertex, goal: Vertex, ghost universe: set<Vertex>)
    returns (r: Result<seq<Vertex>, Fault>)
    requires Closed(c, universe)
    ensures r.Failure? <==> start != goal && c.nextHop(start).None?
    ensures r.Failure? ==> r.error == NullPointer
    ensures start == goal ==> r == Success([])
    ensures r.Success? && r.value != [] ==>
              Route(c, r.value, start) && |r.value| >= 2 && r.value[|r.value| - 1] == goal
    ensures r.Success? && r.value == [] && start != goal ==>
              forall p | Route(c, p, start) :: p[|p| - 1] != goal
    ensures r.Success? && r.value != [] && UnitCost(c) ==>
              forall p | Route(c, p, start) && p[|p| - 1] == goal :: |r.value| <= |p|
  {
    r := Explore(c, start, {goal}, universe);
  }

  /** The path is built backwards from the goal through `previous`, with
      add(0, ...), until the start is reached. */
  method Rebuild(c: Caps, start: Vertex, g: Vertex, dist: map<Vertex, nat>, prev: map<Vertex, Vertex>,
                 ghost visited: set<Vertex>, ghost order: map<Vertex, nat>, ghost step: nat)
    returns (path: seq<Vertex>)
    requires g in prev && start !in prev && start in dist && dist[start] == 0
    requires visited <= prev.Keys + {start}
    requires Origins(c, start, visited) && order.Keys == visited && Ranked(order, step)
    requires PrevLinks(c, dist, prev, visited, order)
    ensures Route(c, path, start) && |path| >= 2 && path[|path| - 1] == g
    ensures Weight(c, path) == dist[g]
  {
    path := [g];
    while path[0] != start
      invariant |path| >= 1 && path[|path| - 1] == g
      invariant path[0] == start || path[0] in prev
      invariant forall i | 0 <= i < |path| - 1 :: Edge(c, path[i], path[i + 1])
      invariant forall i | 0 <= i < |path| - 1 :: path[i] in visited
      invariant forall i | 1 <= i < |path| :: path[i] != start
      invariant path[0] in dist && dist[path[0]] + Weight(c, path) == dist[g]
      decreases Rank(order, step, path[0])
    {
      var h := path[0];
      WeightCons(c, prev[h], path);
      path := [prev[h]] + path;
    }
  }

  /** With nothing left to expand, every route stays among known vertices. */
  lemma ReachesKnown(c: Caps, start: Vertex, dist: map<Vertex, nat>, visited: set<Vertex>, p: seq<Vertex>)
    requires start in visited && RelaxedAll(c, dist, visited)
    requires forall k | k in dist :: !Candidate(c, dist, visited, k)
    requires Route(c, p, start)
    ensures p[|p| - 1] in dist
  {
    var i := 0;
    while i < |p| - 1
      invariant 0 <= i < |p| && p[i] in dist
      decreases |p| - i
    {
      assert p[i] in visited by {
        if i > 0 { assert !Candidate(c, dist, visited, p[i]); }
      }
      assert Edge(c, p[i], p[i + 1]);
      i := i + 1;
    }
  }
}
