/**
 * setDecimatedVertices of finder 002: a lookup table of 5 slots per core
 * article is filled, in key order, with a run of copies of each article
 * whose length falls with its priority; then ids drawn at random slots are
 * the decimated articles.  The random draws are an input sequence of slot
 * indices, and doubles are modelled by exact reals.
 */
module Decimation {
  import opened Wrappers
  import opened WikiGraph
  import opened CoreSplit

  /** The `f` of setDecimatedVertices: table slots per core article. */
  const SlotsPerArticle: nat := 5

  /** The bound of `for (j = 0; j < p * f; j++)` with p = 1 - priority / 3. */
  function SlotBound(priority: real): real {
    (SlotsPerArticle as real) * (1.0 - priority / 3.0)
  }

  /** How many times the inner loop runs: the least n with n >= the bound. */
  function Slots(priority: real): (n: nat)
    ensures 0.0 <= priority ==> n <= SlotsPerArticle
    ensures priority < 0.6 && 0.0 <= priority ==> n == SlotsPerArticle
    ensures 0.6 <= priority ==> n < SlotsPerArticle
  {
    var x := SlotBound(priority);
    if x <= 0.0 then 0
    else if x.Floor as real == x then x.Floor
    else x.Floor + 1
  }

  /** The inner loop runs for exactly the j below Slots. */
  lemma SlotsCount(priority: real, j: nat)
    ensures (j as real) < SlotBound(priority) <==> j < Slots(priority)
  {
    var x := SlotBound(priority);
    if x > 0.0 {
      assert x.Floor as real <= x < x.Floor as real + 1.0;
      if x.Floor as real != x {
        assert j < x.Floor + 1 <==> (j as real) < x.Floor as real + 1.0;
      }
    }
  }

  function Repeat(x: Id, n: nat): seq<Id> {
    seq(n, k => x)
  }

  /** The intended contents of the table: each core article, in key order,
      owns as many consecutive slots as its Slots count. */
  function Layout(order: seq<Id>, priorities: map<Id, real>): seq<Id>
    decreases |order|
  {
    if order == [] then []
    else
      var last := order[|order| - 1];
      Layout(order[..|order| - 1], priorities) + Repeat(last, Slots(Priority(priorities, last)))
  }

  lemma LayoutStep(order: seq<Id>, priorities: map<Id, real>, m: nat)
    requires m < |order|
    ensures Layout(order[..m + 1], priorities)
            == Layout(order[..m], priorities) + Repeat(order[m], Slots(Priority(priorities, order[m])))
  {
    assert order[..m + 1][..m] == order[..m];
  }

  /** The layout of a prefix of the keys is a prefix of the whole layout. */
  lemma {:induction false} LayoutPrefix(order: seq<Id>, priorities: map<Id, real>, m: nat)
    requires m <= |order|
    ensures Layout(order[..m], priorities) <= Layout(order, priorities)
    decreases |order| - m
  {
    if m < |order| {
      LayoutPrefix(order, priorities, m + 1);
      LayoutStep(order, priorities, m);
    } else {
      assert order[..m] == order;
    }
  }

  /** Every slot of the layout holds a core article. */
  lemma {:induction false} LayoutMembers(order: seq<Id>, priorities: map<Id, real>)
    ensures forall k | 0 <= k < |Layout(order, priorities)| :: Layout(order, priorities)[k] in order
    decreases |order|
  {
    if order != [] {
      var init := order[..|order| - 1];
      LayoutMembers(init, priorities);
      forall k | 0 <= k < |Layout(init, priorities)| ensures Layout(init, priorities)[k] in order {
        assert Layout(init, priorities)[k] in init;
      }
    }
  }

  /** With non-negative priorities at most 5 slots per article are needed,
      and all of them exactly when every priority is below 0.6. */
  lemma {:induction false} LayoutLength(order: seq<Id>, priorities: map<Id, real>)
    requires forall k | 0 <= k < |order| :: 0.0 <= Priority(priorities, order[k])
    ensures |Layout(order, priorities)| <= SlotsPerArticle * |order|
    ensures (forall k | 0 <= k < |order| :: Priority(priorities, order[k]) < 0.6) <==>
              |Layout(order, priorities)| == SlotsPerArticle * |order|
    decreases |order|
  {
    if order != [] {
      var init := order[..|order| - 1];
      var last := order[|order| - 1];
      assert forall k | 0 <= k < |init| :: init[k] == order[k];
      LayoutLength(init, priorities);
      if |Layout(order, priorities)| == SlotsPerArticle * |order| {
        assert Slots(Priority(priorities, last)) == SlotsPerArticle;
        forall k | 0 <= k < |order| ensures Priority(priorities, order[k]) < 0.6 {
          if k < |init| {
            assert order[k] == init[k];
          }
        }
      }
    }
  }

  /** A table index the caller's random source can produce for `length`. */
  predicate InRange(draws: seq<nat>, quota: nat, length: nat) {
    |draws| >= quota && forall k | 0 <= k < quota :: draws[k] < length
  }

  /** (int)(decimationRatio * core.size()) as the bound of the sampling loop:
      the cast truncates toward zero, and a bound at or below zero runs no
      iteration. */
  function Quota(ratio: real, n: nat): nat {
    var x := ratio * (n as real);
    if x <= 0.0 then 0 else x.Floor
  }

  /** The inner loop of the fill as written, for one article: each write
      goes to `++i`, so it throws once `i + 1` reaches the table length. */
  method WriteRunAsWritten(table: array<Id>, i0: nat, articleId: Id, priority: real, ghost before: seq<Id>)
    returns (i: nat, overflow: bool)
    requires i0 == |before| < table.Length
    requires forall k | 0 <= k < table.Length :: table[k] == if 1 <= k <= |before| then before[k - 1] else 0
    modifies table
    ensures overflow <==> |before| + Slots(priority) >= table.Length
    ensures !overflow ==> i == |before| + Slots(priority)
    ensures !overflow ==> forall k | 0 <= k < table.Length ::
              table[k] == if 1 <= k <= i then (before + Repeat(articleId, Slots(priority)))[k - 1] else 0
  {
    var p := 1.0 - priority / 3.0;
    ghost var n := Slots(priority);
    i := i0;
    var j := 0;
    while (j as real) < p * (SlotsPerArticle as real)
      invariant 0 <= j <= n && i == |before| + j && i < table.Length
      invariant forall k | 0 <= k < table.Length ::
                  table[k] == if 1 <= k <= |before| then before[k - 1] else if |before| < k <= i then articleId else 0
      decreases n - j
    {
      SlotsCount(priority, j);
      if i + 1 >= table.Length {
        return i, true;
      }
      i := i + 1;
      table[i] := articleId;
      j := j + 1;
    }
    SlotsCount(priority, j);
    overflow := false;
  }

  /** The lookup-table fill as written: the bound check runs once per
      article, and each write goes to `++i`. */
  method FillAsWritten(order: seq<Id>, priorities: map<Id, real>) returns (r: Result<seq<Id>, Fault>)
    ensures var L := Layout(order, priorities);
            r.Failure? <==> |order| > 0 && |L| >= SlotsPerArticle * |order|
    ensures r.Failure? ==> r.error == IndexOutOfBounds
    ensures var L := Layout(order, priorities);
            r.Success? ==> && |r.value| == SlotsPerArticle * |order|
                           && (forall k | 1 <= k <= |L| :: r.value[k] == L[k - 1])
                           && (forall k | 0 <= k < |r.value| && (k == 0 || k > |L|) :: r.value[k] == 0)
  {
    var table := new Id[SlotsPerArticle * |order|](_ => 0);
    var i := 0;
    var m := 0;
    while m < |order|
      invariant 0 <= m <= |order| && i == |Layout(order[..m], priorities)|
      invariant |order| > 0 ==> i < table.Length
      invariant forall k | 0 <= k < table.Length ::
                  table[k] == if 1 <= k <= i then Layout(order[..m], priorities)[k - 1] else 0
    {
      if i >= table.Length {
        break;
      }
      var articleId := order[m];
      var overflow;
      LayoutStep(order, priorities, m);
      i, overflow := WriteRunAsWritten(table, i, articleId, Priority(priorities, articleId), Layout(order[..m], priorities));
      if overflow {
        LayoutPrefix(order, priorities, m + 1);
        return Failure(IndexOutOfBounds);
      }
      m := m + 1;
    }
    assert order[..m] == order;
    return Success(table[..]);
  }

  /** A one-article core whose priority is below 0.6 fills all five slots
      after index 0, so the last write lands on index 5 of a five-slot table. */
  lemma OneLowPriorityOverflows(v: Id, priority: real)
    requires 0.0 <= priority < 0.6
    ensures |Layout([v], map[v := priority])| >= SlotsPerArticle * |[v]|
  {
    assert [v][..0] == [];
  }

  /** The inner loop of the corrected fill, for one article: writes go to
      `i++` and throw once `i` reaches the table length. */
  method WriteRun(table: array<Id>, i0: nat, articleId: Id, priority: real, ghost before: seq<Id>)
    returns (i: nat, overflow: bool)
    requires i0 == |before| <= table.Length
    requires forall k | 0 <= k < table.Length :: table[k] == if k < |before| then before[k] else 0
    modifies table
    ensures overflow <==> |before| + Slots(priority) > table.Length
    ensures !overflow ==> i == |before| + Slots(priority)
    ensures !overflow ==> forall k | 0 <= k < table.Length ::
              table[k] == if k < i then (before + Repeat(articleId, Slots(priority)))[k] else 0
  {
    var p := 1.0 - priority / 3.0;
    ghost var n := Slots(priority);
    i := i0;
    var j := 0;
    while (j as real) < p * (SlotsPerArticle as real)
      invariant 0 <= j <= n && i == |before| + j && i <= table.Length
      invariant forall k | 0 <= k < table.Length ::
                  table[k] == if k < |before| then before[k] else if k < i then articleId else 0
      decreases n - j
    {
      SlotsCount(priority, j);
      if i >= table.Length {
        return i, true;
      }
      table[i] := articleId;
      i := i + 1;
      j := j + 1;
    }
    SlotsCount(priority, j);
    overflow := false;
  }

  /** The fill with the evident intent: `i++`, so slots 0 .. n-1 are written.
      It overruns only when the articles need more slots than the table has. */
  method Fill(order: seq<Id>, priorities: map<Id, real>) returns (r: Result<seq<Id>, Fault>)
    ensures r.Failure? ==> |Layout(order, priorities)| > SlotsPerArticle * |order|
    ensures r.Failure? ==> r.error == IndexOutOfBounds
    ensures r.Success? ==> |r.value| == SlotsPerArticle * |order|
    ensures r.Success? ==> forall k | 0 <= k < |r.value| :: r.value[k] == 0 || r.value[k] in order
    ensures var L := Layout(order, priorities);
            |L| <= SlotsPerArticle * |order| ==>
              && r.Success?
              && r.value[..|L|] == L
              && (forall k | |L| <= k < |r.value| :: r.value[k] == 0)
  {
    var table := new Id[SlotsPerArticle * |order|](_ => 0);
    var i := 0;
    var m := 0;
    while m < |order|
      invariant 0 <= m <= |order| && i == |Layout(order[..m], priorities)| && i <= table.Length
      invariant forall k | 0 <= k < table.Length ::
                  table[k] == if k < i then Layout(order[..m], priorities)[k] else 0
    {
      if i >= table.Length {
        break;
      }
      var articleId := order[m];
      var overflow;
      LayoutStep(order, priorities, m);
      i, overflow := WriteRun(table, i, articleId, Priority(priorities, articleId), Layout(order[..m], priorities));
      if overflow {
        LayoutPrefix(order, priorities, m + 1);
        return Failure(IndexOutOfBounds);
      }
      m := m + 1;
    }
    FillDone(order, priorities, m);
    ghost var Lm := Layout(order[..m], priorities);
    forall k | 0 <= k < table.Length && table[k] != 0 ensures table[k] in order {
      assert k < |Lm| && table[k] == Lm[k];
    }
    if |Layout(order, priorities)| <= table.Length {
      assert Lm == Layout(order, priorities);
      assert table[..][..|Lm|] == Lm;
    }
    return Success(table[..]);
  }

  /** Where the outer loop of the fill stops: the layout so far is the
      whole layout, or a prefix of it that already fills the table. */
  lemma FillDone(order: seq<Id>, priorities: map<Id, real>, m: nat)
    requires m <= |order|
    ensures Layout(order[..m], priorities) <= Layout(order, priorities)
    ensures m == |order| ==> Layout(order[..m], priorities) == Layout(order, priorities)
    ensures forall k | 0 <= k < |Layout(order[..m], priorities)| :: Layout(order[..m], priorities)[k] in order
  {
    LayoutPrefix(order, priorities, m);
    if m == |order| {
      assert order[..m] == order;
    }
    LayoutMembers(order[..m], priorities);
    forall k | 0 <= k < |Layout(order[..m], priorities)| ensures Layout(order[..m], priorities)[k] in order {
      assert Layout(order[..m], priorities)[k] in order[..m];
    }
  }

  /** The sampling loop: the table entries at the first `quota` draws. */
  method Sample(table: seq<Id>, quota: nat, draws: seq<nat>) returns (decimated: set<Id>)
    requires InRange(draws, quota, |table|)
    ensures decimated == set k | 0 <= k < quota :: table[draws[k]]
    ensures |decimated| <= quota
  {
    decimated := {};
    var i := 0;
    while i < quota
      invariant 0 <= i <= quota
      invariant decimated == set k | 0 <= k < i :: table[draws[k]]
      invariant |decimated| <= i
    {
      ghost var before := decimated;
      decimated := decimated + {table[draws[i]]};
      assert decimated == set k | 0 <= k < i + 1 :: table[draws[k]] by {
        forall x | x in decimated ensures x in set k | 0 <= k < i + 1 :: table[draws[k]] {
          if x !in before {
            assert x == table[draws[i]];
          }
        }
      }
      i := i + 1;
    }
  }
}
