/**
 * CompositeWikipediaPathFinder: a list of strategies tried in insertion
 * order; the first answer that is a path of at least two articles from the
 * start to the goal is returned, and otherwise an empty array.  What a
 * strategy answers for the given start and goal is a parameter `answer`
 * (None stands for a null array, Failure for an exception it throws, which
 * the composite does not catch).
 */
module Composite {
  import opened Wrappers
  import opened WikiGraph

  /** The acceptance test of find. */
  predicate Acceptable(p: Option<seq<Label>>, start: Label, goal: Label) {
    p.Some? && |p.value| >= 2 && p.value[0] == start && p.value[|p.value| - 1] == goal
  }

  /** What one strategy's find does: returns an array (None for null), or
      throws, and then the exception leaves the composite's find too. */
  type Answer = Result<Option<seq<Label>>, Fault>

  /** The strategies before index k all returned, and none acceptably. */
  predicate Passed(answers: seq<Answer>, k: nat, start: Label, goal: Label)
    requires k <= |answers|
  {
    forall i | 0 <= i < k :: answers[i].Success? && !Acceptable(answers[i].value, start, goal)
  }

  /** The reference result: the first exception or acceptable answer,
      whichever comes first, else empty. */
  function FirstAcceptable(answers: seq<Answer>, start: Label, goal: Label): (r: Result<seq<Label>, Fault>)
    decreases |answers|
  {
    if answers == [] then Success([])
    else if answers[0].Failure? then Failure(answers[0].error)
    else if Acceptable(answers[0].value, start, goal) then Success(answers[0].value.value)
    else FirstAcceptable(answers[1..], start, goal)
  }

  /** An exception is the one thrown by some strategy all of whose
      predecessors returned unacceptable answers; a non-empty result is
      the acceptable answer of such a strategy; the empty result means that
      every strategy returned, and none acceptably. */
  lemma {:induction false} FirstAcceptableSpec(answers: seq<Answer>, start: Label, goal: Label)
    ensures var r := FirstAcceptable(answers, start, goal);
            r.Failure? ==> exists k | 0 <= k < |answers| ::
                             && Passed(answers, k, start, goal)
                             && answers[k] == Failure(r.error)
    ensures var r := FirstAcceptable(answers, start, goal);
            r.Success? && r.value != [] ==> exists k | 0 <= k < |answers| ::
                             && Passed(answers, k, start, goal)
                             && answers[k].Success? && Acceptable(answers[k].value, start, goal)
                             && r.value == answers[k].value.value
    ensures FirstAcceptable(answers, start, goal) == Success([]) <==> Passed(answers, |answers|, start, goal)
    decreases |answers|
  {
    if answers != [] {
      var rest := answers[1..];
      var r := FirstAcceptable(answers, start, goal);
      if answers[0].Failure? {
        assert Passed(answers, 0, start, goal);
        assert !Passed(answers, |answers|, start, goal);
      } else if Acceptable(answers[0].value, start, goal) {
        assert Passed(answers, 0, start, goal);
        assert !Passed(answers, |answers|, start, goal);
      } else {
        FirstAcceptableSpec(rest, start, goal);
        PassedCons(answers, |rest|, start, goal);
        if r.Failure? || r.value != [] {
          var k :| 0 <= k < |rest| && Passed(rest, k, start, goal) && rest[k] == answers[k + 1];
          PassedCons(answers, k, start, goal);
        }
      }
    }
  }

  /** Passing the first k + 1 strategies is passing the first one and then
      the first k of the rest. */
  lemma PassedCons(answers: seq<Answer>, k: nat, start: Label, goal: Label)
    requires answers != [] && k < |answers|
    requires answers[0].Success? && !Acceptable(answers[0].value, start, goal)
    ensures Passed(answers, k + 1, start, goal) <==> Passed(answers[1..], k, start, goal)
  {
    if Passed(answers[1..], k, start, goal) {
      forall i | 0 <= i < k + 1 ensures answers[i].Success? && !Acceptable(answers[i].value, start, goal) {
        if i > 0 {
          assert answers[i] == answers[1..][i - 1];
        }
      }
    }
    if Passed(answers, k + 1, start, goal) {
      forall i | 0 <= i < k ensures answers[1..][i].Success? && !Acceptable(answers[1..][i].value, start, goal) {
        assert answers[1..][i] == answers[i + 1];
      }
    }
  }

  /** Strategies after the first exception or acceptable answer make no
      difference: they are never asked. */
  lemma {:induction false} LaterIgnored(answers: seq<Answer>, later: seq<Answer>, start: Label, goal: Label)
    requires FirstAcceptable(answers, start, goal) != Success([])
    ensures FirstAcceptable(answers + later, start, goal) == FirstAcceptable(answers, start, goal)
    decreases |answers|
  {
    assert (answers + later)[0] == answers[0];
    if answers[0].Success? && !Acceptable(answers[0].value, start, goal) {
      assert (answers + later)[1..] == answers[1..] + later;
      LaterIgnored(answers[1..], later, start, goal);
    }
  }

  /** The answers of the strategies, in list order. */
  function Answers<S>(finders: seq<S>, answer: S -> Answer): seq<Answer> {
    seq(|finders|, i requires 0 <= i < |finders| => answer(finders[i]))
  }

  class CompositeFinder<S> {
    /** pathFinderList */
    var finders: seq<S>

    constructor ()
      ensures finders == []
    {
      finders := [];
    }

    /** add(finder): appends and returns the composite itself. */
    method Add(finder: S) returns (self: CompositeFinder<S>)
      modifies this
      ensures finders == old(finders) + [finder]
      ensures self == this
    {
      finders := finders + [finder];
      return this;
    }

    /** find(start, goal).  `tried` is how many strategies were asked; an
        exception of the last one asked is the result's Failure. */
    method Find(start: Label, goal: Label, answer: S -> Answer) returns (r: Result<seq<Label>, Fault>, tried: nat)
      ensures r == FirstAcceptable(Answers(finders, answer), start, goal)
      ensures tried <= |finders|
      ensures tried >= 1 ==> Passed(Answers(finders, answer), tried - 1, start, goal)
      ensures r.Failure? ==> tried >= 1 && answer(finders[tried - 1]) == Failure(r.error)
      ensures r.Success? && r.value != [] ==>
                tried >= 1 && answer(finders[tried - 1]).Success?
                && Acceptable(answer(finders[tried - 1]).value, start, goal)
                && r.value == answer(finders[tried - 1]).value.value
      ensures r == Success([]) ==> tried == |finders| && Passed(Answers(finders, answer), |finders|, start, goal)
    {
      ghost var all := Answers(finders, answer);
      var i := 0;
      while i < |finders|
        invariant 0 <= i <= |finders|
        invariant Passed(all, i, start, goal)
        invariant FirstAcceptable(all, start, goal) == FirstAcceptable(all[i..], start, goal)
      {
        var path := answer(finders[i]);
        assert all[i..][0] == path;
        if path.Failure? {
          return Failure(path.error), i + 1;
        }
        if path.value.Some? && |path.value.value| >= 2 && path.value.value[0] == start && path.value.value[|path.value.value| - 1] == goal {
          return Success(path.value.value), i + 1;
        }
        assert all[i..][1..] == all[i + 1..];
        i := i + 1;
      }
      return Success([]), i;
    }
  }
}
