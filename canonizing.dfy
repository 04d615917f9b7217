/**
 * CanonizingPathFinder: titles typed by a player are mapped onto the
 * registered article with the same normal form (runs of '-' and '_' as one
 * space, upper case), then handed to an inner strategy whose answer is kept
 * only when it holds at least two articles.  Upper-casing is ASCII only;
 * what the inner strategy answers is the parameter `inner`.
 */
module Canonizing {
  import opened Wrappers
  import opened WikiGraph

  predicate IsDash(c: char) {
    c == '-' || c == '_'
  }

  /** The rest of `s` after its leading run of '-' and '_'. */
  function SkipDashes(s: string): (r: string)
    ensures |r| <= |s| && (r == [] || !IsDash(r[0]))
    decreases |s|
  {
    if s != [] && IsDash(s[0]) then SkipDashes(s[1..]) else s
  }

  /** What SkipDashes drops is exactly a prefix of '-' and '_': the result is
      the suffix of `s` after them, and starts with neither. */
  lemma {:induction false} SkipDashesStrips(s: string)
    ensures var r := SkipDashes(s);
      r == s[|s| - |r|..] && (r == [] || !IsDash(r[0])) &&
      forall j | 0 <= j < |s| - |r| :: IsDash(s[j])
    decreases |s|
  {
    if s != [] && IsDash(s[0]) {
      SkipDashesStrips(s[1..]);
      assert s[1..][|s| - 1 - |SkipDashes(s)|..] == s[|s| - |SkipDashes(s)|..];
    }
  }

  /** replaceAll("(-|_)+", " "): every maximal run of '-' and '_' becomes one
      space. */
  function Collapse(s: string): (r: string)
    ensures |r| <= |s|
    ensures forall i | 0 <= i < |r| :: !IsDash(r[i])
    decreases |s|
  {
    if s == [] then []
    else if IsDash(s[0]) then [' '] + Collapse(SkipDashes(s[1..]))
    else [s[0]] + Collapse(s[1..])
  }

  /** toUpperCase on one character, for the ASCII letters. */
  function UpperChar(c: char): (u: char)
    ensures IsDash(u) <==> IsDash(c)
    ensures !('a' <= u <= 'z')
  {
    if 'a' <= c <= 'z' then (c as int - 32) as char else c
  }

  function Upper(s: string): string {
    seq(|s|, i requires 0 <= i < |s| => UpperChar(s[i]))
  }

  /** The normal form of the title asked for: collapse, then upper-case. */
  function Key(s: string): string {
    Upper(Collapse(s))
  }

  /** The normal form of a registered article: upper-case, then collapse. */
  function ArticleKey(a: string): string {
    Collapse(Upper(a))
  }

  lemma {:induction false} UpperSkip(s: string)
    ensures Upper(SkipDashes(s)) == SkipDashes(Upper(s))
    decreases |s|
  {
    if s != [] && IsDash(s[0]) {
      assert Upper(s)[1..] == Upper(s[1..]);
      UpperSkip(s[1..]);
    }
  }

  /** On ASCII the two pipelines agree: the order of the two steps does not
      matter, because upper-casing neither makes nor removes a '-' or '_'. */
  lemma {:induction false} KeysAgree(s: string)
    ensures Key(s) == ArticleKey(s)
    decreases |s|
  {
    if s != [] {
      var u := Upper(s);
      assert u[1..] == Upper(s[1..]);
      if IsDash(s[0]) {
        UpperSkip(s[1..]);
        KeysAgree(SkipDashes(s[1..]));
        assert Upper([' '] + Collapse(SkipDashes(s[1..]))) == [' '] + Upper(Collapse(SkipDashes(s[1..])));
      } else {
        KeysAgree(s[1..]);
        assert Upper([s[0]] + Collapse(s[1..])) == [UpperChar(s[0])] + Upper(Collapse(s[1..]));
      }
    }
  }

  /** The first article, in iteration order, whose normal form is `key`. */
  function FirstMatch(key: string, articles: seq<Label>): (r: Option<Label>)
    decreases |articles|
  {
    if articles == [] then None
    else if ArticleKey(articles[0]) == key then Some(articles[0])
    else FirstMatch(key, articles[1..])
  }

  /** FirstMatch finds an article exactly when one has the normal form, and
      then the first such. */
  lemma {:induction false} FirstMatchSpec(key: string, articles: seq<Label>)
    ensures FirstMatch(key, articles).None? <==> forall i | 0 <= i < |articles| :: ArticleKey(articles[i]) != key
    ensures FirstMatch(key, articles).Some? ==>
              exists k | 0 <= k < |articles| ::
                && articles[k] == FirstMatch(key, articles).value && ArticleKey(articles[k]) == key
                && forall i | 0 <= i < k :: ArticleKey(articles[i]) != key
    decreases |articles|
  {
    if articles != [] && ArticleKey(articles[0]) != key {
      var rest := articles[1..];
      FirstMatchSpec(key, rest);
      if FirstMatch(key, rest).Some? {
        var k :| 0 <= k < |rest| && rest[k] == FirstMatch(key, rest).value && ArticleKey(rest[k]) == key
                 && forall i | 0 <= i < k :: ArticleKey(rest[i]) != key;
        assert articles[k + 1] == rest[k];
        forall i | 0 <= i < k + 1 ensures ArticleKey(articles[i]) != key {
          if i > 0 {
            assert articles[i] == rest[i - 1];
          }
        }
      }
    }
  }

  /** What canonize returns: the first article of the same normal form, or
      the title unchanged. */
  function Canonical(s: string, articles: seq<Label>): (r: string)
    ensures r == s || r in articles
  {
    match FirstMatch(Key(s), articles)
    case Some(a) => FirstMatchSpec(Key(s), articles); a
    case None => s
  }

  /** canonize(article): the search loop over articles(). */
  method Canonize(article: string, articles: seq<Label>) returns (r: string)
    ensures r == Canonical(article, articles)
  {
    var s2 := Key(article);
    var i := 0;
    while i < |articles|
      invariant 0 <= i <= |articles|
      invariant FirstMatch(s2, articles) == FirstMatch(s2, articles[i..])
    {
      var a := articles[i];
      var a2 := ArticleKey(a);
      assert articles[i..][0] == a;
      if a2 == s2 {
        return a;
      }
      assert articles[i..][1..] == articles[i + 1..];
      i := i + 1;
    }
    return article;
  }

  /** canonize of a canonical title changes nothing. */
  lemma CanonicalIdempotent(s: string, articles: seq<Label>)
    ensures Canonical(Canonical(s, articles), articles) == Canonical(s, articles)
  {
    var m := FirstMatch(Key(s), articles);
    if m.Some? {
      FirstMatchSpec(Key(s), articles);
      KeysAgree(m.value);
    }
  }

  /** Registered articles of one normal form (A_B and A-B, say) all
      canonize to the same one: the first of them. */
  lemma SameFormSameArticle(a1: Label, a2: Label, articles: seq<Label>)
    requires a1 in articles && a2 in articles && Key(a1) == Key(a2)
    ensures Canonical(a1, articles) == Canonical(a2, articles)
    ensures Canonical(a1, articles) in articles && Key(Canonical(a1, articles)) == Key(a1)
  {
    KeysAgree(a1);
    FirstMatchSpec(Key(a1), articles);
    var k :| 0 <= k < |articles| && articles[k] == a1;
    assert ArticleKey(articles[k]) == Key(a1);
    var c := Canonical(a1, articles);
    KeysAgree(c);
  }

  /** find(start, goal).  The miner runs of the source are not modelled, so
      the articles stay the same and the second canonize is the identity.
      The inner strategy's answer is None for a null array and Failure for an
      exception, which find does not catch. */
  method Find(start: Label, goal: Label, articles: seq<Label>, inner: (Label, Label) -> Result<Option<seq<Label>>, Fault>)
    returns (r: Result<Option<seq<Label>>, Fault>)
    ensures var s := Canonical(start, articles);
            var t := Canonical(goal, articles);
            r.Failure? <==> inner(s, t).Failure?
    ensures var s := Canonical(start, articles);
            var t := Canonical(goal, articles);
            r.Failure? ==> r == Failure(inner(s, t).error)
    ensures var s := Canonical(start, articles);
            var t := Canonical(goal, articles);
            r.Success? ==> (r.value.None? <==> inner(s, t).value.None? || |inner(s, t).value.value| < 2)
    ensures var s := Canonical(start, articles);
            var t := Canonical(goal, articles);
            r.Success? && r.value.Some? ==> r == inner(s, t) && |r.value.value| >= 2
  {
    var s := Canonize(start, articles);
    var t := Canonize(goal, articles);
    if t !in articles {
      CanonicalIdempotent(goal, articles);
      t := Canonize(t, articles);
    }
    if s !in articles {
      CanonicalIdempotent(start, articles);
      s := Canonize(s, articles);
    }
    var path := inner(s, t);
    if path.Failure? {
      return Failure(path.error);
    }
    if path.value.None? || |path.value.value| < 2 {
      return Success(None);
    }
    return path;
  }
}
