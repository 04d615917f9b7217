/**
 * The text file written by _store and read back by _load, as a pure
 * serialiser and parser.  The first line is the number of articles, then
 * one "id<TAB>label" line per article, then one line per known adjacency:
 * the id followed by each target id, every one of them terminated by a TAB.
 */
module CacheFormat {
  import opened Wrappers
  import opened WikiGraph

  // ----- Decimal integers: Integer.toString and Integer.parseInt -----

  const MaxInt: int := 0x7fff_ffff
  const MinInt: int := -0x8000_0000

  predicate IsDigit(c: char) {
    '0' <= c <= '9'
  }

  predicate AllDigits(s: string) {
    forall k | 0 <= k < |s| :: IsDigit(s[k])
  }

  function DigitChar(d: nat): (c: char)
    requires d < 10
    ensures IsDigit(c) && (c as int) - ('0' as int) == d
  {
    ('0' as int + d) as char
  }

  /** The decimal text of a natural number, without leading zeros. */
  function NatToString(n: nat): (s: string)
    ensures s != [] && AllDigits(s)
    decreases n
  {
    if n < 10 then [DigitChar(n)] else NatToString(n / 10) + [DigitChar(n % 10)]
  }

  /** The value of a non-empty run of decimal digits. */
  function DigitsValue(s: string): nat
    requires AllDigits(s)
    decreases |s|
  {
    if s == [] then 0
    else DigitsValue(s[..|s| - 1]) * 10 + ((s[|s| - 1] as int) - ('0' as int))
  }

  /** Integer.parseInt: an optional sign, at least one digit, and a value
      within 32 bits; None stands for the NumberFormatException. */
  function ParseInt(s: string): Option<int> {
    if s == [] then None
    else
      var negative := s[0] == '-';
      var digits := if s[0] == '-' || s[0] == '+' then s[1..] else s;
      if digits == [] || !AllDigits(digits) then None
      else
        var magnitude: int := DigitsValue(digits);
        var v := if negative then 0 - magnitude else magnitude;
        if MinInt <= v <= MaxInt then Some(v) else None
  }

  lemma {:induction false} DigitsOfNat(n: nat)
    ensures DigitsValue(NatToString(n)) == n
    decreases n
  {
    if n >= 10 {
      var s := NatToString(n);
      assert s[..|s| - 1] == NatToString(n / 10);
      DigitsOfNat(n / 10);
    }
  }

  /** parseInt reads back what toString wrote. */
  lemma ParseNatToString(n: nat)
    requires n <= MaxInt
    ensures ParseInt(NatToString(n)) == Some(n)
  {
    DigitsOfNat(n);
  }

  // ----- Lines: BufferedReader.readLine ends a line at \n, \r or \r\n -----

  predicate IsTerminator(c: char) {
    c == '\n' || c == '\r'
  }

  predicate NoTerminator(s: string) {
    forall c | c in s :: !IsTerminator(c)
  }

  /** One readLine: the line and the text after its terminator. */
  function ReadLine(s: string): (r: (string, string))
    requires s != []
    ensures |r.1| < |s|
    decreases |s|
  {
    if s[0] == '\n' then ("", s[1..])
    else if s[0] == '\r' then ("", if |s| > 1 && s[1] == '\n' then s[2..] else s[1..])
    else if |s| == 1 then (s, "")
    else
      var (line, rest) := ReadLine(s[1..]);
      ([s[0]] + line, rest)
  }

  /** `while (sc.ready()) sc.readLine()`: every line of the text. */
  function ReadLines(s: string): seq<string>
    decreases |s|
  {
    if s == [] then []
    else
      var (line, rest) := ReadLine(s);
      [line] + ReadLines(rest)
  }

  /** The file text: every line followed by "\n". */
  function WriteLines(lines: seq<string>): string
    decreases |lines|
  {
    if lines == [] then "" else lines[0] + "\n" + WriteLines(lines[1..])
  }

  lemma {:induction false} ReadLineOfWritten(line: string, rest: string)
    requires NoTerminator(line)
    ensures ReadLine(line + "\n" + rest) == (line, rest)
    decreases |line|
  {
    if line != [] {
      var s := line + "\n" + rest;
      assert line[0] in line;
      assert s[0] == line[0] && s[1..] == line[1..] + "\n" + rest;
      ReadLineOfWritten(line[1..], rest);
      assert [line[0]] + line[1..] == line;
    }
  }

  /** Reading the lines of a written file gives back the lines. */
  lemma {:induction false} ReadWrittenLines(lines: seq<string>)
    requires forall k | 0 <= k < |lines| :: NoTerminator(lines[k])
    ensures ReadLines(WriteLines(lines)) == lines
    decreases |lines|
  {
    if lines != [] {
      ReadLineOfWritten(lines[0], WriteLines(lines[1..]));
      ReadWrittenLines(lines[1..]);
    }
  }

  // ----- Fields: String.split("\t"), which drops trailing empty fields -----

  /** Every field between tabs, empty ones included. */
  function SplitAll(s: string): (r: seq<string>)
    ensures |r| >= 1
    decreases |s|
  {
    if s == [] then [""]
    else if s[0] == '\t' then [""] + SplitAll(s[1..])
    else
      var r := SplitAll(s[1..]);
      [[s[0]] + r[0]] + r[1..]
  }

  function DropTrailingEmpty(fields: seq<string>): seq<string>
    decreases |fields|
  {
    if fields != [] && fields[|fields| - 1] == "" then DropTrailingEmpty(fields[..|fields| - 1])
    else fields
  }

  /** split("\t"): the whole string when there is no tab, otherwise the
      fields with the trailing empty ones removed. */
  function SplitTab(s: string): seq<string> {
    if '\t' !in s then [s] else DropTrailingEmpty(SplitAll(s))
  }

  predicate NoTab(s: string) {
    '\t' !in s
  }

  lemma {:induction false} SplitAllNoTab(s: string)
    requires NoTab(s)
    ensures SplitAll(s) == [s]
    decreases |s|
  {
    if s != [] {
      SplitAllNoTab(s[1..]);
      assert [s[0]] + s[1..] == s;
    }
  }

  lemma {:induction false} SplitAllField(field: string, rest: string)
    requires NoTab(field)
    ensures SplitAll(field + "\t" + rest) == [field] + SplitAll(rest)
    decreases |field|
  {
    var s := field + "\t" + rest;
    if field != [] {
      assert s[0] == field[0] && s[1..] == field[1..] + "\t" + rest;
      SplitAllField(field[1..], rest);
      assert [field[0]] + field[1..] == field;
    } else {
      assert s[1..] == rest;
    }
  }

  /** Fields each followed by a tab, as _store writes an adjacency line. */
  function Terminated(fields: seq<string>): string
    decreases |fields|
  {
    if fields == [] then "" else fields[0] + "\t" + Terminated(fields[1..])
  }

  lemma {:induction false} SplitAllTerminated(fields: seq<string>)
    requires forall k | 0 <= k < |fields| :: NoTab(fields[k])
    ensures SplitAll(Terminated(fields)) == fields + [""]
    decreases |fields|
  {
    if fields != [] {
      SplitAllField(fields[0], Terminated(fields[1..]));
      SplitAllTerminated(fields[1..]);
    }
  }

  // ----- _store -----

  /** The ids of `s` below `hi`, ascending from `lo`; the order in which the
      targets of one adjacency are written (HashSet order is abstracted). */
  function Ascending(s: set<Id>, lo: nat, hi: nat): (r: seq<Id>)
    ensures forall k | 0 <= k < |r| :: r[k] in s && lo <= r[k] < hi
    ensures forall v | v in s && lo <= v < hi :: v in r
    decreases hi - lo
  {
    if lo >= hi then []
    else (if lo in s then [lo] else []) + Ascending(s, lo + 1, hi)
  }

  function IdStrings(ids: seq<Id>): (r: seq<string>)
    ensures |r| == |ids| && forall k | 0 <= k < |r| :: r[k] == NatToString(ids[k])
    decreases |ids|
  {
    if ids == [] then [] else [NatToString(ids[0])] + IdStrings(ids[1..])
  }

  function LabelLine(id: Id, article: Label): string {
    NatToString(id) + "\t" + article
  }

  function AdjacencyLine(id: Id, targets: seq<Id>): string {
    Terminated([NatToString(id)] + IdStrings(targets))
  }

  function LabelLines(g: Graph, lo: nat, n: nat): seq<string>
    requires forall i: Id | i < n :: i in g.articleIds
    decreases n - lo
  {
    if lo >= n then [] else [LabelLine(lo, g.articleIds[lo])] + LabelLines(g, lo + 1, n)
  }

  function AdjacencyLines(g: Graph, lo: nat, n: nat): seq<string>
    decreases n - lo
  {
    if lo >= n then []
    else
      (if lo in g.cache then [AdjacencyLine(lo, Ascending(g.cache[lo], 0, n))] else [])
      + AdjacencyLines(g, lo + 1, n)
  }

  /** The lines _store writes, ids in ascending order. */
  function EncodeLines(g: Graph): seq<string>
    requires g.Valid()
  {
    var n := g.Size();
    [NatToString(n)] + LabelLines(g, 0, n) + AdjacencyLines(g, 0, n)
  }

  function Encode(g: Graph): string
    requires g.Valid()
  {
    WriteLines(EncodeLines(g))
  }

  // ----- _load -----

  /** Integer.parseInt of an id; a negative id, which Java would accept,
      is a failure here because ids are natural numbers. */
  function ParseId(s: string): Result<Id, Fault> {
    match ParseInt(s)
    case None => Failure(NumberFormat)
    case Some(v) => if v < 0 then Failure(NumberFormat) else Success(v)
  }

  /** One "id<TAB>label" line: line[0] is parsed, line[1] is the label. */
  function ParseLabelLine(line: string): Result<(Id, Label), Fault> {
    var fields := SplitTab(line);
    if fields == [] then Failure(IndexOutOfBounds)
    else
      match ParseId(fields[0])
      case Failure(e) => Failure(e)
      case Success(id) => if |fields| < 2 then Failure(IndexOutOfBounds) else Success((id, fields[1]))
  }

  function ParseIds(fields: seq<string>): Result<set<Id>, Fault>
    decreases |fields|
  {
    if fields == [] then Success({})
    else
      match ParseId(fields[0])
      case Failure(e) => Failure(e)
      case Success(id) =>
        match ParseIds(fields[1..])
        case Failure(e) => Failure(e)
        case Success(rest) => Success({id} + rest)
  }

  /** One adjacency line: the id, then the target ids. */
  function ParseAdjacencyLine(line: string): Result<(Id, set<Id>), Fault> {
    var fields := SplitTab(line);
    if fields == [] then Failure(IndexOutOfBounds)
    else
      match ParseId(fields[0])
      case Failure(e) => Failure(e)
      case Success(id) =>
        match ParseIds(fields[1..])
        case Failure(e) => Failure(e)
        case Success(targets) => Success((id, targets))
  }

  /** The first loop of _load: `count` label lines are put into both maps;
      running out of lines is the NullPointerException of split on null. */
  function ReadLabels(lines: seq<string>, count: nat, ids: map<Id, Label>, inv: map<Label, Id>)
    : Result<(map<Id, Label>, map<Label, Id>, seq<string>), Fault>
    decreases count
  {
    if count == 0 then Success((ids, inv, lines))
    else if lines == [] then Failure(NullPointer)
    else
      match ParseLabelLine(lines[0])
      case Failure(e) => Failure(e)
      case Success(entry) =>
        ReadLabels(lines[1..], count - 1, ids[entry.0 := entry.1], inv[entry.1 := entry.0])
  }

  /** The second loop of _load: every remaining line replaces one adjacency. */
  function ReadAdjacency(lines: seq<string>, cache: map<Id, set<Id>>): Result<map<Id, set<Id>>, Fault>
    decreases |lines|
  {
    if lines == [] then Success(cache)
    else
      match ParseAdjacencyLine(lines[0])
      case Failure(e) => Failure(e)
      case Success(entry) => ReadAdjacency(lines[1..], cache[entry.0 := entry.1])
  }

  /** _load into the empty maps of a fresh cache. */
  function DecodeLines(lines: seq<string>): Result<Graph, Fault> {
    if lines == [] then Failure(NumberFormat)
    else
      match ParseInt(lines[0])
      case None => Failure(NumberFormat)
      case Some(n) =>
        match ReadLabels(lines[1..], if n < 0 then 0 else n, map[], map[])
        case Failure(e) => Failure(e)
        case Success(labels) =>
          match ReadAdjacency(labels.2, map[])
          case Failure(e) => Failure(e)
          case Success(cache) => Success(Graph(labels.0, labels.1, cache))
  }

  function Decode(text: string): Result<Graph, Fault> {
    DecodeLines(ReadLines(text))
  }

  // ----- The round trip -----

  /** What a stored file can carry back: labels that are non-empty and free
      of tabs and line terminators, and ids that fit in a Java int. */
  ghost predicate Storable(g: Graph) {
    && g.Size() <= MaxInt
    && forall a | a in g.invArticleIds :: a != "" && NoTab(a) && NoTerminator(a)
  }

  lemma DigitsAreInert(s: string)
    requires AllDigits(s)
    ensures NoTab(s) && NoTerminator(s)
  {
    forall c | c in s ensures IsDigit(c) {
      var k :| 0 <= k < |s| && s[k] == c;
    }
  }

  lemma {:induction false} TerminatedInert(fields: seq<string>)
    requires forall k | 0 <= k < |fields| :: NoTerminator(fields[k])
    ensures NoTerminator(Terminated(fields))
    decreases |fields|
  {
    if fields != [] {
      TerminatedInert(fields[1..]);
    }
  }

  lemma IdStringsInert(ids: seq<Id>)
    ensures forall k | 0 <= k < |ids| :: NoTab(IdStrings(ids)[k]) && NoTerminator(IdStrings(ids)[k])
  {
    forall k | 0 <= k < |ids| ensures NoTab(IdStrings(ids)[k]) && NoTerminator(IdStrings(ids)[k]) {
      DigitsAreInert(NatToString(ids[k]));
    }
  }

  lemma LabelLineReadsBack(id: Id, article: Label)
    requires id <= MaxInt && article != "" && NoTab(article)
    ensures ParseLabelLine(LabelLine(id, article)) == Success((id, article))
  {
    var d := NatToString(id);
    DigitsAreInert(d);
    SplitAllField(d, article);
    SplitAllNoTab(article);
    assert SplitAll(LabelLine(id, article)) == [d, article];
    assert '\t' in LabelLine(id, article) by {
      assert LabelLine(id, article)[|d|] == '\t';
    }
    assert SplitTab(LabelLine(id, article)) == [d, article];
    ParseNatToString(id);
  }

  lemma {:induction false} IdStringsReadBack(ids: seq<Id>)
    requires forall k | 0 <= k < |ids| :: ids[k] <= MaxInt
    ensures ParseIds(IdStrings(ids)) == Success(set k | 0 <= k < |ids| :: ids[k])
    decreases |ids|
  {
    var all := set k | 0 <= k < |ids| :: ids[k];
    if ids == [] {
      assert all == {};
    } else {
      var fs := IdStrings(ids);
      ParseNatToString(ids[0]);
      assert ParseId(fs[0]) == Success(ids[0]);
      IdStringsReadBack(ids[1..]);
      assert fs[1..] == IdStrings(ids[1..]);
      var tail := set k | 0 <= k < |ids[1..]| :: ids[1..][k];
      assert ParseIds(fs) == Success({ids[0]} + tail);
      assert all == {ids[0]} + tail by {
        forall v | v in all ensures v in {ids[0]} + tail {
          var k :| 0 <= k < |ids| && ids[k] == v;
          if k > 0 { assert ids[1..][k - 1] == v; }
        }
        forall v | v in tail ensures v in all {
          var k :| 0 <= k < |ids[1..]| && ids[1..][k] == v;
          assert ids[k + 1] == v;
        }
      }
    }
  }

  /** A tab-terminated run of non-empty, tab-free fields splits back into them. */
  lemma SplitTerminated(fields: seq<string>)
    requires fields != []
    requires forall k | 0 <= k < |fields| :: NoTab(fields[k]) && fields[k] != []
    ensures SplitTab(Terminated(fields)) == fields
  {
    SplitAllTerminated(fields);
    var line := Terminated(fields);
    assert line == fields[0] + "\t" + Terminated(fields[1..]);
    assert '\t' in line by {
      assert line[|fields[0]|] == '\t';
    }
    var all := fields + [""];
    assert all[|all| - 1] == "";
    assert all[..|all| - 1] == fields;
    assert DropTrailingEmpty(all) == DropTrailingEmpty(fields);
    assert fields[|fields| - 1] != [];
  }

  /** An adjacency line splits into the id and the target ids. */
  lemma AdjacencyLineSplits(id: Id, ts: seq<Id>)
    ensures SplitTab(AdjacencyLine(id, ts)) == [NatToString(id)] + IdStrings(ts)
  {
    var fields := [NatToString(id)] + IdStrings(ts);
    IdStringsInert(ts);
    DigitsAreInert(NatToString(id));
    forall k | 0 <= k < |fields| ensures NoTab(fields[k]) && fields[k] != [] {
      if k > 0 { assert fields[k] == IdStrings(ts)[k - 1]; }
    }
    SplitTerminated(fields);
  }

  /** The targets written in ascending order are the adjacency itself. */
  lemma AscendingCovers(s: set<Id>, n: nat)
    requires forall v | v in s :: v < n
    ensures (set k | 0 <= k < |Ascending(s, 0, n)| :: Ascending(s, 0, n)[k]) == s
  {
    var ts := Ascending(s, 0, n);
    forall v | v in s ensures v in set k | 0 <= k < |ts| :: ts[k] {
      var k :| 0 <= k < |ts| && ts[k] == v;
    }
  }

  lemma AdjacencyLineReadsBack(id: Id, s: set<Id>, n: nat)
    requires id <= MaxInt && n <= MaxInt + 1
    requires forall v | v in s :: v < n
    ensures ParseAdjacencyLine(AdjacencyLine(id, Ascending(s, 0, n))) == Success((id, s))
  {
    var ts := Ascending(s, 0, n);
    var fields := [NatToString(id)] + IdStrings(ts);
    AdjacencyLineSplits(id, ts);
    ParseNatToString(id);
    assert fields[1..] == IdStrings(ts);
    IdStringsReadBack(ts);
    AscendingCovers(s, n);
  }

  function IdsBelow(g: Graph, k: nat): map<Id, Label> {
    map i | i in g.articleIds && i < k :: g.articleIds[i]
  }

  function InvBelow(g: Graph, k: nat): map<Label, Id> {
    map a | a in g.invArticleIds && g.invArticleIds[a] < k :: g.invArticleIds[a]
  }

  function CacheBelow(g: Graph, k: nat): map<Id, set<Id>> {
    map v | v in g.cache && v < k :: g.cache[v]
  }

  lemma IdsBelowStep(g: Graph, lo: nat)
    requires lo in g.articleIds
    ensures IdsBelow(g, lo)[lo := g.articleIds[lo]] == IdsBelow(g, lo + 1)
  {
  }

  lemma CacheBelowStep(g: Graph, lo: nat)
    ensures lo in g.cache ==> CacheBelow(g, lo)[lo := g.cache[lo]] == CacheBelow(g, lo + 1)
    ensures lo !in g.cache ==> CacheBelow(g, lo) == CacheBelow(g, lo + 1)
  {
  }

  lemma InvBelowStep(g: Graph, lo: nat)
    requires g.IdsInverse() && g.LabelsInverse() && lo in g.articleIds
    ensures InvBelow(g, lo)[g.articleIds[lo] := lo] == InvBelow(g, lo + 1)
  {
    var a := g.articleIds[lo];
    forall b | b in g.invArticleIds && g.invArticleIds[b] == lo ensures b == a {
      assert g.articleIds[g.invArticleIds[b]] == b;
    }
  }

  lemma ReadLabelsStep(line: string, lines: seq<string>, count: nat, ids: map<Id, Label>, inv: map<Label, Id>, id: Id, a: Label)
    requires count > 0 && ParseLabelLine(line) == Success((id, a))
    ensures ReadLabels([line] + lines, count, ids, inv) == ReadLabels(lines, count - 1, ids[id := a], inv[a := id])
  {
    assert ([line] + lines)[0] == line && ([line] + lines)[1..] == lines;
  }

  /** The first loop of _load started at the label line of `lo`, with the
      articles below `lo` already registered. */
  function LabelsFrom(g: Graph, lo: nat, rest: seq<string>): Result<(map<Id, Label>, map<Label, Id>, seq<string>), Fault>
    requires g.Valid() && lo <= g.Size()
  {
    ReadLabels(LabelLines(g, lo, g.Size()) + rest, g.Size() - lo, IdsBelow(g, lo), InvBelow(g, lo))
  }

  /** Reading the label line of `lo` registers exactly that article. */
  lemma LabelLineStep(g: Graph, lo: nat, rest: seq<string>)
    requires g.Valid() && Storable(g) && lo < g.Size()
    ensures LabelsFrom(g, lo, rest) == LabelsFrom(g, lo + 1, rest)
  {
    var n := g.Size();
    assert lo in g.articleIds;
    var a := g.articleIds[lo];
    assert a in g.invArticleIds;
    var tail := LabelLines(g, lo + 1, n) + rest;
    assert LabelLines(g, lo, n) + rest == [LabelLine(lo, a)] + tail;
    LabelLineReadsBack(lo, a);
    ReadLabelsStep(LabelLine(lo, a), tail, n - lo, IdsBelow(g, lo), InvBelow(g, lo), lo, a);
    IdsBelowStep(g, lo);
    InvBelowStep(g, lo);
  }

  lemma {:induction false} LabelLinesReadBack(g: Graph, lo: nat, rest: seq<string>)
    requires g.Valid() && Storable(g) && lo <= g.Size()
    ensures LabelsFrom(g, lo, rest) == Success((IdsBelow(g, g.Size()), InvBelow(g, g.Size()), rest))
    decreases g.Size() - lo
  {
    if lo < g.Size() {
      LabelLinesReadBack(g, lo + 1, rest);
      LabelLineStep(g, lo, rest);
    } else {
      assert LabelLines(g, lo, g.Size()) + rest == rest;
    }
  }

  lemma ReadAdjacencyStep(line: string, lines: seq<string>, cache: map<Id, set<Id>>, id: Id, s: set<Id>)
    requires ParseAdjacencyLine(line) == Success((id, s))
    ensures ReadAdjacency([line] + lines, cache) == ReadAdjacency(lines, cache[id := s])
  {
    assert ([line] + lines)[0] == line && ([line] + lines)[1..] == lines;
  }

  /** The second loop of _load started at the adjacency line of `lo`, with
      the adjacencies below `lo` already read. */
  function AdjacencyFrom(g: Graph, lo: nat): Result<map<Id, set<Id>>, Fault> {
    ReadAdjacency(AdjacencyLines(g, lo, g.Size()), CacheBelow(g, lo))
  }

  /** Reading the adjacency line of `lo`, if there is one, restores that
      adjacency and nothing else. */
  lemma AdjacencyLineStep(g: Graph, lo: nat)
    requires g.Valid() && Storable(g) && lo < g.Size()
    ensures AdjacencyFrom(g, lo) == AdjacencyFrom(g, lo + 1)
  {
    var n := g.Size();
    var tail := AdjacencyLines(g, lo + 1, n);
    if lo in g.cache {
      var s := g.cache[lo];
      assert forall v | v in s :: v < n by {
        forall v | v in s ensures v < n {
          assert v in g.articleIds;
        }
      }
      var line := AdjacencyLine(lo, Ascending(s, 0, n));
      assert AdjacencyLines(g, lo, n) == [line] + tail;
      AdjacencyLineReadsBack(lo, s, n);
      ReadAdjacencyStep(line, tail, CacheBelow(g, lo), lo, s);
      CacheBelowStep(g, lo);
    } else {
      assert AdjacencyLines(g, lo, n) == tail;
      CacheBelowStep(g, lo);
    }
  }

  lemma {:induction false} AdjacencyLinesReadBack(g: Graph, lo: nat)
    requires g.Valid() && Storable(g) && lo <= g.Size()
    ensures AdjacencyFrom(g, lo) == Success(CacheBelow(g, g.Size()))
    decreases g.Size() - lo
  {
    if lo < g.Size() {
      AdjacencyLinesReadBack(g, lo + 1);
      AdjacencyLineStep(g, lo);
    }
  }

  lemma {:induction false} EncodedLinesInert(g: Graph)
    requires g.Valid() && Storable(g)
    ensures forall k | 0 <= k < |EncodeLines(g)| :: NoTerminator(EncodeLines(g)[k])
  {
    var n := g.Size();
    DigitsAreInert(NatToString(n));
    LabelLinesInert(g, 0);
    AdjacencyLinesInert(g, 0);
    var lines := EncodeLines(g);
    forall k | 0 <= k < |lines| ensures NoTerminator(lines[k]) {
      if k > 0 {
        var body := LabelLines(g, 0, n) + AdjacencyLines(g, 0, n);
        assert lines[k] == body[k - 1];
        if k - 1 >= |LabelLines(g, 0, n)| {
          assert body[k - 1] == AdjacencyLines(g, 0, n)[k - 1 - |LabelLines(g, 0, n)|];
        }
      }
    }
  }

  lemma {:induction false} LabelLinesInert(g: Graph, lo: nat)
    requires g.Valid() && Storable(g)
    ensures forall k | 0 <= k < |LabelLines(g, lo, g.Size())| :: NoTerminator(LabelLines(g, lo, g.Size())[k])
    decreases g.Size() - lo
  {
    var n := g.Size();
    if lo < n {
      LabelLinesInert(g, lo + 1);
      DigitsAreInert(NatToString(lo));
      assert g.articleIds[lo] in g.invArticleIds;
      var lines := LabelLines(g, lo, n);
      forall k | 0 <= k < |lines| ensures NoTerminator(lines[k]) {
        if k > 0 { assert lines[k] == LabelLines(g, lo + 1, n)[k - 1]; }
      }
    }
  }

  /** An adjacency line holds digits and tabs only. */
  lemma AdjacencyLineInert(id: Id, s: set<Id>, n: nat)
    ensures NoTerminator(AdjacencyLine(id, Ascending(s, 0, n)))
  {
    var ts := Ascending(s, 0, n);
    var fields := [NatToString(id)] + IdStrings(ts);
    IdStringsInert(ts);
    DigitsAreInert(NatToString(id));
    forall k | 0 <= k < |fields| ensures NoTerminator(fields[k]) {
      if k > 0 { assert fields[k] == IdStrings(ts)[k - 1]; }
    }
    TerminatedInert(fields);
  }

  lemma {:induction false} AdjacencyLinesInert(g: Graph, lo: nat)
    requires g.Valid()
    ensures forall k | 0 <= k < |AdjacencyLines(g, lo, g.Size())| :: NoTerminator(AdjacencyLines(g, lo, g.Size())[k])
    decreases g.Size() - lo
  {
    var n := g.Size();
    if lo < n {
      AdjacencyLinesInert(g, lo + 1);
      var rest := AdjacencyLines(g, lo + 1, n);
      var lines := AdjacencyLines(g, lo, n);
      if lo in g.cache {
        AdjacencyLineInert(lo, g.cache[lo], n);
        assert lines == [AdjacencyLine(lo, Ascending(g.cache[lo], 0, n))] + rest;
        forall k | 0 <= k < |lines| ensures NoTerminator(lines[k]) {
          if k > 0 { assert lines[k] == rest[k - 1]; }
        }
      } else {
        assert lines == rest;
      }
    }
  }

  lemma DecodeLinesStep(header: string, body: seq<string>, n: nat,
                        labels: (map<Id, Label>, map<Label, Id>, seq<string>), cache: map<Id, set<Id>>)
    requires ParseInt(header) == Some(n)
    requires ReadLabels(body, n, map[], map[]) == Success(labels)
    requires ReadAdjacency(labels.2, map[]) == Success(cache)
    ensures DecodeLines([header] + body) == Success(Graph(labels.0, labels.1, cache))
  {
    assert ([header] + body)[0] == header && ([header] + body)[1..] == body;
  }

  lemma BelowNothing(g: Graph)
    ensures IdsBelow(g, 0) == map[] && InvBelow(g, 0) == map[] && CacheBelow(g, 0) == map[]
  {
  }

  lemma BelowEverything(g: Graph)
    requires g.Valid()
    ensures IdsBelow(g, g.Size()) == g.articleIds
    ensures InvBelow(g, g.Size()) == g.invArticleIds
    ensures CacheBelow(g, g.Size()) == g.cache
  {
    forall a | a in g.invArticleIds ensures g.invArticleIds[a] < g.Size() {
      assert g.invArticleIds[a] in g.articleIds;
    }
    forall v | v in g.cache ensures v < g.Size() {
      assert v in g.articleIds;
    }
  }

  /** The label lines fill both maps and leave the adjacency lines, which
      fill the cache. */
  lemma BodyReadsBack(g: Graph)
    requires g.Valid() && Storable(g)
    ensures ReadLabels(LabelLines(g, 0, g.Size()) + AdjacencyLines(g, 0, g.Size()), g.Size(), map[], map[])
         == Success((g.articleIds, g.invArticleIds, AdjacencyLines(g, 0, g.Size())))
    ensures ReadAdjacency(AdjacencyLines(g, 0, g.Size()), map[]) == Success(g.cache)
  {
    BelowNothing(g);
    BelowEverything(g);
    LabelLinesReadBack(g, 0, AdjacencyLines(g, 0, g.Size()));
    AdjacencyLinesReadBack(g, 0);
  }

  /** The lines _store wrote are the lines _load reads. */
  lemma EncodedLinesRead(g: Graph)
    requires g.Valid() && Storable(g)
    ensures ReadLines(Encode(g)) == EncodeLines(g)
  {
    EncodedLinesInert(g);
    ReadWrittenLines(EncodeLines(g));
  }

  /** Parsing the stored lines gives back the graph. */
  lemma EncodedLinesDecode(g: Graph)
    requires g.Valid() && Storable(g)
    ensures DecodeLines(EncodeLines(g)) == Success(g)
  {
    var n := g.Size();
    BodyReadsBack(g);
    ParseNatToString(n);
    DecodeLinesStep(NatToString(n), LabelLines(g, 0, n) + AdjacencyLines(g, 0, n), n,
                    (g.articleIds, g.invArticleIds, AdjacencyLines(g, 0, n)), g.cache);
    EncodeLinesParts(g);
  }

  lemma EncodeLinesParts(g: Graph)
    requires g.Valid()
    ensures EncodeLines(g) == [NatToString(g.Size())] + (LabelLines(g, 0, g.Size()) + AdjacencyLines(g, 0, g.Size()))
  {
  }

  /** _load of a file written by _store gives back both maps and every
      adjacency, known-empty ones included. */
  lemma StoreThenLoad(g: Graph)
    requires g.Valid() && Storable(g)
    ensures Decode(Encode(g)) == Success(g)
  {
    EncodedLinesRead(g);
    EncodedLinesDecode(g);
  }
}
