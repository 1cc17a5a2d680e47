/**
  The document analysis pipeline of backend/pipeline.py: clause segmentation, the extractive
  summary, money/date entity spans, keyword risk rules, the language guess, and the text part
  of `analyze`.

  Reading the file from disk is not modelled: `Analyze` receives the decoded text. The MONEY
  and DATE regular expressions are oracles (`Matcher`) that return the matched substrings in
  match order; the rule file is a `RuleConfig` value.
*/
module Pipeline {
  import opened Wrappers
  import opened Strings
  import opened Sorting

  // ================================================================ clause segmentation

  /** A clause record: the dict {"title", "text", "order_index"} plus the "summary" key that
      `analyze` may add later. */
  datatype Clause = Clause(title: string, text: string, orderIndex: int, summary: Option<string>)

  const Preamble := "Préambule"

  /** A character of the heading number `[0-9IVX.\-]` under IGNORECASE. */
  predicate IsNumberChar(c: char) {
    '0' <= c <= '9' || c in "IVXivx.-"
  }

  /** `\s+[0-9IVX.\-]+` matches at the start of `s` (whatever follows is taken by `.*`). */
  predicate NumberAfterSpace(s: string) {
    s != [] && IsSpace(s[0]) && SpacesThenNumber(s[1..])
  }

  /** `\s*[0-9IVX.\-]` matches at the start of `s`. */
  predicate SpacesThenNumber(s: string) {
    s != [] && (IsNumberChar(s[0]) || (IsSpace(s[0]) && SpacesThenNumber(s[1..])))
  }

  /** `s` starts with the lower-case word `keyword`, ignoring the case of `s`. */
  predicate StartsWithIgnoringCase(s: string, keyword: string) {
    keyword == [] || (s != [] && LowerChar(s[0]) == keyword[0] && StartsWithIgnoringCase(s[1..], keyword[1..]))
  }

  /** The line starts with `keyword` (compared case-insensitively) followed by `\s+` and a number. */
  predicate StartsHeading(line: string, keyword: string) {
    |keyword| < |line| && StartsWithIgnoringCase(line, keyword) && NumberAfterSpace(line[|keyword|..])
  }

  /** CLAUSE_HEAD_RE `(?im)^(?:article|clause|section)\s+[0-9IVX\.\-]+.*$` searched in one line:
      a line holds no '\n', so `^` can only match at its start and `.*$` takes the rest. */
  predicate IsHeading(line: string) {
    StartsHeading(line, "article") || StartsHeading(line, "clause") || StartsHeading(line, "section")
  }

  /** The indices of the heading lines from `i` on, ascending (the comprehension `idxs`). */
  function HeadingsFrom(lines: seq<string>, i: nat): (r: seq<int>)
    requires i <= |lines|
    ensures forall k :: 0 <= k < |r| ==> i <= r[k] < |lines|
    ensures forall k1, k2 :: 0 <= k1 < k2 < |r| ==> r[k1] < r[k2]
    decreases |lines| - i
  {
    if i == |lines| then []
    else (if IsHeading(lines[i]) then [i] else []) + HeadingsFrom(lines, i + 1)
  }

  /** The list holds exactly the heading lines from `i` on. */
  lemma {:induction false} HeadingsFromExact(lines: seq<string>, i: nat)
    requires i <= |lines|
    ensures forall j :: j in HeadingsFrom(lines, i) <==> i <= j < |lines| && IsHeading(lines[j])
    decreases |lines| - i
  {
    if i < |lines| {
      HeadingsFromExact(lines, i + 1);
    }
  }

  /** The boundary list cuts the line range 0..|lines| into consecutive, possibly empty ranges. */
  ghost predicate Tiles(lines: seq<string>, b: seq<int>) {
    && |b| >= 2
    && b[0] == 0
    && b[|b| - 1] == |lines|
    && (forall j :: 0 <= j < |b| ==> 0 <= b[j] <= |lines|)
    && (forall i, j :: 0 <= i < j < |b| ==> b[i] <= b[j])
  }

  /** `[0] + heads + [len(lines)]`. */
  function Boundaries(lines: seq<string>): (b: seq<int>)
    ensures Tiles(lines, b)
    ensures |b| == |HeadingsFrom(lines, 0)| + 2
  {
    var heads := HeadingsFrom(lines, 0);
    var b := [0] + heads + [|lines|];
    assert forall j :: 1 <= j < |b| - 1 ==> b[j] == heads[j - 1];
    b
  }

  /** The stripped text of the lines a..b joined by '\n'. */
  function Chunk(lines: seq<string>, a: int, b: int): string
    requires 0 <= a <= b <= |lines|
  {
    Strip(Join("\n", lines[a..b]))
  }

  /** The clause for boundary pair number `order`, or nothing when its chunk is blank. */
  function PairClauses(lines: seq<string>, a: int, b: int, order: int): seq<Clause>
    requires 0 <= a <= b <= |lines|
  {
    var chunk := Chunk(lines, a, b);
    if chunk == [] then []
    else
      assert a < b;
      [Clause(if a != 0 then Strip(lines[a]) else Preamble, chunk, order, None)]
  }

  /** The clause list of every boundary pair, pair by pair. */
  function PairList(lines: seq<string>, b: seq<int>): (ps: seq<seq<Clause>>)
    requires Tiles(lines, b)
    ensures |ps| == |b| - 1
  {
    seq(|b| - 1, j requires 0 <= j < |b| - 1 => PairClauses(lines, b[j], b[j + 1], j))
  }

  /** The pair lists concatenated in pair order. */
  function Flatten(ps: seq<seq<Clause>>): seq<Clause> {
    if ps == [] then [] else Flatten(ps[..|ps| - 1]) + ps[|ps| - 1]
  }

  /** Flattening one more pair list appends it. */
  lemma FlattenSnoc(ps: seq<seq<Clause>>, n: nat)
    requires n < |ps|
    ensures Flatten(ps[..n + 1]) == Flatten(ps[..n]) + ps[n]
  {
    assert ps[..n + 1][..n] == ps[..n];
  }

  /** One more boundary pair appends its clause, if its chunk is not blank. */
  lemma PairListSnoc(lines: seq<string>, b: seq<int>, j: int)
    requires Tiles(lines, b) && 0 <= j < |b| - 1
    ensures 0 <= b[j] <= b[j + 1] <= |lines|
    ensures var chunk := Chunk(lines, b[j], b[j + 1]);
      && (chunk == [] ==> Flatten(PairList(lines, b)[..j + 1]) == Flatten(PairList(lines, b)[..j]))
      && (chunk != [] ==>
            && b[j] < b[j + 1]
            && Flatten(PairList(lines, b)[..j + 1]) == Flatten(PairList(lines, b)[..j]) +
                 [Clause(if b[j] != 0 then Strip(lines[b[j]]) else Preamble, chunk, j, None)])
  {
    FlattenSnoc(PairList(lines, b), j);
  }

  /** What `split_clauses` returns for a text. */
  function Clauses(text: string): seq<Clause> {
    var lines := Lines(text);
    Flatten(PairList(lines, Boundaries(lines)))
  }

  /** Every line of the form `<keyword in any case><whitespace><number character><anything>` is
      a heading. */
  lemma HeadingForm(keyword: string, word: string, ws: char, d: char, tail: string)
    requires keyword == "article" || keyword == "clause" || keyword == "section"
    requires |word| == |keyword| && forall i :: 0 <= i < |word| ==> LowerChar(word[i]) == keyword[i]
    requires IsSpace(ws) && IsNumberChar(d)
    ensures IsHeading(word + [ws, d] + tail)
  {
    var line := word + [ws, d] + tail;
    StartsByChars(line, keyword);
    assert line[|keyword|..] == [ws, d] + tail;
    assert ([ws, d] + tail)[1..] == [d] + tail;
  }

  /** The keyword test, character by character. */
  lemma {:induction false} StartsByChars(s: string, keyword: string)
    requires |keyword| <= |s| && forall i :: 0 <= i < |keyword| ==> LowerChar(s[i]) == keyword[i]
    ensures StartsWithIgnoringCase(s, keyword)
    decreases |keyword|
  {
    if keyword != [] {
      assert forall i :: 0 <= i < |keyword| - 1 ==> s[1..][i] == s[i + 1] && keyword[1..][i] == keyword[i + 1];
      StartsByChars(s[1..], keyword[1..]);
    }
  }

  /** A heading has at least 8 characters: the shortest keyword, one whitespace, one number
      character. */
  lemma HeadingLength(line: string)
    requires IsHeading(line)
    ensures |line| >= 8
  {
  }

  /** Lines the heading pattern rejects: a word instead of a number, no whitespace after the
      keyword, or anything before it. */
  lemma IsHeadingNeedsNumber()
    ensures !IsHeading("Article premier")
  {
    assert !SpacesThenNumber("premier");
    assert "Article premier"[|"article"|..] == " premier";
    assert !StartsWithIgnoringCase("Article premier", "clause");
    assert !StartsWithIgnoringCase("Article premier", "section");
  }

  lemma IsHeadingNeedsSpace()
    ensures !IsHeading("Article1")
  {
  }

  lemma IsHeadingNotIndented()
    ensures !IsHeading(" Article 1")
  {
    assert !StartsWithIgnoringCase(" Article 1", "article");
    assert !StartsWithIgnoringCase(" Article 1", "clause");
    assert !StartsWithIgnoringCase(" Article 1", "section");
  }


  /** `split_clauses(text)`. */
  method SplitClauses(text: Option<string>) returns (out: seq<Clause>)
    ensures out == Clauses(text.GetOr(""))
  {
    var lines := Lines(text.GetOr(""));
    var heads := HeadingsFrom(lines, 0);
    var idxs := [0] + heads + [|lines|];
    assert idxs == Boundaries(lines);
    ghost var ps := PairList(lines, idxs);
    out := [];
    var order := 0;
    while order < |idxs| - 1
      invariant 0 <= order <= |idxs| - 1
      invariant out == Flatten(ps[..order])
    {
      PairListSnoc(lines, idxs, order);
      var a, b := idxs[order], idxs[order + 1];
      var chunk := Strip(Join("\n", lines[a..b]));
      if chunk != [] {
        var title := if a != 0 then Strip(lines[a]) else Preamble;
        out := out + [Clause(title, chunk, order, None)];
      }
      order := order + 1;
    }
    assert ps[..order] == ps;
  }

  /** Clause `c` is the clause of its boundary pair: a non-blank chunk of a non-empty line range,
      titled by the first line of the range unless the range starts at line 0. */
  ghost predicate DescribesPair(lines: seq<string>, b: seq<int>, c: Clause)
    requires Tiles(lines, b)
  {
    && 0 <= c.orderIndex < |b| - 1
    && b[c.orderIndex] < b[c.orderIndex + 1]
    && c.text == Chunk(lines, b[c.orderIndex], b[c.orderIndex + 1])
    && c.text != []
    && c.title == (if b[c.orderIndex] == 0 then Preamble else Strip(lines[b[c.orderIndex]]))
    && c.summary == None
  }

  /** Boundary pair j gives at most one clause, exactly when its chunk is non-blank, and that
      clause is the clause of pair j. */
  lemma PairClausesDescribe(lines: seq<string>, b: seq<int>, j: int)
    requires Tiles(lines, b) && 0 <= j < |b| - 1
    ensures |PairClauses(lines, b[j], b[j + 1], j)| <= 1
    ensures PairClauses(lines, b[j], b[j + 1], j) != [] <==> Chunk(lines, b[j], b[j + 1]) != []
    ensures forall c :: c in PairClauses(lines, b[j], b[j + 1], j) ==> c.orderIndex == j && DescribesPair(lines, b, c)
  {
  }

  /** Pair j holds at most one clause, numbered j. */
  ghost predicate NumberedPairs(ps: seq<seq<Clause>>) {
    forall j :: 0 <= j < |ps| ==> |ps[j]| <= 1 && forall c :: c in ps[j] ==> c.orderIndex == j
  }

  /** Some clause of `cs` carries `order_index` j. */
  predicate HasClauseNumbered(cs: seq<Clause>, j: int) {
    exists k :: 0 <= k < |cs| && cs[k].orderIndex == j
  }

  /** A clause is in the flattened list iff it is in one of the pair lists. */
  lemma {:induction false} FlattenMembers(ps: seq<seq<Clause>>, c: Clause)
    ensures c in Flatten(ps) <==> exists j :: 0 <= j < |ps| && c in ps[j]
  {
    if ps != [] {
      var init := ps[..|ps| - 1];
      FlattenMembers(init, c);
      if exists j :: 0 <= j < |init| && c in init[j] {
        var j :| 0 <= j < |init| && c in init[j];
        assert ps[j] == init[j];
      }
      if exists j :: 0 <= j < |ps| && c in ps[j] {
        var j :| 0 <= j < |ps| && c in ps[j];
        if j < |init| {
          assert init[j] == ps[j];
        }
      }
    }
  }

  /** Flattening numbered pairs gives strictly increasing numbers below the number of pairs. */
  lemma {:induction false} FlattenIncreasing(ps: seq<seq<Clause>>)
    requires NumberedPairs(ps)
    ensures forall c :: c in Flatten(ps) ==> 0 <= c.orderIndex < |ps|
    ensures forall k1, k2 :: 0 <= k1 < k2 < |Flatten(ps)| ==> Flatten(ps)[k1].orderIndex < Flatten(ps)[k2].orderIndex
  {
    if ps != [] {
      var init := ps[..|ps| - 1];
      var last := ps[|ps| - 1];
      assert NumberedPairs(init) by {
        forall j | 0 <= j < |init| ensures |init[j]| <= 1 && forall c: Clause :: c in init[j] ==> c.orderIndex == j {
          assert init[j] == ps[j];
        }
      }
      FlattenIncreasing(init);
      var prev := Flatten(init);
      var cs := prev + last;
      assert Flatten(ps) == cs;
      forall c: Clause | c in cs ensures 0 <= c.orderIndex < |ps| {
        if c !in prev {
          assert c in last;
        }
      }
      forall k1, k2 | 0 <= k1 < k2 < |cs| ensures cs[k1].orderIndex < cs[k2].orderIndex {
        if k2 < |prev| {
          assert cs[k1] == prev[k1] && cs[k2] == prev[k2];
        } else {
          assert cs[k1] == prev[k1] && prev[k1] in prev;
          assert cs[k2] in last;
        }
      }
    }
  }

  /** Every non-empty pair list shows up in the flattened list under its pair number. */
  lemma FlattenComplete(ps: seq<seq<Clause>>, j: int)
    requires NumberedPairs(ps) && 0 <= j < |ps| && ps[j] != []
    ensures HasClauseNumbered(Flatten(ps), j)
  {
    var c := ps[j][0];
    assert c in ps[j];
    FlattenMembers(ps, c);
    var k :| 0 <= k < |Flatten(ps)| && Flatten(ps)[k] == c;
  }

  /** The pair lists of a tiling are numbered, and each clause in them is its pair's clause. */
  lemma PairListDescribe(lines: seq<string>, b: seq<int>)
    requires Tiles(lines, b)
    ensures NumberedPairs(PairList(lines, b))
    ensures forall j, c :: 0 <= j < |b| - 1 && c in PairList(lines, b)[j] ==> DescribesPair(lines, b, c)
    ensures forall j :: 0 <= j < |b| - 1 ==> (PairList(lines, b)[j] != [] <==> Chunk(lines, b[j], b[j + 1]) != [])
  {
    var ps := PairList(lines, b);
    forall j | 0 <= j < |b| - 1
      ensures |ps[j]| <= 1 && (forall c: Clause :: c in ps[j] ==> c.orderIndex == j && DescribesPair(lines, b, c))
      ensures ps[j] != [] <==> Chunk(lines, b[j], b[j + 1]) != []
    {
      PairClausesDescribe(lines, b, j);
    }
  }

  /** The boundaries tile the lines, and the inner boundaries are exactly the heading lines,
      in strictly increasing order. */
  lemma BoundariesAreHeadings(lines: seq<string>)
    ensures Tiles(lines, Boundaries(lines))
    ensures forall j :: 1 <= j < |Boundaries(lines)| - 1 ==>
      Boundaries(lines)[j] < Boundaries(lines)[j + 1] && IsHeading(lines[Boundaries(lines)[j]])
    ensures forall i :: 0 <= i < |lines| && IsHeading(lines[i]) ==> i in Boundaries(lines)
  {
    forall j | 1 <= j < |Boundaries(lines)| - 1
      ensures Boundaries(lines)[j] < Boundaries(lines)[j + 1] && IsHeading(lines[Boundaries(lines)[j]])
    {
      BoundaryIsHeading(lines, j);
    }
    forall i | 0 <= i < |lines| && IsHeading(lines[i]) ensures i in Boundaries(lines) {
      HeadingIsBoundary(lines, i);
    }
  }

  lemma BoundaryIsHeading(lines: seq<string>, j: int)
    requires 1 <= j < |Boundaries(lines)| - 1
    ensures Boundaries(lines)[j] < Boundaries(lines)[j + 1] && IsHeading(lines[Boundaries(lines)[j]])
  {
    var heads := HeadingsFrom(lines, 0);
    var b := Boundaries(lines);
    assert b == [0] + heads + [|lines|];
    assert b[j] == heads[j - 1] && heads[j - 1] in heads;
    HeadingsFromExact(lines, 0);
  }

  lemma HeadingIsBoundary(lines: seq<string>, i: int)
    requires 0 <= i < |lines| && IsHeading(lines[i])
    ensures i in Boundaries(lines)
  {
    var heads := HeadingsFrom(lines, 0);
    var b := Boundaries(lines);
    assert b == [0] + heads + [|lines|];
    HeadingsFromExact(lines, 0);
    var k :| 0 <= k < |heads| && heads[k] == i;
    assert b[k + 1] == i;
  }


  /** Every clause is the non-blank chunk of its boundary pair, and `order_index` is the pair
      number: strictly increasing and below the number of headings + 1 (not renumbered after
      blank chunks). */
  lemma ClausesDescribePairs(text: string)
    ensures forall c :: c in Clauses(text) ==> DescribesPair(Lines(text), Boundaries(Lines(text)), c)
    ensures forall c :: c in Clauses(text) ==> c.orderIndex < |HeadingsFrom(Lines(text), 0)| + 1
    ensures forall k1, k2 :: 0 <= k1 < k2 < |Clauses(text)| ==> Clauses(text)[k1].orderIndex < Clauses(text)[k2].orderIndex
  {
    var lines := Lines(text);
    var b := Boundaries(lines);
    var ps := PairList(lines, b);
    PairListDescribe(lines, b);
    FlattenIncreasing(ps);
    forall c | c in Clauses(text) ensures DescribesPair(lines, b, c) {
      FlattenMembers(ps, c);
    }
  }

  /** Every non-blank chunk gives a clause numbered by its pair. */
  lemma ClausesComplete(text: string)
    ensures forall j ::
      (0 <= j < |Boundaries(Lines(text))| - 1 &&
       Chunk(Lines(text), Boundaries(Lines(text))[j], Boundaries(Lines(text))[j + 1]) != []) ==>
        HasClauseNumbered(Clauses(text), j)
  {
    var lines := Lines(text);
    var b := Boundaries(lines);
    var ps := PairList(lines, b);
    PairListDescribe(lines, b);
    forall j | 0 <= j < |b| - 1 && Chunk(lines, b[j], b[j + 1]) != []
      ensures HasClauseNumbered(Clauses(text), j)
    {
      FlattenComplete(ps, j);
    }
  }

  /** Empty text has no lines, so the single pair (0, 0) is blank and no clause comes out. */
  lemma NoClausesInEmptyText()
    ensures Clauses("") == []
  {
    assert Lines("") == [];
    var b := Boundaries([]);
    assert b == [0, 0];
    assert Chunk([], 0, 0) == [] by {
      assert Join("\n", []) == [];
    }
    var ps := PairList([], b);
    assert ps == [[]];
    assert Flatten(ps) == Flatten([]) + [];
  }

  lemma {:induction false} NoHeadingsFrom(lines: seq<string>, i: nat)
    requires i <= |lines|
    requires forall j :: i <= j < |lines| ==> !IsHeading(lines[j])
    ensures HeadingsFrom(lines, i) == []
    decreases |lines| - i
  {
    if i < |lines| {
      NoHeadingsFrom(lines, i + 1);
    }
  }

  /** Without heading lines there is at most one clause: the whole stripped text, as preamble. */
  lemma ClausesWithoutHeadings(text: string)
    requires forall i :: 0 <= i < |Lines(text)| ==> !IsHeading(Lines(text)[i])
    ensures Clauses(text) == if Strip(text) == [] then [] else [Clause(Preamble, Strip(text), 0, None)]
  {
    var lines := Lines(text);
    NoHeadingsFrom(lines, 0);
    var b := Boundaries(lines);
    assert b == [0, |lines|];
    assert lines[0..|lines|] == lines;
    StripLines(text);
    var ps := PairList(lines, b);
    assert ps == [PairClauses(lines, 0, |lines|, 0)];
    assert Flatten(ps) == Flatten([]) + ps[0];
  }

  /** With a heading on line 0, boundary pair 0 is the empty range 0..0 and pair 1 starts at
      line 0 with a non-blank chunk. */
  lemma HeadingOnFirstLinePairs(lines: seq<string>)
    requires lines != [] && IsHeading(lines[0])
    ensures |Boundaries(lines)| >= 3 && Boundaries(lines)[1] == 0
    ensures Chunk(lines, Boundaries(lines)[1], Boundaries(lines)[2]) != []
  {
    var heads := HeadingsFrom(lines, 0);
    var b := Boundaries(lines);
    assert b == [0] + heads + [|lines|];
    HeadingsFromExact(lines, 0);
    assert 0 in heads;
    assert heads[0] == 0 by {
      var k :| 0 <= k < |heads| && heads[k] == 0;
      assert heads[0] <= heads[k];
    }
    assert b[1] == 0;
    // pair 1 covers lines 0..b[2], whose first character is the heading's first letter
    var parts := lines[0..b[2]];
    assert parts[0] == lines[0];
    var joined := Join("\n", parts);
    assert joined[0] == lines[0][0] by {
      if |parts| > 1 {
        assert joined == parts[0] + "\n" + Join("\n", parts[1..]);
      }
    }
    assert !IsSpace(lines[0][0]) by {
      assert LowerChar(lines[0][0]) in "acs";
    }
    assert !AllSpace(joined);
    StripBlank(joined);
  }

  /** A heading on line 0 leaves pair 0 blank, so the first clause has `order_index` 1 and is
      titled as the preamble even though it starts with the heading. */
  lemma HeadingOnFirstLine(text: string)
    requires Lines(text) != [] && IsHeading(Lines(text)[0])
    ensures Clauses(text) != [] && Clauses(text)[0].orderIndex == 1 && Clauses(text)[0].title == Preamble
  {
    var lines := Lines(text);
    var b := Boundaries(lines);
    HeadingOnFirstLinePairs(lines);
    ClausesComplete(text);
    var cs := Clauses(text);
    assert HasClauseNumbered(cs, 1);
    var k :| 0 <= k < |cs| && cs[k].orderIndex == 1;
    ClausesDescribePairs(text);
    assert cs[0] in cs;
    assert cs[0].orderIndex <= cs[k].orderIndex;
  }

  // ================================================================ summary

  const DefaultMaxChars := 1800
  const FallbackChars := 300
  const SummaryParagraphs := 4

  /** `[p.strip() for p in pieces if p.strip()]`. */
  function Paragraphs(pieces: seq<string>): (r: seq<string>)
    ensures forall p :: p in r ==> p != [] && !IsSpace(p[0]) && !IsSpace(p[|p| - 1])
    ensures r == [] <==> forall p :: p in pieces ==> AllSpace(p)
  {
    if pieces == [] then []
    else
      var s := Strip(pieces[0]);
      StripBlank(pieces[0]);
      (if s != [] then [s] else []) + Paragraphs(pieces[1..])
  }

  /** The paragraphs keep the input order: `Paragraphs` distributes over concatenation, so with
      `ParagraphOfPiece` it is the list of stripped non-blank pieces. */
  lemma {:induction false} ParagraphsAppend(a: seq<string>, b: seq<string>)
    ensures Paragraphs(a + b) == Paragraphs(a) + Paragraphs(b)
    decreases |a|
  {
    if a == [] {
      assert a + b == b;
    } else {
      var ab := a + b;
      assert ab[0] == a[0] && ab[1..] == a[1..] + b;
      ParagraphsAppend(a[1..], b);
    }
  }

  /** One piece gives its stripped text, unless that is empty. */
  lemma ParagraphOfPiece(q: string)
    ensures Paragraphs([q]) == if Strip(q) == [] then [] else [Strip(q)]
  {
    assert [q][1..] == [];
  }

  /** A paragraph is the non-empty stripped text of some piece, and every such text is one. */
  lemma {:induction false} ParagraphsMembers(pieces: seq<string>)
    ensures forall p :: p in Paragraphs(pieces) <==> p != [] && exists q :: q in pieces && Strip(q) == p
    decreases |pieces|
  {
    if pieces != [] {
      ParagraphsMembers(pieces[1..]);
      forall p ensures p in Paragraphs(pieces) <==> p != [] && exists q :: q in pieces && Strip(q) == p {
        if p != [] && (exists q :: q in pieces && Strip(q) == p) {
          var q :| q in pieces && Strip(q) == p;
          if q != pieces[0] {
            assert q in pieces[1..];
          }
        }
        assert forall q :: q in pieces[1..] ==> q in pieces;
      }
    }
  }

  /** Paragraph `i` comes before paragraph `j` in `sorted(paras, key=len, reverse=True)`:
      it is longer, or as long and earlier (the sort is stable). */
  predicate LongerFirst(paras: seq<string>, i: int, j: int) {
    && 0 <= i < |paras| && 0 <= j < |paras|
    && (|paras[i]| > |paras[j]| || (|paras[i]| == |paras[j]| && i < j))
  }

  /** The sort order on paragraph indices. */
  function ByLength(paras: seq<string>): (int, int) -> bool {
    (i, j) => LongerFirst(paras, i, j)
  }

  /** The paragraph indices in the order of `sorted(paras, key=len, reverse=True)`. */
  function LongestFirst(paras: seq<string>): (r: seq<int>)
    ensures multiset(r) == multiset(seq(|paras|, i => i))
  {
    Sort(ByLength(paras), seq(|paras|, i => i))
  }

  /** The order is the stable descending sort by length: longer first, ties in text order. */
  lemma LongestFirstSorted(paras: seq<string>)
    ensures forall p, q :: 0 <= p < q < |LongestFirst(paras)| ==>
      LongerFirst(paras, LongestFirst(paras)[p], LongestFirst(paras)[q])
  {
    var ids := seq(|paras|, i => i);
    var xs := set i | i in ids;
    assert TotalOn(ByLength(paras), xs);
    SortSorted(ByLength(paras), xs, ids);
  }

  /** The paragraphs chosen by the summary: `sorted(...)[:4]`, as indices. */
  function TopParagraphs(paras: seq<string>): (r: seq<int>)
    ensures forall k :: 0 <= k < |r| ==> 0 <= r[k] < |paras|
  {
    var sorted := LongestFirst(paras);
    var r := SliceTo(sorted, SummaryParagraphs);
    assert forall k :: 0 <= k < |r| ==> r[k] in multiset(seq(|paras|, i => i));
    r
  }

  function Pick(paras: seq<string>, top: seq<int>): seq<string>
    requires forall k :: 0 <= k < |top| ==> 0 <= top[k] < |paras|
  {
    seq(|top|, k requires 0 <= k < |top| => paras[top[k]])
  }

  /** `summarize_text(txt, max_chars)`. */
  function Summarize(txt: Option<string>, maxChars: int): (r: string)
    ensures r == [] <==> SliceTo(txt.GetOr(""), maxChars) == []
  {
    var t := SliceTo(txt.GetOr(""), maxChars);
    var paras := Paragraphs(Split(t, '\n'));
    if paras == [] then SliceTo(t, FallbackChars)
    else
      TopParagraphsAreLongest(paras);
      var top := Pick(paras, TopParagraphs(paras));
      assert top[0] in paras;
      Join(" ", top)
  }

  /** The chosen paragraphs: at most 4, the longest ones, longest first and ties in text order,
      each at least as long as every paragraph left out. */
  lemma TopParagraphsAreLongest(paras: seq<string>)
    ensures var top := TopParagraphs(paras);
      && |top| == (if |paras| < SummaryParagraphs then |paras| else SummaryParagraphs)
      && (forall p, q :: 0 <= p < q < |top| ==> LongerFirst(paras, top[p], top[q]))
      && (forall p, j :: 0 <= p < |top| && 0 <= j < |paras| && j !in top ==> LongerFirst(paras, top[p], j))
  {
    var ids := seq(|paras|, i => i);
    var sorted := LongestFirst(paras);
    LongestFirstSorted(paras);
    var top := TopParagraphs(paras);
    assert top == sorted[..|top|];
    forall p, j | 0 <= p < |top| && 0 <= j < |paras| && j !in top
      ensures LongerFirst(paras, top[p], j)
    {
      assert ids[j] == j;
      assert j in multiset(sorted);
      var q :| 0 <= q < |sorted| && sorted[q] == j;
      assert q >= |top|;
    }
  }

  /** What the summary is: the fallback `t[:300]` exactly when no line of the prefix `t` is
      non-blank; otherwise the chosen paragraphs joined by single spaces. */
  lemma SummaryShape(txt: Option<string>, maxChars: int)
    ensures var t := SliceTo(txt.GetOr(""), maxChars);
      var pieces := Split(t, '\n');
      var paras := Paragraphs(pieces);
      && ((forall p :: p in pieces ==> AllSpace(p)) ==> Summarize(txt, maxChars) == SliceTo(t, FallbackChars))
      && ((exists p :: p in pieces && !AllSpace(p)) ==>
            Summarize(txt, maxChars) == Join(" ", Pick(paras, TopParagraphs(paras))) &&
            1 <= |TopParagraphs(paras)| <= SummaryParagraphs)
  {
    var t := SliceTo(txt.GetOr(""), maxChars);
    var paras := Paragraphs(Split(t, '\n'));
    TopParagraphsAreLongest(paras);
  }

  // ================================================================ entities

  /** A regular-expression oracle: the substrings `finditer` yields on a text, in match order. */
  type Matcher = string -> seq<string>

  datatype Entity = Entity(text: string, category: string, start: int, end: int)

  /** `extract_entities`'s dict {"ents", "amounts", "dates"}. */
  datatype Extraction = Extraction(ents: seq<Entity>, amounts: seq<string>, dates: seq<string>)

  /** The span of one match: its offset is `txt.find(m)`, the first occurrence of the literal. */
  function Span(txt: string, m: string, category: string): (e: Entity)
    ensures e.text == m && e.category == category && e.end - e.start == |m|
    ensures e.start == -1 <==> !Contains(txt, m)
  {
    var start := Find(txt, m);
    Entity(m, category, start, start + |m|)
  }

  function Spans(txt: string, ms: seq<string>, category: string): (r: seq<Entity>)
    ensures |r| == |ms|
  {
    seq(|ms|, i requires 0 <= i < |ms| => Span(txt, ms[i], category))
  }

  /** One more match adds its span at the end. */
  lemma SpansSnoc(txt: string, ms: seq<string>, i: int, category: string)
    requires 0 <= i < |ms|
    ensures Spans(txt, ms[..i + 1], category) == Spans(txt, ms[..i], category) + [Span(txt, ms[i], category)]
  {
    assert ms[..i + 1][..i] == ms[..i];
  }

  /** What `extract_entities` returns for a text. */
  function Extract(txt: string, money: Matcher, date: Matcher): (r: Extraction)
    ensures r.amounts == money(txt) && r.dates == date(txt)
    ensures |r.ents| == |r.amounts| + |r.dates|
  {
    var amounts := money(txt);
    var dates := date(txt);
    Extraction(Spans(txt, amounts, "MONEY") + Spans(txt, dates, "DATE"), amounts, dates)
  }

  /** `extract_entities(text)`. */
  method ExtractEntities(text: Option<string>, money: Matcher, date: Matcher) returns (r: Extraction)
    ensures r == Extract(text.GetOr(""), money, date)
  {
    var txt := text.GetOr("");
    var amounts := money(txt);
    var dates := date(txt);
    var ents: seq<Entity> := [];
    for i := 0 to |amounts|
      invariant ents == Spans(txt, amounts[..i], "MONEY")
    {
      var start := Find(txt, amounts[i]);
      var end := start + |amounts[i]|;
      SpansSnoc(txt, amounts, i, "MONEY");
      ents := ents + [Entity(amounts[i], "MONEY", start, end)];
    }
    assert amounts[..|amounts|] == amounts;
    for i := 0 to |dates|
      invariant ents == Spans(txt, amounts, "MONEY") + Spans(txt, dates[..i], "DATE")
    {
      var start := Find(txt, dates[i]);
      var end := start + |dates[i]|;
      SpansSnoc(txt, dates, i, "DATE");
      ents := ents + [Entity(dates[i], "DATE", start, end)];
    }
    assert dates[..|dates|] == dates;
    r := Extraction(ents, amounts, dates);
  }

  /** Money spans first, then date spans, each group in match order, one entity per match. */
  lemma EntityOrder(txt: string, money: Matcher, date: Matcher)
    ensures var e := Extract(txt, money, date);
      && |e.ents| == |e.amounts| + |e.dates|
      && (forall i :: 0 <= i < |e.amounts| ==> e.ents[i].category == "MONEY" && e.ents[i].text == e.amounts[i])
      && (forall i :: 0 <= i < |e.dates| ==>
            e.ents[|e.amounts| + i].category == "DATE" && e.ents[|e.amounts| + i].text == e.dates[i])
  {
  }

  /** For a match that occurs in the text (every regex match does), the span is exact and its
      start is the first occurrence of the literal anywhere in the text. */
  lemma SpanIsFirstOccurrence(txt: string, m: string, category: string)
    requires Contains(txt, m)
    ensures var e := Span(txt, m, category);
      && 0 <= e.start <= e.end <= |txt|
      && txt[e.start..e.end] == m
      && forall j :: 0 <= j < e.start ==> !OccursAt(txt, m, j)
  {
  }

  /** A repeated amount gets the offset of its first occurrence, not its own match position. */
  lemma RepeatedAmountGetsFirstOffset()
    ensures var txt := "10 € puis 10 €";
      && OccursAt(txt, "10 €", 10)
      && Spans(txt, ["10 €", "10 €"], "MONEY")[1] == Entity("10 €", "MONEY", 0, 4)
  {
    var txt := "10 € puis 10 €";
    assert txt[0..4] == "10 €";
    assert txt[10..14] == "10 €";
  }

  // ================================================================ risk rules

  /** One `code: [keywords]` entry of the rule file. */
  datatype Rule = Rule(code: string, keywords: seq<string>)

  /** The rule file's `must_have` and `red_flags` maps in file order; a missing key is `[]`. */
  datatype RuleConfig = RuleConfig(mustHave: seq<Rule>, redFlags: seq<Rule>)

  /** A risk dict {"code", "level", "message"}; the level is the string the pipeline writes. */
  datatype Risk = Risk(code: string, level: string, message: string)

  /** `has_any`: some lower-cased keyword is a substring of the lower-cased text. */
  predicate HasAny(text: string, keywords: seq<string>)
    ensures [] in keywords ==> HasAny(text, keywords)
  {
    exists k :: k in keywords && Contains(Lower(text), Lower(k))
  }

  const MissingPrefix := "MISSING_"
  const MissingMessage := "Clause obligatoire manquante: "
  const FlagMessage := "Signal/risque détecté: "

  function MissingRisk(code: string): Risk {
    Risk(MissingPrefix + Upper(code), "MEDIUM", MissingMessage + code)
  }

  function FlagRisk(code: string): Risk {
    Risk(Upper(code), "HIGH", FlagMessage + code)
  }

  /** The MEDIUM findings of the first rules, in rule order. */
  function MissingFindings(text: string, rules: seq<Rule>): (r: seq<Risk>)
    ensures |r| <= |rules|
  {
    if rules == [] then []
    else
      var last := rules[|rules| - 1];
      MissingFindings(text, rules[..|rules| - 1]) + (if !HasAny(text, last.keywords) then [MissingRisk(last.code)] else [])
  }

  /** The HIGH findings of the first rules, in rule order. */
  function FlagFindings(text: string, rules: seq<Rule>): (r: seq<Risk>)
    ensures |r| <= |rules|
  {
    if rules == [] then []
    else
      var last := rules[|rules| - 1];
      FlagFindings(text, rules[..|rules| - 1]) + (if HasAny(text, last.keywords) then [FlagRisk(last.code)] else [])
  }

  /** What `apply_rules` returns: all must-have findings, then all red-flag findings. */
  function Findings(text: string, config: RuleConfig): (r: seq<Risk>)
    ensures |r| <= |config.mustHave| + |config.redFlags|
  {
    MissingFindings(text, config.mustHave) + FlagFindings(text, config.redFlags)
  }

  /** `apply_rules(text, clauses)` with the rule file already loaded; `clauses` is unused, as in the source. */
  method ApplyRules(text: Option<string>, clauses: seq<Clause>, config: RuleConfig) returns (risks: seq<Risk>)
    ensures risks == Findings(text.GetOr(""), config)
  {
    var t := text.GetOr("");
    risks := [];
    for i := 0 to |config.mustHave|
      invariant risks == MissingFindings(t, config.mustHave[..i])
    {
      var rule := config.mustHave[i];
      assert config.mustHave[..i + 1][..i] == config.mustHave[..i];
      if !HasAny(t, rule.keywords) {
        risks := risks + [MissingRisk(rule.code)];
      }
    }
    assert config.mustHave[..|config.mustHave|] == config.mustHave;
    ghost var medium := risks;
    for i := 0 to |config.redFlags|
      invariant risks == medium + FlagFindings(t, config.redFlags[..i])
    {
      var rule := config.redFlags[i];
      assert config.redFlags[..i + 1][..i] == config.redFlags[..i];
      if HasAny(t, rule.keywords) {
        risks := risks + [FlagRisk(rule.code)];
      }
    }
    assert config.redFlags[..|config.redFlags|] == config.redFlags;
  }

  lemma MissingRiskInjective(c1: string, c2: string)
    ensures MissingRisk(c1) == MissingRisk(c2) ==> c1 == c2
  {
    if MissingRisk(c1) == MissingRisk(c2) {
      assert (MissingMessage + c1)[|MissingMessage|..] == c1;
      assert (MissingMessage + c2)[|MissingMessage|..] == c2;
    }
  }

  lemma FlagRiskInjective(c1: string, c2: string)
    ensures FlagRisk(c1) == FlagRisk(c2) ==> c1 == c2
  {
    if FlagRisk(c1) == FlagRisk(c2) {
      assert (FlagMessage + c1)[|FlagMessage|..] == c1;
      assert (FlagMessage + c2)[|FlagMessage|..] == c2;
    }
  }

  /** A must-have code is reported missing iff an entry with that code has no keyword in the text. */
  lemma {:induction false} MissingIff(text: string, rules: seq<Rule>, code: string)
    ensures MissingRisk(code) in MissingFindings(text, rules) <==>
            exists r :: r in rules && r.code == code && !HasAny(text, r.keywords)
  {
    if rules != [] {
      var init := rules[..|rules| - 1];
      var last := rules[|rules| - 1];
      MissingIff(text, init, code);
      MissingRiskInjective(code, last.code);
      assert rules == init + [last];
      if exists r :: r in init && r.code == code && !HasAny(text, r.keywords) {
        var r :| r in init && r.code == code && !HasAny(text, r.keywords);
        assert r in rules;
      }
    }
  }

  /** A red-flag code is reported iff an entry with that code has a keyword in the text. */
  lemma {:induction false} FlagIff(text: string, rules: seq<Rule>, code: string)
    ensures FlagRisk(code) in FlagFindings(text, rules) <==>
            exists r :: r in rules && r.code == code && HasAny(text, r.keywords)
  {
    if rules != [] {
      var init := rules[..|rules| - 1];
      var last := rules[|rules| - 1];
      FlagIff(text, init, code);
      FlagRiskInjective(code, last.code);
      assert rules == init + [last];
      if exists r :: r in init && r.code == code && HasAny(text, r.keywords) {
        var r :| r in init && r.code == code && HasAny(text, r.keywords);
        assert r in rules;
      }
    }
  }

  /** Every must-have finding is a MEDIUM `MISSING_` finding for a rule of the list. */
  lemma {:induction false} MissingFindingsAreMedium(text: string, rules: seq<Rule>)
    ensures forall r :: r in MissingFindings(text, rules) ==>
      r.level == "MEDIUM" && exists rule :: rule in rules && r == MissingRisk(rule.code)
  {
    if rules != [] {
      var init := rules[..|rules| - 1];
      MissingFindingsAreMedium(text, init);
      assert forall rule :: rule in init ==> rule in rules;
    }
  }

  /** Every red-flag finding is a HIGH finding for a rule of the list. */
  lemma {:induction false} FlagFindingsAreHigh(text: string, rules: seq<Rule>)
    ensures forall r :: r in FlagFindings(text, rules) ==>
      r.level == "HIGH" && exists rule :: rule in rules && r == FlagRisk(rule.code)
  {
    if rules != [] {
      var init := rules[..|rules| - 1];
      FlagFindingsAreHigh(text, init);
      assert forall rule :: rule in init ==> rule in rules;
    }
  }

  /** All MEDIUM findings come before all HIGH findings; an empty configuration gives none. */
  lemma FindingsGrouped(text: string, config: RuleConfig)
    ensures var fs := Findings(text, config);
      && (forall i, j :: 0 <= i < j < |fs| && fs[i].level == "HIGH" ==> fs[j].level == "HIGH")
      && (forall f :: f in fs ==> f.level == "MEDIUM" || f.level == "HIGH")
      && (config.mustHave == [] && config.redFlags == [] ==> fs == [])
  {
    var m := MissingFindings(text, config.mustHave);
    var f := FlagFindings(text, config.redFlags);
    MissingFindingsAreMedium(text, config.mustHave);
    FlagFindingsAreHigh(text, config.redFlags);
    var fs := Findings(text, config);
    forall k | 0 <= k < |m| ensures fs[k].level == "MEDIUM" {
      assert fs[k] == m[k] && m[k] in m;
    }
    forall i, j | 0 <= i < j < |fs| && fs[i].level == "HIGH" ensures fs[j].level == "HIGH" {
      assert fs[j] in f by {
        assert fs[j] == f[j - |m|];
      }
    }
    forall x | x in fs ensures x.level == "MEDIUM" || x.level == "HIGH" {
      assert x in m || x in f;
    }
  }

  /** An empty keyword list always fires as a must-have and never as a red flag. */
  lemma EmptyKeywordList(text: string, code: string)
    ensures MissingFindings(text, [Rule(code, [])]) == [MissingRisk(code)]
    ensures FlagFindings(text, [Rule(code, [])]) == []
  {
    assert [Rule(code, [])][..0] == [];
  }

  // ================================================================ language

  const FrenchWords := ["le", "la", "les", "de", "des", "contrat", "loi", "article"]

  /** `\w` restricted to Latin-1: letters, digits, underscore, and the Latin-1 alphanumerics
      (ª ² ³ µ ¹ º ¼ ½ ¾ and the accented letters). */
  predicate IsWordChar(c: char) {
    || 'a' <= c <= 'z' || 'A' <= c <= 'Z' || '0' <= c <= '9' || c == '_'
    || c == '\U{AA}' || c == '\U{B2}' || c == '\U{B3}' || c == '\U{B5}' || c == '\U{B9}' || c == '\U{BA}'
    || ('\U{BC}' <= c <= '\U{BE}')
    || ('\U{C0}' <= c <= '\U{D6}') || ('\U{D8}' <= c <= '\U{F6}') || ('\U{F8}' <= c <= '\U{FF}')
  }

  /** `\bw\b` matches at position `p` of `s` (w begins and ends with a word character). */
  predicate WholeWordAt(s: string, w: string, p: int) {
    && OccursAt(s, w, p)
    && (p == 0 || !IsWordChar(s[p - 1]))
    && (p + |w| == |s| || !IsWordChar(s[p + |w|]))
  }

  predicate HasFrenchWord(s: string)
    ensures HasFrenchWord(s) ==> |s| >= 2
  {
    exists w, p :: w in FrenchWords && 0 <= p <= |s| && WholeWordAt(s, w, p)
  }

  /** `detect_language(text)`. */
  function DetectLanguage(text: Option<string>): (r: string)
    ensures r == "fr" || r == "en"
  {
    if HasFrenchWord(Lower(text.GetOr(""))) then "fr" else "en"
  }

  /** The guess ignores case: lower-casing the text first changes nothing. */
  lemma DetectLanguageIgnoresCase(text: string)
    ensures DetectLanguage(Some(Lower(text))) == DetectLanguage(Some(text))
  {
    LowerIsIdempotent(text);
  }

  /** Markers count only as whole words: "Le contrat" is French, "delay" is not ("de" is inside a word). */
  lemma DetectLanguageExamples()
    ensures DetectLanguage(Some("Le contrat")) == "fr"
    ensures DetectLanguage(Some("delay")) == "en"
  {
    var s := Lower("Le contrat");
    assert s == "le contrat";
    assert WholeWordAt(s, "le", 0);
    var d := Lower("delay");
    assert d == "delay";
    assert forall k :: 0 <= k < |d| ==> IsWordChar(d[k]);
    forall w, p | w in FrenchWords && 0 <= p <= |d| ensures !WholeWordAt(d, w, p) {
      if p == 0 && OccursAt(d, w, p) {
        assert w == d[..|w|];
        assert |w| < |d|;
      }
    }
  }

  // ================================================================ analyze

  const SummarizedClauses := 12

  /** The clause list after `analyze` adds summaries to the first 12 clauses. */
  function WithSummaries(cs: seq<Clause>): (r: seq<Clause>)
    ensures |r| == |cs|
  {
    seq(|cs|, i requires 0 <= i < |cs| =>
      if i < SummarizedClauses then cs[i].(summary := Some(Summarize(Some(cs[i].text), DefaultMaxChars))) else cs[i])
  }

  /** The loop `for c in clauses[:12]: c["summary"] = summarize_text(c["text"])`. */
  method SummarizeFirstClauses(cs: seq<Clause>) returns (r: seq<Clause>)
    ensures r == WithSummaries(cs)
  {
    r := cs;
    var n := if |cs| < SummarizedClauses then |cs| else SummarizedClauses;
    for i := 0 to n
      invariant |r| == |cs|
      invariant forall j :: 0 <= j < |cs| ==> r[j] == (if j < i then WithSummaries(cs)[j] else cs[j])
    {
      r := r[i := r[i].(summary := Some(Summarize(Some(r[i].text), DefaultMaxChars)))];
    }
  }

  /** `analyze(path)` after the file has been read into `text`. */
  method Analyze(text: string, config: RuleConfig, money: Matcher, date: Matcher)
    returns (language: string, summary: string, clauses: seq<Clause>, entities: Extraction, risks: seq<Risk>)
    ensures language == DetectLanguage(Some(text))
    ensures summary == Summarize(Some(text), DefaultMaxChars)
    ensures clauses == WithSummaries(Clauses(text))
    ensures entities == Extract(text, money, date)
    ensures risks == Findings(text, config)
  {
    language := DetectLanguage(Some(text));
    clauses := SplitClauses(Some(text));
    summary := Summarize(Some(text), DefaultMaxChars);
    entities := ExtractEntities(Some(text), money, date);
    clauses := SummarizeFirstClauses(clauses);
    risks := ApplyRules(Some(text), clauses, config);
  }

  /** Only the first 12 clauses carry a summary, each the summary of the clause's own text, and
      apart from the summary every clause is the one segmentation produced. */
  lemma SummariesOnFirstTwelve(text: string)
    ensures var cs := WithSummaries(Clauses(text));
      forall i :: 0 <= i < |cs| ==>
        && cs[i].(summary := None) == Clauses(text)[i]
        && (cs[i].summary.Some? <==> i < SummarizedClauses)
        && (i < SummarizedClauses ==> cs[i].summary == Some(Summarize(Some(cs[i].text), DefaultMaxChars)))
  {
    ClausesDescribePairs(text);
    var cs := Clauses(text);
    assert forall i :: 0 <= i < |cs| ==> cs[i] in cs;
  }
}
