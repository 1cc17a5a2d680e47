/** The logic of backend/app.py: risk-level coercion and the rebuild of the search index from
    the stored clause rows. */
module App {
  import opened Wrappers
  import opened Strings
  import opened Search
  import Pipeline

  // ================================================================ risk levels

  /** The stored `RiskLevel` enum: members `low`, `medium`, `high`, each valued by its own name. */
  datatype RiskLevel = Low | Medium | High

  const Members: seq<RiskLevel> := [Low, Medium, High]

  function Name(m: RiskLevel): string {
    match m
    case Low => "low"
    case Medium => "medium"
    case High => "high"
  }

  function Value(m: RiskLevel): string {
    match m
    case Low => "low"
    case Medium => "medium"
    case High => "high"
  }

  /** `{m.name.upper(): m for m in RiskLevel}`. */
  function ByName(): map<string, RiskLevel> {
    map["LOW" := Low, "MEDIUM" := Medium, "HIGH" := High]
  }

  /** `{str(m.value).upper(): m for m in RiskLevel}`. */
  function ByValue(): map<string, RiskLevel> {
    map["LOW" := Low, "MEDIUM" := Medium, "HIGH" := High]
  }

  /** The two tables are the upper-cased names and values of the members, and they coincide, so
      the value lookup can never find what the name lookup missed. */
  lemma LookupTables()
    ensures forall m :: m in Members ==> Upper(Name(m)) in ByName() && ByName()[Upper(Name(m))] == m
    ensures forall m :: m in Members ==> Upper(Value(m)) in ByValue() && ByValue()[Upper(Value(m))] == m
    ensures ByName().Keys == set m | m in Members :: Upper(Name(m))
    ensures ByValue() == ByName()
  {
    UpperAscii("low", "LOW");
    UpperAscii("medium", "MEDIUM");
    UpperAscii("high", "HIGH");
    assert Name(Low) == "low" && Name(Medium) == "medium" && Name(High) == "high";
  }

  /** `_coerce_level` raises instead of returning: the enum has no attribute `LOW`. */
  datatype CoerceError = NoMemberNamedLow

  /** `_coerce_level(x)` as written. The name lookup succeeds for any casing of a member name;
      otherwise the default `RiskLevel.LOW` is evaluated (for `None`, and eagerly as the argument
      of `by_value.get`) and raises. */
  function CoerceLevel(x: Option<string>): (r: Result<RiskLevel, CoerceError>)
    ensures r.Success? <==> x.Some? && Upper(x.value) in ByName()
    ensures r.Success? ==> r.value in Members && Upper(Name(r.value)) == Upper(x.value)
  {
    if x.None? then Failure(NoMemberNamedLow)
    else
      var sx := Upper(x.value);
      LookupTables();
      if sx in ByName() then Success(ByName()[sx])
      else Failure(NoMemberNamedLow)
  }

  /** Any casing of "low", "medium" or "high" coerces. */
  lemma CoerceLevelExamples()
    ensures CoerceLevel(Some("low")) == Success(Low)
    ensures CoerceLevel(Some("High")) == Success(High)
  {
    assert CoerceLevel(Some("low")) == Success(Low) by { UpperAscii("low", "LOW"); }
    assert CoerceLevel(Some("High")) == Success(High) by { UpperAscii("High", "HIGH"); }
  }

  /** The levels "MEDIUM" and "HIGH" that the rule findings carry coerce to `medium` and `high`. */
  lemma CoerceFindingLevels()
    ensures CoerceLevel(Some("MEDIUM")) == Success(Medium)
    ensures CoerceLevel(Some("HIGH")) == Success(High)
  {
    CoercesMedium();
    CoercesHigh();
  }

  lemma CoercesMedium()
    ensures CoerceLevel(Some("MEDIUM")) == Success(Medium)
  {
    UpperCapitals("MEDIUM");
  }

  lemma CoercesHigh()
    ensures CoerceLevel(Some("HIGH")) == Success(High)
  {
    UpperCapitals("HIGH");
  }

  /** The inputs meant to default to LOW fail instead: `None` and any unknown level. */
  lemma CoerceLevelDefaultFails()
    ensures CoerceLevel(None) == Failure(NoMemberNamedLow)
    ensures CoerceLevel(Some("critical")) == Failure(NoMemberNamedLow)
  {
    assert CoerceLevel(Some("critical")) == Failure(NoMemberNamedLow) by { UpperAscii("critical", "CRITICAL"); }
  }

  /** `_coerce_level` as intended: the member named like `x` (any casing), else LOW. The value
      lookup is left out since its table equals the name table (`LookupTables`). */
  function CoerceLevelIntended(x: Option<string>): (r: RiskLevel)
    ensures r in Members
    ensures x.Some? ==> (Upper(Name(r)) == Upper(x.value) || (r == Low && Upper(x.value) !in ByName()))
    ensures x.None? ==> r == Low
  {
    LookupTables();
    if x.None? then Low
    else
      var sx := Upper(x.value);
      if sx in ByName() then ByName()[sx] else Low
  }

  /** The intended coercion never fails, agrees with the code wherever the code succeeds, and
      gives LOW exactly where the code raises. */
  lemma CoerceLevelIntendedAgrees(x: Option<string>)
    ensures CoerceLevel(x).Success? ==> CoerceLevelIntended(x) == CoerceLevel(x).value
    ensures CoerceLevel(x).Failure? ==> CoerceLevelIntended(x) == Low
  {
    LookupTables();
  }

  /** The levels `upload` stores for the findings of an analysis, one `_coerce_level` call per
      finding in order: the first level that does not coerce aborts the loop with its error. */
  function StoredLevels(risks: seq<Pipeline.Risk>): (r: Result<seq<RiskLevel>, CoerceError>)
    ensures r.Success? <==> forall i :: 0 <= i < |risks| ==> CoerceLevel(Some(risks[i].level)).Success?
    ensures r.Success? ==> |r.value| == |risks|
    ensures r.Success? ==> forall i :: 0 <= i < |risks| ==> r.value[i] == CoerceLevel(Some(risks[i].level)).value
  {
    if risks == [] then Success([])
    else
      match CoerceLevel(Some(risks[0].level))
      case Failure(e) => Failure(e)
      case Success(m) =>
        match StoredLevels(risks[1..])
        case Failure(e) => Failure(e)
        case Success(ms) => Success([m] + ms)
  }

  /** The findings of the rule engine coerce without error, even as written: MEDIUM findings are
      stored as `medium` and HIGH findings as `high`. */
  lemma StoredLevelsOfFindings(text: string, config: Pipeline.RuleConfig)
    ensures var fs := Pipeline.Findings(text, config);
      && StoredLevels(fs).Success?
      && forall i :: 0 <= i < |fs| ==>
           StoredLevels(fs).value[i] == (if fs[i].level == "MEDIUM" then Medium else High)
  {
    var fs := Pipeline.Findings(text, config);
    Pipeline.FindingsGrouped(text, config);
    CoerceFindingLevels();
    forall i | 0 <= i < |fs|
      ensures CoerceLevel(Some(fs[i].level)) == Success(if fs[i].level == "MEDIUM" then Medium else High)
    {
      assert fs[i] in fs;
    }
  }

  // ================================================================ the index rebuild

  /** The columns of a stored clause row that the index uses. */
  datatype ClauseRow = ClauseRow(id: int, documentId: int, title: Option<string>, text: Option<string>)

  /** Python's `x or default` on an optional string: the empty string is falsy too. */
  function OrElse(x: Option<string>, default: string): (r: string)
    ensures x.Some? && x.value != [] ==> r == x.value
    ensures x.None? || x.value == [] ==> r == default
  {
    if x.None? || x.value == [] then default else x.value
  }

  const DefaultTitle := "Clause"

  /** `(c.document_id, c.id, c.title or "Clause", c.text or "")`. */
  function RowDoc(row: ClauseRow): (d: Doc)
    ensures d.documentId == row.documentId && d.clauseId == row.id
    ensures d.title != [] && (row.title.Some? && row.title.value != [] ==> d.title == row.title.value)
    ensures row.text.Some? ==> d.text == row.text.value
    ensures row.text.None? ==> d.text == []
  {
    Doc(row.documentId, row.id, OrElse(row.title, DefaultTitle), OrElse(row.text, ""))
  }

  /** The corpus `meta` built from the rows. */
  function Corpus(rows: seq<ClauseRow>): (meta: seq<Doc>)
    ensures |meta| == |rows|
  {
    seq(|rows|, i requires 0 <= i < |rows| => RowDoc(rows[i]))
  }

  /** One entry per row in row order, with the row's ids and text, and a title that is never
      empty: a missing or empty title becomes "Clause". */
  lemma CorpusEntries(rows: seq<ClauseRow>)
    ensures forall i :: 0 <= i < |rows| ==>
      && Corpus(rows)[i].documentId == rows[i].documentId
      && Corpus(rows)[i].clauseId == rows[i].id
      && Corpus(rows)[i].title != []
      && (Corpus(rows)[i].title == DefaultTitle <==> rows[i].title.None? || rows[i].title.value in {[], DefaultTitle})
      && (rows[i].text.Some? ==> Corpus(rows)[i].text == rows[i].text.value)
      && (rows[i].text.None? ==> Corpus(rows)[i].text == [])
  {
  }

  /** `rebuild_index(db)` with the rows of the clause table as `rows` and the global index as
      `index`: without rows the index keeps its previous contents. */
  method RebuildIndex(index: ClauseIndex, rows: seq<ClauseRow>)
    modifies index
    ensures rows == [] ==> unchanged(index)
    ensures rows != [] ==>
      && index.docs == Corpus(rows)
      && index.df == DfMap(Corpus(rows))
      && index.idf == IdfMap(index.ln, Corpus(rows))
      && |index.vectors| == |rows| && |index.norms| == |rows|
      && (forall i :: 0 <= i < |rows| ==>
            index.vectors[i] == DocVector(index.idf, Corpus(rows)[i].text) &&
            index.norms[i] == DocNorm(index.sqrt, index.idf, Corpus(rows)[i].text))
      && index.Valid()
  {
    var meta := Corpus(rows);
    if meta != [] {
      index.Build(meta);
    }
  }
}
