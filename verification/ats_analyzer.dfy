/** The ATS analysis of one resume against one job description
    (ats_checker/services.py, `ATSScoreAnalyzer` and `apply_suggestion`):
    keyword score, structure score, fixed formatting score, the weighted
    overall score, the aggregated suggestions and the suggestion rows they
    expand into. */
module AtsAnalyzer {
  import opened Collections
  import opened Text
  import opened Keywords
  import opened KeywordMatching
  import opened ResumeContent

  /** The sections every resume is expected to have, in report order. */
  const RequiredSections: seq<string> := ["education", "experience", "skills"]

  /** The formatting analysis always scores 80 and reports no issues. */
  const FormattingScore: int := 80

  // ----- structure -------------------------------------------------------

  /** `analysis['structure']`. */
  datatype StructureReport = StructureReport(score: real, found: seq<string>, missing: seq<string>)

  /** The resume content has `section` (`section in content`). */
  predicate HasSection(content: Json, section: string)
  {
    Contains(content, section) == Ok(true)
  }

  /** The names the content has as sections, in the order given. */
  function SectionsFound(content: Json, names: seq<string>): (r: seq<string>)
    ensures IsSubseq(r, names)
    ensures forall s | s in names :: s in r <==> HasSection(content, s)
    ensures forall s | s in r :: s in names
    decreases |names|
  {
    if |names| == 0 then []
    else
      var rest := SectionsFound(content, names[1..]);
      if HasSection(content, names[0]) then
        assert ([names[0]] + rest)[1..] == rest;
        [names[0]] + rest
      else rest
  }

  /** `[s for s in names if s not in found]`. */
  function SectionsMissing(found: seq<string>, names: seq<string>): (r: seq<string>)
    ensures IsSubseq(r, names)
    ensures forall s | s in names :: s in r <==> s !in found
    ensures forall s | s in r :: s in names
    decreases |names|
  {
    if |names| == 0 then []
    else
      var rest := SectionsMissing(found, names[1..]);
      if names[0] !in found then
        assert ([names[0]] + rest)[1..] == rest;
        [names[0]] + rest
      else rest
  }

  /** Every name is counted once, as found or as missing. */
  lemma {:induction false} SectionsSplit(content: Json, found: seq<string>, names: seq<string>)
    requires forall s | s in names :: s in found <==> HasSection(content, s)
    ensures |SectionsFound(content, names)| + |SectionsMissing(found, names)| == |names|
    decreases |names|
  {
    if |names| > 0 {
      assert forall s | s in names[1..] :: s in names;
      SectionsSplit(content, found, names[1..]);
    }
  }

  /** `analyze_structure`: which required sections the content has and which
      it lacks, and the share found as a percentage.  Content that is a
      number, a boolean or `None` makes the first `in` test raise.  Both
      lists keep the required order and together are as long as it. */
  function AnalyzeStructure(content: Json): (r: Result<StructureReport, ContentError>)
    ensures r.Err? <==> content.Num? || content.Bool? || content.Null?
    ensures r.Ok? ==> forall s | s in RequiredSections :: s in r.value.found <==> HasSection(content, s)
    ensures r.Ok? ==> forall s | s in RequiredSections :: s in r.value.missing <==> !HasSection(content, s)
    ensures r.Ok? ==> IsSubseq(r.value.found, RequiredSections) && IsSubseq(r.value.missing, RequiredSections)
    ensures r.Ok? ==> |r.value.found| + |r.value.missing| == |RequiredSections|
    ensures r.Ok? ==> r.value.score == |r.value.found| as real / |RequiredSections| as real * 100.0
  {
    if content.Num? || content.Bool? || content.Null? then Err(NotIterable)
    else
      var found := SectionsFound(content, RequiredSections);
      var missing := SectionsMissing(found, RequiredSections);
      SectionsSplit(content, found, RequiredSections);
      Ok(StructureReport(|found| as real / |RequiredSections| as real * 100.0, found, missing))
  }

  /** Each required section is either found or missing, never both; the
      score lies in [0, 100], is 100 exactly when nothing is missing and 0
      exactly when nothing is found. */
  lemma StructurePartition(content: Json)
    requires AnalyzeStructure(content).Ok?
    ensures var r := AnalyzeStructure(content).value;
            && (forall s | s in RequiredSections :: (s in r.found) != (s in r.missing))
            && 0.0 <= r.score <= 100.0
            && (r.score == 100.0 <==> |r.missing| == 0)
            && (r.score == 0.0 <==> |r.found| == 0)
  {
    var r := AnalyzeStructure(content).value;
    PercentFacts(|r.found| as real, |RequiredSections| as real);
  }

  // ----- keywords --------------------------------------------------------

  /** `analysis['keyword_match']`. */
  datatype KeywordReport = KeywordReport(score: real, matched: nat, total: nat, details: seq<KeywordMatch>)

  /** `calculate_keyword_match`: no keywords score 0 and leave no report;
      otherwise every keyword is searched in the flattened resume text. */
  function KeywordStep(keywords: seq<Keyword>, text: string): (r: (real, Option<KeywordReport>))
    ensures |keywords| == 0 <==> r.1.None?
    ensures 0.0 <= r.0 <= 100.0
    ensures r.1.Some? ==> r.0 == r.1.value.score && |r.1.value.details| == |keywords|
    ensures r.1.Some? ==> r.1.value.matched <= r.1.value.total == |keywords|
  {
    if |keywords| == 0 then (0.0, None)
    else
      var ms := MatchAll(keywords, text);
      var score := KeywordScore(ms);
      (score, Some(KeywordReport(score, FoundCount(ms), |ms|, ms)))
  }

  // ----- overall score ---------------------------------------------------

  /** `int(0.6 * keyword + 0.25 * structure + 0.15 * formatting)`: the
      weighted sum truncated toward zero (it is never negative here, so
      truncation is the floor). */
  function OverallScore(keyword: real, structure: real, formatting: real): (score: int)
    requires 0.0 <= keyword && 0.0 <= structure && 0.0 <= formatting
    ensures score as real <= 0.6 * keyword + 0.25 * structure + 0.15 * formatting < score as real + 1.0
  {
    (0.6 * keyword + 0.25 * structure + 0.15 * formatting).Floor
  }

  /** With the fixed formatting score the overall score lies in [12, 97]. */
  lemma OverallBounds(keyword: real, structure: real)
    requires 0.0 <= keyword <= 100.0 && 0.0 <= structure <= 100.0
    ensures 12 <= OverallScore(keyword, structure, FormattingScore as real) <= 97
  {
    var x := 0.6 * keyword + 0.25 * structure + 0.15 * FormattingScore as real;
    assert 12.0 <= x <= 97.0;
  }

  /** The score is truncated, not rounded: three quarters of the keyword
      weight and two of three sections give 73.67, stored as 73. */
  lemma TruncatesNotRounds()
    ensures OverallScore(75.0, 200.0 / 3.0, FormattingScore as real) == 73
    ensures 0.6 * 75.0 + 0.25 * (200.0 / 3.0) + 0.15 * FormattingScore as real >= 73.5
  {
    assert 0.6 * 75.0 + 0.25 * (200.0 / 3.0) + 0.15 * 80.0 == 73.0 + 2.0 / 3.0;
  }

  // ----- suggestions -----------------------------------------------------

  /** The two kinds of aggregated suggestion. */
  datatype SuggestionKind = MissingKeywords | MissingSections

  /** One entry of the analyzer's suggestion list: its kind, the resume
      section it concerns, the message, and the keywords or sections it
      lists. */
  datatype Suggestion = Suggestion(kind: SuggestionKind, section: string, description: string, items: seq<string>)

  /** A keyword whose absence is worth a suggestion: high or medium
      importance and not found. */
  predicate Wanted(m: KeywordMatch)
  {
    m.keyword.importance != Low && !m.found
  }

  /** Some unfound high or medium importance keyword is `w`. */
  predicate WantedWord(ms: seq<KeywordMatch>, w: string)
  {
    exists i :: 0 <= i < |ms| && Wanted(ms[i]) && ms[i].keyword.word == w
  }

  lemma WantedWordCons(ms: seq<KeywordMatch>, w: string)
    requires |ms| > 0
    ensures WantedWord(ms, w) <==> (Wanted(ms[0]) && ms[0].keyword.word == w) || WantedWord(ms[1..], w)
  {
    if WantedWord(ms, w) && !(Wanted(ms[0]) && ms[0].keyword.word == w) {
      var i :| 0 <= i < |ms| && Wanted(ms[i]) && ms[i].keyword.word == w;
      assert ms[1..][i - 1] == ms[i];
    }
    if WantedWord(ms[1..], w) {
      var i :| 0 <= i < |ms[1..]| && Wanted(ms[1..][i]) && ms[1..][i].keyword.word == w;
      assert ms[i + 1] == ms[1..][i];
    }
  }

  /** The words of the unfound high and medium importance keywords, in
      keyword order. */
  function MissingKeywordList(ms: seq<KeywordMatch>): (r: seq<string>)
    ensures |r| <= |ms|
    ensures forall w :: w in r <==> WantedWord(ms, w)
    decreases |ms|
  {
    if |ms| == 0 then []
    else
      var rest := MissingKeywordList(ms[1..]);
      var r := if Wanted(ms[0]) then [ms[0].keyword.word] + rest else rest;
      assert forall w :: w in r <==> WantedWord(ms, w) by {
        forall w
          ensures w in r <==> WantedWord(ms, w)
        {
          WantedWordCons(ms, w);
        }
      }
      r
  }

  /** The words of the keywords, in order. */
  function Words(ms: seq<KeywordMatch>): (r: seq<string>)
    ensures |r| == |ms|
    ensures forall i :: 0 <= i < |ms| ==> r[i] == ms[i].keyword.word
  {
    seq(|ms|, i requires 0 <= i < |ms| => ms[i].keyword.word)
  }

  /** The missing keywords keep the order the keywords were ranked in. */
  lemma {:induction false} MissingKeywordsInOrder(ms: seq<KeywordMatch>)
    ensures IsSubseq(MissingKeywordList(ms), Words(ms))
    decreases |ms|
  {
    if |ms| > 0 {
      MissingKeywordsInOrder(ms[1..]);
      assert Words(ms)[1..] == Words(ms[1..]);
      var rest := MissingKeywordList(ms[1..]);
      if Wanted(ms[0]) {
        assert ([ms[0].keyword.word] + rest)[1..] == rest;
      } else {
        SubseqSkip(rest, Words(ms));
      }
    }
  }

  /** Dropping the first element of the longer sequence keeps a
      subsequence. */
  lemma SubseqSkip<T>(a: seq<T>, b: seq<T>)
    requires |b| > 0 && IsSubseq(a, b[1..])
    ensures IsSubseq(a, b)
  {
  }

  /** `", ".join(items)`. */
  function CommaList(items: seq<string>): string
  {
    Join(", ", items)
  }

  /** The suggestion listing the missing important keywords. */
  function KeywordSuggestion(missingKeywords: seq<string>): Suggestion
  {
    Suggestion(MissingKeywords, "general",
               "Add these important keywords to your resume: " + CommaList(missingKeywords),
               missingKeywords)
  }

  /** The suggestion listing the missing sections. */
  function SectionSuggestion(missingSections: seq<string>): Suggestion
  {
    Suggestion(MissingSections, "structure",
               "Add these missing sections to your resume: " + CommaList(missingSections),
               missingSections)
  }

  /** `generate_suggestions`: a keyword suggestion when some important
      keyword is missing, then a section suggestion when some section is
      missing; nothing else. */
  function GenerateSuggestions(missingKeywords: seq<string>, missingSections: seq<string>): (r: seq<Suggestion>)
    ensures |r| == (if |missingKeywords| > 0 then 1 else 0) + (if |missingSections| > 0 then 1 else 0)
    ensures |missingKeywords| > 0 ==> r[0] == KeywordSuggestion(missingKeywords)
    ensures |missingSections| > 0 ==> r[|r| - 1] == SectionSuggestion(missingSections)
    ensures forall i :: 0 <= i < |r| ==>
              (r[i].kind == MissingKeywords ==> |missingKeywords| > 0 && r[i] == KeywordSuggestion(missingKeywords))
    ensures forall i :: 0 <= i < |r| ==>
              (r[i].kind == MissingSections ==> |missingSections| > 0 && r[i] == SectionSuggestion(missingSections))
  {
    (if |missingKeywords| > 0 then [KeywordSuggestion(missingKeywords)] else [])
    + (if |missingSections| > 0 then [SectionSuggestion(missingSections)] else [])
  }

  /** One saved `OptimizationSuggestion`; a new one is never applied. */
  datatype SuggestionRow = SuggestionRow(section: string, originalText: string, suggestedText: string,
                                         reason: string, applied: bool)

  /** The row saved for one missing keyword. */
  function KeywordRow(keyword: string): (row: SuggestionRow)
    ensures row.section == "general" && row.originalText == "" && !row.applied
  {
    SuggestionRow("general", "",
                  "Consider adding the keyword '" + keyword + "' to your resume",
                  "The keyword '" + keyword + "' is important for this job but was not found in your resume",
                  false)
  }

  /** The row saved for one missing section. */
  function SectionRow(section: string): (row: SuggestionRow)
    ensures row.section == section && row.originalText == "" && !row.applied
  {
    SuggestionRow(section, "",
                  "Add a " + section + " section to your resume",
                  "A " + section + " section is expected in resumes for this type of job",
                  false)
  }

  /** The rows one suggestion expands into: one per listed item. */
  function RowsOf(s: Suggestion): (rows: seq<SuggestionRow>)
    ensures |rows| == |s.items|
    ensures forall i :: 0 <= i < |rows| ==>
              rows[i] == (if s.kind == MissingKeywords then KeywordRow(s.items[i]) else SectionRow(s.items[i]))
  {
    seq(|s.items|, i requires 0 <= i < |s.items| =>
      if s.kind == MissingKeywords then KeywordRow(s.items[i]) else SectionRow(s.items[i]))
  }

  /** `save_optimization_suggestions`: the rows of all suggestions, in
      order. */
  function ExpandSuggestions(ss: seq<Suggestion>): (rows: seq<SuggestionRow>)
    ensures forall r | r in rows :: !r.applied && r.originalText == ""
    decreases |ss|
  {
    if |ss| == 0 then [] else RowsOf(ss[0]) + ExpandSuggestions(ss[1..])
  }

  lemma {:induction false} ExpandAppend(a: seq<Suggestion>, b: seq<Suggestion>)
    ensures ExpandSuggestions(a + b) == ExpandSuggestions(a) + ExpandSuggestions(b)
    decreases |a|
  {
    if |a| == 0 {
      assert a + b == b;
    } else {
      assert (a + b)[1..] == a[1..] + b;
      ExpandAppend(a[1..], b);
    }
  }

  /** A single suggestion expands into its own rows. */
  lemma ExpandOne(x: Suggestion)
    ensures ExpandSuggestions([x]) == RowsOf(x)
  {
    assert ExpandSuggestions([x]) == RowsOf([x][0]) + ExpandSuggestions([]);
  }

  /** The analyzer's suggestions expand into the keyword rows followed by
      the section rows. */
  lemma RowsInOrder(missingKeywords: seq<string>, missingSections: seq<string>)
    ensures ExpandSuggestions(GenerateSuggestions(missingKeywords, missingSections))
            == RowsOf(KeywordSuggestion(missingKeywords)) + RowsOf(SectionSuggestion(missingSections))
  {
    var k := if |missingKeywords| > 0 then [KeywordSuggestion(missingKeywords)] else [];
    var s := if |missingSections| > 0 then [SectionSuggestion(missingSections)] else [];
    assert GenerateSuggestions(missingKeywords, missingSections) == k + s;
    ExpandAppend(k, s);
    if |missingKeywords| > 0 {
      ExpandOne(KeywordSuggestion(missingKeywords));
    }
    if |missingSections| > 0 {
      ExpandOne(SectionSuggestion(missingSections));
    }
  }

  /** The keyword suggestion's rows: one per missing keyword. */
  lemma KeywordRows(missingKeywords: seq<string>)
    ensures var rows := RowsOf(KeywordSuggestion(missingKeywords));
            && |rows| == |missingKeywords|
            && forall i :: 0 <= i < |rows| ==> rows[i] == KeywordRow(missingKeywords[i])
  {
  }

  /** The section suggestion's rows: one per missing section. */
  lemma SectionRows(missingSections: seq<string>)
    ensures var rows := RowsOf(SectionSuggestion(missingSections));
            && |rows| == |missingSections|
            && forall i :: 0 <= i < |rows| ==> rows[i] == SectionRow(missingSections[i])
  {
  }

  /** Keyword rows followed by section rows, indexed by item. */
  lemma AppendRows(a: seq<SuggestionRow>, b: seq<SuggestionRow>, mk: seq<string>, ms: seq<string>)
    requires |a| == |mk| && forall i :: 0 <= i < |a| ==> a[i] == KeywordRow(mk[i])
    requires |b| == |ms| && forall i :: 0 <= i < |b| ==> b[i] == SectionRow(ms[i])
    ensures |a + b| == |mk| + |ms|
    ensures forall i :: 0 <= i < |mk| ==> (a + b)[i] == KeywordRow(mk[i])
    ensures forall i :: 0 <= i < |ms| ==> (a + b)[|mk| + i] == SectionRow(ms[i])
  {
  }

  /** One row per listed keyword and per listed section, keywords first. */
  lemma RowsPerItem(missingKeywords: seq<string>, missingSections: seq<string>)
    ensures var rows := ExpandSuggestions(GenerateSuggestions(missingKeywords, missingSections));
            && |rows| == |missingKeywords| + |missingSections|
            && (forall i :: 0 <= i < |missingKeywords| ==> rows[i] == KeywordRow(missingKeywords[i]))
            && (forall i :: 0 <= i < |missingSections| ==>
                  rows[|missingKeywords| + i] == SectionRow(missingSections[i]))
  {
    RowsInOrder(missingKeywords, missingSections);
    KeywordRows(missingKeywords);
    SectionRows(missingSections);
    AppendRows(RowsOf(KeywordSuggestion(missingKeywords)), RowsOf(SectionSuggestion(missingSections)),
               missingKeywords, missingSections);
  }

  // ----- the whole analysis ----------------------------------------------

  /** What the analyzer reads: the resume content and the job
      description. */
  datatype AnalysisRequest = AnalysisRequest(content: Json, jobDescription: string)

  /** The analyzer's outcome.  `Scored` carries the stored score, the
      analysis parts, the suggestion list and the rows saved for keyword
      matches and suggestions; `Failed` is the exception path, which stores
      score 0 and the error and saves no rows. */
  datatype Outcome =
    | Scored(score: int, keywordReport: Option<KeywordReport>, structure: StructureReport,
             formatting: int, suggestions: seq<Suggestion>,
             matches: seq<KeywordMatch>, rows: seq<SuggestionRow>)
    | Failed(score: int, error: ContentError)

  /** `analyze`. */
  function Analyze(request: AnalysisRequest, render: Json -> string): (r: Outcome)
    ensures r.Failed? <==> request.content.Num? || request.content.Bool? || request.content.Null?
    ensures r.Failed? ==> r.score == 0
    ensures r.Scored? ==> 12 <= r.score <= 97 && r.formatting == FormattingScore
    ensures r.Scored? ==> |r.suggestions| <= 2 && |r.matches| <= MaxKeywords
    ensures r.Scored? ==> (r.keywordReport.None? <==> |ExtractKeywords(request.jobDescription)| == 0)
  {
    var keywords := ExtractKeywords(request.jobDescription);
    var step := KeywordStep(keywords, ResumeText(request.content, render));
    var structure := AnalyzeStructure(request.content);
    if structure.Err? then Failed(0, structure.error)
    else ScoredOutcome(step.0, step.1, structure.value)
  }

  /** The successful end of `analyze`: the overall score from the three
      parts, the suggestions for what is missing and the rows saved for
      them. */
  function ScoredOutcome(keywordScore: real, report: Option<KeywordReport>, structure: StructureReport): (r: Outcome)
    requires 0.0 <= keywordScore <= 100.0 && 0.0 <= structure.score <= 100.0
    ensures r.Scored? && 12 <= r.score <= 97 && r.formatting == FormattingScore
    ensures |r.suggestions| <= 2
    ensures r.keywordReport == report && r.structure == structure
    ensures r.matches == (if report.Some? then report.value.details else [])
  {
    OverallBounds(keywordScore, structure.score);
    var matches := if report.Some? then report.value.details else [];
    var suggestions := GenerateSuggestions(MissingKeywordList(matches), structure.missing);
    Scored(OverallScore(keywordScore, structure.score, FormattingScore as real),
           report, structure, FormattingScore, suggestions, matches, ExpandSuggestions(suggestions))
  }

  /** On success the stored score is the truncated weighted sum of the
      keyword, structure and formatting scores, and each saved keyword row is
      the search result for that keyword. */
  lemma AnalyzeScore(request: AnalysisRequest, render: Json -> string)
    requires request.content.Str? || request.content.List? || request.content.Map?
    ensures var r := Analyze(request, render);
            var keywords := ExtractKeywords(request.jobDescription);
            var ms := MatchAll(keywords, ResumeText(request.content, render));
            && r.score == OverallScore(KeywordScore(ms), AnalyzeStructure(request.content).value.score,
                                       FormattingScore as real)
            && r.matches == ms
  {
  }

  /** On success the suggestions list exactly the unfound important
      keywords and the missing sections, and one row is saved per listed
      item. */
  lemma AnalyzeSuggestions(request: AnalysisRequest, render: Json -> string)
    requires request.content.Str? || request.content.List? || request.content.Map?
    ensures var r := Analyze(request, render);
            var mk := MissingKeywordList(r.matches);
            && r.suggestions == GenerateSuggestions(mk, r.structure.missing)
            && |r.rows| == |mk| + |r.structure.missing|
  {
    var r := Analyze(request, render);
    RowsPerItem(MissingKeywordList(r.matches), r.structure.missing);
  }

  /** `analyze_resume`: a missing score record yields nothing; a stored one
      is analysed, which fails with score 0 exactly for number, boolean or
      null content and otherwise stores a score between 12 and 97. */
  function AnalyzeStored(requests: map<nat, AnalysisRequest>, id: nat, render: Json -> string): (r: Option<Outcome>)
    ensures r.Some? <==> id in requests
    ensures r.Some? ==>
              (r.value.Failed? <==> requests[id].content.Num? || requests[id].content.Bool? || requests[id].content.Null?)
    ensures r.Some? && r.value.Failed? ==> r.value.score == 0
    ensures r.Some? && r.value.Scored? ==> 12 <= r.value.score <= 97
    ensures r.Some? ==> r.value == Analyze(requests[id], render)
  {
    if id in requests then Some(Analyze(requests[id], render)) else None
  }

  // ----- applying a suggestion -------------------------------------------

  /** `apply_suggestion`: an unknown or already applied suggestion yields
      false and changes nothing; otherwise the suggestion is marked applied
      and the answer is true.  No other row changes. */
  function ApplySuggestion(rows: map<nat, SuggestionRow>, id: nat): (r: (bool, map<nat, SuggestionRow>))
    ensures r.0 <==> id in rows && !rows[id].applied
    ensures !r.0 ==> r.1 == rows
    ensures r.1.Keys == rows.Keys
    ensures id in rows ==> r.1[id].applied && r.1[id] == rows[id].(applied := true)
    ensures forall j | j in rows && j != id :: r.1[j] == rows[j]
  {
    if id !in rows || rows[id].applied then (false, rows)
    else (true, rows[id := rows[id].(applied := true)])
  }

  /** Applying a suggestion twice is the same as applying it once, and the
      second attempt reports false. */
  lemma ApplyIdempotent(rows: map<nat, SuggestionRow>, id: nat)
    ensures var once := ApplySuggestion(rows, id).1;
            var twice := ApplySuggestion(once, id);
            !twice.0 && twice.1 == once
  {
  }
}
