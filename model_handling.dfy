/** The scoring engine of `UniversalResumeAnalyzer`: format dispatch for text
    extraction, text normalisation, keyword extraction, the similarity guard,
    the weighted score with its label, and the per-file batch loop.

    Scores are integers counting tenths (`overall == 723` is 72.3), which is
    exactly what `round(x, 1)` can produce. */
module ModelHandling {
  import opened Wrappers
  import opened Lists
  import opened PyStr

  type Bytes = seq<bv8>

  /** What the analyzer gets from libraries it does not own. `pdfText` and
      `docxText` are the PDF (text layer, then OCR) and Word extractors, which
      catch their own failures and then return "". `similarity` encodes both
      texts with the sentence-embedding model and returns their cosine; it may
      raise (Failure carries the message). `properNouns` and `techTerms` are
      the two `re.findall` calls of `extract_keywords`, in match order. */
  datatype Analyzer = Analyzer(
    pdfText: Bytes -> string,
    docxText: Bytes -> string,
    similarity: (string, string) -> Result<real, string>,
    properNouns: string -> seq<string>,
    techTerms: string -> seq<string>)

  const PDF := "pdf"
  const DOCX := "docx"

  // ----- text extraction -----

  /** `extract_text`: empty content gives "" before any dispatch; only the two
      literal tags reach an extractor; every other tag gives "". */
  function ExtractText(az: Analyzer, content: Bytes, format: string): (text: string)
    ensures content == [] ==> text == ""
    ensures format != PDF && format != DOCX ==> text == ""
    ensures content != [] && format == PDF ==> text == az.pdfText(content)
    ensures content != [] && format == DOCX ==> text == az.docxText(content)
  {
    if |content| == 0 then ""
    else if format == PDF then az.pdfText(content)
    else if format == DOCX then az.docxText(content)
    else ""
  }

  // ----- preprocess_text -----

  /** Characters that survive punctuation removal: `[\w\s\-]`. */
  predicate KeptByCleaning(c: char) {
    IsWordChar(c) || IsSpace(c) || c == '-'
  }

  /** The characters that carry the text: word characters and hyphens. */
  predicate IsSignificant(c: char) {
    IsWordChar(c) || c == '-'
  }

  /** What a preprocessed text may contain. */
  predicate IsCleanChar(c: char) {
    IsLower(c) || IsDigit(c) || c == '_' || c == ' ' || c == '-'
  }

  /** `re.sub(r'\s+', ' ', s)`: every maximal run of whitespace becomes one space. */
  function CollapseWhitespace(s: string): (r: string)
    ensures forall i :: 0 <= i < |r| && IsSpace(r[i]) ==> r[i] == ' '
    ensures forall i :: 0 <= i < |r| && !IsSpace(r[i]) ==> r[i] in s
    ensures s != [] ==> r != [] && (IsSpace(r[0]) <==> IsSpace(s[0]))
    ensures forall i :: 0 <= i < |r| - 1 ==> !(IsSpace(r[i]) && IsSpace(r[i + 1]))
    decreases |s|
  {
    if s == [] then []
    else if IsSpace(s[0]) then " " + CollapseWhitespace(TrimStart(s))
    else [s[0]] + CollapseWhitespace(s[1..])
  }

  /** A whole whitespace run becomes one space. */
  lemma CollapseRun(w: string)
    requires w != [] && IsBlank(w)
    ensures CollapseWhitespace(w) == " "
  {
    assert IsSpace(w[0]);
  }

  /** Collapsing works run by run: cutting the text anywhere but inside a
      whitespace run and collapsing the two parts gives the same result. */
  lemma {:induction false} CollapseJoin(a: string, b: string)
    requires a == [] || b == [] || !IsSpace(a[|a| - 1]) || !IsSpace(b[0])
    ensures CollapseWhitespace(a + b) == CollapseWhitespace(a) + CollapseWhitespace(b)
    decreases |a|
  {
    if a == [] {
      assert a + b == b;
    } else if b == [] {
      assert a + b == a;
    } else if !IsSpace(a[0]) {
      assert (a + b)[1..] == a[1..] + b;
      CollapseJoin(a[1..], b);
      AppendAssoc([a[0]], CollapseWhitespace(a[1..]), CollapseWhitespace(b));
    } else if IsBlank(a) {
      TrimStartBlank(a, b);
      CollapseRun(a);
    } else {
      var t := TrimStart(a);
      TrimStartAppend(a, b);
      assert t != [] && t[|t| - 1] == a[|a| - 1];
      CollapseJoin(t, b);
      CollapseRunStep(a, b);
    }
  }

  lemma CollapseRunStep(a: string, b: string)
    requires a != [] && IsSpace(a[0]) && !IsBlank(a)
    requires TrimStart(a + b) == TrimStart(a) + b
    requires CollapseWhitespace(TrimStart(a) + b) == CollapseWhitespace(TrimStart(a)) + CollapseWhitespace(b)
    ensures CollapseWhitespace(a + b) == CollapseWhitespace(a) + CollapseWhitespace(b)
  {
    assert (a + b)[0] == a[0];
    AppendAssoc(" ", CollapseWhitespace(TrimStart(a)), CollapseWhitespace(b));
  }

  /** A text ending in a non-space character collapses to a text ending in it. */
  lemma CollapseLast(a: string)
    requires a != [] && !IsSpace(a[|a| - 1])
    ensures CollapseWhitespace(a) == CollapseWhitespace(a[..|a| - 1]) + [a[|a| - 1]]
  {
    var x := a[|a| - 1];
    SplitLast(a);
    CollapseJoin(a[..|a| - 1], [x]);
    CollapseOne(x);
  }

  lemma CollapseOne(x: char)
    requires !IsSpace(x)
    ensures CollapseWhitespace([x]) == [x]
  {
    assert CollapseWhitespace([x]) == [x] + CollapseWhitespace([]);
  }

  /** `re.sub(r'[^\w\s\-]', '', s)`. */
  function RemovePunctuation(s: string): (r: string)
    ensures forall i :: 0 <= i < |r| ==> KeptByCleaning(r[i])
    ensures forall c :: c in r <==> c in s && KeptByCleaning(c)
  {
    FilterComplete(s, KeptByCleaning);
    Filter(s, KeptByCleaning)
  }

  /** `preprocess_text`: lower-cased, trimmed, only word characters, spaces and
      hyphens, and every whitespace character is a plain space. Runs of spaces
      can remain where punctuation stood between them. */
  function Preprocess(s: string): (r: string)
    ensures forall i :: 0 <= i < |r| ==> IsCleanChar(r[i])
    ensures r == [] || (r[0] != ' ' && r[|r| - 1] != ' ')
  {
    var collapsed := CollapseWhitespace(s);
    var kept := RemovePunctuation(collapsed);
    assert forall i :: 0 <= i < |kept| ==> IsWordChar(kept[i]) || kept[i] == ' ' || kept[i] == '-';
    var lowered := Lower(kept);
    assert forall i :: 0 <= i < |lowered| ==> IsCleanChar(lowered[i]);
    StripChars(lowered);
    Strip(lowered)
  }

  lemma {:induction false} CollapseKeepsText(s: string)
    ensures Filter(CollapseWhitespace(s), IsSignificant) == Filter(s, IsSignificant)
    decreases |s|
  {
    if s == [] {
    } else if IsSpace(s[0]) {
      var t := TrimStart(s);
      CollapseKeepsText(t);
      assert CollapseWhitespace(s) == " " + CollapseWhitespace(t);
      BlankPrefixKeepsText(" ", CollapseWhitespace(t));
      var head := s[..|s| - |t|];
      assert s == head + t;
      BlankPrefixKeepsText(head, t);
    } else {
      CollapseKeepsText(s[1..]);
      assert CollapseWhitespace(s) == [s[0]] + CollapseWhitespace(s[1..]);
      FilterAppend([s[0]], CollapseWhitespace(s[1..]), IsSignificant);
      assert s == [s[0]] + s[1..];
      FilterAppend([s[0]], s[1..], IsSignificant);
    }
  }

  /** Whitespace in front of a text adds no text. */
  lemma BlankPrefixKeepsText(head: string, t: string)
    requires IsBlank(head)
    ensures Filter(head + t, IsSignificant) == Filter(t, IsSignificant)
  {
    FilterAppend(head, t, IsSignificant);
    BlankHasNoText(head);
  }

  lemma {:induction false} RemovePunctuationKeepsText(s: string)
    ensures Filter(RemovePunctuation(s), IsSignificant) == Filter(s, IsSignificant)
  {
    if s != [] {
      RemovePunctuationKeepsText(s[1..]);
      var head := if KeptByCleaning(s[0]) then [s[0]] else [];
      assert RemovePunctuation(s) == head + RemovePunctuation(s[1..]);
      FilterAppend(head, RemovePunctuation(s[1..]), IsSignificant);
    }
  }

  lemma {:induction false} LowerKeepsText(s: string)
    ensures Filter(Lower(s), IsSignificant) == Lower(Filter(s, IsSignificant))
  {
    if s != [] {
      var c, t := s[0], s[1..];
      var low := Lower(s);
      LowerKeepsText(t);
      assert low[0] == LowerChar(c) && low[1..] == Lower(t);
      assert IsSignificant(LowerChar(c)) == IsSignificant(c);
      var head := if IsSignificant(c) then [c] else [];
      assert Filter(low, IsSignificant) == Lower(head) + Filter(Lower(t), IsSignificant);
      assert Filter(s, IsSignificant) == head + Filter(t, IsSignificant);
      LowerAppend(head, Filter(t, IsSignificant));
    }
  }

  lemma BlankHasNoText(a: string)
    requires IsBlank(a)
    ensures Filter(a, IsSignificant) == []
  {
    assert forall i :: 0 <= i < |a| ==> !IsSignificant(a[i]) by {
      forall i | 0 <= i < |a| ensures !IsSignificant(a[i]) {
        assert IsSpace(a[i]);
      }
    }
    FilterNone(a, IsSignificant);
  }

  lemma StripKeepsText(s: string)
    ensures Filter(Strip(s), IsSignificant) == Filter(s, IsSignificant)
  {
    var r := Strip(s);
    var i :| StripsTo(s, r, i);
    TrimmedKeepsText(s, r, i);
  }

  /** Removing whitespace from both ends removes no text. */
  lemma TrimmedKeepsText(s: string, r: string, i: int)
    requires StripsTo(s, r, i)
    ensures Filter(s, IsSignificant) == Filter(r, IsSignificant)
  {
    var head, tail := s[..i], s[i + |r|..];
    assert s == head + r + tail;
    calc {
      Filter(head + r + tail, IsSignificant);
      { assert head + r + tail == head + (r + tail); }
      Filter(head + (r + tail), IsSignificant);
      { FilterAppend(head, r + tail, IsSignificant); BlankHasNoText(head); }
      Filter(r + tail, IsSignificant);
      { FilterAppend(r, tail, IsSignificant); BlankHasNoText(tail); }
      Filter(r, IsSignificant);
    }
  }

  /** Preprocessing drops punctuation and whitespace only: the word characters
      and hyphens of the input survive, lower-cased and in their order. */
  lemma PreprocessKeepsText(s: string)
    ensures Filter(Preprocess(s), IsSignificant) == Lower(Filter(s, IsSignificant))
  {
    var collapsed := CollapseWhitespace(s);
    var kept := RemovePunctuation(collapsed);
    CollapseKeepsText(s);
    RemovePunctuationKeepsText(collapsed);
    LowerKeepsText(kept);
    StripKeepsText(Lower(kept));
  }

  /** Lower-cased with punctuation removed: what preprocessing does between
      collapsing and stripping. */
  function Cleaned(s: string): (r: string)
    ensures |r| <= |s|
  {
    Lower(RemovePunctuation(s))
  }

  lemma PreprocessIs(s: string)
    ensures Preprocess(s) == Strip(Cleaned(CollapseWhitespace(s)))
  {
  }

  /** Cleaning works character by character, so it distributes over joins. */
  lemma CleanJoin(x: string, y: string)
    ensures Cleaned(x + " " + y) == Cleaned(x) + " " + Cleaned(y)
  {
    RemovePunctuationJoin(x, y);
    LowerJoin(RemovePunctuation(x), RemovePunctuation(y));
  }

  lemma RemovePunctuationJoin(x: string, y: string)
    ensures RemovePunctuation(x + " " + y) == RemovePunctuation(x) + " " + RemovePunctuation(y)
  {
    FilterAppend(x + " ", y, KeptByCleaning);
    FilterAppend(x, " ", KeptByCleaning);
    assert Filter(" ", KeptByCleaning) == " ";
  }

  /** Collapsing and cleaning a text that ends in a word character or hyphen
      leaves a text that ends in a non-space character. */
  lemma CleanEnd(a: string)
    requires a != [] && IsSignificant(a[|a| - 1])
    ensures var c := Cleaned(CollapseWhitespace(a)); c != [] && !IsSpace(c[|c| - 1])
  {
    var x := a[|a| - 1];
    CollapseLast(a);
    CleanedLast(CollapseWhitespace(a[..|a| - 1]), x);
  }

  lemma CleanedLast(c: string, x: char)
    requires IsSignificant(x)
    ensures Cleaned(c + [x]) == Cleaned(c) + [LowerChar(x)]
  {
    FilterAppend(c, [x], KeptByCleaning);
    assert Filter([x], KeptByCleaning) == [x];
    LowerAppend(RemovePunctuation(c), [x]);
  }

  lemma CleanedFirst(x: char, c: string)
    requires IsSignificant(x)
    ensures Cleaned([x] + c) == [LowerChar(x)] + Cleaned(c)
  {
    FilterAppend([x], c, KeptByCleaning);
    assert Filter([x], KeptByCleaning) == [x];
    LowerAppend([x], RemovePunctuation(c));
  }

  /** Collapsing and cleaning a text that starts with a word character or
      hyphen leaves a text that starts with a non-space character. */
  lemma CleanStart(b: string)
    requires b != [] && IsSignificant(b[0])
    ensures var c := Cleaned(CollapseWhitespace(b)); c != [] && !IsSpace(c[0])
  {
    var x := b[0];
    var rest := CollapseWhitespace(b[1..]);
    assert CollapseWhitespace(b) == [x] + rest;
    CleanedFirst(x, rest);
  }

  /** A whitespace run between two word characters (or hyphens) collapses to
      exactly one space. */
  lemma CollapseGap(a: string, gap: string, b: string)
    requires a != [] && IsSignificant(a[|a| - 1])
    requires b != [] && IsSignificant(b[0])
    requires gap != [] && IsBlank(gap)
    ensures CollapseWhitespace(a + gap + b) == CollapseWhitespace(a) + " " + CollapseWhitespace(b)
  {
    assert !IsSpace(a[|a| - 1]) && !IsSpace(b[0]);
    AppendAssoc(a, gap, b);
    CollapseJoin(a, gap + b);
    assert IsSpace(gap[|gap| - 1]);
    CollapseJoin(gap, b);
    CollapseRun(gap);
    AppendAssoc(CollapseWhitespace(a), " ", CollapseWhitespace(b));
  }

  /** Preprocessing keeps word boundaries: two texts separated by whitespace
      and meeting at word characters (or hyphens) preprocess to their own
      preprocessed forms joined by exactly one space. */
  lemma PreprocessSeparatesWords(a: string, gap: string, b: string)
    requires a != [] && IsSignificant(a[|a| - 1])
    requires b != [] && IsSignificant(b[0])
    requires gap != [] && IsBlank(gap)
    ensures Preprocess(a + gap + b) == Preprocess(a) + " " + Preprocess(b)
  {
    var ca, cb := CollapseWhitespace(a), CollapseWhitespace(b);
    CollapseGap(a, gap, b);
    CleanJoin(ca, cb);
    CleanEnd(a);
    CleanStart(b);
    StripJoin(Cleaned(ca), Cleaned(cb));
    PreprocessIs(a + gap + b);
    PreprocessIs(a);
    PreprocessIs(b);
  }

  /** A keyword holding a character that preprocessing strips ("c++",
      "ci/cd", "node.js") is never a substring of a preprocessed text. */
  lemma UncleanNeverMatches(p: string, s: string, k: nat)
    requires k < |p| && !IsCleanChar(p[k])
    ensures !IsSubstring(p, Preprocess(s))
  {
    var clean := Preprocess(s);
    if IsSubstring(p, clean) {
      SubstringChars(p, clean);
    }
  }

  // ----- extract_keywords -----

  const KEYWORD_LIMIT: nat := 30

  /** The proper nouns, as found and in text order, followed by each
      technical term title-cased, in text order. */
  function KeywordCandidates(az: Analyzer, jd: string): (c: seq<string>)
    ensures |c| == |az.properNouns(jd)| + |az.techTerms(jd)|
    ensures c[..|az.properNouns(jd)|] == az.properNouns(jd)
    ensures forall i :: 0 <= i < |az.techTerms(jd)| ==> c[|az.properNouns(jd)| + i] == Title(az.techTerms(jd)[i])
  {
    az.properNouns(jd) + Map(az.techTerms(jd), Title)
  }

  /** `extract_keywords`: `list(set(candidates))[:top_n]`. Python's set order
      is not specified; this model keeps first occurrences, and the contract
      holds for any order: at most top_n distinct candidates, and every
      candidate when there are no more than top_n distinct ones. */
  function ExtractKeywords(az: Analyzer, jd: string, topN: nat): (kws: seq<string>)
    ensures |kws| <= topN
    ensures NoDuplicates(kws)
    ensures forall i :: 0 <= i < |kws| ==> kws[i] in KeywordCandidates(az, jd)
    ensures |Dedup(KeywordCandidates(az, jd))| <= topN ==>
              forall k :: k in KeywordCandidates(az, jd) ==> k in kws
    ensures |Dedup(KeywordCandidates(az, jd))| > topN ==> |kws| == topN
  {
    var distinct := Dedup(KeywordCandidates(az, jd));
    var kws := Take(distinct, topN);
    assert forall i :: 0 <= i < |kws| ==> kws[i] == distinct[i];
    kws
  }

  // ----- compute_similarity -----

  /** `compute_similarity`: when either text is blank the result is 0.0
      whatever the embedder is, so it is not consulted; otherwise the
      embedder's cosine (or its exception). */
  function ComputeSimilarity(az: Analyzer, text1: string, text2: string): (r: Result<real, string>)
    ensures IsBlank(text1) || IsBlank(text2) ==> r == Success(0.0)
    ensures !IsBlank(text1) && !IsBlank(text2) ==> r == az.similarity(text1, text2)
  {
    if Strip(text1) == [] || Strip(text2) == [] then Success(0.0)
    else az.similarity(text1, text2)
  }

  // ----- the score -----

  /** `round(x, 1)` in tenths: the integer nearest to 10x, halves going to the
      even neighbour. */
  function RoundTenths(x: real): (t: int)
    ensures -0.5 <= t as real - 10.0 * x <= 0.5
    ensures t as real - 10.0 * x == 0.5 || t as real - 10.0 * x == -0.5 ==> t % 2 == 0
  {
    var y := 10.0 * x;
    var n := y.Floor;
    var frac := y - n as real;
    if frac > 0.5 then n + 1
    else if frac < 0.5 then n
    else if n % 2 == 0 then n
    else n + 1
  }

  lemma RoundTenthsMonotone(x: real, y: real)
    requires x <= y
    ensures RoundTenths(x) <= RoundTenths(y)
  {
  }

  const SEMANTIC_WEIGHT: real := 0.60
  const KEYWORD_WEIGHT: real := 0.40
  const SCORE_CAP: real := 100.0

  /** `len(matched) / len(keywords) * 100`, or 0 without keywords: the
      percentage of keywords matched. */
  function KeywordScore(matched: nat, total: nat): (score: real)
    requires matched <= total
    ensures 0.0 <= score <= 100.0
    ensures total == 0 || matched == 0 ==> score == 0.0
    ensures total > 0 ==> score * total as real == 100.0 * matched as real
  {
    if total == 0 then 0.0 else (matched as real / total as real) * 100.0
  }

  /** `round(min(0.6 * semantic + 0.4 * keyword, 100), 1)`: never above 100.0,
      within half a tenth of the capped weighted sum, and not negative when
      neither component is. A negative cosine can make it negative. */
  function OverallScore(semantic: real, keyword: real): (t: int)
    ensures t <= 1000
    ensures var w := SEMANTIC_WEIGHT * semantic + KEYWORD_WEIGHT * keyword;
            var capped := if w < SCORE_CAP then w else SCORE_CAP;
            -0.5 <= t as real - 10.0 * capped <= 0.5
    ensures 0.0 <= semantic && 0.0 <= keyword ==> 0 <= t
  {
    var weighted := SEMANTIC_WEIGHT * semantic + KEYWORD_WEIGHT * keyword;
    var capped := if weighted < SCORE_CAP then weighted else SCORE_CAP;
    RoundTenthsMonotone(capped, SCORE_CAP);
    RoundTenthsMonotone(if 0.0 <= semantic && 0.0 <= keyword then 0.0 else capped, capped);
    RoundTenths(capped)
  }

  /** The `summary` strings of an analysis and of the batch sentinels. */
  datatype Label =
    | OutstandingMatch | StrongMatch | ModerateMatch | NeedsImprovement | Unsatisfactory
    | NoContentDetected | ProcessingFailed
  {
    function Text(): string {
      match this
      case OutstandingMatch => "Outstanding Match"
      case StrongMatch => "Strong Match"
      case ModerateMatch => "Moderate Match"
      case NeedsImprovement => "Needs Improvement"
      case Unsatisfactory => "Unsatisfactory"
      case NoContentDetected => "No content detected"
      case ProcessingFailed => "Processing failed"
    }
  }

  /** The summary label of a score in tenths. Each band excludes its lower
      bound: 80.0 is a Strong Match, 65.0 Moderate, 35.0 Unsatisfactory. */
  function Summary(t: int): (band: Label)
    ensures band == OutstandingMatch <==> 800 < t
    ensures band == StrongMatch <==> 650 < t <= 800
    ensures band == ModerateMatch <==> 500 < t <= 650
    ensures band == NeedsImprovement <==> 350 < t <= 500
    ensures band == Unsatisfactory <==> t <= 350
    ensures band != NoContentDetected && band != ProcessingFailed
  {
    if t > 800 then OutstandingMatch
    else if t > 650 then StrongMatch
    else if t > 500 then ModerateMatch
    else if t > 350 then NeedsImprovement
    else Unsatisfactory
  }

  // ----- analyze_resume -----

  datatype Analysis = Analysis(
    overall: int,
    matched: seq<string>,
    keywordsTotal: seq<string>,
    semantic: int,
    summary: Label)

  /** `[kw for kw in keywords if kw.lower() in clean_resume]`. */
  function MatchedKeywords(keywords: seq<string>, cleanResume: string): (matched: seq<string>)
    ensures |matched| <= |keywords| && multiset(matched) <= multiset(keywords)
    ensures forall k :: k in matched <==> k in keywords && IsSubstring(Lower(k), cleanResume)
  {
    var p := (k: string) => IsSubstring(Lower(k), cleanResume);
    FilterComplete(keywords, p);
    Filter(keywords, p)
  }

  /** `analyze_resume`. It fails only when the embedder raises, which needs
      both preprocessed texts to be non-blank. The score is at most 100.0 and
      its label is the band it falls in. */
  function AnalyzeResume(az: Analyzer, resume: string, jd: string): (r: Result<Analysis, string>)
    ensures r.Failure? <==>
              !IsBlank(Preprocess(resume)) && !IsBlank(Preprocess(jd)) &&
              az.similarity(Preprocess(resume), Preprocess(jd)).Failure?
    ensures r.Success? ==> r.value.overall <= 1000 && r.value.summary == Summary(r.value.overall)
    ensures r.Success? ==> r.value.summary != NoContentDetected && r.value.summary != ProcessingFailed
    ensures r.Success? ==> r.value.keywordsTotal == ExtractKeywords(az, jd, KEYWORD_LIMIT)
    ensures r.Success? ==> r.value.matched == MatchedKeywords(r.value.keywordsTotal, Preprocess(resume))
  {
    var cleanResume := Preprocess(resume);
    var sim := ComputeSimilarity(az, cleanResume, Preprocess(jd));
    if sim.Failure? then Failure(sim.error)
    else
      var keywords := ExtractKeywords(az, jd, KEYWORD_LIMIT);
      Success(ScoreAnalysis(sim.value, keywords, MatchedKeywords(keywords, cleanResume)))
  }

  /** The analysis built from a cosine and the matched share of the keywords:
      60% of the semantic percentage plus 40% of the keyword percentage,
      capped at 100.0 and rounded to tenths, with the band it falls in. */
  function ScoreAnalysis(cosine: real, keywords: seq<string>, matched: seq<string>): (a: Analysis)
    requires |matched| <= |keywords|
    ensures a.keywordsTotal == keywords && a.matched == matched
    ensures a.semantic == RoundTenths(100.0 * cosine)
    ensures a.overall == OverallScore(100.0 * cosine, KeywordScore(|matched|, |keywords|))
    ensures a.overall <= 1000 && a.summary == Summary(a.overall)
  {
    var semantic := 100.0 * cosine;
    var overall := OverallScore(semantic, KeywordScore(|matched|, |keywords|));
    Analysis(overall, matched, keywords, RoundTenths(semantic), Summary(overall))
  }

  /** When the embedder returns `cosine`, the analysis succeeds and its scores
      come from that cosine and the keyword ratio: the semantic score is
      100 * cosine rounded to tenths, and the overall score is the capped,
      rounded 60/40 weighting of the semantic and keyword percentages. */
  lemma AnalysisScore(az: Analyzer, resume: string, jd: string, cosine: real)
    requires ComputeSimilarity(az, Preprocess(resume), Preprocess(jd)) == Success(cosine)
    ensures AnalyzeResume(az, resume, jd).Success?
    ensures var a := AnalyzeResume(az, resume, jd).value;
            a.semantic == RoundTenths(100.0 * cosine) &&
            a.overall == OverallScore(100.0 * cosine, KeywordScore(|a.matched|, |a.keywordsTotal|))
  {
    var keywords := ExtractKeywords(az, jd, KEYWORD_LIMIT);
    var matched := MatchedKeywords(keywords, Preprocess(resume));
    assert AnalyzeResume(az, resume, jd) == Success(ScoreAnalysis(cosine, keywords, matched));
  }

  /** Without any word character the preprocessed text is empty. */
  lemma PreprocessNoText(s: string)
    requires forall i :: 0 <= i < |s| ==> !IsSignificant(s[i])
    ensures Preprocess(s) == []
  {
    var r := Preprocess(s);
    PreprocessKeepsText(s);
    FilterNone(s, IsSignificant);
  }

  /** A resume without text, analysed anyway, scores 0.0 with no matches and
      the label "Unsatisfactory" (the regex tokenisers never match "").*/
  lemma BlankResumeScoresZero(az: Analyzer, resume: string, jd: string)
    requires IsBlank(resume)
    requires forall k :: k in az.properNouns(jd) + az.techTerms(jd) ==> k != ""
    ensures AnalyzeResume(az, resume, jd) ==
              Success(Analysis(0, [], ExtractKeywords(az, jd, KEYWORD_LIMIT), 0, Unsatisfactory))
  {
    forall i | 0 <= i < |resume| ensures !IsSignificant(resume[i]) {
      assert IsSpace(resume[i]);
    }
    PreprocessNoText(resume);
    var keywords := ExtractKeywords(az, jd, KEYWORD_LIMIT);
    KeywordsNotEmpty(az, jd);
    NothingMatchesEmpty(keywords);
    ZeroScoresZero();
    var sim := ComputeSimilarity(az, Preprocess(resume), Preprocess(jd));
    assert sim == Success(0.0);
    assert OverallScore(100.0 * 0.0, KeywordScore(0, |keywords|)) == 0;
  }

  lemma ZeroScoresZero()
    ensures RoundTenths(0.0) == 0 && OverallScore(0.0, 0.0) == 0
  {
    var t := RoundTenths(0.0);
    assert -0.5 <= t as real <= 0.5;
  }

  /** With non-empty tokens, every extracted keyword is non-empty. */
  lemma KeywordsNotEmpty(az: Analyzer, jd: string)
    requires forall k :: k in az.properNouns(jd) + az.techTerms(jd) ==> k != ""
    ensures forall i :: 0 <= i < |ExtractKeywords(az, jd, KEYWORD_LIMIT)| ==> ExtractKeywords(az, jd, KEYWORD_LIMIT)[i] != ""
  {
    var nouns, terms := az.properNouns(jd), az.techTerms(jd);
    var c := KeywordCandidates(az, jd);
    forall j | 0 <= j < |c| ensures c[j] != "" {
      if j < |nouns| {
        assert c[j] in nouns + terms;
      } else {
        assert terms[j - |nouns|] in nouns + terms;
      }
    }
  }

  lemma NothingMatchesEmpty(keywords: seq<string>)
    requires forall i :: 0 <= i < |keywords| ==> keywords[i] != ""
    ensures MatchedKeywords(keywords, []) == []
  {
    var p := (k: string) => IsSubstring(Lower(k), []);
    FilterNone(keywords, p);
  }

  // ----- batch_analyze -----

  datatype BatchEntry = BatchEntry(
    error: Option<string>,
    overall: int,
    matched: seq<string>,
    semantic: int,
    summary: Label)

  /** The entry `batch_analyze` produces for one (content, format) pair: the
      analysis's fields when it succeeds, and otherwise an error with a 0.0
      score, no matches and the sentinel label that says why. */
  function BatchEntryFor(az: Analyzer, file: (Bytes, string), jd: string): (e: BatchEntry)
    ensures e.overall <= 1000
    ensures e.error.Some? <==> e.summary == NoContentDetected || e.summary == ProcessingFailed
    ensures e.error.Some? ==> e.overall == 0 && e.semantic == 0 && e.matched == []
    ensures e.summary == NoContentDetected <==> IsBlank(ExtractText(az, file.0, file.1))
    ensures e.summary == ProcessingFailed <==>
              !IsBlank(ExtractText(az, file.0, file.1)) && AnalyzeResume(az, ExtractText(az, file.0, file.1), jd).Failure?
    ensures e.error.None? ==>
              var a := AnalyzeResume(az, ExtractText(az, file.0, file.1), jd);
              a.Success? && e.overall == a.value.overall && e.matched == a.value.matched &&
              e.semantic == a.value.semantic && e.summary == a.value.summary
  {
    var text := ExtractText(az, file.0, file.1);
    if Strip(text) == [] then
      BatchEntry(Some("No text extracted"), 0, [], 0, NoContentDetected)
    else
      EntryOf(AnalyzeResume(az, text, jd))
  }

  /** The entry for an analysed text: its fields, or its error with the
      "Processing failed" sentinel. */
  function EntryOf(analysis: Result<Analysis, string>): (e: BatchEntry)
    requires analysis.Success? ==> analysis.value.overall <= 1000 && analysis.value.summary == Summary(analysis.value.overall)
    ensures e.overall <= 1000
    ensures e.error.Some? <==> analysis.Failure?
    ensures analysis.Failure? ==> e == BatchEntry(Some(analysis.error), 0, [], 0, ProcessingFailed)
    ensures analysis.Success? ==>
              e.overall == analysis.value.overall && e.matched == analysis.value.matched &&
              e.semantic == analysis.value.semantic && e.summary == analysis.value.summary &&
              e.summary != NoContentDetected && e.summary != ProcessingFailed
  {
    match analysis
    case Failure(err) => BatchEntry(Some(err), 0, [], 0, ProcessingFailed)
    case Success(a) => BatchEntry(None, a.overall, a.matched, a.semantic, a.summary)
  }

  /** `batch_analyze`: one entry per file, in input order; a file that yields
      no text or whose analysis raises gets its sentinel and the loop goes on. */
  method BatchAnalyze(az: Analyzer, files: seq<(Bytes, string)>, jd: string) returns (results: seq<BatchEntry>)
    ensures results == Map(files, f => BatchEntryFor(az, f, jd))
  {
    var entryOf := f => BatchEntryFor(az, f, jd);
    results := [];
    var i := 0;
    while i < |files|
      invariant 0 <= i <= |files| && results == Map(files[..i], entryOf)
    {
      assert files[..i + 1] == files[..i] + [files[i]];
      MapAppend(files[..i], files[i], entryOf);
      results := results + [entryOf(files[i])];
      i := i + 1;
    }
    assert files[..i] == files;
  }
}
