/** The evaluation flow of the Streamlit upload app: the guards before the
    analysis, the loop that turns each upload into a result row, the error
    filter, the sort, the ordinal `Rank` label and the top-N view. */
module StreamlitModelApp {
  import opened Wrappers
  import opened Lists
  import opened PyStr
  import opened ModelHandling
  import opened Ranking
  import AiResumeEvaluator

  /** An uploaded file: its name, the MIME type the browser reported (the
      upload's `type` attribute) and its bytes. */
  datatype Upload = Upload(name: string, mimeType: string, content: Bytes)

  /** A result row: a file whose text came out blank carries only its name
      and an error; any other file carries its scores. */
  datatype AppRow =
    | ExtractionFailed(resumeName: string)
    | Scored(resumeName: string, overall: int, keywordsMatched: string, semantic: int, summary: string)

  datatype LabelledRow = LabelledRow(row: AppRow, rank: string)

  /** What the page ends up showing. */
  datatype Outcome =
    | NeedJobDescription
    | NeedUploads
    | TooManyUploads
    | Waiting
    | Crashed(error: string)
    | Done(table: seq<LabelledRow>)

  const MAX_UPLOADS: nat := 1000
  const EXTRACTION_FAILED := "Text extraction failed"
  /** The error the filter looks for. */
  const FILTERED_ERROR := "Failed to extract text"
  /** Sorting a frame that has no score column raises. */
  const NO_SCORE_COLUMN := "KeyError: 'Overall Match Score'"

  // ----- the format tag handed to extract_text -----

  /** The tag the app passes: the upload's MIME type, which, holding a '/',
      is neither of the two tags the extractor dispatches on. */
  function MimeTag(u: Upload): (tag: string)
    ensures '/' in u.mimeType ==> tag != PDF && tag != DOCX
  {
    assert '/' !in PDF && '/' !in DOCX;
    u.mimeType
  }

  /** The tag chosen from the file name, as the batch evaluator does: "pdf"
      for a name ending in ".pdf" in any case, "docx" for every other name. */
  function ExtensionTag(u: Upload): (tag: string)
    ensures tag == PDF <==> EndsWith(Lower(u.name), ".pdf")
    ensures tag == DOCX <==> !EndsWith(Lower(u.name), ".pdf")
  {
    AiResumeEvaluator.FormatTag(u.name)
  }

  // ----- one upload -----

  /** The row for one upload, or the exception that stops the app: only a
      raising analysis escapes, since nothing around it catches. */
  function AppRowFor(az: Analyzer, tagOf: Upload -> string, u: Upload, jd: string): (r: Result<AppRow, string>)
    ensures r.Success? ==> r.value.resumeName == u.name
    ensures r == Success(ExtractionFailed(u.name)) <==> IsBlank(ExtractText(az, u.content, tagOf(u)))
    ensures !IsBlank(ExtractText(az, u.content, tagOf(u))) ==>
              r == ScoredRow(u.name, AnalyzeResume(az, ExtractText(az, u.content, tagOf(u)), jd))
    ensures r.Success? && r.value.Scored? ==> r.value.overall <= 1000 && r.value.summary == Summary(r.value.overall).Text()
  {
    var text := ExtractText(az, u.content, tagOf(u));
    if IsBlank(text) then Success(ExtractionFailed(u.name))
    else ScoredRow(u.name, AnalyzeResume(az, text, jd))
  }

  /** The row of an analysed upload: the analysis's scores, or its exception. */
  function ScoredRow(name: string, analysis: Result<Analysis, string>): (r: Result<AppRow, string>)
    ensures r.Failure? <==> analysis.Failure?
    ensures r.Success? ==>
              r.value.Scored? && r.value.resumeName == name &&
              r.value.overall == analysis.value.overall && r.value.semantic == analysis.value.semantic &&
              r.value.keywordsMatched == Join(analysis.value.matched, ", ") &&
              r.value.summary == analysis.value.summary.Text()
  {
    match analysis
    case Failure(e) => Failure(e)
    case Success(a) => Success(Scored(name, a.overall, Join(a.matched, ", "), a.semantic, a.summary.Text()))
  }

  /** An upload's row raises exactly when its text is not blank and its
      analysis raises. */
  lemma AppRowFailsExactly(az: Analyzer, tagOf: Upload -> string, u: Upload, jd: string)
    ensures AppRowFor(az, tagOf, u, jd).Failure? <==>
              !IsBlank(ExtractText(az, u.content, tagOf(u))) &&
              AnalyzeResume(az, ExtractText(az, u.content, tagOf(u)), jd).Failure?
  {
    var text := ExtractText(az, u.content, tagOf(u));
    if !IsBlank(text) {
      assert AppRowFor(az, tagOf, u, jd) == ScoredRow(u.name, AnalyzeResume(az, text, jd));
    }
  }

  /** The loop body as a step that may raise. */
  function AppRowStep(az: Analyzer, tagOf: Upload -> string, jd: string): Upload -> Result<AppRow, string> {
    u => AppRowFor(az, tagOf, u, jd)
  }

  // ----- filter, sort, label -----

  /** `row.get("Error")`. */
  function ErrorOf(row: AppRow): (e: Option<string>)
    ensures e.Some? <==> row.ExtractionFailed?
    ensures row.ExtractionFailed? ==> e == Some(EXTRACTION_FAILED)
  {
    if row.ExtractionFailed? then Some(EXTRACTION_FAILED) else None
  }

  /** The filter's test: keep a row unless its error is the filtered one. */
  predicate Kept(row: AppRow) {
    ErrorOf(row) != Some(FILTERED_ERROR)
  }

  /** The filter looks for an error no row carries, so it keeps every row,
      the failed extractions included. */
  lemma FilterKeepsEveryRow(rows: seq<AppRow>)
    ensures Filter(rows, Kept) == rows
  {
    assert EXTRACTION_FAILED[0] != FILTERED_ERROR[0];
    FilterAll(rows, Kept);
  }

  /** The sort key: the score, or NaN for a row without one. */
  function ScoreKey(row: AppRow): (k: Option<int>)
    ensures k.Some? <==> row.Scored?
    ensures row.Scored? ==> k == Some(row.overall)
  {
    if row.Scored? then Some(row.overall) else None
  }

  predicate HasScore(row: AppRow) {
    row.Scored?
  }

  /** The label of sorted position x (counting from 0). */
  function Ordinal(x: nat): (ord: string)
    ensures |ord| >= 3 && ord[0] != '0'
    ensures forall i :: 0 <= i < |ord| - 2 ==> IsDigit(ord[i])
    ensures DecimalValue(ord[..|ord| - 2]) == x + 1
    ensures ord[|ord| - 2..] == if x == 0 then "st" else if x == 1 then "nd" else if x == 2 then "rd" else "th"
  {
    var number := NatToString(x + 1);
    DecimalRoundTrip(x + 1);
    var ord := number + (if x == 0 then "st" else if x == 1 then "nd" else if x == 2 then "rd" else "th");
    assert ord[..|ord| - 2] == number;
    ord
  }

  /** The first three positions read "1st", "2nd", "3rd"; every later one
      takes "th", including 21, 22 and 23. */
  lemma OrdinalLabels()
    ensures Ordinal(0) == "1st" && Ordinal(1) == "2nd" && Ordinal(2) == "3rd"
    ensures Ordinal(3) == "4th" && Ordinal(20) == "21th" && Ordinal(21) == "22th"
  {
    assert NatToString(21) == NatToString(2) + [DigitChar(1)];
    assert NatToString(22) == NatToString(2) + [DigitChar(2)];
  }

  /** Position labels for the sorted rows. */
  function Labelled(rows: seq<AppRow>): (table: seq<LabelledRow>)
    ensures |table| == |rows|
    ensures forall i :: 0 <= i < |rows| ==> table[i] == LabelledRow(rows[i], Ordinal(i))
  {
    seq(|rows|, i requires 0 <= i < |rows| => LabelledRow(rows[i], Ordinal(i)))
  }

  /** Filter, sort by score with rows lacking a score last, then label. */
  function Finish(rows: seq<AppRow>): (r: Outcome)
    ensures r.Crashed? || r.Done?
    ensures r.Crashed? <==> forall i :: 0 <= i < |rows| ==> !rows[i].Scored?
    ensures r.Done? ==> |r.table| == |rows|
  {
    FilterKeepsEveryRow(rows);
    var kept := Filter(rows, Kept);
    assert kept == rows;
    if FirstIndex(kept, HasScore) == |kept| then Crashed(NO_SCORE_COLUMN)
    else Done(Labelled(SortDesc(kept, ScoreKey)))
  }

  /** A finished table holds every row once, in score order with the rows
      lacking a score last, and position i is labelled Ordinal(i). */
  lemma FinishedTable(rows: seq<AppRow>)
    requires Finish(rows).Done?
    ensures var table := Finish(rows).table;
            multiset(Map(table, (t: LabelledRow) => t.row)) == multiset(rows) &&
            (forall i, j :: 0 <= i < j < |table| ==> PlacedBefore(ScoreKey(table[i].row), ScoreKey(table[j].row))) &&
            (forall i :: 0 <= i < |table| ==> table[i].rank == Ordinal(i))
  {
    FilterKeepsEveryRow(rows);
    var sorted := SortDesc(rows, ScoreKey);
    var table := Finish(rows).table;
    assert table == Labelled(sorted);
    assert Map(table, (t: LabelledRow) => t.row) == sorted;
  }

  // ----- the page -----

  /** The page after one run of the script. `pressed` is whether the Start
      button was clicked in this run. */
  function Run(az: Analyzer, tagOf: Upload -> string, jd: string, uploads: seq<Upload>, pressed: bool): (r: Outcome)
    ensures r.Done? ==> !IsBlank(jd) && 1 <= |uploads| <= MAX_UPLOADS && pressed && |r.table| == |uploads|
    ensures |uploads| > MAX_UPLOADS && !IsBlank(jd) ==> r == TooManyUploads
  {
    if IsBlank(jd) then NeedJobDescription
    else if uploads == [] then NeedUploads
    else if |uploads| > MAX_UPLOADS then TooManyUploads
    else if !pressed then Waiting
    else
      match TryMap(uploads, AppRowStep(az, tagOf, jd))
      case Failure(e) => Crashed(e)
      case Success(rows) => Finish(rows)
  }

  /** Without an exception, the loop gives one row per upload, in upload order. */
  lemma RowsPerUpload(az: Analyzer, tagOf: Upload -> string, jd: string, uploads: seq<Upload>)
    requires TryMap(uploads, AppRowStep(az, tagOf, jd)).Success?
    ensures forall i :: 0 <= i < |uploads| ==>
              AppRowFor(az, tagOf, uploads[i], jd) == Success(TryMap(uploads, AppRowStep(az, tagOf, jd)).value[i])
  {
    TryMapSuccess(uploads, AppRowStep(az, tagOf, jd));
  }

  // ----- the MIME-type tag -----

  /** A MIME type names neither extractor, so the dispatch gives "" and the
      upload becomes an extraction failure, whatever its content. */
  lemma MimeTagNeverExtracts(az: Analyzer, u: Upload, jd: string)
    requires '/' in u.mimeType
    ensures AppRowFor(az, MimeTag, u, jd) == Success(ExtractionFailed(u.name))
  {
    assert '/' !in PDF && '/' !in DOCX;
    assert ExtractText(az, u.content, MimeTag(u)) == "";
  }

  /** The row of an upload whose text came out blank: its name, no score. */
  function FailedRow(u: Upload): (row: AppRow)
    ensures row.ExtractionFailed? && row.resumeName == u.name
    ensures ErrorOf(row) == Some(EXTRACTION_FAILED) && ScoreKey(row) == None
  {
    ExtractionFailed(u.name)
  }

  /** Hence with MIME-type tags every row is a failure, no score column
      exists, and a started evaluation always ends in the sort's KeyError. */
  lemma {:induction false} MimeTagRowsAllFail(az: Analyzer, jd: string, uploads: seq<Upload>)
    requires forall i :: 0 <= i < |uploads| ==> '/' in uploads[i].mimeType
    ensures TryMap(uploads, AppRowStep(az, MimeTag, jd)) == Success(Map(uploads, FailedRow))
  {
    if uploads != [] {
      var n := |uploads|;
      var init := uploads[..n - 1];
      MimeTagRowsAllFail(az, jd, init);
      MimeTagNeverExtracts(az, uploads[n - 1], jd);
      assert AppRowStep(az, MimeTag, jd)(uploads[n - 1]) == Success(FailedRow(uploads[n - 1]));
      assert uploads == init + [uploads[n - 1]];
      MapAppend(init, uploads[n - 1], FailedRow);
    }
  }

  lemma MimeTagAlwaysCrashes(az: Analyzer, jd: string, uploads: seq<Upload>)
    requires !IsBlank(jd) && 1 <= |uploads| <= MAX_UPLOADS
    requires forall i :: 0 <= i < |uploads| ==> '/' in uploads[i].mimeType
    ensures Run(az, MimeTag, jd, uploads, true) == Crashed(NO_SCORE_COLUMN)
  {
    MimeTagRowsAllFail(az, jd, uploads);
  }

  /** One PDF whose text layer reads "Python developer", scored against a
      job asking for Python, still ends in the KeyError. */
  lemma MimeTagCounterexample(az: Analyzer)
    requires az.pdfText([1]) == "Python developer"
    ensures Run(az, MimeTag, "Python", [Upload("cv.pdf", "application/pdf", [1])], true) == Crashed(NO_SCORE_COLUMN)
  {
    assert !IsSpace("Python"[0]);
    MimeTagAlwaysCrashes(az, "Python", [Upload("cv.pdf", "application/pdf", [1])]);
  }

  /** With the tag taken from the file name, a PDF whose text layer is not
      blank reaches the analysis and, when that succeeds, is scored. */
  lemma ExtensionTagScores(az: Analyzer, u: Upload, jd: string)
    requires EndsWith(Lower(u.name), ".pdf") && u.content != []
    requires !IsBlank(az.pdfText(u.content)) && AnalyzeResume(az, az.pdfText(u.content), jd).Success?
    ensures AppRowFor(az, ExtensionTag, u, jd).Success? && AppRowFor(az, ExtensionTag, u, jd).value.Scored?
  {
    AiResumeEvaluator.FormatTagDispatches(az, u.content, u.name);
  }

  // ----- the display -----

  /** The "Show top candidates" choice. */
  datatype Choice = All | Top(n: nat)

  /** The rows shown: all of them, or the first n. */
  function Display(table: seq<LabelledRow>, choice: Choice): (shown: seq<LabelledRow>)
    ensures choice.All? ==> shown == table
    ensures choice.Top? ==> |shown| == (if choice.n < |table| then choice.n else |table|)
    ensures shown == table[..|shown|]
  {
    if choice.All? then table else Take(table, choice.n)
  }

  // ----- the script, step by step -----

  /** The loop over the uploads, stopping at the first raising analysis. */
  method CollectAppRows(az: Analyzer, tagOf: Upload -> string, uploads: seq<Upload>, jd: string)
    returns (r: Result<seq<AppRow>, string>)
    ensures r == TryMap(uploads, AppRowStep(az, tagOf, jd))
  {
    var step := AppRowStep(az, tagOf, jd);
    var results: seq<AppRow> := [];
    var i := 0;
    while i < |uploads|
      invariant 0 <= i <= |uploads|
      invariant TryMap(uploads[..i], step) == Success(results)
    {
      TryMapNext(uploads, i, step);
      var row := AppRowFor(az, tagOf, uploads[i], jd);
      assert row == step(uploads[i]);
      if row.Failure? {
        return Failure(row.error);
      }
      results := results + [row.value];
      i := i + 1;
    }
    assert uploads[..i] == uploads;
    r := Success(results);
  }

  /** One run of the script. */
  method RunApp(az: Analyzer, tagOf: Upload -> string, jd: string, uploads: seq<Upload>, pressed: bool)
    returns (outcome: Outcome)
    ensures outcome == Run(az, tagOf, jd, uploads, pressed)
  {
    if IsBlank(jd) {
      return NeedJobDescription;
    }
    if uploads == [] {
      return NeedUploads;
    }
    if |uploads| > MAX_UPLOADS {
      return TooManyUploads;
    }
    if !pressed {
      return Waiting;
    }
    var rows := CollectAppRows(az, tagOf, uploads, jd);
    if rows.Failure? {
      return Crashed(rows.error);
    }
    outcome := Finish(rows.value);
  }
}
