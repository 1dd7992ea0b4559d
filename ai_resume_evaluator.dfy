/** `AIResumeEvaluator.evaluate_resumes`: scores every parsed resume file
    against a job description, adds a `Rank` column and returns the table
    sorted by score. */
module AiResumeEvaluator {
  import opened Wrappers
  import opened Lists
  import opened PyStr
  import opened ModelHandling
  import opened Ranking

  /** The evaluator's analyzer and the file system it reads from. Opening or
      reading a file may raise; the exception leaves `evaluate_resumes`. */
  datatype Evaluator = Evaluator(analyzer: Analyzer, readFile: string -> Result<Bytes, string>)

  /** One entry of `resumes_files`: a path and whichever contact fields the
      parser filled in. */
  datatype FileEntry = FileEntry(
    filePath: string,
    name: Option<string>,
    email: Option<string>,
    phone: Option<string>,
    linkedIn: Option<string>,
    gitHub: Option<string>)

  /** A row of the result table before ranking. */
  datatype Row = Row(
    name: string,
    email: string,
    phone: string,
    linkedIn: string,
    gitHub: string,
    resumeName: string,
    overall: int,
    keywordsMatched: string,
    semantic: int,
    summary: string)

  datatype RankedRow = RankedRow(row: Row, rank: nat)

  const UNKNOWN := "Unknown"
  /** `pd.DataFrame([])` has no columns, so indexing the score column raises. */
  const NO_SCORE_COLUMN := "KeyError: 'Overall Match Score'"

  /** `Path(p).name`: the last path component. */
  function FileName(path: string): (name: string)
    ensures '/' !in name
    ensures EndsWith(path, name)
    ensures |name| < |path| ==> path[|path| - |name| - 1] == '/'
  {
    AfterLast(path, '/')
  }

  /** The format tag: "pdf" exactly when the lower-cased name ends in ".pdf",
      "docx" for every other name. */
  function FormatTag(name: string): (tag: string)
    ensures tag == PDF <==> EndsWith(Lower(name), ".pdf")
    ensures tag == DOCX <==> !EndsWith(Lower(name), ".pdf")
  {
    if EndsWith(Lower(name), ".pdf") then PDF else DOCX
  }

  /** The tag always names one of the two extractors, so non-empty content
      is never turned into "" by the dispatch itself. */
  lemma FormatTagDispatches(az: Analyzer, content: Bytes, name: string)
    requires content != []
    ensures ExtractText(az, content, FormatTag(name)) ==
              if EndsWith(Lower(name), ".pdf") then az.pdfText(content) else az.docxText(content)
  {
  }

  /** Reading, extracting and analysing one file; a raised exception is a
      Failure. A file that cannot be read fails with the reader's error;
      otherwise the result is the analysis of the text extracted with the
      format its name gives, which scores at most 100.0 and carries its band. */
  function FileAnalysis(ev: Evaluator, file: FileEntry, jd: string): (r: Result<Analysis, string>)
    ensures ev.readFile(file.filePath).Failure? ==> r == Failure(ev.readFile(file.filePath).error)
    ensures ev.readFile(file.filePath).Success? ==>
              r == AnalyzeResume(ev.analyzer, ExtractText(ev.analyzer, ev.readFile(file.filePath).value, FormatTag(FileName(file.filePath))), jd)
    ensures r.Success? ==> r.value.overall <= 1000 && r.value.summary == Summary(r.value.overall)
  {
    match ev.readFile(file.filePath)
    case Failure(e) => Failure(e)
    case Success(content) => AnalyzeResume(ev.analyzer, ExtractText(ev.analyzer, content, FormatTag(FileName(file.filePath))), jd)
  }

  /** The row built from one file's fields and its analysis: a contact field
      the parser did not fill in shows "Unknown", the name column is the
      file's last path component, and the score columns are the analysis's. */
  function RowOf(file: FileEntry, a: Analysis): (r: Row)
    ensures file.name.None? ==> r.name == UNKNOWN
    ensures file.name.Some? ==> r.name == file.name.value
    ensures file.email.None? ==> r.email == UNKNOWN
    ensures file.email.Some? ==> r.email == file.email.value
    ensures file.phone.None? ==> r.phone == UNKNOWN
    ensures file.phone.Some? ==> r.phone == file.phone.value
    ensures file.linkedIn.None? ==> r.linkedIn == UNKNOWN
    ensures file.linkedIn.Some? ==> r.linkedIn == file.linkedIn.value
    ensures file.gitHub.None? ==> r.gitHub == UNKNOWN
    ensures file.gitHub.Some? ==> r.gitHub == file.gitHub.value
    ensures r.resumeName == FileName(file.filePath)
    ensures r.overall == a.overall && r.semantic == a.semantic && r.summary == a.summary.Text()
    ensures r.keywordsMatched == Join(a.matched, ", ")
  {
    Row(file.name.GetOr(UNKNOWN), file.email.GetOr(UNKNOWN), file.phone.GetOr(UNKNOWN),
        file.linkedIn.GetOr(UNKNOWN), file.gitHub.GetOr(UNKNOWN), FileName(file.filePath),
        a.overall, Join(a.matched, ", "), a.semantic, a.summary.Text())
  }

  /** The row for one file, or the exception that ends the evaluation. A
      missing contact field shows "Unknown"; the score is at most 100.0 and
      the summary names its band. */
  function RowFor(ev: Evaluator, file: FileEntry, jd: string): (r: Result<Row, string>)
    ensures r.Failure? <==> FileAnalysis(ev, file, jd).Failure?
    ensures r.Success? ==> r.value.overall <= 1000 && r.value.summary == Summary(r.value.overall).Text()
    ensures r.Success? ==>
              r.value.name == file.name.GetOr(UNKNOWN) && r.value.email == file.email.GetOr(UNKNOWN) &&
              r.value.phone == file.phone.GetOr(UNKNOWN) && r.value.linkedIn == file.linkedIn.GetOr(UNKNOWN) &&
              r.value.gitHub == file.gitHub.GetOr(UNKNOWN) && r.value.resumeName == FileName(file.filePath)
    ensures r.Success? ==> r.value.keywordsMatched == Join(FileAnalysis(ev, file, jd).value.matched, ", ")
    ensures r.Success? ==>
              r.value.overall == FileAnalysis(ev, file, jd).value.overall &&
              r.value.semantic == FileAnalysis(ev, file, jd).value.semantic
  {
    match FileAnalysis(ev, file, jd)
    case Failure(e) => Failure(e)
    case Success(a) => Success(RowOf(file, a))
  }

  /** "Keywords Matched" lists the matched keywords in order: splitting it
      on ", " gives them back whenever none of them contains a comma. */
  lemma KeywordsMatchedRoundTrip(ev: Evaluator, file: FileEntry, jd: string)
    requires FileAnalysis(ev, file, jd).Success?
    ensures var matched := FileAnalysis(ev, file, jd).value.matched;
            (matched != [] && forall k :: 0 <= k < |matched| ==> ',' !in matched[k]) ==>
              SplitCommaSpace(RowFor(ev, file, jd).value.keywordsMatched) == matched
  {
    var matched := FileAnalysis(ev, file, jd).value.matched;
    if matched != [] && forall k :: 0 <= k < |matched| ==> ',' !in matched[k] {
      JoinSplitRoundTrip(matched);
    }
  }

  /** The loop body over `resumes_files`, as a step that may raise. */
  function RowStep(ev: Evaluator, jd: string): FileEntry -> Result<Row, string> {
    file => RowFor(ev, file, jd)
  }

  /** Without an exception, the loop over `resumes_files` gives one row per
      file, in input order. */
  lemma RowsPerFile(ev: Evaluator, files: seq<FileEntry>, jd: string)
    requires TryMap(files, RowStep(ev, jd)).Success?
    ensures forall i :: 0 <= i < |files| ==> RowFor(ev, files[i], jd) == Success(TryMap(files, RowStep(ev, jd)).value[i])
  {
    TryMapSuccess(files, RowStep(ev, jd));
  }

  /** The loop raises exactly when some file raises. */
  lemma RowsFailWhenAFileFails(ev: Evaluator, files: seq<FileEntry>, jd: string)
    ensures TryMap(files, RowStep(ev, jd)).Failure? <==>
              exists i :: 0 <= i < |files| && RowFor(ev, files[i], jd).Failure?
  {
    TryMapFailure(files, RowStep(ev, jd));
  }

  function Scores(rows: seq<Row>): (scores: seq<int>)
    ensures |scores| == |rows| && forall i :: 0 <= i < |rows| ==> scores[i] == rows[i].overall
  {
    seq(|rows|, i requires 0 <= i < |rows| => rows[i].overall)
  }

  /** `df['Rank'] = df['Overall Match Score'].rank(ascending=False, method='first')`. */
  function Ranked(rows: seq<Row>): (ranked: seq<RankedRow>)
    ensures |ranked| == |rows|
    ensures forall i :: 0 <= i < |rows| ==> ranked[i] == RankedRow(rows[i], Ranks(Scores(rows))[i])
  {
    var ranks := Ranks(Scores(rows));
    seq(|rows|, i requires 0 <= i < |rows| => RankedRow(rows[i], ranks[i]))
  }

  /** The `Rank` column of a ranked table. */
  function RankColumn(ranked: seq<RankedRow>): (column: seq<nat>)
    ensures |column| == |ranked| && forall i :: 0 <= i < |ranked| ==> column[i] == ranked[i].rank
  {
    seq(|ranked|, i requires 0 <= i < |ranked| => ranked[i].rank)
  }

  /** The Rank column holds exactly the ranks 1..N, each once, even when
      scores tie. */
  lemma RankedColumnPermutation(rows: seq<Row>)
    ensures Elements(RankColumn(Ranked(rows))) == OneTo(|rows|)
    ensures NoDuplicates(RankColumn(Ranked(rows)))
  {
    var scores := Scores(rows);
    assert RankColumn(Ranked(rows)) == Ranks(scores);
    RanksCoverOneTo(scores);
    RanksNoDuplicates(scores);
  }

  /** A higher score ranks strictly better, and of two equal scores the
      earlier row ranks better. */
  lemma RankedColumnOrder(rows: seq<Row>, i: nat, j: nat)
    requires i < |rows| && j < |rows|
    requires rows[j].overall > rows[i].overall || (j < i && rows[j].overall == rows[i].overall)
    ensures Ranked(rows)[j].rank < Ranked(rows)[i].rank
  {
    RankOrder(Scores(rows), j, i);
  }

  /** The sort key of `sort_values("Overall Match Score")`. */
  function OverallKey(r: RankedRow): Option<int> {
    Some(r.row.overall)
  }

  /** `sort_values("Overall Match Score", ascending=False)`: the same rows,
      highest score first. */
  function SortByScore(ranked: seq<RankedRow>): (sorted: seq<RankedRow>)
    ensures multiset(sorted) == multiset(ranked)
    ensures forall i, j :: 0 <= i < j < |sorted| ==> sorted[i].row.overall >= sorted[j].row.overall
  {
    var sorted := SortDesc(ranked, OverallKey);
    assert forall i, j :: 0 <= i < j < |sorted| ==> PlacedBefore(OverallKey(sorted[i]), OverallKey(sorted[j]));
    sorted
  }

  /** `evaluate_resumes`: the ranked rows sorted by score, highest first, or
      the exception raised on the way. An empty list of files raises too. */
  function Evaluate(ev: Evaluator, files: seq<FileEntry>, jd: string): (r: Result<seq<RankedRow>, string>)
    ensures r.Success? <==> files != [] && TryMap(files, RowStep(ev, jd)).Success?
    ensures files == [] ==> r == Failure(NO_SCORE_COLUMN)
    ensures r.Success? ==> multiset(r.value) == multiset(Ranked(TryMap(files, RowStep(ev, jd)).value))
    ensures r.Success? ==> forall i, j :: 0 <= i < j < |r.value| ==> r.value[i].row.overall >= r.value[j].row.overall
  {
    match TryMap(files, RowStep(ev, jd))
    case Failure(e) => Failure(e)
    case Success(rows) =>
      if rows == [] then Failure(NO_SCORE_COLUMN) else Success(SortByScore(Ranked(rows)))
  }

  /** The loop over `resumes_files`: one row per file, stopping at the
      first file that raises. */
  method CollectRows(ev: Evaluator, files: seq<FileEntry>, jd: string) returns (r: Result<seq<Row>, string>)
    ensures r == TryMap(files, RowStep(ev, jd))
  {
    var step := RowStep(ev, jd);
    var results: seq<Row> := [];
    var i := 0;
    while i < |files|
      invariant 0 <= i <= |files|
      invariant TryMap(files[..i], step) == Success(results)
    {
      TryMapNext(files, i, step);
      var row := RowFor(ev, files[i], jd);
      assert row == step(files[i]);
      if row.Failure? {
        return Failure(row.error);
      }
      results := results + [row.value];
      i := i + 1;
    }
    assert files[..i] == files;
    r := Success(results);
  }

  /** `evaluate_resumes`: the rows, their `Rank` column, then the sort. */
  method EvaluateResumes(ev: Evaluator, files: seq<FileEntry>, jd: string) returns (r: Result<seq<RankedRow>, string>)
    ensures r == Evaluate(ev, files, jd)
  {
    var rows := CollectRows(ev, files, jd);
    if rows.Failure? {
      return Failure(rows.error);
    }
    if rows.value == [] {
      return Failure(NO_SCORE_COLUMN);
    }
    var ranked := Ranked(rows.value);
    r := Success(SortByScore(ranked));
  }
}
