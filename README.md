# Resume screener — a verified model of the scoring and ranking core

This project models the core of a resume-screening tool. The tool:

- reads resumes (PDF or DOCX);
- normalises their text;
- scores each one against a job description: 60 % semantic similarity, 40 % keyword coverage, capped at 100.0 and rounded to one decimal;
- labels each score with a band ("Outstanding Match" … "Unsatisfactory");
- pulls contact fields out of OCR text (name, e-mail, phone, LinkedIn, GitHub);
- ranks and sorts the candidates.

Three places assemble the result table:

- the batch evaluator, with pandas `rank(method='first')` followed by `sort_values`;
- the Streamlit upload app, which sorts the rows and gives them ordinal labels "1st", "2nd", …;
- the analyzer's own `batch_analyze` loop.

Modules (one `.dfy` file each):

- `Wrappers`: `Option` and `Result`.
- `Lists`:
  - the list comprehensions `Filter` and `Map`;
  - `list(set(...))` as `Dedup`, and slicing as `Take`;
  - the first matching index, `FirstIndex`;
  - `TryMap`, a loop that appends one result per element and stops at the first exception.
- `PyStr`: the Python `str` operations used:
  - `isspace`, `lower`, `title`, `strip`;
  - `in`, `endswith`, `join`, `split`;
  - `splitlines`, and `str(n)` for ordinals.
- `ModelHandling`: `UniversalResumeAnalyzer`'s text extraction dispatch, `preprocess_text`, `extract_keywords`, `compute_similarity`, `analyze_resume` and `batch_analyze`.
- `ResumeParse`: `ResumeParser`:
  - phone normalisation;
  - the contact fields and the name heuristic;
  - `parse_single_pdf`, and `parse_pdfs` with its `df` field.
- `Ranking`: pandas' `rank(ascending=False, method='first')` and a descending sort with NaN last.
- `AiResumeEvaluator`: `evaluate_resumes`.
- `StreamlitModelApp`: the upload flow of `streamlit_model_app.py`:
  - the guards;
  - the per-upload loop;
  - the error filter, the sort and the ordinal labels;
  - the top-N view.

Conventions of the model:

- Scores are integers counting tenths (723 is 72.3). This is exactly what `round(x, 1)` can produce. Rounding is done on the exact real value, with halves going to the even neighbour.
- External machinery becomes function-valued fields of a datatype: the PDF/DOCX/OCR extractors, the sentence-embedding cosine and the regular-expression tokenisers. These are `ModelHandling.Analyzer`, `ResumeParse.Ocr` and `ResumeParse.Matchers`. A call that may raise returns a `Result`.
- File reading is a field of `AiResumeEvaluator.Evaluator`.
- Loops that append to a list are methods with loop invariants. Each is proved equal to a specification function, and the properties are proved about those functions.
- `ResumeParser` is a class. `parse_pdfs` overwrites its `df` field.

Notes on the code's behaviour:

- `parse_pdfs` catches exceptions per file, but nothing inside that `try` can raise: the OCR helper catches its own errors. So `df` holds one row per `*.pdf` file and no file is ever skipped.
- `evaluate_resumes` ranks in input order and then sorts with pandas' default, which is not stable. The returned order among equal scores is therefore unspecified, and only the rank column breaks ties by input order.
- `evaluate_resumes` on an empty file list builds a frame with no columns, so indexing the score column raises `KeyError`. It is modelled as that failure.

## Model

| member | source | states |
|---|---|---|
| ModelHandling.ExtractText | sentence_transformer_streamlit_build/model_handling.py:103-119 | empty content gives "" before any dispatch; a tag other than "pdf"/"docx" gives ""; "pdf" and "docx" reach their extractor |
| ModelHandling.CollapseWhitespace | sentence_transformer_streamlit_build/model_handling.py:125 | every whitespace character of the result is a plain space and every other comes from the input; no two spaces are adjacent; the result starts with a space exactly when the input starts with whitespace |
| ModelHandling.CollapseRun | sentence_transformer_streamlit_build/model_handling.py:125 | a whole whitespace run becomes exactly one space |
| ModelHandling.CollapseJoin | sentence_transformer_streamlit_build/model_handling.py:125 | collapsing works run by run: cutting the text anywhere but inside a whitespace run and collapsing the parts gives the same text |
| ModelHandling.RemovePunctuation | sentence_transformer_streamlit_build/model_handling.py:126 | the result holds exactly the input's word characters, whitespace and hyphens |
| ModelHandling.Preprocess | sentence_transformer_streamlit_build/model_handling.py:121-127 | the output is lower-case word characters, hyphens and plain spaces only, with no space at either end |
| ModelHandling.PreprocessSeparatesWords | sentence_transformer_streamlit_build/model_handling.py:121-127 | two words with a whitespace run between them preprocess to their cleaned forms joined by exactly one space, so word boundaries survive |
| ModelHandling.CollapseKeepsText | sentence_transformer_streamlit_build/model_handling.py:125 | collapsing whitespace keeps every word character and hyphen, in order |
| ModelHandling.RemovePunctuationKeepsText | sentence_transformer_streamlit_build/model_handling.py:126 | removing punctuation keeps every word character and hyphen, in order |
| ModelHandling.LowerKeepsText | sentence_transformer_streamlit_build/model_handling.py:127 | lower-casing commutes with keeping only word characters and hyphens |
| ModelHandling.StripKeepsText | sentence_transformer_streamlit_build/model_handling.py:127 | strip() removes no word character or hyphen |
| ModelHandling.PreprocessKeepsText | sentence_transformer_streamlit_build/model_handling.py:121-127 | the word characters and hyphens of the preprocessed text are those of the input, lower-cased and in order |
| ModelHandling.PreprocessNoText | sentence_transformer_streamlit_build/model_handling.py:121-127 | a text without word characters or hyphens preprocesses to "" |
| ModelHandling.UncleanNeverMatches | sentence_transformer_streamlit_build/model_handling.py:181 | a keyword holding a character preprocessing removes ("C++", "Node.Js") never occurs in a preprocessed resume |
| ModelHandling.KeywordCandidates | sentence_transformer_streamlit_build/model_handling.py:134-146 | the candidates are the proper nouns as found, in text order, followed by each technical term title-cased, in text order |
| ModelHandling.ExtractKeywords | sentence_transformer_streamlit_build/model_handling.py:129-148 | no duplicates, each a proper noun or a title-cased tech term; exactly top_n keywords when there are more distinct candidates, otherwise every candidate |
| ModelHandling.ComputeSimilarity | sentence_transformer_streamlit_build/model_handling.py:158-166 | exactly 0.0 when either text is blank, whatever the embedder does; otherwise the embedder's cosine or its exception |
| ModelHandling.RoundTenths | sentence_transformer_streamlit_build/model_handling.py:186 | round(x, 1) in tenths: within half a tenth of x, halves to the even neighbour |
| ModelHandling.RoundTenthsMonotone | sentence_transformer_streamlit_build/model_handling.py:186 | rounding preserves order |
| ModelHandling.KeywordScore | sentence_transformer_streamlit_build/model_handling.py:182 | 0 without keywords or matches; otherwise matched/total*100, always within [0, 100] |
| ModelHandling.OverallScore | sentence_transformer_streamlit_build/model_handling.py:185-186 | never above 100.0; within half a tenth of min(0.6*semantic + 0.4*keyword, 100); not negative when both parts are not |
| ModelHandling.Summary | sentence_transformer_streamlit_build/model_handling.py:193-199 | each label holds exactly on its band, lower bounds excluded (80.0 is Strong, 65.0 Moderate, 35.0 Unsatisfactory) |
| ModelHandling.MatchedKeywords | sentence_transformer_streamlit_build/model_handling.py:181 | a sub-multiset of the keywords holding exactly those whose lower-case form occurs in the cleaned resume |
| ModelHandling.ScoreAnalysis | sentence_transformer_streamlit_build/model_handling.py:176-200 | from a cosine and the keyword counts: semantic is round(100·cosine, 1), overall is round(min(0.6·semantic + 0.4·keyword score, 100), 1), at most 100.0, with its band |
| ModelHandling.AnalyzeResume | sentence_transformer_streamlit_build/model_handling.py:168-200 | fails exactly when both cleaned texts have content and the embedder raises; otherwise score at most 100.0 with its band, keywords and matches as extracted |
| ModelHandling.AnalysisScore | sentence_transformer_streamlit_build/model_handling.py:172-186 | whenever the cleaned texts' cosine is c, the analysis succeeds with semantic round(100c, 1) and overall round(min(0.6·100c + 0.4·matched/total·100, 100), 1) |
| ModelHandling.BlankResumeScoresZero | sentence_transformer_streamlit_build/model_handling.py:168-200 | a blank resume scores 0.0, matches nothing and is "Unsatisfactory" |
| ModelHandling.NothingMatchesEmpty | sentence_transformer_streamlit_build/model_handling.py:181 | no non-empty keyword matches an empty cleaned resume |
| ModelHandling.BatchEntryFor | sentence_transformer_streamlit_build/model_handling.py:210-238 | "No content detected" exactly for blank text, "Processing failed" exactly when the analysis raises, and an Error exactly on those two entries, which score 0 with no matches; any other entry carries the analysis's score, matches, semantic relevance and summary |
| ModelHandling.EntryOf | sentence_transformer_streamlit_build/model_handling.py:221-238 | an Error exactly when the analysis raised, and then the "Processing failed" entry scoring 0 with no matches; otherwise the analysis's own fields with a band summary |
| ModelHandling.BatchAnalyze | sentence_transformer_streamlit_build/model_handling.py:202-239 | one entry per file, in input order, each BatchEntryFor of its own file: a failing file stops nothing |
| ResumeParse.CollectText | sentence_transformer_streamlit_build/outlook_work/resume_Parse.py:17-32 | the page loop yields the pages read before the first OCR exception, each followed by a newline, stripped; "" when conversion raises |
| ResumeParse.LaterPagesIgnored | sentence_transformer_streamlit_build/outlook_work/resume_Parse.py:25-29 | pages after the first unreadable one do not affect the text |
| ResumeParse.OcrText | sentence_transformer_streamlit_build/outlook_work/resume_Parse.py:17-32 | "" when conversion raises; every page's text followed by a newline when all pages read; always "" or ending in a newline |
| ResumeParse.ResumeParser.ExtractTextFromPdf | sentence_transformer_streamlit_build/outlook_work/resume_Parse.py:17-32 | the stripped OCR text of the converted file |
| ResumeParse.ResumeParser.ExtractTextFromPdfBytes | sentence_transformer_streamlit_build/outlook_work/resume_Parse.py:34-49 | the stripped OCR text of the converted bytes |
| ResumeParse.Digits | sentence_transformer_streamlit_build/outlook_work/resume_Parse.py:52 | only digits remain, and a digit string is unchanged |
| ResumeParse.DigitsContent | sentence_transformer_streamlit_build/outlook_work/resume_Parse.py:52 | every digit of the input is kept, as often as it occurs, and nothing else |
| ResumeParse.DigitsAppend | sentence_transformer_streamlit_build/outlook_work/resume_Parse.py:52 | the digits keep their order: those of a concatenation are those of each part in turn |
| ResumeParse.NormalizePhone | sentence_transformer_streamlit_build/outlook_work/resume_Parse.py:51-57 | a value exactly for 10 digits or 13 digits starting 977; the value is 10 digits or "+977" and 10 digits, with the same digits as the input |
| ResumeParse.NormalizePhoneIdempotent | sentence_transformer_streamlit_build/outlook_work/resume_Parse.py:51-57 | normalising a normalised number changes nothing |
| ResumeParse.PhoneMatchNormalizes | sentence_transformer_streamlit_build/outlook_work/resume_Parse.py:76 | every string the phone pattern matches normalises to a value: as found, or "+977" and its last ten digits |
| ResumeParse.Present | sentence_transformer_streamlit_build/outlook_work/resume_Parse.py:95 | exactly the non-empty values present in the list, never more entries than the list |
| ResumeParse.PresentAppend | sentence_transformer_streamlit_build/outlook_work/resume_Parse.py:95 | the filter keeps order: filtering a concatenation filters each part in turn |
| ResumeParse.PhoneField | sentence_transformer_streamlit_build/outlook_work/resume_Parse.py:95 | "Unknown" when the pattern found nothing; for normalised values only then, "" when no match normalised, and otherwise splitting at ", " gives back the normalised numbers in order |
| ResumeParse.PhoneFieldKeepsEveryMatch | sentence_transformer_streamlit_build/outlook_work/resume_Parse.py:95 | for pattern matches the Phone field lists every match, normalised, in order |
| ResumeParse.EmailField | sentence_transformer_streamlit_build/outlook_work/resume_Parse.py:94 | "Unknown" when no address was found; for matches of the e-mail pattern only then, and splitting at ", " gives back the matches in text order |
| ResumeParse.FirstMatch | sentence_transformer_streamlit_build/outlook_work/resume_Parse.py:62-68 | "" when there is no match, otherwise the first match |
| ResumeParse.LinkField | sentence_transformer_streamlit_build/outlook_work/resume_Parse.py:96-97 | never empty; a found link is kept as it is, and "Unknown" appears only for no link (or a link reading "Unknown") |
| ResumeParse.LinkFieldFirstMatch | sentence_transformer_streamlit_build/outlook_work/resume_Parse.py:96-97 | LinkedIn/GitHub is the first URL found, and "Unknown" exactly when none was |
| ResumeParse.LabelValue | sentence_transformer_streamlit_build/outlook_work/resume_Parse.py:84 | the line's text after its last ':' (all of it without one), stripped; it holds no ':' and only characters of the line |
| ResumeParse.ChooseName | sentence_transformer_streamlit_build/outlook_work/resume_Parse.py:80-90 | the chosen name is never empty, lies on one line and has no surrounding whitespace |
| ResumeParse.NameFromFirstLabel | sentence_transformer_streamlit_build/outlook_work/resume_Parse.py:82-85 | the non-empty label value of the first line mentioning "name" is the name |
| ResumeParse.NameFromFirstText | sentence_transformer_streamlit_build/outlook_work/resume_Parse.py:86-90 | without a usable label the name is the first line with text, stripped |
| ResumeParse.NoTextNoName | sentence_transformer_streamlit_build/outlook_work/resume_Parse.py:80-93 | a text with no non-blank line gives "Unknown" |
| ResumeParse.FirstLabelled | sentence_transformer_streamlit_build/outlook_work/resume_Parse.py:119-123 | the first loop stops at the first line mentioning "name" and takes its label value, or finds nothing |
| ResumeParse.FirstTextLine | sentence_transformer_streamlit_build/outlook_work/resume_Parse.py:124-128 | the second loop stops at the first non-blank line and takes it stripped, or finds nothing |
| ResumeParse.FindName | sentence_transformer_streamlit_build/outlook_work/resume_Parse.py:118-131 | the two passes and `name or "Unknown"` compute ChooseName |
| ResumeParse.ProfileOf | sentence_transformer_streamlit_build/outlook_work/resume_Parse.py:92-99 | the row's name is ChooseName's, hence well-shaped; Email and Phone are EmailField of the e-mail matches and PhoneField of the normalised phone matches, so "Unknown" when their pattern found nothing; LinkedIn and GitHub are the first URL's field or "Unknown"; FileName is the file's name |
| ResumeParse.PdfNames | sentence_transformer_streamlit_build/outlook_work/resume_Parse.py:72 | exactly the directory entries ending in ".pdf", none repeated more often than listed |
| ResumeParse.ResumeParser.constructor | sentence_transformer_streamlit_build/outlook_work/resume_Parse.py:12-15 | a new parser has an empty table |
| ResumeParse.ResumeParser.FileProfile | sentence_transformer_streamlit_build/outlook_work/resume_Parse.py:73-99 | a file's row is ProfileOf of the file's stripped OCR text and carries its name, a well-shaped Name and non-empty LinkedIn and GitHub fields |
| ResumeParse.ResumeParser.RecordOf | sentence_transformer_streamlit_build/outlook_work/resume_Parse.py:92-99 | the row carries the given name and file name, and is ProfileOf's row when the name is the one ChooseName picks |
| ResumeParse.ResumeParser.ParseSinglePdf | sentence_transformer_streamlit_build/outlook_work/resume_Parse.py:106-141 | None when reading raises; otherwise the profile of the stripped OCR text, and that text as Full_Text |
| ResumeParse.ResumeParser.ParseFile | sentence_transformer_streamlit_build/outlook_work/resume_Parse.py:73-99 | the loop body builds the file's profile |
| ResumeParse.ResumeParser.ParseAll | sentence_transformer_streamlit_build/outlook_work/resume_Parse.py:71-99 | the loop appends one profile per file, in order |
| ResumeParse.ResumeParser.ParsePdfs | sentence_transformer_streamlit_build/outlook_work/resume_Parse.py:70-103 | df becomes one profile per PDF in the directory, in listing order |
| AiResumeEvaluator.FileName | sentence_transformer_streamlit_build/outlook_work/ai_resume_evaluator.py:13 | the last path component: no '/', a suffix of the path, and preceded by '/' unless it is the whole path |
| AiResumeEvaluator.FormatTag | sentence_transformer_streamlit_build/outlook_work/ai_resume_evaluator.py:16 | "pdf" exactly when the lower-cased name ends in ".pdf", "docx" exactly otherwise |
| AiResumeEvaluator.FormatTagDispatches | sentence_transformer_streamlit_build/outlook_work/ai_resume_evaluator.py:16-17 | non-empty content always reaches the PDF or the DOCX extractor |
| AiResumeEvaluator.FileAnalysis | sentence_transformer_streamlit_build/outlook_work/ai_resume_evaluator.py:14-20 | reading's exception when the file read raises; otherwise the analysis of the text extracted with the name-based tag, raising exactly when it raises; a success scores at most 100.0 with its band |
| AiResumeEvaluator.RowOf | sentence_transformer_streamlit_build/outlook_work/ai_resume_evaluator.py:22-33 | each contact field is the entry's value or "Unknown"; Resume Name is the file name; score, semantic relevance and summary are the analysis's; Keywords Matched is the ", "-join of its matches |
| AiResumeEvaluator.RowFor | sentence_transformer_streamlit_build/outlook_work/ai_resume_evaluator.py:12-33 | fails exactly when reading or analysis raises; otherwise the score and semantic relevance are the file's analysis's; missing contact fields read "Unknown"; Resume Name is the file name; Keywords Matched is the ", "-join of the matches; summary names the score's band |
| AiResumeEvaluator.KeywordsMatchedRoundTrip | sentence_transformer_streamlit_build/outlook_work/ai_resume_evaluator.py:30 | splitting Keywords Matched at ", " gives back the matched list when no keyword holds a comma |
| AiResumeEvaluator.RowsPerFile | sentence_transformer_streamlit_build/outlook_work/ai_resume_evaluator.py:12-33 | without an exception, row i is the row of file i |
| AiResumeEvaluator.RowsFailWhenAFileFails | sentence_transformer_streamlit_build/outlook_work/ai_resume_evaluator.py:12-20 | the loop raises exactly when some file raises |
| AiResumeEvaluator.Ranked | sentence_transformer_streamlit_build/outlook_work/ai_resume_evaluator.py:36 | each row gets the rank of its score in input order |
| AiResumeEvaluator.RankedColumnPermutation | sentence_transformer_streamlit_build/outlook_work/ai_resume_evaluator.py:36 | the Rank column over N rows is exactly {1..N}, no rank repeated, even with ties |
| AiResumeEvaluator.RankedColumnOrder | sentence_transformer_streamlit_build/outlook_work/ai_resume_evaluator.py:36 | a higher score, or an equal score earlier in the input, gets a strictly smaller rank |
| AiResumeEvaluator.SortByScore | sentence_transformer_streamlit_build/outlook_work/ai_resume_evaluator.py:37 | a permutation of the ranked rows with non-increasing score |
| AiResumeEvaluator.Evaluate | sentence_transformer_streamlit_build/outlook_work/ai_resume_evaluator.py:10-38 | succeeds exactly when there are files and none raises; an empty list raises KeyError; the table is a permutation of the ranked rows, each keeping its pre-sort rank, in non-increasing score |
| AiResumeEvaluator.CollectRows | sentence_transformer_streamlit_build/outlook_work/ai_resume_evaluator.py:11-33 | the loop computes the rows, or the first exception |
| AiResumeEvaluator.EvaluateResumes | sentence_transformer_streamlit_build/outlook_work/ai_resume_evaluator.py:10-38 | the method computes Evaluate |
| Ranking.FirstRank | sentence_transformer_streamlit_build/outlook_work/ai_resume_evaluator.py:36 | a rank lies in 1..N |
| Ranking.RankOrder | sentence_transformer_streamlit_build/outlook_work/ai_resume_evaluator.py:36 | a row ranked ahead (higher score, or tie and earlier) gets a strictly smaller rank |
| Ranking.RanksDistinct | sentence_transformer_streamlit_build/outlook_work/ai_resume_evaluator.py:36 | no two rows share a rank |
| Ranking.RanksNoDuplicates | sentence_transformer_streamlit_build/outlook_work/ai_resume_evaluator.py:36 | the rank column has no repeats |
| Ranking.RanksCoverOneTo | sentence_transformer_streamlit_build/outlook_work/ai_resume_evaluator.py:36 | the rank column's values are exactly 1..N |
| Ranking.Insert | sentence_transformer_streamlit_build/outlook_work/ai_resume_evaluator.py:37 | inserting adds exactly the one element |
| Ranking.InsertSorted | sentence_transformer_streamlit_build/outlook_work/ai_resume_evaluator.py:37 | insertion keeps a descending sequence descending, NaN last |
| Ranking.SortDesc | sentence_transformer_streamlit_build/outlook_work/ai_resume_evaluator.py:37 | a permutation, sorted descending with NaN last |
| Lists.Dedup | sentence_transformer_streamlit_build/model_handling.py:147 | no duplicates, and exactly the input's elements |
| Lists.Take | sentence_transformer_streamlit_build/model_handling.py:148 | a prefix of length min(n, len) |
| Lists.Filter | sentence_transformer_streamlit_build/model_handling.py:181 | only elements satisfying the test, no more than the input |
| Lists.FilterComplete | sentence_transformer_streamlit_build/model_handling.py:181 | the filter keeps every satisfying element and adds nothing |
| Lists.TryMapFailure | sentence_transformer_streamlit_build/outlook_work/ai_resume_evaluator.py:12-33 | a loop without a handler raises exactly when some step raises, with the first step's exception |
| PyStr.Lower | sentence_transformer_streamlit_build/model_handling.py:127 | every character mapped to lower case |
| PyStr.Title | sentence_transformer_streamlit_build/model_handling.py:147 | same length and lower-case form; a letter at the start or after a non-letter is not lower-case, a letter after a letter is not upper-case |
| PyStr.Strip | sentence_transformer_streamlit_build/model_handling.py:127 | "" exactly for blank input; otherwise no whitespace at either end and only whitespace removed |
| PyStr.StripJoin | sentence_transformer_streamlit_build/model_handling.py:127 | stripping two words joined by a space strips each and keeps the space |
| PyStr.SplitLines | sentence_transformer_streamlit_build/outlook_work/resume_Parse.py:82 | no line contains a line boundary; no lines exactly for "" |
| PyStr.SplitLinesRebuild | sentence_transformer_streamlit_build/outlook_work/resume_Parse.py:82 | putting each line back with the boundary that ended it rebuilds the text exactly |
| PyStr.LineBoundariesAreBoundaries | sentence_transformer_streamlit_build/outlook_work/resume_Parse.py:82 | every line but the last ends at a boundary ("\r\n" or one boundary character); the last may end the text |
| PyStr.LoneCarriageReturn | sentence_transformer_streamlit_build/outlook_work/resume_Parse.py:82 | a line ends at a lone "\r" only when no "\n" follows, so "\r\n" is never split |
| PyStr.AfterLast | sentence_transformer_streamlit_build/outlook_work/resume_Parse.py:84 | the suffix after the last ':' or the whole string; it holds no ':' |
| PyStr.JoinSplitRoundTrip | sentence_transformer_streamlit_build/outlook_work/ai_resume_evaluator.py:30 | splitting a ", "-join recovers the list when no item holds a comma |
| PyStr.DecimalRoundTrip | sentence_transformer_streamlit_build/streamlit_model_app.py:93 | str(n) read back as a decimal is n |
| StreamlitModelApp.AppRowFor | sentence_transformer_streamlit_build/streamlit_model_app.py:69-85 | the row carries the upload's name; it is the extraction-failed row exactly when the text is blank; otherwise it is the scored row of the text's analysis; scores are at most 100.0 with the band's summary |
| StreamlitModelApp.ScoredRow | sentence_transformer_streamlit_build/streamlit_model_app.py:77-84 | fails exactly when the analysis raises; otherwise a scored row whose score, semantic relevance and summary are the analysis's and whose Keywords Matched is the ", "-join of its matches |
| StreamlitModelApp.AppRowFailsExactly | sentence_transformer_streamlit_build/streamlit_model_app.py:69-85 | an upload's row raises exactly when its text is not blank and the analysis raises |
| StreamlitModelApp.FailedRow | sentence_transformer_streamlit_build/streamlit_model_app.py:72-75 | the extraction-failed row carries the upload's name, an Error and no score |
| StreamlitModelApp.RowsPerUpload | sentence_transformer_streamlit_build/streamlit_model_app.py:66-85 | without an exception, row i is the row of upload i |
| StreamlitModelApp.ErrorOf | sentence_transformer_streamlit_build/streamlit_model_app.py:91 | an error exactly for extraction-failed rows, and then it is "Text extraction failed" |
| StreamlitModelApp.FilterKeepsEveryRow | sentence_transformer_streamlit_build/streamlit_model_app.py:91 | the error filter removes no row |
| StreamlitModelApp.ScoreKey | sentence_transformer_streamlit_build/streamlit_model_app.py:92 | a score exactly for scored rows, and then it is the row's Overall Match Score, NaN otherwise |
| StreamlitModelApp.Ordinal | sentence_transformer_streamlit_build/streamlit_model_app.py:93 | the label of position x is the decimal x+1, with no leading zero, followed by "st", "nd", "rd" for x = 0, 1, 2 and "th" otherwise |
| StreamlitModelApp.OrdinalLabels | sentence_transformer_streamlit_build/streamlit_model_app.py:93 | "1st", "2nd", "3rd", "4th", and "21th", "22th" |
| StreamlitModelApp.Labelled | sentence_transformer_streamlit_build/streamlit_model_app.py:93 | row i is labelled Ordinal(i) |
| StreamlitModelApp.Finish | sentence_transformer_streamlit_build/streamlit_model_app.py:89-93 | the sort raises exactly when no row has a score; otherwise one table row per result row |
| StreamlitModelApp.FinishedTable | sentence_transformer_streamlit_build/streamlit_model_app.py:91-93 | the table is a permutation of the rows, in descending score with unscored rows last, position i labelled Ordinal(i) |
| StreamlitModelApp.Run | sentence_transformer_streamlit_build/streamlit_model_app.py:32-93 | a table only with a job description, 1 to 1000 uploads and the button pressed, one row per upload; over 1000 uploads gives the error and no analysis |
| StreamlitModelApp.CollectAppRows | sentence_transformer_streamlit_build/streamlit_model_app.py:66-85 | the loop computes the rows, or the first exception |
| StreamlitModelApp.RunApp | sentence_transformer_streamlit_build/streamlit_model_app.py:32-93 | the script computes Run |
| StreamlitModelApp.MimeTag | sentence_transformer_streamlit_build/streamlit_model_app.py:58 | a MIME type (it holds '/') is never "pdf" or "docx" |
| StreamlitModelApp.ExtensionTag | sentence_transformer_streamlit_build/streamlit_model_app.py:58 | "pdf" exactly when the lower-cased name ends in ".pdf", "docx" exactly otherwise |
| StreamlitModelApp.MimeTagNeverExtracts | sentence_transformer_streamlit_build/streamlit_model_app.py:58 | with the MIME type as tag, every upload becomes an extraction failure |
| StreamlitModelApp.MimeTagRowsAllFail | sentence_transformer_streamlit_build/streamlit_model_app.py:66-85 | with MIME-type tags the loop yields only extraction-failed rows |
| StreamlitModelApp.MimeTagAlwaysCrashes | sentence_transformer_streamlit_build/streamlit_model_app.py:58 | with MIME-type tags a started evaluation always ends in the sort's KeyError |
| StreamlitModelApp.MimeTagCounterexample | sentence_transformer_streamlit_build/streamlit_model_app.py:58 | a PDF whose text reads "Python developer", against a job asking for Python, still ends in the KeyError |
| StreamlitModelApp.ExtensionTagScores | sentence_transformer_streamlit_build/streamlit_model_app.py:69 | with the tag taken from the file name, a PDF with text whose analysis succeeds gets a scored row |
| StreamlitModelApp.Display | sentence_transformer_streamlit_build/streamlit_model_app.py:119-122 | "All" shows the whole table; a number n shows its first min(n, N) rows |

## Left out

- Text extraction internals are parameters of the model: PyMuPDF, python-docx, pdf2image and Tesseract OCR. So are the sentence-embedding model and the cosine computation. Only their results (a string, or a real that may come with an exception) are modelled.
- Regular expressions are parameters that return their matches in text order. This covers the e-mail, phone, LinkedIn and GitHub patterns and the two keyword tokenisers. The regex engine is not modelled; lemmas that depend on the patterns' shape state that shape as a precondition.
- Character classes are approximated:
  - `\w`, digits and `lower()`/`title()` cover ASCII only;
  - whitespace and line boundaries follow Python's full tables.
- Floating point is not modelled. Scores are exact reals rounded to tenths with half-to-even, so IEEE representation effects at exact halves are not captured.
- Logging, `print`, Streamlit widgets, the progress bar, session state, CSV/JSON export and the statistics caption are UI and output only. `downloader.py`, `config.py` and `streamlit_final_app.py` are not part of this model.
- Paths are plain strings. `Path(p).name` is the text after the last '/', with no normalisation of trailing separators.
- `glob("*.pdf")` returns entries in an order the OS chooses. The model takes the directory listing as given.
- PdfNames: `glob("*.pdf")` matches case-sensitively on POSIX and case-insensitively on Windows. The model follows POSIX, so "CV.PDF" is not listed.
- Whether `resume_Parse.py` opens and reads files is abstracted. `ResumeParser.constructor` does not create the upload directory.
- ModelHandling.ExtractKeywords: `list(set(...))` has hash order. The model keeps first occurrences, and its contract states only what holds for every order (the count, no duplicates, membership).
- AiResumeEvaluator.SortByScore: pandas' default sort is not stable. The contract promises only the permutation and the non-increasing order, not the order among equal scores.
- StreamlitModelApp.Finish: pandas' default sort is not stable. The table's order among equal scores is not promised; the sort with NaN last is modelled.
- StreamlitModelApp.Run: its own contract states the guards and the row count. The full outcome is given by the definition that RunApp is proved to compute.

## Findings

| source | as written | input that shows it | evidently intended | confidence | as-written member | corrected member |
|---|---|---|---|---|---|---|
| sentence_transformer_streamlit_build/streamlit_model_app.py:58 | the upload's MIME type (`file.type`, e.g. "application/pdf") is passed to `extract_text` as the format tag, which dispatches only on "pdf" and "docx", so every upload's text is "" and is reported as an extraction failure; with no row carrying a score, `sort_values("Overall Match Score")` raises KeyError | one upload "cv.pdf" of type "application/pdf" whose text layer reads "Python developer", job description "Python", Start pressed | the tag is chosen from the file name ("pdf" for a name ending in ".pdf", else "docx"), as `ai_resume_evaluator.py` does, so the PDF is extracted and scored | not executed | StreamlitModelApp.MimeTagCounterexample | StreamlitModelApp.ExtensionTagScores |
