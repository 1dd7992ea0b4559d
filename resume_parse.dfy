/** `ResumeParser`: the profile fields pulled out of a resume's OCR text (phone
    normalisation, the e-mail, phone, LinkedIn and GitHub fields, the name
    heuristic) and the records built for one upload or for every PDF in the
    upload directory. The OCR engine and the regular expressions are given as
    functions; everything between them is modelled. */
module ResumeParse {
  import opened Wrappers
  import opened Lists
  import opened PyStr

  type Bytes = seq<bv8>
  /** A rendered page image. */
  type Page = seq<bv8>

  /** pdf2image's `convert_from_path` and `convert_from_bytes`, and
      pytesseract's `image_to_string`. Each may raise (Failure). */
  datatype Ocr = Ocr(
    fromPath: string -> Result<seq<Page>, string>,
    fromBytes: Bytes -> Result<seq<Page>, string>,
    read: Page -> Result<string, string>)

  /** The four `re.findall` calls; each returns its matches in text order. */
  datatype Matchers = Matchers(
    emails: string -> seq<string>,
    phones: string -> seq<string>,
    linkedIn: string -> seq<string>,
    gitHub: string -> seq<string>)

  // ----- OCR text -----

  /** Text of pages that all read: each page's text followed by "\n". */
  function PagesText(ocr: Ocr, pages: seq<Page>): string
    requires forall j :: 0 <= j < |pages| ==> ocr.read(pages[j]).Success?
  {
    if pages == [] then ""
    else PagesText(ocr, pages[..|pages| - 1]) + ocr.read(pages[|pages| - 1]).value + "\n"
  }

  predicate Unreadable(ocr: Ocr, page: Page) {
    ocr.read(page).Failure?
  }

  /** What the page loop has accumulated when it stops: nothing when the
      conversion raises, otherwise the pages before the first one OCR fails on. */
  function OcrText(ocr: Ocr, converted: Result<seq<Page>, string>): (r: string)
    ensures converted.Failure? ==> r == ""
    ensures converted.Success? && (forall j :: 0 <= j < |converted.value| ==> !Unreadable(ocr, converted.value[j]))
            ==> r == PagesText(ocr, converted.value)
    ensures r == "" || r[|r| - 1] == '\n'
  {
    match converted
    case Failure(_) => ""
    case Success(pages) =>
      var k := FirstIndex(pages, p => Unreadable(ocr, p));
      assert pages[..|pages|] == pages;
      PagesText(ocr, pages[..k])
  }

  /** The `try` block of `extract_text_from_pdf` and `extract_text_from_pdf_bytes`
      with the `strip()` after it: page texts are appended one by one, an
      exception ends the loop and keeps what was appended. */
  method CollectText(ocr: Ocr, converted: Result<seq<Page>, string>) returns (text: string)
    ensures text == Strip(OcrText(ocr, converted))
  {
    text := "";
    if converted.Success? {
      var pages := converted.value;
      var i := 0;
      while i < |pages|
        invariant i <= FirstIndex(pages, p => Unreadable(ocr, p))
        invariant text == PagesText(ocr, pages[..i])
      {
        var page := ocr.read(pages[i]);
        if page.Failure? {
          break;
        }
        assert pages[..i + 1][..i] == pages[..i];
        text := text + page.value + "\n";
        i := i + 1;
      }
      assert pages[..i] == pages[..FirstIndex(pages, p => Unreadable(ocr, p))];
    }
    text := Strip(text);
  }

  /** Pages after the first one OCR fails on never reach the text. */
  lemma LaterPagesIgnored(ocr: Ocr, pages: seq<Page>, m: nat)
    requires FirstIndex(pages, p => Unreadable(ocr, p)) <= m <= |pages|
    ensures OcrText(ocr, Success(pages[..m])) == OcrText(ocr, Success(pages))
  {
    var unreadable := p => Unreadable(ocr, p);
    var k := FirstIndex(pages, unreadable);
    FirstIndexPrefix(pages, unreadable, m);
    assert pages[..m][..k] == pages[..k];
  }

  // ----- phone numbers -----

  predicate AllDigits(s: string) {
    forall i :: 0 <= i < |s| ==> IsDigit(s[i])
  }

  /** `re.sub(r'\D', '', num)`. */
  function Digits(s: string): (d: string)
    ensures AllDigits(d)
    ensures AllDigits(s) ==> d == s
  {
    var d := Filter(s, IsDigit);
    assert AllDigits(s) ==> d == s by {
      if AllDigits(s) {
        FilterAll(s, IsDigit);
      }
    }
    d
  }

  /** The digits of s are every digit of s, each as often as it occurs there,
      and nothing else. */
  lemma DigitsContent(s: string)
    ensures forall c :: multiset(Digits(s))[c] == if IsDigit(c) then multiset(s)[c] else 0
  {
    forall c ensures multiset(Digits(s))[c] == if IsDigit(c) then multiset(s)[c] else 0 {
      FilterCount(s, IsDigit, c);
    }
  }

  /** The digits keep their order: those of a concatenation are those of
      the first part followed by those of the second. */
  lemma DigitsAppend(a: string, b: string)
    ensures Digits(a + b) == Digits(a) + Digits(b)
  {
    FilterAppend(a, b, IsDigit);
  }

  /** The two shapes `normalize_phone` produces: ten digits, or "+977" and ten digits. */
  predicate IsCanonicalPhone(p: string) {
    (|p| == 10 && AllDigits(p)) || (|p| == 14 && p[..4] == "+977" && AllDigits(p[4..]))
  }

  /** `normalize_phone`: Nepal's country code followed by ten digits becomes
      "+977" and those digits; ten digits stay as they are; any other digit
      count gives None. No digit is lost or added on the way. */
  function NormalizePhone(num: string): (r: Option<string>)
    ensures r.Some? <==> |Digits(num)| == 10 || (|Digits(num)| == 13 && StartsWith(Digits(num), "977"))
    ensures r.Some? ==> IsCanonicalPhone(r.value) && Digits(r.value) == Digits(num)
  {
    var digits := Digits(num);
    if StartsWith(digits, "977") && |digits| == 13 then
      var p := "+977" + digits[3..];
      assert p == "+" + digits && p[1..] == digits && p[4..] == digits[3..];
      SignedDigits(p);
      Some(p)
    else if |digits| == 10 then Some(digits)
    else None
  }

  /** Normalising a normalised number changes nothing. */
  lemma NormalizePhoneIdempotent(num: string)
    requires NormalizePhone(num).Some?
    ensures NormalizePhone(NormalizePhone(num).value) == NormalizePhone(num)
  {
    var p := NormalizePhone(num).value;
    var d := Digits(p);
    if |p| == 14 {
      assert AllDigits(p[1..]) by {
        assert p[1..] == "977" + p[4..];
      }
      SignedDigits(p);
      assert d[3..] == p[4..];
    }
  }

  /** What `(\+?977\d{10}|\b\d{10}\b)` matches: ten digits, or 977 and ten
      digits with an optional leading '+'. */
  predicate IsPhoneMatch(p: string) {
    (|p| == 10 && AllDigits(p))
    || (|p| == 13 && p[..3] == "977" && AllDigits(p))
    || (|p| == 14 && p[0] == '+' && p[1..4] == "977" && AllDigits(p[1..]))
  }

  /** A phone match in canonical form: as found when it is ten digits,
      otherwise "+977" and its last ten digits. */
  function CanonicalMatch(p: string): string {
    if |p| <= 10 then p else "+977" + p[|p| - 10..]
  }

  /** Every number the phone pattern finds normalises to a value: the
      `if p` filter of the Phone field never drops one. */
  lemma PhoneMatchNormalizes(p: string)
    requires IsPhoneMatch(p)
    ensures NormalizePhone(p) == Some(CanonicalMatch(p))
  {
    if |p| == 14 {
      SignedDigits(p);
      assert Digits(p)[3..] == p[4..];
    } else if |p| == 13 {
      assert Digits(p)[..3] == p[..3];
      assert p[3..] == p[|p| - 10..];
    }
  }

  /** Removing the non-digits of "+" followed by digits leaves those digits. */
  lemma SignedDigits(p: string)
    requires p != [] && p[0] == '+' && AllDigits(p[1..])
    ensures Digits(p) == p[1..]
  {
    assert p == "+" + p[1..];
    FilterAppend("+", p[1..], IsDigit);
    FilterAll(p[1..], IsDigit);
  }

  /** `[p for p in phones if p]`: the numbers that normalised. */
  function Present(phones: seq<Option<string>>): (r: seq<string>)
    ensures |r| <= |phones|
    ensures forall x :: x in r <==> Some(x) in phones && x != ""
  {
    if phones == [] then []
    else
      assert phones == [phones[0]] + phones[1..];
      (if phones[0].Some? && phones[0].value != "" then [phones[0].value] else []) + Present(phones[1..])
  }

  /** The filter keeps the order of the numbers: filtering a concatenation
      is filtering each part. */
  lemma {:induction false} PresentAppend(a: seq<Option<string>>, b: seq<Option<string>>)
    ensures Present(a + b) == Present(a) + Present(b)
  {
    if a == [] {
      assert a + b == b;
    } else {
      var head := if a[0].Some? && a[0].value != "" then [a[0].value] else [];
      assert (a + b)[1..] == a[1..] + b && (a + b)[0] == a[0];
      PresentAppend(a[1..], b);
      assert Present(a + b) == head + (Present(a[1..]) + Present(b));
      AppendAssoc(head, Present(a[1..]), Present(b));
    }
  }

  /** Every value is one `normalize_phone` can produce. */
  predicate CanonicalValues(phones: seq<Option<string>>) {
    forall i :: 0 <= i < |phones| && phones[i].Some? ==> IsCanonicalPhone(phones[i].value)
  }

  /** The Phone field: the numbers that normalised, joined with ", ", or
      "Unknown" when the pattern found nothing. For normalised values the
      field reads "Unknown" only then, is empty when none of the matches
      normalised, and otherwise splits back at ", " into those numbers. */
  function PhoneField(phones: seq<Option<string>>): (r: string)
    ensures phones == [] ==> r == "Unknown"
    ensures phones != [] && CanonicalValues(phones) ==>
              r != "Unknown" &&
              (Present(phones) == [] ==> r == "") &&
              (Present(phones) != [] ==> SplitCommaSpace(r) == Present(phones))
  {
    if phones == [] then "Unknown"
    else
      PhonesJoined(phones);
      Join(Present(phones), ", ")
  }

  lemma PhonesJoined(phones: seq<Option<string>>)
    ensures CanonicalValues(phones) && Present(phones) != [] ==>
              Join(Present(phones), ", ") != "Unknown" &&
              SplitCommaSpace(Join(Present(phones), ", ")) == Present(phones)
  {
    var ps := Present(phones);
    if CanonicalValues(phones) && ps != [] {
      forall i | 0 <= i < |ps| ensures ps[i] != [] && ',' !in ps[i] && ps[i][0] != 'U' {
        assert ps[i] in ps;
        var j :| 0 <= j < |phones| && phones[j] == Some(ps[i]);
        CanonicalChars(ps[i]);
      }
      JoinSplitRoundTrip(ps);
      assert Join(ps, ", ")[0] == ps[0][0];
    }
  }

  /** A normalised number starts with a digit or '+' and holds no comma. */
  lemma CanonicalChars(p: string)
    requires IsCanonicalPhone(p)
    ensures p != [] && ',' !in p && p[0] != 'U'
  {
    if |p| == 14 {
      assert p[..4] == "+977";
      assert forall k :: 0 <= k < 4 ==> p[k] == "+977"[k];
      assert forall k :: 4 <= k < |p| ==> p[k] == p[4..][k - 4];
    }
  }

  /** For matches of the phone pattern the field lists every match, normalised, in order. */
  lemma PhoneFieldKeepsEveryMatch(matches: seq<string>)
    requires forall i :: 0 <= i < |matches| ==> IsPhoneMatch(matches[i])
    ensures Present(Map(matches, NormalizePhone)) == Map(matches, CanonicalMatch)
  {
    var phones, canonical := Map(matches, NormalizePhone), Map(matches, CanonicalMatch);
    forall i | 0 <= i < |matches| ensures phones[i] == Some(canonical[i]) && canonical[i] != "" {
      PhoneMatchNormalizes(matches[i]);
    }
    PresentAll(phones, canonical);
  }

  /** When every entry holds a non-empty value, the filter keeps them all. */
  lemma {:induction false} PresentAll(phones: seq<Option<string>>, values: seq<string>)
    requires |phones| == |values|
    requires forall i :: 0 <= i < |phones| ==> phones[i] == Some(values[i]) && values[i] != ""
    ensures Present(phones) == values
  {
    if phones != [] {
      PresentAll(phones[1..], values[1..]);
      assert values == [values[0]] + values[1..];
    }
  }

  // ----- e-mail and profile links -----

  /** The characters `[a-zA-Z0-9_.+-]+@[a-zA-Z0-9-]+\.[a-zA-Z0-9-.]+` can match. */
  predicate IsEmailChar(c: char) {
    IsLetter(c) || IsDigit(c) || c == '_' || c == '.' || c == '+' || c == '-' || c == '@'
  }

  predicate IsEmailMatch(e: string) {
    '@' in e && forall i :: 0 <= i < |e| ==> IsEmailChar(e[i])
  }

  /** The Email field: every match joined with ", ", or "Unknown" when
      there is none. For matches of the e-mail pattern it reads "Unknown"
      exactly when no address was found, and otherwise splits back at ", "
      into the matches in text order. */
  function EmailField(emails: seq<string>): (r: string)
    ensures emails == [] ==> r == "Unknown"
    ensures emails != [] && (forall i :: 0 <= i < |emails| ==> IsEmailMatch(emails[i])) ==>
              r != "Unknown" && SplitCommaSpace(r) == emails
  {
    if emails == [] then "Unknown"
    else
      EmailsJoined(emails);
      Join(emails, ", ")
  }

  lemma EmailsJoined(emails: seq<string>)
    requires emails != []
    ensures (forall i :: 0 <= i < |emails| ==> IsEmailMatch(emails[i])) ==>
              Join(emails, ", ") != "Unknown" && SplitCommaSpace(Join(emails, ", ")) == emails
  {
    if forall i :: 0 <= i < |emails| ==> IsEmailMatch(emails[i]) {
      EmailsSplit(emails);
      EmailsAt(emails);
    }
  }

  lemma EmailsSplit(emails: seq<string>)
    requires emails != []
    requires forall i :: 0 <= i < |emails| ==> IsEmailMatch(emails[i])
    ensures SplitCommaSpace(Join(emails, ", ")) == emails
  {
    assert forall i :: 0 <= i < |emails| ==> ',' !in emails[i];
    JoinSplitRoundTrip(emails);
  }

  /** The joined addresses hold the '@' of the first one, which "Unknown" lacks. */
  lemma EmailsAt(emails: seq<string>)
    requires emails != [] && '@' in emails[0]
    ensures Join(emails, ", ") != "Unknown"
  {
    var r := Join(emails, ", ");
    var k :| 0 <= k < |emails[0]| && emails[0][k] == '@';
    assert r[k] == '@';
    assert forall j :: 0 <= j < |"Unknown"| ==> "Unknown"[j] != '@';
  }

  /** `matches[0] if matches else ""`. */
  function FirstMatch(matches: seq<string>): (r: string)
    ensures matches == [] ==> r == ""
    ensures matches != [] ==> r == matches[0]
  {
    if matches == [] then "" else matches[0]
  }

  /** `link or "Unknown"`: never empty, and a found link is kept as it is. */
  function LinkField(link: string): (r: string)
    ensures r != ""
    ensures r == "Unknown" <==> link == "" || link == "Unknown"
    ensures link != "" ==> r == link
  {
    if link == "" then "Unknown" else link
  }

  /** Both URL patterns require a host ending in ".com/". */
  predicate IsProfileUrl(m: string) {
    IsSubstring(".com/", m)
  }

  /** The LinkedIn and GitHub fields hold the first URL found, and read
      "Unknown" exactly when none was. */
  lemma LinkFieldFirstMatch(matches: seq<string>)
    requires forall i :: 0 <= i < |matches| ==> IsProfileUrl(matches[i])
    ensures LinkField(FirstMatch(matches)) == "Unknown" <==> matches == []
    ensures matches != [] ==> LinkField(FirstMatch(matches)) == matches[0]
  {
    if matches != [] {
      SubstringChars(".com/", matches[0]);
      assert ".com/"[4] == '/';
    }
  }

  // ----- the name heuristic -----

  /** `'name' in line.lower()`. */
  predicate MentionsName(line: string) {
    IsSubstring("name", Lower(line))
  }

  /** `line.split(":")[-1].strip()`. */
  function LabelValue(line: string): (v: string)
    ensures ':' !in v
    ensures forall k :: 0 <= k < |v| ==> v[k] in line
    ensures v == Strip(AfterLast(line, ':'))
  {
    var after := AfterLast(line, ':');
    StripChars(after);
    assert forall k :: 0 <= k < |after| ==> after[k] == line[|line| - |after| + k];
    Strip(after)
  }

  /** `if line.strip():`, which holds exactly when the line is not blank
      (the first ensures of Strip). */
  predicate HasText(line: string) {
    !IsBlank(line)
  }

  /** The name the two passes settle on, after `name or "Unknown"`: the value
      of the first line that mentions "name", when that value is not empty;
      otherwise the first line with text, stripped; otherwise "Unknown".
      Whichever it is, the name is never empty, lies on one line and has no
      surrounding whitespace. */
  function ChooseName(text: string): (name: string)
    ensures WellShaped(name)
  {
    var lines := SplitLines(text);
    var i := FirstIndex(lines, MentionsName);
    var labelled := if i < |lines| then LabelValue(lines[i]) else "";
    if labelled != "" then
      LabelShape(lines, i);
      labelled
    else
      var j := FirstIndex(lines, HasText);
      if j < |lines| then
        TextLineShape(lines, j);
        Strip(lines[j])
      else
        UnknownShape();
        "Unknown"
  }

  /** Not empty, on one line, and without surrounding whitespace. */
  predicate WellShaped(name: string) {
    name != [] && !IsSpace(name[0]) && !IsSpace(name[|name| - 1]) &&
    forall k :: 0 <= k < |name| ==> !IsLineBreak(name[k])
  }

  lemma UnknownShape()
    ensures WellShaped("Unknown")
  {
    var u := "Unknown";
    assert forall k :: 0 <= k < |u| ==> 'a' <= u[k] <= 'z' || u[k] == 'U';
  }

  /** The lines of SplitLines hold no line break. */
  predicate OneLineEach(lines: seq<string>) {
    forall i, k :: 0 <= i < |lines| && 0 <= k < |lines[i]| ==> !IsLineBreak(lines[i][k])
  }

  lemma TextLineShape(lines: seq<string>, j: nat)
    requires OneLineEach(lines) && j < |lines| && HasText(lines[j])
    ensures WellShaped(Strip(lines[j]))
  {
    var line := lines[j];
    StripChars(line);
    OneLine(line, Strip(line));
  }

  lemma LabelShape(lines: seq<string>, i: nat)
    requires OneLineEach(lines) && i < |lines| && LabelValue(lines[i]) != ""
    ensures WellShaped(LabelValue(lines[i]))
  {
    var line := lines[i];
    var v := LabelValue(line);
    OneLine(line, v);
    StripEnds(AfterLast(line, ':'));
  }

  lemma StripEnds(s: string)
    requires Strip(s) != []
    ensures !IsSpace(Strip(s)[0]) && !IsSpace(Strip(s)[|Strip(s)| - 1])
  {
  }

  lemma OneLine(line: string, part: string)
    requires forall k :: 0 <= k < |line| ==> !IsLineBreak(line[k])
    requires forall k :: 0 <= k < |part| ==> part[k] in line
    ensures forall k :: 0 <= k < |part| ==> !IsLineBreak(part[k])
  {
    forall k | 0 <= k < |part| ensures !IsLineBreak(part[k]) {
      var j :| 0 <= j < |line| && line[j] == part[k];
    }
  }

  /** When the first line mentioning "name" carries a value after its last
      ':', that value is the name, whatever follows. */
  lemma NameFromFirstLabel(text: string, i: nat)
    requires i < |SplitLines(text)|
    requires MentionsName(SplitLines(text)[i])
    requires forall j :: 0 <= j < i ==> !MentionsName(SplitLines(text)[j])
    requires LabelValue(SplitLines(text)[i]) != ""
    ensures ChooseName(text) == LabelValue(SplitLines(text)[i])
  {
    FirstIndexIs(SplitLines(text), MentionsName, i);
  }

  /** Without a usable label the name is the first line with text, stripped. */
  lemma NameFromFirstText(text: string, j: nat)
    requires var lines := SplitLines(text);
             var i := FirstIndex(lines, MentionsName);
             i == |lines| || LabelValue(lines[i]) == ""
    requires j < |SplitLines(text)| && HasText(SplitLines(text)[j])
    requires forall k :: 0 <= k < j ==> !HasText(SplitLines(text)[k])
    ensures ChooseName(text) == Strip(SplitLines(text)[j])
  {
    FirstIndexIs(SplitLines(text), HasText, j);
  }

  /** A text with no line holding anything but whitespace gives "Unknown". */
  lemma NoTextNoName(text: string)
    requires forall k :: 0 <= k < |SplitLines(text)| ==> !HasText(SplitLines(text)[k])
    ensures ChooseName(text) == "Unknown"
  {
    var lines := SplitLines(text);
    var i := FirstIndex(lines, MentionsName);
    if i < |lines| {
      var v := LabelValue(lines[i]);
      if v != "" {
        assert !HasText(lines[i]);
        assert v[0] in lines[i];
        BlankHasOnlySpace(lines[i], v[0]);
      }
    }
  }

  lemma BlankHasOnlySpace(line: string, c: char)
    requires !HasText(line) && c in line
    ensures IsSpace(c)
  {
    var k :| 0 <= k < |line| && line[k] == c;
  }

  /** The first pass: the label value of the first line that mentions
      "name", or None when no line does. */
  method FirstLabelled(lines: seq<string>) returns (found: Option<string>)
    ensures var i := FirstIndex(lines, MentionsName);
            found == if i < |lines| then Some(LabelValue(lines[i])) else None
  {
    var i := 0;
    while i < |lines|
      invariant i <= FirstIndex(lines, MentionsName)
    {
      if MentionsName(lines[i]) {
        FirstIndexAt(lines, MentionsName, i);
        return Some(LabelValue(lines[i]));
      }
      i := i + 1;
    }
    return None;
  }

  /** The second pass: the first line with text, stripped, or None when
      every line is blank. */
  method FirstTextLine(lines: seq<string>) returns (found: Option<string>)
    ensures var j := FirstIndex(lines, HasText);
            found == if j < |lines| then Some(Strip(lines[j])) else None
  {
    var j := 0;
    while j < |lines|
      invariant j <= FirstIndex(lines, HasText)
    {
      if HasText(lines[j]) {
        FirstIndexAt(lines, HasText, j);
        return Some(Strip(lines[j]));
      }
      j := j + 1;
    }
    return None;
  }

  /** The two `for ... break` passes over `text.splitlines()`, then
      `name or "Unknown"`. */
  method FindName(text: string) returns (name: string)
    ensures name == ChooseName(text)
  {
    var lines := SplitLines(text);
    var found := FirstLabelled(lines);
    if found == None || found == Some("") {
      var second := FirstTextLine(lines);
      if second.Some? {
        found := second;
      }
    }
    name := if found == None || found == Some("") then "Unknown" else found.value;
  }

  // ----- records -----

  /** One row of the parsed table. */
  datatype Profile = Profile(
    name: string,
    email: string,
    phone: string,
    linkedIn: string,
    gitHub: string,
    fileName: string)

  /** What `parse_single_pdf` returns: the row plus `Full_Text`. */
  datatype ParsedPdf = ParsedPdf(profile: Profile, fullText: string)

  /** An uploaded file: its name and what `read()` gives, or the exception it raises. */
  datatype Upload = Upload(name: string, content: Result<Bytes, string>)

  /** The fields of one resume, built from its text: a well-shaped name,
      the Email and Phone fields of the matches ("Unknown" when the pattern
      found nothing), the first profile URL found, and the file name the
      row came from. */
  function ProfileOf(m: Matchers, text: string, fileName: string): (p: Profile)
    ensures p.name == ChooseName(text) && WellShaped(p.name)
    ensures p.email == EmailField(m.emails(text))
    ensures p.phone == PhoneField(Map(m.phones(text), NormalizePhone))
    ensures m.emails(text) == [] ==> p.email == "Unknown"
    ensures m.phones(text) == [] ==> p.phone == "Unknown"
    ensures p.linkedIn == (if m.linkedIn(text) == [] then "Unknown" else LinkField(m.linkedIn(text)[0]))
    ensures p.gitHub == (if m.gitHub(text) == [] then "Unknown" else LinkField(m.gitHub(text)[0]))
    ensures p.fileName == fileName
  {
    Profile(
      ChooseName(text),
      EmailField(m.emails(text)),
      PhoneField(Map(m.phones(text), NormalizePhone)),
      LinkField(FirstMatch(m.linkedIn(text))),
      LinkField(FirstMatch(m.gitHub(text))),
      fileName)
  }

  /** `save_dir.glob("*.pdf")`: the entries whose name ends in ".pdf" (case-sensitive). */
  function PdfNames(dir: seq<string>): (names: seq<string>)
    ensures forall n :: n in names <==> n in dir && EndsWith(n, ".pdf")
    ensures multiset(names) <= multiset(dir)
  {
    var isPdf := n => EndsWith(n, ".pdf");
    FilterComplete(dir, isPdf);
    Filter(dir, isPdf)
  }

  class ResumeParser {
    const ocr: Ocr
    const matchers: Matchers
    /** `self.df`: the rows of the last `parse_pdfs`. */
    var df: seq<Profile>

    constructor(ocr: Ocr, matchers: Matchers)
      ensures this.ocr == ocr && this.matchers == matchers && df == []
    {
      this.ocr := ocr;
      this.matchers := matchers;
      df := [];
    }

    /** The row `parse_pdfs` builds for the file called `name` (the OCR reads it from the upload directory). */
    function FileProfile(name: string): (p: Profile)
      ensures p == ProfileOf(matchers, Strip(OcrText(ocr, ocr.fromPath(name))), name)
      ensures p.fileName == name && WellShaped(p.name)
      ensures p.linkedIn != "" && p.gitHub != ""
    {
      ProfileOf(matchers, Strip(OcrText(ocr, ocr.fromPath(name))), name)
    }

    /** `extract_text_from_pdf`. */
    method ExtractTextFromPdf(path: string) returns (text: string)
      ensures text == Strip(OcrText(ocr, ocr.fromPath(path)))
    {
      text := CollectText(ocr, ocr.fromPath(path));
    }

    /** `extract_text_from_pdf_bytes`. */
    method ExtractTextFromPdfBytes(pdf: Bytes) returns (text: string)
      ensures text == Strip(OcrText(ocr, ocr.fromBytes(pdf)))
    {
      text := CollectText(ocr, ocr.fromBytes(pdf));
    }

    /** The record of every field but the name, which FindName computes. */
    function RecordOf(text: string, name: string, fileName: string): (p: Profile)
      ensures p.name == name && p.fileName == fileName
      ensures name == ChooseName(text) ==> p == ProfileOf(matchers, text, fileName)
    {
      Profile(
        name,
        EmailField(matchers.emails(text)),
        PhoneField(Map(matchers.phones(text), NormalizePhone)),
        LinkField(FirstMatch(matchers.linkedIn(text))),
        LinkField(FirstMatch(matchers.gitHub(text))),
        fileName)
    }

    /** `parse_single_pdf`: None when reading the upload raises; otherwise the
        profile of the OCR text and that text, stripped, as `Full_Text`. */
    method ParseSinglePdf(upload: Upload) returns (r: Option<ParsedPdf>)
      ensures upload.content.Failure? ==> r == None
      ensures upload.content.Success? ==>
                var text := Strip(OcrText(ocr, ocr.fromBytes(upload.content.value)));
                r == Some(ParsedPdf(ProfileOf(matchers, text, upload.name), text))
    {
      if upload.content.Failure? {
        return None;
      }
      var text := ExtractTextFromPdfBytes(upload.content.value);
      var name := FindName(text);
      r := Some(ParsedPdf(RecordOf(text, name, upload.name), text));
    }

    /** The body of the loop in `parse_pdfs`, for one file. */
    method ParseFile(path: string) returns (profile: Profile)
      ensures profile == FileProfile(path)
    {
      var text := ExtractTextFromPdf(path);
      var name := FindName(text);
      profile := RecordOf(text, name, path);
    }

    /** The loop of `parse_pdfs`: one profile per file, in order. */
    method ParseAll(files: seq<string>) returns (data: seq<Profile>)
      ensures data == Map(files, FileProfile)
    {
      data := [];
      var i := 0;
      while i < |files|
        invariant i <= |files|
        invariant data == Map(files[..i], FileProfile)
      {
        assert files[..i + 1] == files[..i] + [files[i]];
        MapAppend(files[..i], files[i], FileProfile);
        var profile := ParseFile(files[i]);
        data := data + [profile];
        i := i + 1;
      }
      assert files[..i] == files;
    }

    /** `parse_pdfs`: `df` becomes one row per PDF in the directory, in
        listing order. Every failure inside the loop is caught by the text
        extractor, so no file is skipped. */
    method ParsePdfs(dir: seq<string>)
      modifies this
      ensures df == Map(PdfNames(dir), FileProfile)
    {
      var data := ParseAll(PdfNames(dir));
      df := data;
    }
  }
}
