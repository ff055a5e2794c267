/**
 * `extract_job_info_from_html` in its two versions: the general one of
 * Not_JoAps.py and the Workday-oriented one of Not_JoAps-WD.py.  Parsing the
 * HTML and the URL is outside the model: a page is given by the few texts the
 * heuristics read, and the URL by its host name.  Each version is a method that
 * follows the source statement by statement and is proved equal to a cascade
 * of candidates, the first non-empty one winning.
 */
module Extraction {
  import opened Wrappers
  import opened Text
  import opened JsonLd

  // ---------------------------------------------------------------------------
  // the page

  /** An element: its attributes (`class` as its space-joined value) and its `get_text(strip=True)`. */
  datatype Element = Element(attrs: map<string, string>, text: string)

  /**
   * What the heuristics read from the parsed page.  Every text is "" when the
   * tag is missing, has no `content`, or (for `<title>`) has no single string.
   */
  datatype Page = Page(
    ogTitle: string,          // content of the first <meta property="og:title">
    docTitle: string,         // the string of <title>
    ogSiteName: string,       // content of the first <meta property="og:site_name">
    h1Text: string,           // get_text(strip=True) of the first <h1>
    hiringOrgName: string,    // get_text(strip=True) of the first itemprop="name" inside the first itemprop="hiringOrganization"
    ldBlocks: seq<LdBlock>,   // the application/ld+json scripts, in document order
    elements: seq<Element>)   // every element, in document order

  // ---------------------------------------------------------------------------
  // first non-empty candidate

  /** `a or b` on strings. */
  function OrElse(a: string, b: string): string {
    if a != "" then a else b
  }

  /** The first non-empty candidate, or `fallback` when every candidate is empty. */
  function FirstNonEmpty(cands: seq<string>, fallback: string): (r: string)
    ensures r != "" || r == fallback
    ensures (forall k :: 0 <= k < |cands| ==> cands[k] == "") ==> r == fallback
    ensures forall i :: 0 <= i < |cands| && cands[i] != "" && (forall k :: 0 <= k < i ==> cands[k] == "") ==> r == cands[i]
  {
    if cands == [] then fallback
    else if cands[0] != "" then cands[0]
    else
      var r := FirstNonEmpty(cands[1..], fallback);
      assert forall i :: 1 <= i < |cands| ==> cands[1..][i - 1] == cands[i];
      r
  }

  // ---------------------------------------------------------------------------
  // attribute selectors

  /** `(attr, pattern)`: `soup.find(attrs={attr: re.compile(pattern, re.I)})`. */
  datatype Selector = Selector(attr: string, pattern: string)

  const TitleSelectors: seq<Selector> := [
    Selector("data-qa", "job-title"),
    Selector("class", "job-title"),
    Selector("class", "posting-headline"),
    Selector("class", "job-header-title"),
    Selector("class", "job-title-text")
  ]

  const CompanySelectors: seq<Selector> := [
    Selector("data-qa", "company-name"),
    Selector("class", "company-name"),
    Selector("class", "posting-company"),
    Selector("class", "job-header-company")
  ]

  /**
   * The element has the attribute and the pattern occurs in its value, ignoring
   * ASCII case (every pattern above is in lower case and has no regex operator).
   */
  predicate Matches(e: Element, sel: Selector) {
    sel.attr in e.attrs && Contains(Lower(e.attrs[sel.attr]), sel.pattern)
  }

  /** The index of the first element at or after `from` that the selector matches, or -1. */
  function FirstMatch(els: seq<Element>, sel: Selector, from: nat): (i: int)
    ensures i == -1 || (from <= i < |els| && Matches(els[i], sel))
    ensures forall j :: from <= j < |els| && (i == -1 || j < i) ==> !Matches(els[j], sel)
    decreases |els| - from
  {
    if from >= |els| then -1
    else if Matches(els[from], sel) then from
    else FirstMatch(els, sel, from + 1)
  }

  /** The text of the first element the selector matches; "" when none matches. */
  function MatchText(els: seq<Element>, sel: Selector): string {
    var i := FirstMatch(els, sel, 0);
    if i == -1 then "" else els[i].text
  }

  /** What each selector yields, in order. */
  function SelectorTexts(els: seq<Element>, sels: seq<Selector>): (ts: seq<string>)
    ensures |ts| == |sels| && forall k :: 0 <= k < |sels| ==> ts[k] == MatchText(els, sels[k])
  {
    seq(|sels|, k requires 0 <= k < |sels| => MatchText(els, sels[k]))
  }

  /**
   * The selector loop: the text of the first selector whose first match has
   * text.  A selector whose first match is empty is given up, not searched further.
   */
  function SelectorText(els: seq<Element>, sels: seq<Selector>): string {
    FirstNonEmpty(SelectorTexts(els, sels), "")
  }

  /** `for attr, value in selectors: el = soup.find(...); if el and el.get_text(strip=True): ...; break` */
  method FindBySelectors(els: seq<Element>, sels: seq<Selector>) returns (text: string)
    ensures text == SelectorText(els, sels)
  {
    ghost var texts := SelectorTexts(els, sels);
    text := "";
    var k := 0;
    while k < |sels|
      invariant 0 <= k <= |sels|
      invariant text == ""
      invariant SelectorText(els, sels) == FirstNonEmpty(texts[k..], "")
    {
      var i := FirstMatch(els, sels[k], 0);
      if i != -1 && els[i].text != "" {
        text := els[i].text;
        assert texts[k..][0] == text;
        break;
      }
      assert texts[k..][1..] == texts[k + 1..];
      k := k + 1;
    }
  }

  // ---------------------------------------------------------------------------
  // the page title and what is read off it

  /**
   * `title_text`: og:title's content stripped, else `<title>` stripped.  A
   * non-empty og:title is used even when stripping leaves nothing.
   */
  function TitleText(p: Page): (r: string)
    ensures r == "" <==> (p.ogTitle != "" && IsBlank(p.ogTitle)) || (p.ogTitle == "" && IsBlank(p.docTitle))
    ensures r != "" ==> !IsSpace(r[0]) && !IsSpace(r[|r| - 1])
  {
    if p.ogTitle != "" then Strip(p.ogTitle) else if p.docTitle != "" then Strip(p.docTitle) else ""
  }

  /** The title heuristic: keep what precedes the first " - ", then what precedes the first "|", stripped. */
  function TitleFromPageTitle(tt: string): string {
    Strip(Before(Before(tt, " - "), "|"))
  }

  /**
   * The heuristic's title holds neither " - " nor "|", and a title that holds
   * neither is only stripped.
   */
  lemma TitleFromPageTitleCuts(tt: string)
    ensures !Contains(TitleFromPageTitle(tt), " - ") && '|' !in TitleFromPageTitle(tt)
    ensures !Contains(tt, " - ") && '|' !in tt ==> TitleFromPageTitle(tt) == Strip(tt)
  {
    var a := Before(tt, " - ");
    var b := Before(a, "|");
    BeforeExcludes(tt, " - ");
    BeforeExcludes(a, "|");
    if Contains(b, " - ") {
      ContainsSlice(a, 0, |b|, " - ");
    }
    if Contains(Strip(b), " - ") {
      StripByContains(b, IsSpace, " - ");
    }
    if Contains(Strip(b), "|") {
      StripByContains(b, IsSpace, "|");
    }
    ContainsChar(Strip(b), '|');
    ContainsChar(tt, '|');
  }

  /** The characters `strip(" -|")` removes. */
  predicate IsSeparator(c: char) { c == ' ' || c == '-' || c == '|' }

  predicate NotBar(c: char) { c != '|' }

  /** The job words of `\b(Careers?|Jobs?|Hiring)\b`, in the order the alternation tries them. */
  const JobWords: seq<string> := ["careers", "career", "jobs", "job", "hiring"]

  /** `\b` at position `i`: a word character on exactly one side. */
  predicate BoundaryAt(s: string, i: nat)
    requires i <= |s|
  {
    (i > 0 && IsWordChar(s[i - 1])) != (i < |s| && IsWordChar(s[i]))
  }

  /** The job word `w` matches at `i`, ignoring ASCII case, between two word boundaries. */
  predicate WordAt(s: string, i: nat, w: string) {
    i + |w| <= |s| && Lower(s[i..i + |w|]) == w && BoundaryAt(s, i) && BoundaryAt(s, i + |w|)
  }

  /** The length of the regex match at `i` trying the words in order, 0 when there is none. */
  function MatchLength(s: string, i: nat, words: seq<string>): (n: nat)
    ensures n > 0 ==> i + n <= |s|
  {
    if words == [] then 0
    else if words[0] != "" && WordAt(s, i, words[0]) then |words[0]|
    else MatchLength(s, i, words[1..])
  }

  /** No match at `i` exactly when none of the (non-empty) words is found there. */
  lemma {:induction false} MatchLengthZero(s: string, i: nat, words: seq<string>)
    ensures MatchLength(s, i, words) == 0 <==> forall k :: 0 <= k < |words| && words[k] != "" ==> !WordAt(s, i, words[k])
  {
    if words != [] {
      MatchLengthZero(s, i, words[1..]);
      assert forall k :: 1 <= k < |words| ==> words[1..][k - 1] == words[k];
    }
  }

  /** `re.sub(r"\b(Careers?|Jobs?|Hiring)\b", "", s, flags=re.IGNORECASE)` on `s[i..]`. */
  function RemoveJobWordsFrom(s: string, i: nat): (r: string)
    requires i <= |s|
    ensures |r| <= |s| - i
    decreases |s| - i
  {
    if i == |s| then ""
    else
      var n := MatchLength(s, i, JobWords);
      if n > 0 then RemoveJobWordsFrom(s, i + n) else [s[i]] + RemoveJobWordsFrom(s, i + 1)
  }

  function RemoveJobWords(s: string): (r: string)
    ensures |r| <= |s|
  {
    RemoveJobWordsFrom(s, 0)
  }

  /** The removal only deletes characters: whatever holds of all of `s[i..]` holds of all of the result. */
  lemma {:induction false} RemoveJobWordsKeeps(s: string, i: nat, keep: char -> bool)
    requires i <= |s|
    requires forall j :: i <= j < |s| ==> keep(s[j])
    ensures All(RemoveJobWordsFrom(s, i), keep)
    decreases |s| - i
  {
    if i < |s| {
      var n := MatchLength(s, i, JobWords);
      if n > 0 {
        RemoveJobWordsKeeps(s, i + n, keep);
      } else {
        RemoveJobWordsKeeps(s, i + 1, keep);
        AllConcat([s[i]], RemoveJobWordsFrom(s, i + 1), keep);
      }
    }
  }

  /** A text with no job word in it passes through unchanged. */
  lemma {:induction false} RemoveJobWordsNone(s: string, i: nat)
    requires i <= |s|
    requires forall j, k :: i <= j < |s| && 0 <= k < |JobWords| ==> !WordAt(s, j, JobWords[k])
    ensures RemoveJobWordsFrom(s, i) == s[i..]
    decreases |s| - i
  {
    if i < |s| {
      MatchLengthZero(s, i, JobWords);
      RemoveJobWordsNone(s, i + 1);
      assert s[i..] == [s[i]] + s[i + 1..];
    }
  }

  /**
   * The company read after the last "|" of the title: stripped, the job words
   * removed, then spaces, dashes and bars stripped from both ends.
   */
  function PipeCompany(tt: string): (r: string)
    ensures '|' !in r
    ensures r != "" ==> !IsSeparator(r[0]) && !IsSeparator(r[|r| - 1])
  {
    if '|' !in tt then ""
    else
      var right := Strip(AfterLast(tt, '|'));
      var cleaned := RemoveJobWords(right);
      PipeCompanyHasNoBar(tt, right, cleaned);
      StripBy(cleaned, IsSeparator)
  }

  lemma PipeCompanyHasNoBar(tt: string, right: string, cleaned: string)
    requires right == Strip(AfterLast(tt, '|')) && cleaned == RemoveJobWords(right)
    ensures '|' !in StripBy(cleaned, IsSeparator)
  {
    var last := AfterLast(tt, '|');
    assert All(last, NotBar);
    StripByKeeps(last, IsSpace, NotBar);
    RemoveJobWordsKeeps(right, 0, NotBar);
    StripByKeeps(cleaned, IsSeparator, NotBar);
  }

  /** The company guessed from "Role at Company | Site": after the first " at ", up to the next "|", separators stripped. */
  function AtCompany(tt: string): (r: string)
    ensures '|' !in r
    ensures r != "" ==> !IsSeparator(r[0]) && !IsSeparator(r[|r| - 1])
  {
    CompanyAfter(tt, " at ")
  }

  /** The company after the first `pat`, up to the next "|", or "" when `pat` does not occur. */
  function CompanyAfter(tt: string, pat: string): (r: string)
    ensures '|' !in r
    ensures SeparatorTrimmed(r)
  {
    if Contains(tt, pat) then CompanyBeforeBar(After(tt, pat)) else []
  }

  /** Neither end of `s` is a space, a dash or a bar. */
  predicate SeparatorTrimmed(s: string) {
    s != [] ==> !IsSeparator(s[0]) && !IsSeparator(s[|s| - 1])
  }

  /** The text up to the first "|", separators stripped. */
  function CompanyBeforeBar(rest: string): (r: string)
    ensures '|' !in r
    ensures SeparatorTrimmed(r)
  {
    BeforeBarHasNoBar(rest);
    StripBy(Before(rest, "|"), IsSeparator)
  }

  lemma BeforeBarHasNoBar(rest: string)
    ensures '|' !in StripBy(Before(rest, "|"), IsSeparator)
  {
    var after := Before(rest, "|");
    BeforeExcludes(rest, "|");
    ContainsChar(after, '|');
    assert All(after, NotBar);
    StripByKeeps(after, IsSeparator, NotBar);
  }

  // ---------------------------------------------------------------------------
  // the host name

  /** `host.replace("www.", "").split(".")`: the labels of the host name. */
  function HostLabels(hostname: string): (parts: seq<string>)
    ensures |parts| >= 1
  {
    SplitOn(RemoveAll(hostname, "www."), '.')
  }

  /** The second-to-last label, or the only one. */
  function HostLabel(hostname: string): (r: string)
    ensures '.' !in r
  {
    var parts := HostLabels(hostname);
    if |parts| >= 2 then parts[|parts| - 2] else parts[0]
  }

  /** The last-resort company: the host label capitalised; "" exactly when that label is empty. */
  function HostCompany(hostname: string): (r: string)
    ensures r == "" <==> HostLabel(hostname) == ""
  {
    Capitalize(HostLabel(hostname))
  }

  /** The last-resort title. */
  function JobFrom(hostname: string): (r: string)
    ensures r != ""
  {
    "Job from " + (if hostname == "" then "Unknown" else hostname)
  }

  const WorkdayDomain: string := "myworkdayjobs.com"

  predicate IsWorkdayHost(hostname: string) { Contains(hostname, WorkdayDomain) }

  /** The first label of a Workday host: the employer's brand. */
  function WorkdayBrand(hostname: string): string {
    HostLabels(hostname)[0]
  }

  /** The brand as a name: dashes become spaces and every word is capitalised. */
  function BrandName(brand: string): string {
    JoinWith(CapitalizeAll(Words(ReplaceChar(brand, '-', ' '))), " ")
  }

  function CapitalizeAll(ws: seq<string>): (cs: seq<string>)
    ensures |cs| == |ws| && forall k :: 0 <= k < |ws| ==> cs[k] == Capitalize(ws[k])
  {
    seq(|ws|, k requires 0 <= k < |ws| => Capitalize(ws[k]))
  }

  // ---------------------------------------------------------------------------
  // the two cascades, as specifications

  /**
   * The title steps both versions share, tried while no title is `known`:
   * the first `<h1>`, the selectors, then the `<title>` heuristic.
   */
  function PageTitle(p: Page, known: string): string {
    OrElse(known,
    OrElse(p.h1Text,
    OrElse(SelectorText(p.elements, TitleSelectors),
    TitleFromPageTitle(TitleText(p)))))
  }

  /** The company steps both versions share that read the page title: after the last "|", then after " at ". */
  function TitleCompany(tt: string, known: string): string {
    OrElse(known, OrElse(PipeCompany(tt), AtCompany(tt)))
  }

  /** Not_JoAps.py: the title, "Job from ..." when the page gives none. */
  function GenericTitle(p: Page, hostname: string): (r: string)
    ensures r != ""
  {
    OrElse(PageTitle(p, ""), JobFrom(hostname))
  }

  /**
   * Not_JoAps.py: the company: og:site_name, the schema.org organisation, the
   * selectors, the page title, then the host name.
   */
  function GenericCompany(p: Page, hostname: string): (r: string)
    ensures r == "" ==> HostLabel(hostname) == ""
  {
    var known := OrElse(Strip(p.ogSiteName), OrElse(p.hiringOrgName, SelectorText(p.elements, CompanySelectors)));
    OrElse(TitleCompany(TitleText(p), known), HostCompany(hostname))
  }

  /** Not_JoAps-WD.py: the title, the JSON-LD posting's first. */
  function WorkdayTitle(p: Page, hostname: string): (r: string)
    ensures r != ""
  {
    OrElse(PageTitle(p, LdTitle(ScanJsonLd(p.ldBlocks))), JobFrom(Lower(hostname)))
  }

  /** The brand of a Workday host replaces the `known` company, unless the brand is empty. */
  function BrandOverride(host: string, known: string): string {
    if IsWorkdayHost(host) && WorkdayBrand(host) != "" then BrandName(WorkdayBrand(host)) else known
  }

  /**
   * Not_JoAps-WD.py: the company: the Workday brand or the JSON-LD posting's,
   * og:site_name, the schema.org organisation, the page title, then the host
   * name.  This version has no selector search for the company.
   */
  function WorkdayCompany(p: Page, hostname: string): (r: string)
    ensures r == "" ==> HostLabel(Lower(hostname)) == ""
  {
    var host := Lower(hostname);
    var known := OrElse(BrandOverride(host, LdCompany(ScanJsonLd(p.ldBlocks))), OrElse(Strip(p.ogSiteName), p.hiringOrgName));
    OrElse(TitleCompany(TitleText(p), known), HostCompany(host))
  }

  // ---------------------------------------------------------------------------
  // the two functions as the source runs them

  /** The title heuristic as the source runs it on a non-empty `title_text`. */
  method TitleFromTitleText(titleText: string) returns (title: string)
    ensures title == TitleFromPageTitle(titleText)
  {
    var temp := titleText;
    if Contains(temp, " - ") {
      temp := Before(temp, " - ");
    }
    if '|' in temp {
      temp := Before(temp, "|");
    }
    ContainsChar(temp, '|');
    title := Strip(temp);
  }

  /** The host-name fallback for the company as the source runs it. */
  method CompanyFromHost(hostname: string) returns (company: string)
    ensures company == HostCompany(hostname)
  {
    var host := RemoveAll(hostname, "www.");
    var parts := SplitOn(host, '.');
    var base: string;
    if |parts| >= 2 {
      base := parts[|parts| - 2];
    } else if |parts| > 0 {
      base := parts[0];
    } else {
      // `split` never returns an empty list
      assert false;
      base := "Unknown";
    }
    company := Capitalize(base);
  }

  /** The title steps both versions share, as the source runs them. */
  method TitleFromPage(page: Page, titleText: string, known: string) returns (jobTitle: string)
    requires titleText == TitleText(page)
    ensures jobTitle == PageTitle(page, known)
  {
    jobTitle := known;
    if jobTitle == "" && page.h1Text != "" {
      jobTitle := page.h1Text;
    }
    if jobTitle == "" {
      jobTitle := FindBySelectors(page.elements, TitleSelectors);
    }
    if jobTitle == "" && titleText != "" {
      jobTitle := TitleFromTitleText(titleText);
    }
  }

  /** The company steps both versions share that read the page title, as the source runs them. */
  method CompanyFromTitle(titleText: string, known: string) returns (company: string)
    ensures company == TitleCompany(titleText, known)
  {
    company := known;
    if company == "" && titleText != "" && '|' in titleText {
      var rightPart := PipeCompany(titleText);
      if rightPart != "" {
        company := rightPart;
      }
    }
    if titleText != "" && Contains(titleText, " at ") && company == "" {
      var guess := AtCompany(titleText);
      if guess != "" {
        company := guess;
      }
    }
  }

  /** `extract_job_info_from_html` of Not_JoAps.py. */
  method ExtractJobInfo(page: Page, hostname: string) returns (jobTitle: string, company: string)
    ensures jobTitle == GenericTitle(page, hostname)
    ensures company == GenericCompany(page, hostname)
  {
    var titleText := TitleText(page);
    jobTitle := TitleFromPage(page, titleText, "");

    company := "";
    if page.ogSiteName != "" {
      company := Strip(page.ogSiteName);
    }
    if company == "" && page.hiringOrgName != "" {
      company := page.hiringOrgName;
    }
    if company == "" {
      company := FindBySelectors(page.elements, CompanySelectors);
    }
    company := CompanyFromTitle(titleText, company);
    if company == "" {
      company := CompanyFromHost(hostname);
    }

    if jobTitle == "" {
      jobTitle := JobFrom(hostname);
    }
  }

  /** The Workday brand step of Not_JoAps-WD.py, as the source runs it. */
  method ApplyBrand(hostname: string, known: string) returns (company: string)
    ensures company == BrandOverride(hostname, known)
  {
    company := known;
    var isWorkday := Contains(hostname, WorkdayDomain);
    if isWorkday {
      var host := RemoveAll(hostname, "www.");
      var brand := SplitOn(host, '.')[0];
      if brand != "" {
        company := BrandName(brand);
      }
    }
  }

  /** `if candidate: jt, comp = candidate; if jt: ...; if comp: ...` */
  method FromPosting(scan: ScanOutcome) returns (jobTitle: string, company: string)
    ensures jobTitle == LdTitle(scan) && company == LdCompany(scan)
  {
    jobTitle, company := "", "";
    if scan.Found? {
      var c := scan.candidate;
      if c.title.Some? && c.title.value != "" {
        jobTitle := c.title.value;
      }
      if c.company.Some? && c.company.value != "" {
        company := c.company.value;
      }
    }
  }

  /** `extract_job_info_from_html` of Not_JoAps-WD.py. */
  method ExtractJobInfoWorkday(page: Page, urlHostname: string) returns (jobTitle: string, company: string)
    ensures jobTitle == WorkdayTitle(page, urlHostname)
    ensures company == WorkdayCompany(page, urlHostname)
  {
    var hostname := Lower(urlHostname);

    var scan := ScanScripts(page.ldBlocks);
    jobTitle, company := FromPosting(scan);
    company := ApplyBrand(hostname, company);

    var titleText := TitleText(page);
    jobTitle := TitleFromPage(page, titleText, jobTitle);

    if company == "" && page.ogSiteName != "" {
      company := Strip(page.ogSiteName);
    }
    if company == "" && page.hiringOrgName != "" {
      company := page.hiringOrgName;
    }
    company := CompanyFromTitle(titleText, company);
    if company == "" {
      company := CompanyFromHost(hostname);
    }

    if jobTitle == "" {
      jobTitle := JobFrom(hostname);
    }
  }

  // ---------------------------------------------------------------------------
  // what the heuristics make of typical pages

  /** "Role - Company": the title heuristic keeps the role. */
  lemma TitleBeforeDash(role: string, rest: string)
    requires '-' !in role && '|' !in role
    requires role != [] && !IsSpace(role[0]) && !IsSpace(role[|role| - 1])
    ensures TitleFromPageTitle(role + " - " + rest) == role
  {
    var s := role + " - " + rest;
    var i := |role|;
    assert s[i..i + 3] == " - ";
    forall j | 1 <= j < i + 1 ensures s[j] != '-' {
      if j < i {
        assert s[j] == role[j];
      }
    }
    IndexOfFirst(s, " - ", i, 1);
    assert Before(s, " - ") == role;
    ContainsChar(role, '|');
  }

  /**
   * "Role at Company | Site": the company is what lies between " at " and "|",
   * provided the role does not itself run into an " at ".
   */
  lemma RoleAtCompany(role: string, company: string, site: string)
    requires !Contains(role + " at", " at ")
    requires '|' !in company
    requires company != [] && !IsSeparator(company[0]) && !IsSeparator(company[|company| - 1])
    ensures AtCompany(role + " at " + company + " | " + site) == company
  {
    var s := role + " at " + company + " | " + site;
    var t := role + " at";
    var i := |role|;
    assert s[i..i + 4] == " at ";
    forall j | 0 <= j < i ensures !OccursAt(s, " at ", j) {
      assert !OccursAt(t, " at ", j);
      assert s[j..j + 4] == t[j..j + 4];
    }
    assert OccursAt(s, " at ", i);
    assert Contains(s, " at ");
    assert IndexOf(s, " at ") == i;
    var rest := After(s, " at ");
    assert rest == company + " | " + site;
    var c := |company|;
    assert rest[c + 1..c + 2] == "|";
    forall j | 0 <= j < c + 1 ensures rest[j] != '|' {
      if j < c {
        assert rest[j] == company[j];
      }
    }
    IndexOfFirst(rest, "|", c + 1, 0);
    assert Before(rest, "|") == company + " ";
    StripTrailingSpace(company);
  }

  lemma StripTrailingSpace(company: string)
    requires company != [] && !IsSeparator(company[0]) && !IsSeparator(company[|company| - 1])
    ensures StripBy(company + " ", IsSeparator) == company
  {
    var s := company + " ";
    assert LStrip(s, IsSeparator) == s;
    assert s[..|s| - 1] == company;
    assert RStrip(s, IsSeparator) == RStrip(company, IsSeparator);
    assert RStrip(company, IsSeparator) == company;
  }

  // ---------------------------------------------------------------------------
  // host names and Workday brands

  /** A leading "www." is not part of any label. */
  lemma WwwPrefixIgnored(host: string)
    ensures HostLabels("www." + host) == HostLabels(host)
  {
    var s := "www." + host;
    assert s[..4] == "www.";
    assert s[4..] == host;
  }

  /** A host made of dot-free labels, with no "www." in it, falls back to its second-to-last label, capitalised. */
  lemma HostCompanyOfLabels(labels: seq<string>)
    requires |labels| >= 2
    requires forall k :: 0 <= k < |labels| ==> '.' !in labels[k]
    requires !Contains(JoinWith(labels, "."), "www.")
    ensures HostCompany(JoinWith(labels, ".")) == Capitalize(labels[|labels| - 2])
  {
    LabelsOfJoin(labels, "www.");
    HostCompanyOfSplit(JoinWith(labels, "."), labels);
  }

  // Helper for HostCompanyOfLabels: the company of a host whose labels are known.
  lemma HostCompanyOfSplit(host: string, labels: seq<string>)
    requires |labels| >= 2 && SplitOn(RemoveAll(host, "www."), '.') == labels
    ensures HostCompany(host) == Capitalize(labels[|labels| - 2])
  {
    assert HostLabels(host) == labels;
  }

  /** Splitting a join of dot-free labels at the dots, after removing a pattern it lacks, gives the labels back. */
  lemma LabelsOfJoin(labels: seq<string>, pat: string)
    requires |labels| >= 1 && pat != []
    requires forall k :: 0 <= k < |labels| ==> '.' !in labels[k]
    requires !Contains(JoinWith(labels, "."), pat)
    ensures SplitOn(RemoveAll(JoinWith(labels, "."), pat), '.') == labels
  {
    RemoveAllAbsent(JoinWith(labels, "."), pat);
    JoinWithSplitOn(labels, '.');
  }

  /** The brand of a Workday host is its first label. */
  lemma WorkdayBrandOfLabels(brand: string, rest: string)
    requires '.' !in brand
    requires !Contains(brand + "." + rest, "www.")
    ensures WorkdayBrand(brand + "." + rest) == brand
  {
    var host := brand + "." + rest;
    RemoveAllAbsent(host, "www.");
    IndexOfCharAfter(brand, '.', rest);
    SplitOnFirst(host, '.', |brand|);
    assert host[..|brand|] == brand;
  }

  /** A brand of dash-separated words reads as those words capitalised and separated by spaces. */
  lemma BrandNameOfDashedWords(ws: seq<string>)
    requires forall k :: 0 <= k < |ws| ==> IsWord(ws[k]) && '-' !in ws[k]
    ensures BrandName(JoinWith(ws, "-")) == JoinWith(CapitalizeAll(ws), " ")
  {
    ReplaceJoinSeparator(ws, '-', ' ');
    WordsOfJoin(ws);
  }

  /** Capitalised words joined by spaces are not empty when there is a word. */
  lemma JoinedWordsNonEmpty(ws: seq<string>)
    requires |ws| >= 1 && forall k :: 0 <= k < |ws| ==> IsWord(ws[k])
    ensures JoinWith(CapitalizeAll(ws), " ") != ""
  {
    var cs := CapitalizeAll(ws);
    assert |cs[0]| == |ws[0]| > 0;
    if |cs| > 1 {
      assert JoinWith(cs, " ") == cs[0] + " " + JoinWith(cs[1..], " ");
    }
  }

  // ---------------------------------------------------------------------------
  // which source wins

  /**
   * Not_JoAps-WD.py: on a Workday host whose first label is a dash-separated
   * brand, the company is the brand's words capitalised, whatever the JSON-LD
   * posting, og:site_name or the page title say.
   */
  lemma WorkdayBrandWins(p: Page, hostname: string, words: seq<string>, rest: string)
    requires |words| >= 1
    requires forall k :: 0 <= k < |words| ==> IsWord(words[k]) && '-' !in words[k] && '.' !in words[k]
    requires Lower(hostname) == JoinWith(words, "-") + "." + rest
    requires Contains(rest, WorkdayDomain)
    requires !Contains(Lower(hostname), "www.")
    ensures WorkdayCompany(p, hostname) == JoinWith(CapitalizeAll(words), " ")
  {
    var host := Lower(hostname);
    var brand := JoinWith(words, "-");
    var name := JoinWith(CapitalizeAll(words), " ");
    assert IsWorkdayHost(host) by {
      ContainsInSuffix(brand + ".", rest, WorkdayDomain);
    }
    assert WorkdayBrand(host) == brand by {
      JoinDashedHasNoDot(words);
      WorkdayBrandOfLabels(brand, rest);
    }
    assert brand != "" by {
      if |words| > 1 {
        assert brand == words[0] + "-" + JoinWith(words[1..], "-");
      }
    }
    assert BrandName(brand) == name && name != "" by {
      BrandNameOfDashedWords(words);
      JoinedWordsNonEmpty(words);
    }
    WorkdayBrandOverrides(p, hostname);
  }

  /** On a Workday host with a brand whose name is not empty, that name is the company. */
  lemma WorkdayBrandOverrides(p: Page, hostname: string)
    requires IsWorkdayHost(Lower(hostname)) && WorkdayBrand(Lower(hostname)) != ""
    requires BrandName(WorkdayBrand(Lower(hostname))) != ""
    ensures WorkdayCompany(p, hostname) == BrandName(WorkdayBrand(Lower(hostname)))
  {
  }

  // Helper for WorkdayBrandWins: the Workday domain found in the rest is found in the whole host.
  lemma ContainsInSuffix(prefix: string, rest: string, pat: string)
    requires Contains(rest, pat)
    ensures Contains(prefix + rest, pat)
  {
    var s := prefix + rest;
    assert s[|prefix|..|s|] == rest;
    ContainsSlice(s, |prefix|, |s|, pat);
  }

  // Helper for WorkdayBrandWins: dot-free words joined by dashes hold no dot.
  lemma {:induction false} JoinDashedHasNoDot(words: seq<string>)
    requires forall k :: 0 <= k < |words| ==> '.' !in words[k]
    ensures '.' !in JoinWith(words, "-")
  {
    if |words| > 1 {
      JoinDashedHasNoDot(words[1..]);
      assert JoinWith(words, "-") == words[0] + "-" + JoinWith(words[1..], "-");
    }
  }

  /**
   * Not_JoAps-WD.py: when the first ld+json block that is not skipped holds a
   * JobPosting with a non-empty title, that title is the job title, ahead of
   * the `<h1>`, the selectors and the page title.
   */
  lemma JsonLdTitleWins(p: Page, hostname: string, i: nat, title: string, company: Option<string>)
    requires i < |p.ldBlocks| && p.ldBlocks[i].Parsed?
    requires forall j :: 0 <= j < i ==> Skipped(p.ldBlocks[j])
    requires BlockOutcome(p.ldBlocks[i].data) == Posting(Candidate(Some(title), company))
    requires title != ""
    ensures WorkdayTitle(p, hostname) == title
  {
    ScanStopsAtFirst(p.ldBlocks, i);
  }

  /**
   * Not_JoAps.py: on a page with no og:site_name, no schema.org organisation,
   * no company selector match and a title with neither "|" nor " at ", the
   * company comes from the host name.
   */
  lemma GenericCompanyFromHost(p: Page, hostname: string)
    requires IsBlank(p.ogSiteName) && p.hiringOrgName == ""
    requires SelectorText(p.elements, CompanySelectors) == ""
    requires '|' !in TitleText(p) && !Contains(TitleText(p), " at ")
    ensures GenericCompany(p, hostname) == HostCompany(hostname)
  {
  }

  // ---------------------------------------------------------------------------
  // "Role at Company | Careers"

  /** "Careers" is a job word: the whole of it is removed. */
  lemma CareersIsJobWord()
    ensures MatchLength("Careers", 0, JobWords) == 7
  {
    var s := "Careers";
    assert s[0] == 'C' && s[1] == 'a' && s[2] == 'r' && s[3] == 'e' && s[4] == 'e' && s[5] == 'r' && s[6] == 's';
    assert Lower(s) == "careers";
    assert WordAt(s, 0, JobWords[0]);
  }

  /** A title ending in "| " and a job word leaves nothing for the "|" rule. */
  lemma PipeCompanyOfJobWord(prefix: string, site: string)
    requires '|' !in site
    requires site != [] && !IsSpace(site[0]) && !IsSpace(site[|site| - 1])
    requires MatchLength(site, 0, JobWords) == |site|
    ensures PipeCompany(prefix + "| " + site) == ""
  {
    BarSpaceRegroup(prefix, site);
    NotInAfterSpace('|', site);
    AfterLastBar(prefix, " " + site);
    assert Strip(" " + site) == site by {
      StripLeadingSpace(site);
    }
    assert RemoveJobWords(site) == "" by {
      assert RemoveJobWordsFrom(site, |site|) == "";
    }
  }

  /**
   * The "|" rule keeps what follows the last "|": a site name with no job word
   * and no whitespace or separator at its ends is the company.
   */
  lemma PipeCompanyKeepsSite(prefix: string, site: string)
    requires '|' !in site
    requires site != [] && !IsSpace(site[0]) && !IsSpace(site[|site| - 1])
    requires !IsSeparator(site[0]) && !IsSeparator(site[|site| - 1])
    requires forall j, k :: 0 <= j < |site| && 0 <= k < |JobWords| ==> !WordAt(site, j, JobWords[k])
    ensures PipeCompany(prefix + "| " + site) == site
  {
    BarSpaceRegroup(prefix, site);
    NotInAfterSpace('|', site);
    AfterLastBar(prefix, " " + site);
    StripLeadingSpace(site);
    RemoveJobWordsNone(site, 0);
    assert site[0..] == site;
  }

  /**
   * A title ending in "| Acme Careers", as "Engineer | Acme Careers": the job
   * word is removed from the text after the "|", and the company is "Acme".
   */
  lemma PipeCompanyDropsJobWord(prefix: string)
    ensures PipeCompany(prefix + "| " + "Acme Careers") == "Acme"
  {
    var site := "Acme Careers";
    AcmeCareersSite(site);
    PipeCompanyOfSite(prefix, site);
  }

  // Helper for PipeCompanyDropsJobWord: "Acme Careers" meets the conditions of
  // PipeCompanyOfSite, and its cleaned text is "Acme".
  lemma AcmeCareersSite(site: string)
    requires site == "Acme Careers"
    ensures '|' !in site
    ensures site != [] && !IsSpace(site[0]) && !IsSpace(site[|site| - 1])
    ensures StripBy(RemoveJobWords(site), IsSeparator) == "Acme"
  {
    AcmeCareersChars(site);
    AcmeCareersRemoved(site);
    var company := "Acme";
    assert company + " " == "Acme ";
    StripTrailingSpace(company);
  }

  // Helper for PipeCompanyDropsJobWord: the company is read from the site text after "| ".
  lemma PipeCompanyOfSite(prefix: string, site: string)
    requires '|' !in site
    requires site != [] && !IsSpace(site[0]) && !IsSpace(site[|site| - 1])
    ensures PipeCompany(prefix + "| " + site) == StripBy(RemoveJobWords(site), IsSeparator)
  {
    BarSpaceRegroup(prefix, site);
    NotInAfterSpace('|', site);
    AfterLastBar(prefix, " " + site);
    StripLeadingSpace(site);
  }

  // Helper for PipeCompanyDropsJobWord: the characters of "Acme Careers".
  lemma AcmeCareersChars(s: string)
    requires s == "Acme Careers"
    ensures |s| == 12 && '|' !in s
    ensures s[0] == 'A' && s[1] == 'c' && s[2] == 'm' && s[3] == 'e' && s[4] == ' '
    ensures s[5] == 'C' && s[6] == 'a' && s[7] == 'r' && s[8] == 'e' && s[9] == 'e' && s[10] == 'r' && s[11] == 's'
  {
  }

  // Helper for PipeCompanyDropsJobWord: removing the job words of "Acme Careers" leaves "Acme ".
  lemma AcmeCareersRemoved(s: string)
    requires s == "Acme Careers"
    ensures RemoveJobWords(s) == "Acme "
  {
    AcmeCareersChars(s);
    CareersAtEnd(s);
    assert RemoveJobWordsFrom(s, 5) == "";
    NoJobWordByFirst(s, 4);
    assert RemoveJobWordsFrom(s, 4) == " ";
    NoJobWordByFirst(s, 3);
    assert RemoveJobWordsFrom(s, 3) == "e ";
    NoJobWordByFirst(s, 2);
    assert RemoveJobWordsFrom(s, 2) == "me ";
    NoJobWordInsideWord(s, 1);
    assert RemoveJobWordsFrom(s, 1) == "cme ";
    NoJobWordByFirst(s, 0);
    assert RemoveJobWordsFrom(s, 0) == "Acme ";
  }

  // Helper for AcmeCareersRemoved: "Careers" at index 5 is removed whole.
  lemma CareersAtEnd(s: string)
    requires s == "Acme Careers"
    ensures MatchLength(s, 5, JobWords) == 7
  {
    AcmeCareersChars(s);
    var w := s[5..12];
    assert w[0] == 'C' && w[1] == 'a' && w[2] == 'r' && w[3] == 'e' && w[4] == 'e' && w[5] == 'r' && w[6] == 's';
    assert Lower(w) == "careers";
    assert WordAt(s, 5, JobWords[0]);
  }

  // Helper for AcmeCareersRemoved: every job word starts with "c", "j" or "h".
  lemma JobWordsFirstLetters()
    ensures forall k :: 0 <= k < |JobWords| ==> JobWords[k] != [] && JobWords[k][0] in "cjh"
  {
  }

  // Helper for AcmeCareersRemoved: no job word matches where the lower-cased
  // character is not the first letter of one.
  lemma NoJobWordByFirst(s: string, i: nat)
    requires i < |s| && LowerChar(s[i]) !in "cjh"
    ensures MatchLength(s, i, JobWords) == 0
  {
    JobWordsFirstLetters();
    forall k | 0 <= k < |JobWords| && JobWords[k] != ""
      ensures !WordAt(s, i, JobWords[k])
    {
    }
    MatchLengthZero(s, i, JobWords);
  }

  // Helper for AcmeCareersRemoved: no job word starts between two word characters.
  lemma NoJobWordInsideWord(s: string, i: nat)
    requires 0 < i < |s| && IsWordChar(s[i - 1]) && IsWordChar(s[i])
    ensures MatchLength(s, i, JobWords) == 0
  {
    assert !BoundaryAt(s, i);
    MatchLengthZero(s, i, JobWords);
  }

  // Helper for PipeCompanyOfJobWord: regroups "prefix| site" around its "|".
  lemma BarSpaceRegroup(prefix: string, site: string)
    ensures prefix + "| " + site == prefix + "|" + (" " + site)
  {
    var bar, sp := "|", " ";
    assert "| " == bar + sp;
  }

  // Helper for PipeCompanyOfJobWord: a character other than a space and absent from the site is absent from " site".
  lemma NotInAfterSpace(c: char, site: string)
    requires c != ' ' && c !in site
    ensures c !in " " + site
  {
    var sp := " ";
    assert sp[0] != c;
    assert " " + site == sp + site;
  }

  // Helper for PipeThenAtParts: regroups "head | site" as "head " followed by "| site".
  lemma SpacedBarRegroup(head: string, site: string)
    ensures head + " | " + site == (head + " ") + "| " + site
  {
    var sp, bar := " ", "| ";
    assert " | " == sp + bar;
  }

  /** Everything after a "|" that `rest` does not repeat is `rest`. */
  lemma AfterLastBar(prefix: string, rest: string)
    requires '|' !in rest
    ensures AfterLast(prefix + "|" + rest, '|') == rest
  {
    var tt := prefix + "|" + rest;
    var r := LastIndexOfChar(tt, '|');
    assert tt[|prefix|] == '|';
    assert forall j :: |prefix| < j < |tt| ==> tt[j] == rest[j - |prefix| - 1];
    assert r == |prefix|;
    assert tt[r + 1..] == rest;
  }

  // Helper for PipeCompanyOfJobWord: stripping " site" gives the site.
  lemma StripLeadingSpace(site: string)
    requires site != [] && !IsSpace(site[0]) && !IsSpace(site[|site| - 1])
    ensures Strip(" " + site) == site
  {
    var s := " " + site;
    assert s[1..] == site;
    assert LStrip(s, IsSpace) == site;
  }

  /** The title of "Role at Company | Site" without " - " is "Role at Company". */
  lemma TitleBeforeBar(head: string, site: string)
    requires '|' !in head && !Contains(head + " | " + site, " - ")
    requires head != [] && !IsSpace(head[0]) && !IsSpace(head[|head| - 1])
    ensures TitleFromPageTitle(head + " | " + site) == head
  {
    var tt := head + " | " + site;
    assert Before(tt, " - ") == tt;
    BeforeSpacedBar(head, site);
    StripOneTrailingSpace(head);
  }

  /** What precedes the first "|" of "Head | Site" is "Head ". */
  lemma BeforeSpacedBar(head: string, site: string)
    requires '|' !in head
    ensures Before(head + " | " + site, "|") == head + " "
  {
    var tt := head + " | " + site;
    var h := |head|;
    assert tt[h + 1..h + 2] == "|";
    forall j | 0 <= j < h + 1 ensures tt[j] != '|' {
      if j < h {
        assert tt[j] == head[j];
      }
    }
    IndexOfFirst(tt, "|", h + 1, 0);
  }

  /** Stripping "Head " gives "Head" when Head has no whitespace at either end. */
  lemma StripOneTrailingSpace(head: string)
    requires head != [] && !IsSpace(head[0]) && !IsSpace(head[|head| - 1])
    ensures Strip(head + " ") == head
  {
    var x := head + " ";
    assert LStrip(x, IsSpace) == x;
    assert x[..|x| - 1] == head;
    assert RStrip(x, IsSpace) == RStrip(head, IsSpace);
  }

  /**
   * Not_JoAps.py, a page whose only signal is a title "Role at Company | Site"
   * with a job word for Site (as in "Senior Engineer at Acme | Careers"): the
   * "|" rule is left with nothing once the job word is removed, so the company
   * comes from the " at " rule, and the title is what precedes the "|".
   */
  lemma PipeThenAt(p: Page, hostname: string, role: string, company: string, site: string)
    requires p.h1Text == "" && SelectorText(p.elements, TitleSelectors) == ""
    requires IsBlank(p.ogSiteName) && p.hiringOrgName == "" && SelectorText(p.elements, CompanySelectors) == ""
    requires TitleText(p) == role + " at " + company + " | " + site
    requires !Contains(role + " at", " at ") && '|' !in role && !Contains(TitleText(p), " - ")
    requires role != [] && !IsSpace(role[0])
    requires '|' !in company && company != [] && !IsSeparator(company[0]) && !IsSeparator(company[|company| - 1])
    requires !IsSpace(company[|company| - 1])
    requires '|' !in site && site != [] && !IsSpace(site[0]) && !IsSpace(site[|site| - 1])
    requires MatchLength(site, 0, JobWords) == |site|
    ensures GenericCompany(p, hostname) == company
    ensures GenericTitle(p, hostname) == role + " at " + company
  {
    PipeThenAtParts(TitleText(p), role, company, site);
    CompanyFromTitleOnly(p, hostname);
    TitleFromTitleOnly(p, hostname);
  }

  /** With nothing else on the page, the generic company is the one the title rules give. */
  lemma CompanyFromTitleOnly(p: Page, hostname: string)
    requires IsBlank(p.ogSiteName) && p.hiringOrgName == "" && SelectorText(p.elements, CompanySelectors) == ""
    requires TitleCompany(TitleText(p), "") != ""
    ensures GenericCompany(p, hostname) == TitleCompany(TitleText(p), "")
  {
    assert Strip(p.ogSiteName) == "";
  }

  /** With no `<h1>` and no selector match, the generic title is the one the title heuristic gives. */
  lemma TitleFromTitleOnly(p: Page, hostname: string)
    requires p.h1Text == "" && SelectorText(p.elements, TitleSelectors) == ""
    requires TitleFromPageTitle(TitleText(p)) != ""
    ensures GenericTitle(p, hostname) == TitleFromPageTitle(TitleText(p))
  {
  }

  /** The three rules on the title "Role at Company | Site" taken one at a time. */
  lemma PipeThenAtParts(tt: string, role: string, company: string, site: string)
    requires tt == role + " at " + company + " | " + site
    requires !Contains(role + " at", " at ") && '|' !in role && !Contains(tt, " - ")
    requires role != [] && !IsSpace(role[0])
    requires '|' !in company && company != [] && !IsSeparator(company[0]) && !IsSeparator(company[|company| - 1])
    requires !IsSpace(company[|company| - 1])
    requires '|' !in site && site != [] && !IsSpace(site[0]) && !IsSpace(site[|site| - 1])
    requires MatchLength(site, 0, JobWords) == |site|
    ensures PipeCompany(tt) == "" && AtCompany(tt) == company
    ensures TitleFromPageTitle(tt) == role + " at " + company
  {
    var head := role + " at " + company;
    assert PipeCompany(tt) == "" by {
      SpacedBarRegroup(head, site);
      PipeCompanyOfJobWord(head + " ", site);
    }
    assert AtCompany(tt) == company by {
      RoleAtCompany(role, company, site);
    }
    assert TitleFromPageTitle(tt) == head by {
      HeadHasNoBar(role, company);
      TitleBeforeBar(head, site);
    }
  }

  // Helper for HeadHasNoBar: a character absent from two strings is absent from their concatenation.
  lemma NotInConcat(c: char, a: string, b: string)
    requires c !in a && c !in b
    ensures c !in a + b
  {
  }

  // Helper for PipeThenAtParts: "role at company" has no "|" and ends as the company does.
  lemma HeadHasNoBar(role: string, company: string)
    requires '|' !in role && '|' !in company && role != [] && !IsSpace(role[0]) && company != [] && !IsSpace(company[|company| - 1])
    ensures var head := role + " at " + company;
      '|' !in head && head != [] && !IsSpace(head[0]) && !IsSpace(head[|head| - 1])
  {
    var head := role + " at " + company;
    var at := " at ";
    assert at[0] == ' ' && at[1] == 'a' && at[2] == 't' && at[3] == ' ';
    NotInConcat('|', role, at);
    NotInConcat('|', role + at, company);
    assert head[0] == role[0] && head[|head| - 1] == company[|company| - 1];
  }

  // ---------------------------------------------------------------------------
  // worked examples

  /** The Workday brand "acme-corp" reads "Acme Corp". */
  lemma AcmeCorpBrand()
    ensures BrandName("acme-corp") == "Acme Corp"
  {
    var ws := ["acme", "corp"];
    AcmeCorpWords();
    BrandNameOfDashedWords(ws);
    AcmeCorpCapitalized();
  }

  lemma AcmeCorpWords()
    ensures JoinWith(["acme", "corp"], "-") == "acme-corp"
    ensures IsWord("acme") && '-' !in "acme" && IsWord("corp") && '-' !in "corp"
  {
    var a, c := "acme", "corp";
    assert a[0] == 'a' && a[1] == 'c' && a[2] == 'm' && a[3] == 'e';
    assert c[0] == 'c' && c[1] == 'o' && c[2] == 'r' && c[3] == 'p';
    assert JoinWith([a, c], "-") == a + "-" + c;
  }

  lemma AcmeCorpCapitalized()
    ensures JoinWith(CapitalizeAll(["acme", "corp"]), " ") == "Acme Corp"
  {
    var a, c := "acme", "corp";
    assert Capitalize(a) == "Acme" by {
      assert a[0] == 'a' && a[1] == 'c' && a[2] == 'm' && a[3] == 'e';
    }
    assert Capitalize(c) == "Corp" by {
      assert c[0] == 'c' && c[1] == 'o' && c[2] == 'r' && c[3] == 'p';
    }
    assert CapitalizeAll([a, c]) == ["Acme", "Corp"];
    assert JoinWith(["Acme", "Corp"], " ") == "Acme" + " " + "Corp";
  }

  /** The host "jobs.example.com" gives the company "Example". */
  lemma JobsExampleCom(host: string)
    requires host == "jobs.example.com"
    ensures HostCompany(host) == "Example"
  {
    var labels := ["jobs", "example", "com"];
    JobsExampleComJoined(host);
    JobsExampleComNoWww(host);
    HostCompanyOfLabels(labels);
    assert Capitalize("example") == "Example" by {
      var e := "example";
      assert e[0] == 'e' && e[1] == 'x' && e[2] == 'a' && e[3] == 'm' && e[4] == 'p' && e[5] == 'l' && e[6] == 'e';
    }
  }

  lemma JobsExampleComJoined(host: string)
    requires host == "jobs.example.com"
    ensures JoinWith(["jobs", "example", "com"], ".") == host
    ensures '.' !in "jobs" && '.' !in "example" && '.' !in "com"
  {
    var j, e, c := "jobs", "example", "com";
    assert j[0] == 'j' && j[1] == 'o' && j[2] == 'b' && j[3] == 's';
    assert e[0] == 'e' && e[1] == 'x' && e[2] == 'a' && e[3] == 'm' && e[4] == 'p' && e[5] == 'l' && e[6] == 'e';
    assert c[0] == 'c' && c[1] == 'o' && c[2] == 'm';
    JoinWithCons(e, [c], ".");
    JoinWithCons(j, [e, c], ".");
    assert [j, e, c][1..] == [e, c];
  }

  lemma JobsExampleComNoWww(host: string)
    requires host == "jobs.example.com"
    ensures !Contains(host, "www.")
  {
    assert 'w' !in host;
    ContainsNeedsChar(host, "www.", 0);
  }

  /**
   * The title "Senior Engineer at Acme | Careers" on a page with no other
   * signal: the company is "Acme" and the title "Senior Engineer at Acme".
   */
  lemma {:induction false} SeniorEngineerAtAcme(p: Page, hostname: string, role: string, company: string, site: string)
    requires role == "Senior Engineer" && company == "Acme" && site == "Careers"
    requires p.h1Text == "" && SelectorText(p.elements, TitleSelectors) == ""
    requires IsBlank(p.ogSiteName) && p.hiringOrgName == "" && SelectorText(p.elements, CompanySelectors) == ""
    requires TitleText(p) == role + " at " + company + " | " + site
    ensures GenericCompany(p, hostname) == "Acme"
    ensures GenericTitle(p, hostname) == role + " at " + company
  {
    SeniorEngineerFacts(role);
    AcmeFacts(company);
    CareersFacts(site);
    NoDashInTitle(role, company, site);
    PipeThenAt(p, hostname, role, company, site);
  }

  // Helper for SeniorEngineerAtAcme: the facts about "Senior Engineer" that PipeThenAt needs.
  lemma {:induction false} SeniorEngineerFacts(role: string)
    requires role == "Senior Engineer"
    ensures !Contains(role + " at", " at ") && '|' !in role && '-' !in role
    ensures role != [] && !IsSpace(role[0])
  {
    assert |role| == 15;
    assert role[0] == 'S' && role[1] == 'e' && role[2] == 'n' && role[3] == 'i' && role[4] == 'o';
    assert role[5] == 'r' && role[6] == ' ' && role[7] == 'E' && role[8] == 'n' && role[9] == 'g';
    assert role[10] == 'i' && role[11] == 'n' && role[12] == 'e' && role[13] == 'e' && role[14] == 'r';
    var s := role + " at";
    var pat := " at ";
    assert |s| == 18 && forall j :: 0 <= j < 15 ==> s[j] == role[j];
    assert pat[0] == ' ' && pat[1] == 'a';
    forall i | 0 <= i <= |s| ensures !OccursAt(s, pat, i) {
      if i + 4 <= |s| {
        assert s[i..i + 4][0] == s[i] && s[i..i + 4][1] == s[i + 1];
      }
    }
  }

  // Helper for SeniorEngineerAtAcme: the facts about "Acme" that PipeThenAt needs.
  lemma {:induction false} AcmeFacts(company: string)
    requires company == "Acme"
    ensures '|' !in company && '-' !in company && company != []
    ensures !IsSeparator(company[0]) && !IsSeparator(company[|company| - 1]) && !IsSpace(company[|company| - 1])
  {
    assert |company| == 4 && company[0] == 'A' && company[1] == 'c' && company[2] == 'm' && company[3] == 'e';
  }

  // Helper for SeniorEngineerAtAcme: the facts about "Careers" that PipeThenAt needs.
  lemma {:induction false} CareersFacts(site: string)
    requires site == "Careers"
    ensures '|' !in site && '-' !in site && site != [] && !IsSpace(site[0]) && !IsSpace(site[|site| - 1])
    ensures MatchLength(site, 0, JobWords) == |site|
  {
    CareersChars(site);
    CareersMatch(site);
  }

  // Helper for CareersFacts: "Careers" has no bar, no dash and no whitespace at its ends.
  lemma {:induction false} CareersChars(site: string)
    requires site == "Careers"
    ensures '|' !in site && '-' !in site && site != [] && !IsSpace(site[0]) && !IsSpace(site[|site| - 1])
  {
    assert |site| == 7 && site[0] == 'C' && site[1] == 'a' && site[2] == 'r' && site[3] == 'e' && site[4] == 'e' && site[5] == 'r' && site[6] == 's';
  }

  // Helper for CareersFacts: the job-word pattern matches all of "Careers".
  lemma {:induction false} CareersMatch(site: string)
    requires site == "Careers"
    ensures MatchLength(site, 0, JobWords) == |site|
  {
    CareersIsJobWord();
  }

  /** "role at company | site" holds no " - " when none of its parts holds a dash. */
  lemma {:induction false} NoDashInTitle(role: string, company: string, site: string)
    requires '-' !in role && '-' !in company && '-' !in site
    ensures !Contains(role + " at " + company + " | " + site, " - ")
  {
    var at, bar, dash := " at ", " | ", " - ";
    assert at[0] == ' ' && at[1] == 'a' && at[2] == 't' && at[3] == ' ';
    assert bar[0] == ' ' && bar[1] == '|' && bar[2] == ' ';
    assert dash[1] == '-';
    NotInConcat('-', role, at);
    NotInConcat('-', role + at, company);
    NotInConcat('-', role + at + company, bar);
    NotInConcat('-', role + at + company + bar, site);
    ContainsNeedsChar(role + at + company + bar + site, dash, 1);
  }
}
