/**
 * File names derived from page metadata and from the page URL.
 * `sanitize_for_filename` and the PDF name are identical in Not_JoAps.py and
 * Not_JoAps-WD.py; the URL slug names the screenshot in both.
 */
module Filenames {
  import opened Text

  /** The characters `\ / : * ? " < > |` that the sanitiser deletes. */
  predicate IsForbidden(c: char) {
    c == '\\' || c == '/' || c == ':' || c == '*' || c == '?' || c == '"'
    || c == '<' || c == '>' || c == '|'
  }

  /** A character that may appear in a sanitised name. */
  predicate IsSafe(c: char) { !IsSpace(c) && !IsForbidden(c) }

  /** A character of the whitespace-collapsed text: a single space or no whitespace at all. */
  predicate SpaceOrVisible(c: char) { c == ' ' || !IsSpace(c) }

  const MaxNameLength: nat := 80
  const MaxSlugLength: nat := 50

  /**
   * `sanitize_for_filename`: collapse every whitespace run to one space, strip,
   * delete the forbidden characters, turn spaces into underscores, keep at most
   * 80 characters, and use "Unknown" for an empty input or an empty result.
   */
  function SanitizeForFilename(text: string): (r: string)
    ensures r != []
    ensures |r| <= MaxNameLength
    ensures All(r, IsSafe)
  {
    if text == [] then Unknown()
    else
      var cut := Take(Underscored(text), MaxNameLength);
      AllTake(Underscored(text), MaxNameLength, IsSafe);
      if cut == [] then Unknown() else cut
  }

  /** The name used for an empty text, or for a text that sanitises to nothing. */
  function Unknown(): (r: string)
    ensures r != [] && |r| <= MaxNameLength && All(r, IsSafe)
  {
    UnknownIsSafe();
    "Unknown"
  }

  /** The sanitiser's rewrites before the cut to 80 characters. */
  function Underscored(text: string): (r: string)
    ensures All(r, IsSafe)
  {
    var collapsed := CollapseRuns(text, IsSpace, ' ');
    var stripped := Strip(collapsed);
    var kept := Drop(stripped, IsForbidden);
    UnderscoredIsSafe(collapsed, stripped, kept);
    ReplaceChar(kept, ' ', '_')
  }

  lemma UnderscoredIsSafe(collapsed: string, stripped: string, kept: string)
    requires forall i :: 0 <= i < |collapsed| ==> collapsed[i] == ' ' || !IsSpace(collapsed[i])
    requires stripped == Strip(collapsed) && kept == Drop(stripped, IsForbidden)
    ensures All(ReplaceChar(kept, ' ', '_'), IsSafe)
  {
    assert All(collapsed, SpaceOrVisible);
    StripByKeeps(collapsed, IsSpace, SpaceOrVisible);
    DropKeeps(stripped, IsForbidden, SpaceOrVisible);
    var r := ReplaceChar(kept, ' ', '_');
    forall i | 0 <= i < |r| ensures IsSafe(r[i]) {
      assert SpaceOrVisible(kept[i]) && !IsForbidden(kept[i]);
    }
  }

  lemma {:induction false} UnknownIsSafe()
    ensures All("Unknown", IsSafe)
  {
    var u := "Unknown";
    assert u[0] == 'U' && u[1] == 'n' && u[2] == 'k' && u[3] == 'n' && u[4] == 'o' && u[5] == 'w' && u[6] == 'n';
  }

  /** Sanitising a sanitised name changes nothing. */
  lemma {:induction false} SanitizeIdempotent(text: string)
    ensures SanitizeForFilename(SanitizeForFilename(text)) == SanitizeForFilename(text)
  {
    var r := SanitizeForFilename(text);
    UnderscoredOfSafe(r);
    assert Take(r, MaxNameLength) == r;
  }

  // Helper for SanitizeIdempotent: a text of safe characters has nothing to rewrite.
  lemma {:induction false} UnderscoredOfSafe(r: string)
    requires All(r, IsSafe)
    ensures Underscored(r) == r
  {
    CollapseRunsNone(r, IsSpace, ' ');
    assert Strip(r) == r;
    DropNone(r, IsForbidden);
    assert ReplaceChar(r, ' ', '_') == r;
  }

  /** A character the sanitiser may delete or rewrite: whitespace, a forbidden character, or "_". */
  predicate Hidden(c: char) { IsSpace(c) || IsForbidden(c) || c == '_' }

  /**
   * The sanitiser only touches whitespace and forbidden characters: every other
   * character of the text survives, in order, up to the cut at 80 characters.
   */
  lemma {:induction false} SanitizeKeepsVisible(text: string)
    requires Underscored(text) != []
    ensures Drop(SanitizeForFilename(text), Hidden) <= Drop(text, Hidden)
    ensures |Underscored(text)| <= MaxNameLength ==> Drop(SanitizeForFilename(text), Hidden) == Drop(text, Hidden)
  {
    var r := SanitizeIsCut(text);
    UnderscoredKeepsVisible(text);
    DropPrefix(Underscored(text), |r|, Hidden);
  }

  // Helper for SanitizeKeepsVisible: with a non-empty cleaned text the name is its first 80 characters.
  lemma {:induction false} SanitizeIsCut(text: string) returns (r: string)
    requires Underscored(text) != []
    ensures r == SanitizeForFilename(text) && r == Take(Underscored(text), MaxNameLength)
  {
    assert text != [] by {
      UnderscoredOfEmpty();
    }
    r := Take(Underscored(text), MaxNameLength);
    assert r != [] by {
      assert |Underscored(text)| > 0;
    }
  }

  // Helper for SanitizeIsCut: the empty text cleans to the empty text.
  lemma {:induction false} UnderscoredOfEmpty()
    ensures Underscored([]) == []
  {
    var e: string := [];
    assert CollapseRuns(e, IsSpace, ' ') == e;
    assert Strip(e) == e;
    assert Drop(e, IsForbidden) == e;
  }

  /** Collapsing, stripping, deleting and rewriting keep every visible character, in order. */
  lemma {:induction false} UnderscoredKeepsVisible(text: string)
    ensures Drop(Underscored(text), Hidden) == Drop(text, Hidden)
  {
    var collapsed := CollapseRuns(text, IsSpace, ' ');
    var stripped := Strip(collapsed);
    var kept := Drop(stripped, IsForbidden);
    DropReplaceChar(kept, ' ', '_', Hidden);
    DropWider(stripped, IsForbidden, Hidden);
    DropStripBy(collapsed, IsSpace);
    DropWider(stripped, IsSpace, Hidden);
    DropWider(collapsed, IsSpace, Hidden);
    CollapseRunsKeepsOthers(text, IsSpace, ' ');
    DropWider(text, IsSpace, Hidden);
  }

  /** "A / B": the "/" is deleted after the spaces are collapsed, so two underscores remain. */
  lemma {:induction false} SlashBetweenSpaces(text: string)
    requires text == "A / B"
    ensures SanitizeForFilename(text) == "A__B"
  {
    var kept := SlashBetweenSpacesKept(text);
    var r := SlashBetweenSpacesReplaced(kept);
    assert Underscored(text) == r;
    var name := SanitizeIsCut(text);
    assert Take(r, MaxNameLength) == r;
  }

  /** The collapse and the strip leave "A / B" alone; deleting "/" leaves "A  B". */
  lemma {:induction false} SlashBetweenSpacesKept(text: string) returns (kept: string)
    requires text == "A / B"
    ensures kept == Drop(Strip(CollapseRuns(text, IsSpace, ' ')), IsForbidden)
    ensures kept == ['A', ' ', ' ', 'B']
  {
    var cs := SlashBetweenSpacesChars(text);
    CollapseRunsSingle(cs, IsSpace, ' ');
    assert Strip(cs) == cs;
    kept := SlashDeleted(cs);
  }

  /** "A / B", character by character. */
  lemma {:induction false} SlashBetweenSpacesChars(text: string) returns (cs: string)
    requires text == "A / B"
    ensures cs == text && cs == ['A', ' ', '/', ' ', 'B']
  {
    cs := text;
    assert |text| == 5 && text[0] == 'A' && text[1] == ' ' && text[2] == '/' && text[3] == ' ' && text[4] == 'B';
  }

  /** Deleting the forbidden characters of "A / B" leaves "A  B". */
  lemma {:induction false} SlashDeleted(cs: string) returns (kept: string)
    requires cs == ['A', ' ', '/', ' ', 'B']
    ensures kept == Drop(cs, IsForbidden) && kept == ['A', ' ', ' ', 'B']
  {
    var t4, t3, t2, t1 := ['B'], [' ', 'B'], ['/', ' ', 'B'], [' ', '/', ' ', 'B'];
    assert t4[1..] == [] && t3[1..] == t4 && t2[1..] == t3 && t1[1..] == t2 && cs[1..] == t1;
    assert Drop(t4, IsForbidden) == t4;
    assert Drop(t3, IsForbidden) == t3;
    assert Drop(t2, IsForbidden) == t3;
    assert Drop(t1, IsForbidden) == [' ', ' ', 'B'];
    kept := Drop(cs, IsForbidden);
  }

  /** Turning the spaces of "A  B" into underscores gives "A__B". */
  lemma {:induction false} SlashBetweenSpacesReplaced(kept: string) returns (r: string)
    requires kept == ['A', ' ', ' ', 'B']
    ensures r == ReplaceChar(kept, ' ', '_') && r == "A__B"
  {
    r := ReplaceChar(kept, ' ', '_');
    assert |r| == 4 && r[0] == 'A' && r[1] == '_' && r[2] == '_' && r[3] == 'B';
  }

  /**
   * The slug of `capture_fullpage_screenshot`: every maximal run of characters
   * outside `[a-zA-Z0-9]` becomes one "_", at most 50 characters are kept, and
   * "job" stands in when nothing is left.
   */
  function UrlSlug(url: string): (r: string)
    ensures r != [] && |r| <= MaxSlugLength
    ensures forall i :: 0 <= i < |r| ==> IsAlnum(r[i]) || r[i] == '_'
    ensures forall i :: 0 <= i < |r| - 1 ==> !(r[i] == '_' && r[i + 1] == '_')
    ensures url == [] ==> r == "job"
    ensures url != [] ==> r[0] == (if IsAlnum(url[0]) then url[0] else '_')
  {
    var collapsed := CollapseRuns(url, NotAlnum, '_');
    var cut := Take(collapsed, MaxSlugLength);
    if cut == [] then "job" else cut
  }

  /**
   * The slug rule itself: letters and digits are kept, and a maximal run of
   * other characters (non-empty, followed by the end or by a letter or digit)
   * becomes exactly one "_"; the result is then cut to 50 characters.
   */
  lemma {:induction false} UrlSlugOfRun(x: string, run: string, y: string)
    requires forall i :: 0 <= i < |x| ==> IsAlnum(x[i])
    requires run != [] && forall i :: 0 <= i < |run| ==> NotAlnum(run[i])
    requires y == [] || IsAlnum(y[0])
    ensures UrlSlug(x + run + y) == Take(x + "_" + CollapseRuns(y, NotAlnum, '_'), MaxSlugLength)
  {
    CollapseRunsSplit(x, run, y, NotAlnum, '_');
    var url := x + run + y;
    assert url != [];
    assert Take(CollapseRuns(url, NotAlnum, '_'), MaxSlugLength) != [];
  }

  /** "a-b" has its dash replaced, not deleted: the slug is "a_b". */
  lemma {:induction false} UrlSlugOfDash()
    ensures UrlSlug("a-b") == "a_b"
  {
    var x, run, y := "a", "-", "b";
    assert x + run + y == "a-b";
    UrlSlugOfRun(x, run, y);
    CollapseRunsNone(y, NotAlnum, '_');
    assert x + "_" + y == "a_b";
  }

  /**
   * The slug keeps the ASCII letters and digits of the URL, in order: they are
   * a prefix of the URL's, and all of them when the collapsed URL fits in the
   * 50 characters kept.
   */
  lemma {:induction false} UrlSlugKeepsAlnum(url: string)
    ensures url != [] ==> Drop(UrlSlug(url), NotAlnum) <= Drop(url, NotAlnum)
    ensures url != [] && |CollapseRuns(url, NotAlnum, '_')| <= MaxSlugLength ==>
      Drop(UrlSlug(url), NotAlnum) == Drop(url, NotAlnum)
  {
    if url != [] {
      var collapsed := CollapseRuns(url, NotAlnum, '_');
      var cut := Take(collapsed, MaxSlugLength);
      assert cut != [] && UrlSlug(url) == cut;
      CollapseRunsKeepsOthers(url, NotAlnum, '_');
      DropPrefix(collapsed, |cut|, NotAlnum);
    }
  }

  /** The PDF name `{today}-{company}-{title}.pdf`, both parts sanitised. */
  function PdfFileName(today: string, company: string, title: string): (name: string)
    ensures |name| <= |today| + 2 * MaxNameLength + 6
    ensures |name| > 4 && name[|name| - 4..] == ".pdf"
  {
    today + "-" + SanitizeForFilename(company) + "-" + SanitizeForFilename(title) + ".pdf"
  }

  /**
   * With a date made of digits and dashes (as `strftime("%Y-%m-%d")` gives),
   * the PDF name has no whitespace and no forbidden character, so in particular
   * no path separator: joined to the working directory it names a file there.
   */
  lemma {:induction false} PdfFileNameIsSafe(today: string, company: string, title: string)
    requires forall i :: 0 <= i < |today| ==> IsDigit(today[i]) || today[i] == '-'
    ensures All(PdfFileName(today, company, title), IsSafe)
  {
    var c := SanitizeForFilename(company);
    var t := SanitizeForFilename(title);
    var dash, ext := "-", ".pdf";
    DateIsSafe(today);
    LiteralsAreSafe();
    AllConcat(today, dash, IsSafe);
    AllConcat(today + dash, c, IsSafe);
    AllConcat(today + dash + c, dash, IsSafe);
    AllConcat(today + dash + c + dash, t, IsSafe);
    AllConcat(today + dash + c + dash + t, ext, IsSafe);
  }

  lemma {:induction false} DateIsSafe(today: string)
    requires forall i :: 0 <= i < |today| ==> IsDigit(today[i]) || today[i] == '-'
    ensures All(today, IsSafe)
  {
    forall i | 0 <= i < |today| ensures IsSafe(today[i]) {
      assert IsDigit(today[i]) || today[i] == '-';
    }
  }

  lemma {:induction false} LiteralsAreSafe()
    ensures All("-", IsSafe) && All(".pdf", IsSafe)
  {
    var dash, ext := "-", ".pdf";
    assert dash[0] == '-';
    assert ext[0] == '.' && ext[1] == 'p' && ext[2] == 'd' && ext[3] == 'f';
  }
}
