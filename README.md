# Not_JoAps in Dafny

Not_JoAps is a set of three command-line scripts that save a job posting as a
PDF and keep a Notion tracker of applications. `Not_JoAps.py` is the generic
version and `Not_JoAps-WD.py` the Workday-oriented one. Each script:

- reads a job title and a company name off the posting page;
- compresses a full-page screenshot into a PDF under a byte budget;
- names the file `{date}-{company}-{title}.pdf`.

`Not_JoAps_CompanyDescriptions.py` walks the tracker's database. For every
page that has a company but no description, it asks a language model for a
one- or two-sentence description and writes it back.

This project models the decision logic of those scripts and proves what it
promises:

- **Filenames** (`filenames.dfy`): `sanitize_for_filename`, the screenshot's URL
  slug and the PDF file name.
- **Compression** (`compression.dfy`): the loop control of
  `compress_png_to_pdf_under_size`. This covers the scale schedule 1, 0.8,
  0.64, …, the width clamped at 800 pixels, and the acceptance rule. The encoded
  size is an oracle.
- **JsonLd** (`json_ld.dfy`): the Workday version's scan of
  `application/ld+json` scripts for a schema.org `JobPosting`.
- **Extraction** (`extraction.dfy`): both versions of
  `extract_job_info_from_html`.
  - Each is a method that follows the source statement by statement.
  - Each is proved equal to a cascade in which the first non-empty candidate
    wins.
  - Lemmas state which source wins in which situation, and what the string rules
    make of typical titles and host names.
- **NotionProperties** (`notion_properties.dfy`): the three readers of Notion
  property JSON.
- **CompanyDescriptions** (`company_descriptions.dfy`):
  - the clean-up and truncation of the model's reply;
  - the per-page decision and the four counters of `main`;
  - the cursor loop of `query_database_excluding_resources`.
- **Text** (`text.dfy`) and **Wrappers** (`wrappers.dfy`): the Python string
  operations the scripts use (`strip`, `split`, `join`, `replace`, `find`,
  `capitalize`, `re.sub` of a character class), restricted to ASCII, and
  `Option`/`Result`.

Inputs the scripts obtain from the outside world are parameters. The parsed
HTML page becomes a `Page` record. The URL becomes its host name. The parsed
JSON becomes a `Json` value. The Groq reply, the Notion query answers and the
success of each update are oracles.

Python's `None` for a missing title, company or page title is modelled as the
empty string, because every use of those variables is a truth test.

### Where the code and its description differ

The model follows the code.

- `hostname.replace("www.", "")` removes every occurrence of "www.", not only
  a leading one.
- `sanitize_for_filename` deletes forbidden characters after collapsing and
  stripping whitespace. So "C++ Dev / Team: A<B>" becomes "C++_Dev__Team_AB":
  the "+" signs stay, and the spaces around the deleted "/" give two
  underscores.
- The company is not always non-empty. When the host label used as the last
  resort is empty, the company is "". That happens with no host name, with a
  host that is only "www.", and with a host whose second-to-last label is
  empty, as in ".com" or "a..com".
  The "Unknown" branch of that step cannot be reached, because `split` never
  returns an empty list.
- An `og:title` whose content is only whitespace still wins over `<title>`.
  The page title is then "", so the title heuristic and the title-based company
  rules are skipped.
- A JSON-LD posting whose `title` is empty and whose `identifier` is a
  non-empty non-object (a string id, say) raises inside the scan. The
  surrounding `try` swallows the exception and abandons the whole JSON-LD step,
  including later scripts (`JsonLd.ScanJsonLd`, outcome `Aborted`).
- A JSON-LD candidate ends the scan even when both its fields are empty. The
  tuple is truthy.
- A Workday brand made only of dashes becomes "" after the word split. It
  still replaces a JSON-LD company, and the cascade then goes on to
  og:site_name.
- The cut description can be one character longer than `max_chars`, counting
  the "…".
- When the width is clamped at 800 pixels, the height is still scaled, so the
  aspect ratio is not kept.

## Model

| member | source | states |
|---|---|---|
| `Filenames.SanitizeForFilename` | Not_JoAps.py:42-56 | The result is never empty, has at most 80 characters, and has no whitespace and none of `\ / : * ? " < > \|`. |
| `Filenames.SanitizeIdempotent` | Not_JoAps-WD.py:51-57 | Sanitising a sanitised name returns it unchanged. |
| `Filenames.SanitizeKeepsVisible` | Not_JoAps.py:42-56 | When the cleaned text is not empty (so the name is not the "Unknown" fallback), the name's characters other than whitespace, forbidden characters and "_" are a prefix of the input's, in order, and all of them when the cleaned text fits in 80 characters. |
| `Filenames.SlashBetweenSpaces` | Not_JoAps.py:53-56 | "A / B" becomes "A__B": the slash is deleted after whitespace is normalised, and each of the two spaces left becomes "_". |
| `Filenames.UnderscoredIsSafe` | Not_JoAps.py:53-55 | After whitespace runs are collapsed and stripped, forbidden characters deleted and spaces made underscores, no unsafe character is left. |
| `Filenames.UrlSlug` | Not_JoAps.py:80 | The slug is non-empty and at most 50 characters. It holds only ASCII letters, digits and "_", never two "_" in a row. An empty URL gives "job"; otherwise the slug starts with the URL's first character or "_". |
| `Filenames.UrlSlugOfRun` | Not_JoAps.py:80 | Letters and digits before a maximal run of other characters are kept, and the run becomes exactly one "_", before the cut to 50 characters. |
| `Filenames.UrlSlugOfDash` | Not_JoAps.py:80 | "a-b" gives "a_b": the dash is replaced, not deleted. |
| `Filenames.UrlSlugKeepsAlnum` | Not_JoAps.py:80 | For every non-empty URL, the slug's ASCII letters and digits are a prefix of the URL's, in order. They are all of them when the collapsed URL fits in 50 characters. |
| `Filenames.PdfFileName` | Not_JoAps.py:463-466 | The name ends in ".pdf" and is bounded by the date's length plus 166. |
| `Filenames.PdfFileNameIsSafe` | Not_JoAps-WD.py:494-498 | With a date of digits and dashes, the PDF name has no whitespace and no forbidden character, so no path separator. |
| `Compression.Scale` | Not_JoAps.py:112-137 | The scale of every attempt lies in (0, 1]. |
| `Compression.TargetWidth` | Not_JoAps.py:113-118 | The requested width is never below 800. It equals the scaled width whenever that is at least 800, and is exactly 800 when the scaled width is below 800. |
| `Compression.CompressUnderSize` | Not_JoAps-WD.py:109-136 | Returns `pdf_path`. Keeps the first attempt whose PDF fits the budget or whose scale is at most 0.4; every earlier attempt was rejected. The kept attempt is one of the first six, and the sizes it requested are those of its scale. |
| `Compression.ScaleDecreasing` | Not_JoAps.py:137 | The scale strictly decreases from one attempt to the next. |
| `Compression.FifthAndSixthScales` | Not_JoAps-WD.py:125-131 | The fifth attempt has scale 0.4096 and the sixth 0.32768. |
| `Compression.SixthAttemptAccepted` | Not_JoAps-WD.py:125 | The sixth attempt is accepted whatever its size, so the fallback after the loop is unreachable. |
| `Compression.OverBudgetKeepsSixth` | Not_JoAps.py:117-143 | When no encoding fits the budget, the first five attempts are rejected and the sixth is kept. |
| `Compression.KeptAboveFloorFits` | Not_JoAps.py:130 | An accepted attempt among the first five respects the byte budget. |
| `JsonLd.StrippedString` | Not_JoAps-WD.py:168-171 | A field gives a value exactly when it is a string. |
| `JsonLd.TryExtractJobPosting` | Not_JoAps-WD.py:152-171 | A value is rejected as not a posting exactly when it is not an object whose `@type` is "JobPosting" or a list holding "JobPosting". A posting raises exactly when its `title` is falsy and its `identifier` is a truthy non-object. A truthy `title` gives the candidate's title, stripped if it is a string. The company is `hiringOrganization.name`, stripped if it is a string, and None when `hiringOrganization` is not an object. |
| `JsonLd.TitleFallsBackToIdentifier` | Not_JoAps-WD.py:163 | A posting without a usable title takes `identifier.name`, stripped. |
| `JsonLd.FirstPosting` | Not_JoAps-WD.py:183-188 | A list yields no posting exactly when none of its items is one. |
| `JsonLd.ScanAllSkipped` | Not_JoAps-WD.py:174-181 | When every script is unparsable or holds no posting, the scan finds nothing. |
| `JsonLd.ScanStopsAtFirst` | Not_JoAps-WD.py:183-198 | The first script that is not skipped decides the scan, even with both fields empty. An exception there abandons the scan. |
| `JsonLd.ScanIgnoresLaterBlocks` | Not_JoAps-WD.py:192-198 | Scripts after the deciding one never change the outcome. |
| `JsonLd.ScanScripts` | Not_JoAps-WD.py:173-198 | The nested loop with its `continue`s and `break`s computes the scan's specification. |
| `Extraction.FirstNonEmpty` | Not_JoAps.py:177-181 | The first non-empty candidate wins; with none, the fallback is returned. |
| `Extraction.FirstMatch` | Not_JoAps.py:178 | The result is the first element, in document order, that the selector matches, or -1 when none does. |
| `Extraction.FindBySelectors` | Not_JoAps.py:168-181 | The selector loop returns the text of the first selector whose first match has text. |
| `Extraction.TitleText` | Not_JoAps.py:152-158 | The page title is "" exactly when a non-empty og:title is blank, or there is no og:title and `<title>` is blank. Otherwise it has no whitespace at either end. |
| `Extraction.TitleFromPageTitleCuts` | Not_JoAps.py:183-190 | The heuristic title holds neither " - " nor "\|". A title holding neither is only stripped. |
| `Extraction.TitleFromTitleText` | Not_JoAps-WD.py:239-245 | The cut at " - ", then at "\|", then the strip, computes the heuristic title. |
| `Extraction.MatchLengthZero` | Not_JoAps.py:225-227 | No job word is removed at a position exactly when none of Careers/Career/Jobs/Job/Hiring matches there between word boundaries, ignoring case. |
| `Extraction.RemoveJobWordsKeeps` | Not_JoAps.py:225-227 | Removing the job words only deletes characters. |
| `Extraction.RemoveJobWordsNone` | Not_JoAps.py:225-227 | A text with no job word passes through unchanged. |
| `Extraction.PipeCompany` | Not_JoAps.py:222-229 | The company after the last "\|" holds no "\|" and begins and ends with none of " -\|". |
| `Extraction.AtCompany` | Not_JoAps.py:231-237 | The company after " at " holds no "\|" and begins and ends with none of " -\|". |
| `Extraction.HostLabel` | Not_JoAps.py:241-249 | The label used as the last resort holds no dot. |
| `Extraction.HostCompany` | Not_JoAps.py:239-250 | The host company is "" exactly when its label is empty. |
| `Extraction.JobFrom` | Not_JoAps.py:252-253 | The last-resort title is never empty. |
| `Extraction.GenericTitle` | Not_JoAps.py:160-253 | The generic version's title is never empty. |
| `Extraction.GenericCompany` | Not_JoAps.py:192-250 | The generic version's company is "" only when the host label is empty. |
| `Extraction.WorkdayTitle` | Not_JoAps-WD.py:173-287 | The Workday version's title is never empty. |
| `Extraction.WorkdayCompany` | Not_JoAps-WD.py:173-284 | The Workday version's company is "" only when the lower-cased host's label is empty. |
| `Extraction.CompanyFromHost` | Not_JoAps.py:239-250 | The statements of the last-resort step compute the host company. |
| `Extraction.TitleFromPage` | Not_JoAps-WD.py:219-245 | The `<h1>`, selector and title-heuristic steps, run while no title is known, compute the shared title cascade. |
| `Extraction.CompanyFromTitle` | Not_JoAps-WD.py:260-273 | The "\|" and " at " steps, run while no company is known, compute the shared company cascade. |
| `Extraction.ExtractJobInfo` | Not_JoAps.py:149-255 | The generic function returns the generic title and company cascades. |
| `Extraction.ApplyBrand` | Not_JoAps-WD.py:202-209 | On a Workday host with a non-empty first label, the brand name replaces the known company. |
| `Extraction.FromPosting` | Not_JoAps-WD.py:192-197 | A found posting contributes its title and company when they are non-empty. |
| `Extraction.ExtractJobInfoWorkday` | Not_JoAps-WD.py:142-289 | The Workday function returns the Workday title and company cascades. |
| `Extraction.TitleBeforeDash` | Not_JoAps.py:183-190 | For "Role - Rest", the title is the role. |
| `Extraction.RoleAtCompany` | Not_JoAps.py:231-237 | For "Role at Company \| Site", the " at " rule gives the company. |
| `Extraction.WwwPrefixIgnored` | Not_JoAps.py:242 | A leading "www." does not change the labels. |
| `Extraction.HostCompanyOfLabels` | Not_JoAps.py:239-250 | A host of two or more dot-free labels gives its second-to-last label, capitalised. |
| `Extraction.WorkdayBrandOfLabels` | Not_JoAps-WD.py:204-205 | The brand is the first dot label. |
| `Extraction.BrandNameOfDashedWords` | Not_JoAps-WD.py:207-208 | A brand of dash-separated words reads as the capitalised words separated by spaces. |
| `Extraction.WorkdayBrandWins` | Not_JoAps-WD.py:202-209 | On a Workday host whose first label is dash-separated words, the company is those words capitalised, whatever the JSON-LD, og:site_name or title say. |
| `Extraction.WorkdayBrandOverrides` | Not_JoAps-WD.py:202-251 | A non-empty brand name is the company, ahead of every other source. |
| `Extraction.JsonLdTitleWins` | Not_JoAps-WD.py:173-223 | A non-empty title in the first deciding JSON-LD posting is the job title, ahead of `<h1>`, selectors and page title. |
| `Extraction.GenericCompanyFromHost` | Not_JoAps.py:195-250 | Without og:site_name, organisation, company selector, "\|" or " at ", the company comes from the host. |
| `Extraction.CareersIsJobWord` | Not_JoAps.py:225-227 | "Careers" is matched whole by the job-word pattern. |
| `Extraction.PipeCompanyKeepsSite` | Not_JoAps.py:222-229 | A site name after the last "\| " with no job word, no "\|" and no whitespace or separator at its ends is the company. |
| `Extraction.PipeCompanyDropsJobWord` | Not_JoAps.py:222-229 | A title ending in "\| Acme Careers" gives the company "Acme": the job word is removed and the space before it stripped. |
| `Extraction.PipeCompanyOfJobWord` | Not_JoAps.py:222-229 | A title ending in "\| " and a job word leaves nothing for the "\|" rule. |
| `Extraction.TitleBeforeBar` | Not_JoAps.py:183-190 | For "Head \| Site" without " - ", the title is the head. |
| `Extraction.PipeThenAtParts` | Not_JoAps.py:183-237 | For "Role at Company \| Careers"-shaped titles: the "\|" rule gives "", the " at " rule gives the company, and the title is "Role at Company". |
| `Extraction.CompanyFromTitleOnly` | Not_JoAps.py:195-237 | With no og:site_name, organisation or company selector, the title rules decide the company. |
| `Extraction.TitleFromTitleOnly` | Not_JoAps.py:163-190 | With no `<h1>` and no title selector, the title heuristic decides the title. |
| `Extraction.PipeThenAt` | Not_JoAps.py:183-237 | On a page whose only signal is a title like "Senior Engineer at Acme \| Careers", the company is "Acme" and the title "Senior Engineer at Acme". |
| `Extraction.SeniorEngineerAtAcme` | Not_JoAps.py:183-237 | The title "Senior Engineer at Acme \| Careers" itself, with no other signal on the page, gives the company "Acme" and the title "Senior Engineer at Acme". |
| `Extraction.AcmeCorpBrand` | Not_JoAps-WD.py:202-209 | The brand "acme-corp" reads "Acme Corp". |
| `Extraction.JobsExampleCom` | Not_JoAps.py:239-250 | The host "jobs.example.com" gives the company "Example". |
| `Text.SplitOnJoin` | Not_JoAps.py:243 | `sep.join(s.split(sep)) == s`. |
| `Text.JoinWithSplitOn` | Not_JoAps.py:243 | Splitting the join of separator-free pieces gives the pieces back. |
| `Text.WordsOfJoin` | Not_JoAps-WD.py:208 | `" ".join(ws).split() == ws` for words without whitespace. |
| `Text.ReplaceJoinSeparator` | Not_JoAps-WD.py:207 | Replacing a join's separator by another is joining with the other. |
| `Text.RemoveAllAbsent` | Not_JoAps.py:242 | `s.replace(pat, "")` leaves a text without `pat` unchanged. |
| `Text.IndexOf` | Not_JoAps.py:186-189 | `find` gives -1 exactly when the pattern is absent, and otherwise its first occurrence. |
| `Text.Strip` | Not_JoAps.py:53 | `strip()` gives "" exactly for a blank text, and otherwise a text with no whitespace at either end. |
| `Text.StripIsSlice` | Not_JoAps.py:53 | `strip()` removes whitespace at the two ends and nothing else: the result is a slice of the text with only whitespace before and after it. |
| `Text.Capitalize` | Not_JoAps.py:250 | The first character is upper-cased and every other one lower-cased. |
| `NotionProperties.PlainTexts` | Not_JoAps_CompanyDescriptions.py:66-71 | Only parts with non-empty plain text contribute, at most one text per part. |
| `NotionProperties.OptionNames` | Not_JoAps_CompanyDescriptions.py:62-63 | The names of the multi-select options, one per option, in order. |
| `NotionProperties.StatusValue` | Not_JoAps_CompanyDescriptions.py:76-97 | A status value exists exactly for a status- or select-typed property that has an option, and it is that option's name. |
| `NotionProperties.GetTextProperty` | Not_JoAps_CompanyDescriptions.py:46-73 | The reader's loop computes the text property: parts joined and stripped, select name, multi-select names joined by ", ", else "". |
| `NotionProperties.PlainTextsAppend` | Not_JoAps_CompanyDescriptions.py:67-71 | Each further part appends its plain text, if any, at the end. |
| `NotionProperties.ConcatBlank` | Not_JoAps_CompanyDescriptions.py:73 | The joined plain text is blank exactly when every part's plain text is blank. |
| `NotionProperties.NonemptyRichTextIffText` | Not_JoAps_CompanyDescriptions.py:100-105 | For a rich_text property, `has_nonempty_rich_text` holds exactly when `get_text_property` reads a non-empty text. |
| `NotionProperties.NotRichTextIsEmpty` | Not_JoAps_CompanyDescriptions.py:101-103 | A missing or non-rich_text property is never filled in. |
| `NotionProperties.SelectReadersAgree` | Not_JoAps_CompanyDescriptions.py:54-97 | For a select property, the status reader returns the same name as the text reader, or None when nothing is selected. |
| `NotionProperties.TitleOfTwoParts` | Not_JoAps_CompanyDescriptions.py:66-73 | A two-part title reads as the concatenation of both parts' plain texts, stripped. |
| `CompanyDescriptions.BeforeLast` | Not_JoAps_CompanyDescriptions.py:169 | `rsplit(" ", 1)[0]` is a prefix ending just before the last space, or the whole text when there is none. |
| `CompanyDescriptions.Truncate` | Not_JoAps_CompanyDescriptions.py:168-169 | A short description is kept whole. A long one becomes a prefix without trailing whitespace, followed by "…", at most `max_chars + 1` long. |
| `CompanyDescriptions.TruncateAtSpace` | Not_JoAps_CompanyDescriptions.py:169 | When the first `max_chars` characters hold a space, the cut falls on whitespace, between words. |
| `CompanyDescriptions.TruncateAtLastSpace` | Not_JoAps_CompanyDescriptions.py:168-169 | The cut goes back to the last space within the first `max_chars` characters: a space of that window follows the kept text, and only whitespace lies between the kept text and any later space in that window. With no space in the window, only trailing whitespace of the window is dropped. |
| `CompanyDescriptions.TruncateKeepsText` | Not_JoAps_CompanyDescriptions.py:163-169 | A stripped description is never cut to the "…" alone when `max_chars > 0`. |
| `CompanyDescriptions.GenerateDescription` | Not_JoAps_CompanyDescriptions.py:111-171 | A description exists exactly when the name is non-empty and the first choice is non-blank. It is non-empty, at most `max_chars + 1` long, and the stripped reply when short enough. |
| `CompanyDescriptions.Decisions` | Not_JoAps_CompanyDescriptions.py:264-292 | One decision per page, in page order. |
| `CompanyDescriptions.DecisionsAt` | Not_JoAps_CompanyDescriptions.py:264-292 | Decision `i` is the classification of page `i` with the Groq reply and the update result for page `i`. |
| `CompanyDescriptions.ClassifyPage` | Not_JoAps_CompanyDescriptions.py:265-299 | The skip checks, in order (no company, description present, no description), and the update compute the page's decision. |
| `CompanyDescriptions.ProcessPages` | Not_JoAps_CompanyDescriptions.py:259-308 | The loop's counters and update calls are those of the pages' decisions, in order. |
| `CompanyDescriptions.RecordOutcome` | Not_JoAps_CompanyDescriptions.py:277-304 | A turn raises exactly the counter of its outcome by one, and none for a refused update. An attempted update, refused or not, is recorded with the page id and description. |
| `CompanyDescriptions.TallyAccountsForEveryPage` | Not_JoAps_CompanyDescriptions.py:259-304 | The four counters plus the failed updates add up to the number of pages. |
| `CompanyDescriptions.UpdatesAreUpdatedOrFailed` | Not_JoAps_CompanyDescriptions.py:298-304 | One update call is made per updated or failed page. |
| `CompanyDescriptions.UpdateDecision` | Not_JoAps_CompanyDescriptions.py:277-299 | An update is sent only to a page with a company and no description, with a non-empty description of at most 401 characters. |
| `CompanyDescriptions.UpdatesAreWellFormed` | Not_JoAps_CompanyDescriptions.py:264-308 | Every update call carries a non-empty description of at most 401 characters and targets such a page. |
| `CompanyDescriptions.QueryDatabase` | Not_JoAps_CompanyDescriptions.py:194-219 | The loop computes the query's specification. The first request carries no `start_cursor`, and each later one the `next_cursor` of an answer that had `has_more`. |
| `CompanyDescriptions.FirstAnswerFirst` | Not_JoAps_CompanyDescriptions.py:212-214 | The first answer's results come first, in order. |
| `CompanyDescriptions.MoreFuelSameResult` | Not_JoAps_CompanyDescriptions.py:196-219 | Once the query has finished, a larger request budget changes nothing. |
| `CompanyDescriptions.ErrorFailsQuery` | Not_JoAps_CompanyDescriptions.py:207-210 | An error status fails the whole query, with no partial list. |

## Left out

- Browser rendering and screenshots (Playwright) are not modelled; only the URL slug rule is.
- PIL decoding, resizing, JPEG and PDF encoding, and file moves and removals are not modelled: the PDF's byte size is an oracle of the requested width and height.
- Compression.CompressUnderSize: with a screenshot at most 3 pixels high, a late attempt's `target_h` (Not_JoAps.py:119) is 0 and Pillow's `resize` raises `ValueError`. The size oracle is total, so the model applies its usual acceptance rule to the size the oracle gives for that attempt. At the sixth attempt that rule always accepts, so the model can return an attempt at which the source raises.
- Compression.CompressUnderSize: the scale is an exact real, so binary floating-point rounding of `scale *= 0.8` is not modelled. No rounding changes which side of 0.4 a scale falls on, so the sixth attempt is still the last.
- HTML parsing is not modelled. The page is given by the texts the heuristics read: og:title, `<title>`, og:site_name, the first `<h1>`, the hiringOrganization name, the ld+json scripts, and every element's attributes and stripped text.
- Extraction.Matches: a multi-valued `class` is matched as its space-joined value. The patterns hold no space and no regex operator, so this equals a search in any one class.
- JSON decoding is not modelled: each ld+json script is given as unparsable or as its parsed value. JSON numbers are integers, since only their truth value is read.
- Only ASCII is modelled: `\s` and `str.isspace` are the ASCII whitespace characters, `\b` and `\w` are ASCII word characters, and `capitalize` and `lower` change only ASCII letters.
- URL parsing is not modelled: each function receives `urlparse(url).hostname`, "" when there is none.
- The Groq request, the Notion query and the Notion update are oracles, and so are their HTTP status codes and exception texts. The request body and the prompt text are not modelled.
- CompanyDescriptions.QueryDatabase: the query stops after a given number of requests (`fuel`) with `Unfinished`. The source would loop as long as the server keeps sending cursors. The `Status != Resources` filter is applied by the server and is not modelled.
- CompanyDescriptions.Truncate: `max_chars` is a natural number. Python's negative slice bounds are not modelled, since the only call uses 400.
- `print`, `textwrap.wrap` of the printed description, `time.sleep`, `input` prompts, `argparse`, `datetime.now`, `.env` loading and the clean-up in `main`'s `finally` are input and output, and are not modelled. The date is a parameter of the PDF name.
- Notion uploads (`get_database_properties`, `upload_pdf_to_notion`, `create_notion_page`) are network clients outside the modelled core.
- The `title` and `status` read in `main` only for printing (`"(untitled)"`, `"(none)"`) are not modelled.
- CompanyDescriptions.ProcessPages and CompanyDescriptions.GenerateDescription: an exception other than `RuntimeError` ends `main` (Not_JoAps_CompanyDescriptions.py:298-302 catches only `RuntimeError`), and this abort is not modelled. Such exceptions are a network error in `requests.patch` (Not_JoAps_CompanyDescriptions.py:240-244), a Groq body that is not JSON (Not_JoAps_CompanyDescriptions.py:157) and a first choice that is not an object (Not_JoAps_CompanyDescriptions.py:163). The loop's counters and `TallyAccountsForEveryPage` describe runs that finish.
- CompanyDescriptions.QueryDatabase: a network error in `requests.post` or a body that is not JSON (Not_JoAps_CompanyDescriptions.py:202-212) also ends `main`, and is not modelled.
