/**
 * The decision logic of Not_JoAps_CompanyDescriptions.py: how a description
 * returned by the language model is cleaned and cut, which pages are skipped
 * and which are updated, the four counters `main` reports, and how
 * `query_database_excluding_resources` follows Notion's pagination cursors.
 * The Groq request, the Notion query and the page update are oracles: the
 * reply received for each page, whether each update succeeded, and the
 * database's answer to each cursor.
 */
module CompanyDescriptions {
  import opened Wrappers
  import opened Text
  import opened NotionProperties

  // ---------------------------------------------------------------------------
  // generate_company_description, after the request

  /** "…", appended to a cut description. */
  const Ellipsis: char := '\U{2026}'

  /** The `max_chars` that `main` uses (the parameter's default). */
  const DefaultMaxChars: nat := 400

  /** `s.rsplit(c, 1)[0]`: everything before the last `c`, or all of `s` when there is none. */
  function BeforeLast(s: string, c: char): (r: string)
    ensures |r| <= |s| && r == s[..|r|]
    ensures c !in s ==> r == s
    ensures c in s ==> |r| < |s| && s[|r|] == c && forall j :: |r| < j < |s| ==> s[j] != c
  {
    if c in s then s[..LastIndexOfChar(s, c)] else s
  }

  /**
   * A description longer than `maxChars` is cut to `maxChars` characters, then
   * back to before its last space, right-stripped, and ended with "…".  A
   * shorter one is kept whole.
   */
  function Truncate(desc: string, maxChars: nat): (r: string)
    ensures |desc| <= maxChars ==> r == desc
    ensures |desc| > maxChars ==> 1 <= |r| <= maxChars + 1 && r[|r| - 1] == Ellipsis
    ensures |desc| > maxChars ==> r[..|r| - 1] == desc[..|r| - 1]
    ensures |desc| > maxChars && |r| > 1 ==> !IsSpace(r[|r| - 2])
  {
    if |desc| <= maxChars then desc
    else
      var kept := RStrip(BeforeLast(desc[..maxChars], ' '), IsSpace);
      assert kept == desc[..|kept|];
      kept + [Ellipsis]
  }

  /**
   * When the first `maxChars` characters hold a space, the cut falls between
   * words: the character after the kept text is whitespace.
   */
  lemma TruncateAtSpace(desc: string, maxChars: nat)
    requires |desc| > maxChars && ' ' in desc[..maxChars]
    ensures var r := Truncate(desc, maxChars); |r| - 1 < maxChars && IsSpace(desc[|r| - 1])
  {
    var cut := desc[..maxChars];
    var before := BeforeLast(cut, ' ');
    var kept := RStrip(before, IsSpace);
    assert |before| < maxChars && cut[|before|] == ' ';
    if |kept| < |before| {
      assert IsSpace(before[|kept|]);
    }
  }

  /**
   * The cut goes back to the LAST space of the first `maxChars` characters:
   * a space of that window follows the kept text, and between the kept text
   * and any later space there is only whitespace.  With no space in the
   * window, only whitespace of the window is dropped.
   */
  lemma TruncateAtLastSpace(desc: string, maxChars: nat)
    requires |desc| > maxChars
    ensures var r := Truncate(desc, maxChars);
      forall j, k :: |r| - 1 <= j < k < maxChars && desc[k] == ' ' ==> IsSpace(desc[j])
    ensures var r := Truncate(desc, maxChars);
      ' ' !in desc[..maxChars] ==> forall j :: |r| - 1 <= j < maxChars ==> IsSpace(desc[j])
    ensures var r := Truncate(desc, maxChars);
      ' ' in desc[..maxChars] ==> |r| - 1 < maxChars && ' ' in desc[|r| - 1..maxChars]
  {
    var cut := desc[..maxChars];
    var before := BeforeLast(cut, ' ');
    var kept := RStrip(before, IsSpace);
    assert |Truncate(desc, maxChars)| - 1 == |kept|;
    if ' ' in cut {
      assert desc[|kept|..maxChars][|before| - |kept|] == cut[|before|] == ' ';
    }
    forall j, k | |kept| <= j < k < maxChars && desc[k] == ' '
      ensures IsSpace(desc[j])
    {
      assert cut[k] == ' ';
      assert before[j] == desc[j];
    }
  }

  /** A stripped description is never cut down to the "…" alone, unless `maxChars` is 0. */
  lemma TruncateKeepsText(desc: string, maxChars: nat)
    requires |desc| > maxChars > 0 && !IsSpace(desc[0])
    ensures |Truncate(desc, maxChars)| >= 2
  {
    var cut := desc[..maxChars];
    var before := BeforeLast(cut, ' ');
    assert cut[0] == desc[0] && cut[0] != ' ';
    assert ' ' in cut ==> cut[|before|] == ' ';
    assert before[0] == desc[0];
    assert RStrip(before, IsSpace) != [];
  }

  /** What the Groq API answered: no answer, an error status, or the `content` of each choice. */
  datatype GroqReply =
    | RequestError
    | HttpError(status: int)
    | Answered(contents: seq<string>)   // "" where a choice has no message content

  /**
   * `generate_company_description` from the reply on: nothing for an empty
   * company name (no request is made), a failed request, no choices or a
   * blank first choice; otherwise the first choice, stripped and truncated.
   */
  function GenerateDescription(companyName: string, reply: GroqReply, maxChars: nat): (r: Option<string>)
    ensures r.Some? <==> companyName != "" && reply.Answered? && reply.contents != [] && !IsBlank(reply.contents[0])
    ensures r.Some? ==> r.value != "" && |r.value| <= maxChars + 1
    ensures r.Some? && |Strip(reply.contents[0])| <= maxChars ==> r.value == Strip(reply.contents[0])
  {
    if companyName == "" then None
    else if !reply.Answered? || reply.contents == [] then None
    else
      var desc := Strip(reply.contents[0]);
      if desc == "" then None else Some(Truncate(desc, maxChars))
  }

  // ---------------------------------------------------------------------------
  // main: one decision per page

  /** A page the database query returned: its id and its properties. */
  datatype NotionPage = NotionPage(id: string, properties: Properties)

  /** How the loop of `main` ends its turn for one page. */
  datatype Outcome =
    | NoCompany
    | AlreadyDescribed
    | NoDescription
    | UpdateFailed(desc: string)
    | Updated(desc: string)

  /**
   * The checks of `main`, in order: no Company, a Company Description already
   * filled in, no description generated; otherwise the update is sent, and
   * `updateOk` says whether Notion accepted it.
   */
  function Classify(page: NotionPage, reply: GroqReply, updateOk: bool): Outcome {
    var company := TextProperty(page.properties, "Company");
    if company == "" then NoCompany
    else if HasNonemptyRichText(page.properties, "Company Description") then AlreadyDescribed
    else
      match GenerateDescription(company, reply, DefaultMaxChars)
      case None => NoDescription
      case Some(desc) => if updateOk then Updated(desc) else UpdateFailed(desc)
  }

  /** The four counters `main` prints. */
  datatype Tally = Tally(updated: nat, noCompany: nat, alreadyDescribed: nat, groqFail: nat)

  function Total(t: Tally): nat { t.updated + t.noCompany + t.alreadyDescribed + t.groqFail }

  /** The counter an outcome increments; a failed update increments none. */
  function Count(t: Tally, o: Outcome): Tally {
    match o
    case NoCompany => t.(noCompany := t.noCompany + 1)
    case AlreadyDescribed => t.(alreadyDescribed := t.alreadyDescribed + 1)
    case NoDescription => t.(groqFail := t.groqFail + 1)
    case UpdateFailed(_) => t
    case Updated(_) => t.(updated := t.updated + 1)
  }

  /** The decisions for the first `k` pages, in order; `reply(i)` and `updateOk(i)` answer for page `i`. */
  function Decisions(pages: seq<NotionPage>, reply: nat -> GroqReply, updateOk: nat -> bool, k: nat): (os: seq<Outcome>)
    requires k <= |pages|
    ensures |os| == k
  {
    if k == 0 then []
    else Decisions(pages, reply, updateOk, k - 1) + [Classify(pages[k - 1], reply(k - 1), updateOk(k - 1))]
  }

  /** Decision `i` is the classification of page `i` with the answers for page `i`. */
  lemma {:induction false} DecisionsAt(pages: seq<NotionPage>, reply: nat -> GroqReply, updateOk: nat -> bool, k: nat, i: nat)
    requires i < k <= |pages|
    ensures Decisions(pages, reply, updateOk, k)[i] == Classify(pages[i], reply(i), updateOk(i))
  {
    var prev := Decisions(pages, reply, updateOk, k - 1);
    var o := Classify(pages[k - 1], reply(k - 1), updateOk(k - 1));
    assert Decisions(pages, reply, updateOk, k) == prev + [o];
    if i < k - 1 {
      DecisionsAt(pages, reply, updateOk, k - 1, i);
    }
    AppendOneAt(prev, o, i);
  }

  // Helper for DecisionsAt: indexing a sequence with one element put at its end.
  lemma AppendOneAt<T>(s: seq<T>, x: T, i: nat)
    requires i <= |s|
    ensures (s + [x])[i] == if i < |s| then s[i] else x
  {
  }

  /** The counters after a run of decisions. */
  function Tallied(os: seq<Outcome>): Tally {
    if os == [] then Tally(0, 0, 0, 0) else Count(Tallied(os[..|os| - 1]), os[|os| - 1])
  }

  /** How many updates of a run of decisions were refused. */
  function Failures(os: seq<Outcome>): nat {
    if os == [] then 0 else Failures(os[..|os| - 1]) + (if os[|os| - 1].UpdateFailed? then 1 else 0)
  }

  /** The `update_company_description` calls of a run of decisions: page id and description, in order. */
  function UpdateCalls(pages: seq<NotionPage>, os: seq<Outcome>): seq<(string, string)>
    requires |os| <= |pages|
  {
    if os == [] then []
    else
      var o := os[|os| - 1];
      UpdateCalls(pages, os[..|os| - 1])
        + (if o.Updated? || o.UpdateFailed? then [(pages[|os| - 1].id, o.desc)] else [])
  }

  /** The checks of lines 268-292 for one page, each skip leaving the turn as `continue` does. */
  method ClassifyPage(page: NotionPage, reply: GroqReply, updateOk: bool) returns (o: Outcome)
    ensures o == Classify(page, reply, updateOk)
  {
    var company := GetTextProperty(page.properties, "Company");
    if company == "" {
      return NoCompany;
    }
    if HasNonemptyRichText(page.properties, "Company Description") {
      return AlreadyDescribed;
    }
    var desc := GenerateDescription(company, reply, DefaultMaxChars);
    if desc.None? {
      return NoDescription;
    }
    o := if updateOk then Updated(desc.value) else UpdateFailed(desc.value);
  }

  /**
   * The loop of `main` (lines 264-308).  Returns the counters and the update
   * calls made, in order.
   */
  method ProcessPages(pages: seq<NotionPage>, reply: nat -> GroqReply, updateOk: nat -> bool)
    returns (tally: Tally, updates: seq<(string, string)>)
    ensures tally == Tallied(Decisions(pages, reply, updateOk, |pages|))
    ensures updates == UpdateCalls(pages, Decisions(pages, reply, updateOk, |pages|))
  {
    tally := Tally(0, 0, 0, 0);
    updates := [];
    var os: seq<Outcome> := [];
    var i := 0;
    while i < |pages|
      invariant 0 <= i <= |pages|
      invariant os == Decisions(pages, reply, updateOk, i)
      invariant tally == Tallied(os) && updates == UpdateCalls(pages, os)
    {
      var o := ClassifyPage(pages[i], reply(i), updateOk(i));
      ghost var made := UpdateCallsAppend(pages, os, o);
      tally, updates := RecordOutcome(tally, updates, pages[i].id, o);
      assert (os + [o])[..|os|] == os;
      os := os + [o];
      i := i + 1;
    }
  }

  /** The end of one turn of `main`'s loop: the counter of the outcome goes up, and an attempted update is recorded. */
  method RecordOutcome(tally: Tally, updates: seq<(string, string)>, id: string, o: Outcome)
    returns (tally': Tally, updates': seq<(string, string)>)
    ensures tally' == Count(tally, o)
    ensures updates' == updates + (if o.Updated? || o.UpdateFailed? then [(id, o.desc)] else [])
  {
    tally', updates' := tally, updates;
    match o {
      case NoCompany =>
        tally' := tally.(noCompany := tally.noCompany + 1);
      case AlreadyDescribed =>
        tally' := tally.(alreadyDescribed := tally.alreadyDescribed + 1);
      case NoDescription =>
        tally' := tally.(groqFail := tally.groqFail + 1);
      case UpdateFailed(desc) =>
        updates' := updates + [(id, desc)];
      case Updated(desc) =>
        updates' := updates + [(id, desc)];
        tally' := tally.(updated := tally.updated + 1);
    }
  }

  /** Every page is counted once, except those whose update failed: the counters add up to the pages less the failures. */
  lemma {:induction false} TallyAccountsForEveryPage(os: seq<Outcome>)
    ensures Total(Tallied(os)) + Failures(os) == |os|
  {
    if os != [] {
      TallyAccountsForEveryPage(os[..|os| - 1]);
    }
  }

  /** One update call is made per updated or failed page. */
  lemma {:induction false} UpdatesAreUpdatedOrFailed(pages: seq<NotionPage>, os: seq<Outcome>)
    requires |os| <= |pages|
    ensures |UpdateCalls(pages, os)| == Tallied(os).updated + Failures(os)
  {
    if os != [] {
      UpdatesAreUpdatedOrFailed(pages, os[..|os| - 1]);
    }
  }

  /** A page the loop may write to: it names a company and has no description yet. */
  predicate Writable(page: NotionPage) {
    TextProperty(page.properties, "Company") != ""
    && !HasNonemptyRichText(page.properties, "Company Description")
  }

  /** A decision to update is taken only for a writable page, with a non-empty description of at most 401 characters. */
  lemma UpdateDecision(page: NotionPage, reply: GroqReply, updateOk: bool)
    requires Classify(page, reply, updateOk).Updated? || Classify(page, reply, updateOk).UpdateFailed?
    ensures Writable(page)
    ensures var d := Classify(page, reply, updateOk).desc; d != "" && |d| <= DefaultMaxChars + 1
  {
  }

  /** Every description written is non-empty and at most 401 characters, and goes to a writable page. */
  lemma {:induction false} UpdatesAreWellFormed(pages: seq<NotionPage>, reply: nat -> GroqReply, updateOk: nat -> bool, k: nat)
    requires k <= |pages|
    ensures forall u :: u in UpdateCalls(pages, Decisions(pages, reply, updateOk, k)) ==>
      u.1 != "" && |u.1| <= DefaultMaxChars + 1
      && exists i :: 0 <= i < k && pages[i].id == u.0 && Writable(pages[i])
  {
    if k > 0 {
      var prev := Decisions(pages, reply, updateOk, k - 1);
      var o := Classify(pages[k - 1], reply(k - 1), updateOk(k - 1));
      assert Decisions(pages, reply, updateOk, k) == prev + [o];
      UpdatesAreWellFormed(pages, reply, updateOk, k - 1);
      var last := UpdateCallsAppend(pages, prev, o);
      LastUpdateWellFormed(pages, reply, updateOk, k, last);
      AppendedCallsWellFormed(pages, UpdateCalls(pages, prev), last, k);
    }
  }

  // Helper for UpdatesAreWellFormed: well-formed calls for the first `k - 1` pages followed by one for page `k - 1`.
  lemma AppendedCallsWellFormed(pages: seq<NotionPage>, before: seq<(string, string)>, last: seq<(string, string)>, k: nat)
    requires 0 < k <= |pages|
    requires forall u :: u in before ==>
      u.1 != "" && |u.1| <= DefaultMaxChars + 1
      && exists i :: 0 <= i < k - 1 && pages[i].id == u.0 && Writable(pages[i])
    requires forall u :: u in last ==>
      u.1 != "" && |u.1| <= DefaultMaxChars + 1 && pages[k - 1].id == u.0 && Writable(pages[k - 1])
    ensures forall u :: u in before + last ==>
      u.1 != "" && |u.1| <= DefaultMaxChars + 1
      && exists i :: 0 <= i < k && pages[i].id == u.0 && Writable(pages[i])
  {
    forall u | u in before + last
      ensures u.1 != "" && |u.1| <= DefaultMaxChars + 1
      ensures exists i :: 0 <= i < k && pages[i].id == u.0 && Writable(pages[i])
    {
      if u !in before {
        assert u in last;
        assert 0 <= k - 1 < k && pages[k - 1].id == u.0 && Writable(pages[k - 1]);
      }
    }
  }

  /** The update calls of one more decision are those before it, then the one it makes, if any. */
  lemma UpdateCallsAppend(pages: seq<NotionPage>, os: seq<Outcome>, o: Outcome) returns (last: seq<(string, string)>)
    requires |os| < |pages|
    ensures last == if o.Updated? || o.UpdateFailed? then [(pages[|os|].id, o.desc)] else []
    ensures UpdateCalls(pages, os + [o]) == UpdateCalls(pages, os) + last
  {
    last := if o.Updated? || o.UpdateFailed? then [(pages[|os|].id, o.desc)] else [];
    assert (os + [o])[..|os|] == os;
  }

  /** The update call made for page `k - 1`, if any, is well formed. */
  lemma LastUpdateWellFormed(pages: seq<NotionPage>, reply: nat -> GroqReply, updateOk: nat -> bool, k: nat, last: seq<(string, string)>)
    requires 0 < k <= |pages|
    requires var o := Classify(pages[k - 1], reply(k - 1), updateOk(k - 1));
      last == if o.Updated? || o.UpdateFailed? then [(pages[k - 1].id, o.desc)] else []
    ensures forall u :: u in last ==>
      u.1 != "" && |u.1| <= DefaultMaxChars + 1 && pages[k - 1].id == u.0 && Writable(pages[k - 1])
  {
    var o := Classify(pages[k - 1], reply(k - 1), updateOk(k - 1));
    if o.Updated? || o.UpdateFailed? {
      UpdateDecision(pages[k - 1], reply(k - 1), updateOk(k - 1));
    }
  }

  // ---------------------------------------------------------------------------
  // query_database_excluding_resources: following the cursors

  /** Notion's answer to one query: an error status, or a page of results with the paging fields. */
  datatype QueryResponse =
    | NotOk(status: int)
    | Ok(results: seq<NotionPage>, hasMore: bool, nextCursor: string)   // nextCursor "" when missing or null

  datatype QueryError =
    | QueryFailed(status: int)   // the RuntimeError of line 208
    | Unfinished                 // more pages than the model's request budget

  /** Another page is fetched only when `has_more` is set and a `next_cursor` is given. */
  predicate Continues(resp: QueryResponse) {
    resp.Ok? && resp.hasMore && resp.nextCursor != ""
  }

  /** `prefix` followed by the results of `r`, or `r`'s error. */
  function Prepend(prefix: seq<NotionPage>, r: Result<seq<NotionPage>, QueryError>): Result<seq<NotionPage>, QueryError> {
    match r
    case Success(rest) => Success(prefix + rest)
    case Failure(e) => Failure(e)
  }

  /**
   * The pages the query collects starting from `cursor` (None: no
   * `start_cursor` sent), with at most `fuel` requests; `respond` is the
   * database's answer to each cursor.
   */
  function QueryFrom(respond: Option<string> -> QueryResponse, cursor: Option<string>, fuel: nat): Result<seq<NotionPage>, QueryError>
    decreases fuel
  {
    if fuel == 0 then Failure(Unfinished)
    else
      var resp := respond(cursor);
      if resp.NotOk? then Failure(QueryFailed(resp.status))
      else if Continues(resp) then Prepend(resp.results, QueryFrom(respond, Some(resp.nextCursor), fuel - 1))
      else Success(resp.results)
  }

  /**
   * The `while True` loop of lines 196-219, given a budget of `fuel` requests.
   * `cursors` lists the `start_cursor` of each request sent: none for the
   * first, then each time the `next_cursor` of the answer before.
   */
  method QueryDatabase(respond: Option<string> -> QueryResponse, fuel: nat)
    returns (r: Result<seq<NotionPage>, QueryError>, cursors: seq<Option<string>>)
    ensures r == QueryFrom(respond, None, fuel)
    ensures |cursors| <= fuel
    ensures fuel > 0 ==> |cursors| >= 1 && cursors[0] == None
    ensures forall i :: 0 <= i < |cursors| - 1 ==>
      Continues(respond(cursors[i])) && cursors[i + 1] == Some(respond(cursors[i]).nextCursor)
  {
    var allResults: seq<NotionPage> := [];
    var cursor: Option<string> := None;
    PrependNothing(QueryFrom(respond, None, fuel));
    cursors := [];
    var n := 0;
    while n < fuel
      invariant 0 <= n <= fuel && |cursors| == n
      invariant QueryFrom(respond, None, fuel) == Prepend(allResults, QueryFrom(respond, cursor, fuel - n))
      invariant n == 0 ==> cursor == None
      invariant n > 0 ==> cursors[0] == None
      invariant n > 0 ==> Continues(respond(cursors[n - 1])) && cursor == Some(respond(cursors[n - 1]).nextCursor)
      invariant forall i :: 0 <= i < |cursors| - 1 ==>
        Continues(respond(cursors[i])) && cursors[i + 1] == Some(respond(cursors[i]).nextCursor)
    {
      cursors := cursors + [cursor];
      var resp := respond(cursor);
      if resp.NotOk? {
        return Failure(QueryFailed(resp.status)), cursors;
      }
      if resp.hasMore && resp.nextCursor != "" {
        PrependTwice(allResults, resp.results, QueryFrom(respond, Some(resp.nextCursor), fuel - n - 1));
        allResults := allResults + resp.results;
        cursor := Some(resp.nextCursor);
        n := n + 1;
      } else {
        allResults := allResults + resp.results;
        return Success(allResults), cursors;
      }
    }
    r := Failure(Unfinished);
  }

  lemma PrependNothing(r: Result<seq<NotionPage>, QueryError>)
    ensures Prepend([], r) == r
  {
    if r.Success? {
      assert [] + r.value == r.value;
    }
  }

  lemma PrependTwice(a: seq<NotionPage>, b: seq<NotionPage>, r: Result<seq<NotionPage>, QueryError>)
    ensures Prepend(a, Prepend(b, r)) == Prepend(a + b, r)
  {
    if r.Success? {
      assert a + (b + r.value) == (a + b) + r.value;
    }
  }

  /** The pages of the first answer come first, in the order Notion gave them. */
  lemma FirstAnswerFirst(respond: Option<string> -> QueryResponse, cursor: Option<string>, fuel: nat)
    requires QueryFrom(respond, cursor, fuel).Success?
    ensures respond(cursor).Ok?
    ensures respond(cursor).results <= QueryFrom(respond, cursor, fuel).value
  {
  }

  /** A larger request budget changes nothing once the query has finished. */
  lemma {:induction false} MoreFuelSameResult(respond: Option<string> -> QueryResponse, cursor: Option<string>, fuel: nat, more: nat)
    requires QueryFrom(respond, cursor, fuel).Success? && fuel <= more
    ensures QueryFrom(respond, cursor, more) == QueryFrom(respond, cursor, fuel)
    decreases fuel
  {
    var resp := respond(cursor);
    if Continues(resp) {
      MoreFuelSameResult(respond, Some(resp.nextCursor), fuel - 1, more - 1);
    }
  }

  /** An error status from any request fails the whole query: no partial list is returned. */
  lemma {:induction false} ErrorFailsQuery(respond: Option<string> -> QueryResponse, cursor: Option<string>, fuel: nat, status: int)
    requires fuel > 0 && respond(cursor) == NotOk(status)
    ensures QueryFrom(respond, cursor, fuel) == Failure(QueryFailed(status))
  {
  }
}
