/**
 * The JSON-LD step of the Workday variant (Not_JoAps-WD.py): scanning the
 * page's `application/ld+json` scripts for the first JobPosting object.
 * `json.loads` is outside the model: each script is given either as the value
 * it parses to or as unparsable (empty text or a parse error).
 */
module JsonLd {
  import opened Wrappers
  import opened Text

  /** A value `json.loads` can produce (numbers as integers: only their truth value matters here). */
  datatype Json =
    | JNull
    | JBool(b: bool)
    | JNumber(n: int)
    | JString(s: string)
    | JArray(items: seq<Json>)
    | JObject(fields: map<string, Json>)

  /** Python's truth value of a parsed JSON value. */
  predicate Truthy(j: Json) {
    match j
    case JNull => false
    case JBool(b) => b
    case JNumber(n) => n != 0
    case JString(s) => s != ""
    case JArray(items) => items != []
    case JObject(fields) => fields != map[]
  }

  /** `obj.get(key)`: None (JSON null) when the key is missing. */
  function Get(fields: map<string, Json>, key: string): Json {
    if key in fields then fields[key] else JNull
  }

  /** One `<script type="application/ld+json">`: skipped, or the value its text parses to. */
  datatype LdBlock = Unparsable | Parsed(data: Json)

  /** The pair `(title, company)` returned for a JobPosting; None where the field is not a string. */
  datatype Candidate = Candidate(title: Option<string>, company: Option<string>)

  /** What `try_extract_jobposting_from_obj` does with one value. */
  datatype ObjOutcome =
    | NotAPosting              // returns None
    | Posting(candidate: Candidate)
    | Raises                   // `.get` called on a truthy non-dict `identifier`

  /** `@type` is "JobPosting", or a list holding "JobPosting". */
  predicate IsJobPostingType(t: Json) {
    if t.JArray? then JString("JobPosting") in t.items else t == JString("JobPosting")
  }

  /** `x.strip() if isinstance(x, str) else None` */
  function StrippedString(j: Json): (r: Option<string>)
    ensures r.Some? <==> j.JString?
  {
    if j.JString? then Some(Strip(j.s)) else None
  }

  /**
   * `try_extract_jobposting_from_obj`: only a dict whose `@type` names JobPosting
   * is a posting; its title is `title`, or failing that `identifier.name`, and its
   * company is `hiringOrganization.name`.
   */
  function TryExtractJobPosting(obj: Json): (r: ObjOutcome)
    ensures r.NotAPosting? <==> !(obj.JObject? && IsJobPostingType(Get(obj.fields, "@type")))
    ensures r.Raises? <==>
      (obj.JObject? && IsJobPostingType(Get(obj.fields, "@type"))
       && !Truthy(Get(obj.fields, "title")) && Truthy(Get(obj.fields, "identifier"))
       && !Get(obj.fields, "identifier").JObject?)
    ensures r.Posting? && obj.JObject? && Truthy(Get(obj.fields, "title")) ==>
      r.candidate.title == StrippedString(Get(obj.fields, "title"))
    ensures r.Posting? && obj.JObject? && Get(obj.fields, "hiringOrganization").JObject? ==>
      r.candidate.company == StrippedString(Get(Get(obj.fields, "hiringOrganization").fields, "name"))
    ensures r.Posting? && obj.JObject? && !Get(obj.fields, "hiringOrganization").JObject? ==>
      r.candidate.company == None
  {
    if !obj.JObject? || !IsJobPostingType(Get(obj.fields, "@type")) then NotAPosting
    else
      var title := Get(obj.fields, "title");
      var ident := Get(obj.fields, "identifier");
      if !Truthy(title) && Truthy(ident) && !ident.JObject? then Raises
      else
        var jt := if Truthy(title) then title else if ident.JObject? then Get(ident.fields, "name") else JNull;
        var org := Get(obj.fields, "hiringOrganization");
        var comp := if org.JObject? then Get(org.fields, "name") else JNull;
        Posting(Candidate(StrippedString(jt), StrippedString(comp)))
  }

  /** A posting without a usable `title` takes its title from `identifier.name`. */
  lemma TitleFallsBackToIdentifier(fields: map<string, Json>, ident: map<string, Json>, name: string)
    requires IsJobPostingType(Get(fields, "@type"))
    requires !Truthy(Get(fields, "title"))
    requires Get(fields, "identifier") == JObject(ident) && Get(ident, "name") == JString(name)
    ensures TryExtractJobPosting(JObject(fields)).Posting?
    ensures TryExtractJobPosting(JObject(fields)).candidate.title == Some(Strip(name))
  {
  }

  /** The outcome for one parsed block: a list is searched item by item, anything else is tried as is. */
  function BlockOutcome(data: Json): ObjOutcome {
    if data.JArray? then FirstPosting(data.items) else TryExtractJobPosting(data)
  }

  /** `for item in data: candidate = try(item); if candidate: break` (an exception also leaves the loop). */
  function FirstPosting(items: seq<Json>): (r: ObjOutcome)
    ensures r.NotAPosting? <==> forall i :: 0 <= i < |items| ==> TryExtractJobPosting(items[i]).NotAPosting?
  {
    if items == [] then NotAPosting
    else
      var o := TryExtractJobPosting(items[0]);
      if o.NotAPosting? then FirstPosting(items[1..]) else o
  }

  /** The result of the whole scan. */
  datatype ScanOutcome = NoPosting | Found(candidate: Candidate) | Aborted

  /** A block the scan passes over: unparsable, or holding no JobPosting. */
  predicate Skipped(b: LdBlock) {
    b.Unparsable? || BlockOutcome(b.data).NotAPosting?
  }

  /**
   * The loop over the ld+json scripts: skip what does not parse, stop at the
   * first block that yields a posting, and give up entirely when extracting
   * from a posting raises (the enclosing `try` swallows the exception).
   */
  function ScanJsonLd(blocks: seq<LdBlock>): ScanOutcome {
    if blocks == [] then NoPosting
    else if Skipped(blocks[0]) then ScanJsonLd(blocks[1..])
    else
      match BlockOutcome(blocks[0].data)
      case Posting(c) => Found(c)
      case _ => Aborted
  }

  /** With every block skipped, the scan finds nothing. */
  lemma {:induction false} ScanAllSkipped(blocks: seq<LdBlock>)
    requires forall j :: 0 <= j < |blocks| ==> Skipped(blocks[j])
    ensures ScanJsonLd(blocks) == NoPosting
  {
    if blocks != [] {
      ScanAllSkipped(blocks[1..]);
    }
  }

  /**
   * The first block that is not skipped decides the scan, whatever follows it:
   * its candidate is taken even when both fields are empty, and blocks after it
   * are never read.
   */
  lemma {:induction false} ScanStopsAtFirst(blocks: seq<LdBlock>, i: nat)
    requires i < |blocks| && !Skipped(blocks[i])
    requires forall j :: 0 <= j < i ==> Skipped(blocks[j])
    ensures ScanJsonLd(blocks) == if BlockOutcome(blocks[i].data).Posting?
      then Found(BlockOutcome(blocks[i].data).candidate) else Aborted
  {
    if i > 0 {
      ScanStopsAtFirst(blocks[1..], i - 1);
    }
  }

  /** The scan's outcome depends only on the blocks up to the first one that is not skipped. */
  lemma {:induction false} ScanIgnoresLaterBlocks(blocks: seq<LdBlock>, rest: seq<LdBlock>)
    requires exists i :: 0 <= i < |blocks| && !Skipped(blocks[i])
    ensures ScanJsonLd(blocks + rest) == ScanJsonLd(blocks)
  {
    var i :| 0 <= i < |blocks| && !Skipped(blocks[i]);
    if Skipped(blocks[0]) {
      assert (blocks + rest)[1..] == blocks[1..] + rest;
      ScanIgnoresLaterBlocks(blocks[1..], rest);
    }
  }

  /** The title the scan contributes: the posting's stripped title, "" when there is none. */
  function LdTitle(o: ScanOutcome): string {
    if o.Found? && o.candidate.title.Some? then o.candidate.title.value else ""
  }

  /** The company the scan contributes: the posting's stripped company, "" when there is none. */
  function LdCompany(o: ScanOutcome): string {
    if o.Found? && o.candidate.company.Some? then o.candidate.company.value else ""
  }

  /** The loop of lines 174-198 of Not_JoAps-WD.py, with its inner loop over a list of objects. */
  method ScanScripts(blocks: seq<LdBlock>) returns (outcome: ScanOutcome)
    ensures outcome == ScanJsonLd(blocks)
  {
    var k := 0;
    outcome := NoPosting;
    while k < |blocks|
      invariant 0 <= k <= |blocks|
      invariant ScanJsonLd(blocks) == ScanJsonLd(blocks[k..])
    {
      if blocks[k].Unparsable? {
        k := k + 1;
        continue;
      }
      var data := blocks[k].data;
      var candidate := NotAPosting;
      if data.JArray? {
        var m := 0;
        while m < |data.items|
          invariant 0 <= m <= |data.items|
          invariant candidate == NotAPosting
          invariant FirstPosting(data.items) == FirstPosting(data.items[m..])
        {
          candidate := TryExtractJobPosting(data.items[m]);
          if !candidate.NotAPosting? {
            break;
          }
          m := m + 1;
        }
      } else {
        candidate := TryExtractJobPosting(data);
      }
      if candidate.Raises? {
        outcome := Aborted;
        break;
      }
      if candidate.Posting? {
        outcome := Found(candidate.candidate);
        break;
      }
      k := k + 1;
    }
  }
}
