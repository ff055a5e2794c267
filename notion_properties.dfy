/**
 * The readers of Notion page properties in Not_JoAps_CompanyDescriptions.py:
 * `get_text_property`, `get_status_value` and `has_nonempty_rich_text`.  The
 * JSON the Notion API returns is given by a datatype with one case per
 * property type the readers look at.
 */
module NotionProperties {
  import opened Wrappers
  import opened Text

  /** One rich-text fragment: its `type` and its `plain_text` ("" when missing or null). */
  datatype RichPart = RichPart(kind: string, plainText: string)

  /** A select or status option; only its `name` is read. */
  datatype Choice = Choice(name: string)

  /**
   * A property value by its `type`.  An empty select or status (`null`) is
   * `None`; a type the readers do not know is `Other`.
   */
  datatype Property =
    | TitleProp(parts: seq<RichPart>)
    | RichTextProp(parts: seq<RichPart>)
    | SelectProp(select: Option<Choice>)
    | MultiSelectProp(options: seq<Choice>)
    | StatusProp(status: Option<Choice>)
    | Other(kind: string)

  /** A page's `properties`, by property name; a missing name is a missing property. */
  type Properties = map<string, Property>

  /** The `plain_text` of every part that has one, in order. */
  function PlainTexts(parts: seq<RichPart>): (texts: seq<string>)
    ensures |texts| <= |parts|
    ensures forall k :: 0 <= k < |texts| ==> texts[k] != ""
  {
    if parts == [] then []
    else (if parts[0].plainText != "" then [parts[0].plainText] else []) + PlainTexts(parts[1..])
  }

  /** `"".join(texts)` */
  function Concat(texts: seq<string>): string {
    if texts == [] then "" else texts[0] + Concat(texts[1..])
  }

  /** The option names of a multi-select, joined by ", ". */
  function OptionNames(options: seq<Choice>): (names: seq<string>)
    ensures |names| == |options| && forall k :: 0 <= k < |options| ==> names[k] == options[k].name
  {
    seq(|options|, k requires 0 <= k < |options| => options[k].name)
  }

  /**
   * `get_text_property`: the stripped concatenation of the parts' plain text for
   * a title or rich_text property, the option name of a select, the option names
   * of a non-empty multi-select joined by ", ", and "" for anything else.
   */
  function TextProperty(props: Properties, name: string): string {
    if name !in props then ""
    else
      match props[name]
      case TitleProp(parts) => Strip(Concat(PlainTexts(parts)))
      case RichTextProp(parts) => Strip(Concat(PlainTexts(parts)))
      case SelectProp(select) => if select.Some? then select.value.name else ""
      case MultiSelectProp(options) => if options != [] then JoinWith(OptionNames(options), ", ") else ""
      case _ => ""
  }

  predicate HasStatus(p: Property) { p.StatusProp? && p.status.Some? }

  predicate HasSelection(p: Property) { p.SelectProp? && p.select.Some? }

  /** `get_status_value`: the option name of a status or select property that has one. */
  function StatusValue(props: Properties, name: string): (r: Option<string>)
    ensures r.Some? <==> (name in props && (HasStatus(props[name]) || HasSelection(props[name])))
    ensures name in props && HasStatus(props[name]) ==> r == Some(props[name].status.value.name)
    ensures name in props && HasSelection(props[name]) ==> r == Some(props[name].select.value.name)
  {
    if name !in props then None
    else
      match props[name]
      case StatusProp(Some(c)) => Some(c.name)
      case SelectProp(Some(c)) => Some(c.name)
      case _ => None
  }

  /** `has_nonempty_rich_text`: a rich_text property with a part whose plain text is not blank. */
  predicate HasNonemptyRichText(props: Properties, name: string) {
    name in props && props[name].RichTextProp?
    && exists k :: 0 <= k < |props[name].parts| && !IsBlank(props[name].parts[k].plainText)
  }

  // ---------------------------------------------------------------------------
  // the loop of get_text_property

  /**
   * The loop of lines 66-73: a `text` part and any other part are both taken
   * when their plain text is not empty.
   */
  method GetTextProperty(props: Properties, name: string) returns (text: string)
    ensures text == TextProperty(props, name)
  {
    if name !in props {
      return "";
    }
    var prop := props[name];
    var parts: seq<RichPart>;
    if prop.TitleProp? {
      parts := prop.parts;
    } else if prop.RichTextProp? {
      parts := prop.parts;
    } else {
      if prop.SelectProp? && prop.select.Some? {
        return prop.select.value.name;
      }
      if prop.MultiSelectProp? && prop.options != [] {
        return JoinWith(OptionNames(prop.options), ", ");
      }
      return "";
    }
    var texts: seq<string> := [];
    var k := 0;
    while k < |parts|
      invariant 0 <= k <= |parts|
      invariant texts == PlainTexts(parts[..k])
    {
      var part := parts[k];
      if part.kind == "text" && part.plainText != "" {
        texts := texts + [part.plainText];
      } else if part.plainText != "" {
        texts := texts + [part.plainText];
      }
      PlainTextsAppend(parts[..k], part);
      assert parts[..k + 1] == parts[..k] + [part];
      k := k + 1;
    }
    assert parts[..k] == parts;
    text := Strip(Concat(texts));
  }

  // ---------------------------------------------------------------------------
  // properties

  /** Taking one more part appends its plain text, if it has one. */
  lemma {:induction false} PlainTextsAppend(parts: seq<RichPart>, part: RichPart)
    ensures PlainTexts(parts + [part]) == PlainTexts(parts) + (if part.plainText != "" then [part.plainText] else [])
  {
    if parts != [] {
      assert (parts + [part])[1..] == parts[1..] + [part];
      PlainTextsAppend(parts[1..], part);
    } else {
      assert [part][1..] == [];
    }
  }

  /** `"".join` of two lists is the join of each, concatenated. */
  lemma {:induction false} ConcatAppend(a: seq<string>, b: seq<string>)
    ensures Concat(a + b) == Concat(a) + Concat(b)
  {
    if a != [] {
      assert (a + b)[1..] == a[1..] + b;
      ConcatAppend(a[1..], b);
    } else {
      assert a + b == b;
    }
  }

  /** The plain texts of parts taken one after the other are those of each, in order. */
  lemma {:induction false} PlainTextsSplit(a: seq<RichPart>, b: seq<RichPart>)
    ensures PlainTexts(a + b) == PlainTexts(a) + PlainTexts(b)
  {
    if a != [] {
      assert (a + b)[1..] == a[1..] + b;
      PlainTextsSplit(a[1..], b);
    } else {
      assert a + b == b;
    }
  }

  /** The joined text is blank exactly when every part's plain text is blank. */
  lemma {:induction false} ConcatBlank(parts: seq<RichPart>)
    ensures IsBlank(Concat(PlainTexts(parts)))
      <==> forall k :: 0 <= k < |parts| ==> IsBlank(parts[k].plainText)
  {
    if parts != [] {
      var p := parts[0];
      var head := if p.plainText != "" then [p.plainText] else [];
      assert PlainTexts(parts) == head + PlainTexts(parts[1..]);
      ConcatAppend(head, PlainTexts(parts[1..]));
      assert Concat(head) == p.plainText by {
        if p.plainText != "" {
          assert Concat(head) == p.plainText + Concat([]);
        }
      }
      AllConcat(p.plainText, Concat(PlainTexts(parts[1..])), IsSpace);
      ConcatBlank(parts[1..]);
      assert forall k :: 1 <= k < |parts| ==> parts[k] == parts[1..][k - 1];
    }
  }

  /**
   * For a rich_text property, `has_nonempty_rich_text` holds exactly when
   * `get_text_property` reads a non-empty text: the two readers agree on what
   * counts as filled in.
   */
  lemma NonemptyRichTextIffText(props: Properties, name: string)
    requires name in props && props[name].RichTextProp?
    ensures HasNonemptyRichText(props, name) <==> TextProperty(props, name) != ""
  {
    ConcatBlank(props[name].parts);
  }

  /** A property that is neither rich_text nor present is never filled in. */
  lemma NotRichTextIsEmpty(props: Properties, name: string)
    requires name !in props || !props[name].RichTextProp?
    ensures !HasNonemptyRichText(props, name)
  {
  }

  /** A status or select that has a value gives its name to both readers that accept it. */
  lemma SelectReadersAgree(props: Properties, name: string)
    requires name in props && props[name].SelectProp?
    ensures StatusValue(props, name) == (if props[name].select.Some? then Some(TextProperty(props, name)) else None)
  {
  }

  /** A title made of parts reads as their plain texts joined in order and stripped. */
  lemma TitleOfTwoParts(props: Properties, name: string, a: RichPart, b: RichPart)
    requires name in props && props[name] == TitleProp([a, b])
    ensures TextProperty(props, name) == Strip(a.plainText + b.plainText)
  {
    assert [a, b] == [a] + [b];
    PlainTextsSplit([a], [b]);
    var ta := if a.plainText != "" then [a.plainText] else [];
    var tb := if b.plainText != "" then [b.plainText] else [];
    assert PlainTexts([a]) == ta by { assert [a][1..] == []; }
    assert PlainTexts([b]) == tb by { assert [b][1..] == []; }
    ConcatAppend(ta, tb);
    assert Concat(ta) == a.plainText by {
      if a.plainText != "" { assert Concat(ta) == a.plainText + Concat([]); }
    }
    assert Concat(tb) == b.plainText by {
      if b.plainText != "" { assert Concat(tb) == b.plainText + Concat([]); }
    }
  }
}
