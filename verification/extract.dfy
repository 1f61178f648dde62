/** The three text extractors of the session-item renderer: message content,
    tool output and reasoning summary. Each takes a string as it is, collects
    the text parts of a list in list order and joins them with line feeds,
    and falls back differently for everything else. */
module Extract {
  import opened Wrappers
  import opened Text
  import opened JsonLike

  // ---------------------------------------------------------------------------
  // Collecting the parts of a list

  /** The parts the items of a list yield, in list order; an item whose part
      is `None` contributes nothing. */
  function Keep(items: seq<Json>, part: Json -> Option<string>): (r: seq<string>)
    ensures |r| <= |items|
    ensures (forall i | 0 <= i < |items| :: part(items[i]).Some?) ==> |r| == |items|
    decreases |items|
  {
    if |items| == 0 then []
    else
      var rest := Keep(items[1..], part);
      match part(items[0])
      case Some(p) => [p] + rest
      case None => rest
  }

  /** Collecting distributes over concatenation, so parts keep the order of
      the items they come from. */
  lemma {:induction false} KeepAppend(a: seq<Json>, b: seq<Json>, part: Json -> Option<string>)
    ensures Keep(a + b, part) == Keep(a, part) + Keep(b, part)
    decreases |a|
  {
    if |a| == 0 {
      assert a + b == b;
    } else {
      assert (a + b)[1..] == a[1..] + b;
      KeepAppend(a[1..], b, part);
    }
  }

  /** A string is among the collected parts exactly when some item yields it. */
  lemma {:induction false} KeepMember(items: seq<Json>, part: Json -> Option<string>, p: string)
    ensures p in Keep(items, part) <==> exists i | 0 <= i < |items| :: part(items[i]) == Some(p)
    decreases |items|
  {
    if |items| > 0 {
      KeepMember(items[1..], part, p);
      if exists i | 0 <= i < |items| :: part(items[i]) == Some(p) {
        var i :| 0 <= i < |items| && part(items[i]) == Some(p);
        if i > 0 {
          assert items[1..][i - 1] == items[i];
        }
      }
      if exists i | 0 <= i < |items[1..]| :: part(items[1..][i]) == Some(p) {
        var i :| 0 <= i < |items[1..]| && part(items[1..][i]) == Some(p);
        assert items[i + 1] == items[1..][i];
      }
    }
  }

  /** Nothing is collected exactly when no item yields a part. */
  lemma {:induction false} KeepEmpty(items: seq<Json>, part: Json -> Option<string>)
    ensures Keep(items, part) == [] <==> forall i | 0 <= i < |items| :: part(items[i]).None?
    decreases |items|
  {
    if |items| > 0 {
      KeepEmpty(items[1..], part);
      if forall i | 0 <= i < |items[1..]| :: part(items[1..][i]).None? {
        forall i | 0 < i < |items| ensures part(items[i]).None? {
          assert items[i] == items[1..][i - 1];
        }
      } else {
        var i :| 0 <= i < |items[1..]| && part(items[1..][i]).Some?;
        assert items[i + 1] == items[1..][i];
      }
    }
  }

  /** The parts that are not empty, in order (the filter of a generator over
      `parts` that tests `if part`). */
  function NonEmpty(parts: seq<string>): (r: seq<string>)
    ensures |r| <= |parts|
    ensures forall k | 0 <= k < |r| :: r[k] != ""
    decreases |parts|
  {
    if |parts| == 0 then []
    else if parts[0] == "" then NonEmpty(parts[1..])
    else [parts[0]] + NonEmpty(parts[1..])
  }

  /** No part survives the filter exactly when every part is empty. */
  lemma {:induction false} NonEmptyNone(parts: seq<string>)
    ensures NonEmpty(parts) == [] <==> forall k | 0 <= k < |parts| :: parts[k] == ""
    decreases |parts|
  {
    if |parts| > 0 {
      NonEmptyNone(parts[1..]);
      if forall k | 0 <= k < |parts[1..]| :: parts[1..][k] == "" {
        forall k | 0 < k < |parts| ensures parts[k] == "" {
          assert parts[k] == parts[1..][k - 1];
        }
      } else {
        var k :| 0 <= k < |parts[1..]| && parts[1..][k] != "";
        assert parts[k + 1] == parts[1..][k];
      }
    }
  }

  /** Joining non-empty parts gives the empty string only when there are none. */
  lemma JoinNonEmpty(parts: seq<string>, sep: string)
    requires forall k | 0 <= k < |parts| :: parts[k] != ""
    ensures Join(parts, sep) == "" <==> parts == []
  {
    if parts != [] {
      JoinFirst(parts, sep);
    }
  }

  // ---------------------------------------------------------------------------
  // `_extract_content_text`

  /** The text of one content part: a dict's `text` if it is a string,
      otherwise its `refusal` if that is a string; nothing for anything else. */
  function ContentPart(item: Json): (r: Option<string>)
    ensures r.Some? ==> item.JObject?
    ensures item.JObject? && Get(item, "text").JString? ==> r == Some(Get(item, "text").s)
    ensures r.Some? && !Get(item, "text").JString? ==> Get(item, "refusal") == JString(r.value)
    ensures item.JObject? && !Get(item, "text").JString? && Get(item, "refusal").JString? ==>
              r == Some(Get(item, "refusal").s)
  {
    if !item.JObject? then None
    else
      var text := Get(item, "text");
      if text.JString? then Some(text.s)
      else
        var refusal := Get(item, "refusal");
        if refusal.JString? then Some(refusal.s) else None
  }

  /** `_extract_content_text(content)`: a string as it is, the content parts of
      a list joined with line feeds, `""` for `None`, and `str()` of anything
      else. */
  function ExtractContentText(codec: Codec, content: Json): (r: string)
    ensures content.JString? ==> r == content.s
    ensures content.JNull? ==> r == ""
    ensures content.JArray? ==> r == Join(Keep(content.items, ContentPart), "\n")
    ensures content.JArray? ==>
              (r == "" <== forall i | 0 <= i < |content.items| :: ContentPart(content.items[i]).None?)
    ensures content.JBool? || content.JInt? || content.JObject? ==> r == codec.show(content)
  {
    match content
    case JString(s) => s
    case JArray(items) =>
      KeepEmpty(items, ContentPart);
      Join(Keep(items, ContentPart), "\n")
    case JNull => ""
    case _ => codec.show(content)
  }

  /** When no part holds a line feed, splitting the joined content at line
      feeds gives back exactly the parts, in list order. */
  lemma ContentTextSplits(codec: Codec, items: seq<Json>)
    requires Keep(items, ContentPart) != []
    requires forall i | 0 <= i < |items| :: ContentPart(items[i]).Some? ==> '\n' !in ContentPart(items[i]).value
    ensures SplitOn(ExtractContentText(codec, JArray(items)), '\n') == Keep(items, ContentPart)
  {
    var parts := Keep(items, ContentPart);
    forall k | 0 <= k < |parts| ensures '\n' !in parts[k] {
      KeepMember(items, ContentPart, parts[k]);
    }
    SplitOnJoin(parts, '\n');
  }

  /** Content lists concatenate: when both halves yield parts, the text of the
      whole is the text of the first half, a line feed, and the text of the
      second. */
  lemma ContentTextAppend(codec: Codec, a: seq<Json>, b: seq<Json>)
    requires Keep(a, ContentPart) != [] && Keep(b, ContentPart) != []
    ensures ExtractContentText(codec, JArray(a + b)) ==
              ExtractContentText(codec, JArray(a)) + "\n" + ExtractContentText(codec, JArray(b))
  {
    KeepAppend(a, b, ContentPart);
    JoinAppend(Keep(a, ContentPart), Keep(b, ContentPart), "\n");
  }

  // ---------------------------------------------------------------------------
  // `_extract_output_text`

  /** The text of one output part: a dict's `text`, if it is a string. */
  function OutputPart(item: Json): (r: Option<string>)
    ensures r.Some? <==> item.JObject? && Get(item, "text").JString?
    ensures r.Some? ==> Get(item, "text") == JString(r.value)
  {
    var text := Get(item, "text");
    if item.JObject? && text.JString? then Some(text.s) else None
  }

  /** `_extract_output_text(output)`: a string as it is; the text parts of a
      list joined with line feeds when there is at least one; a dict's `text`
      when it is a string; otherwise the formatted value (the dump: the value
      is not a string by then). */
  function ExtractOutputText(codec: Codec, output: Json): (r: string)
    ensures output.JString? ==> r == output.s
    ensures output.JArray? && Keep(output.items, OutputPart) != [] ==> r == Join(Keep(output.items, OutputPart), "\n")
    ensures output.JArray? && (forall i | 0 <= i < |output.items| :: OutputPart(output.items[i]).None?) ==>
              r == codec.dump(output)
    ensures output.JObject? ==> r == (if Get(output, "text").JString? then Get(output, "text").s else codec.dump(output))
    ensures output.JNull? || output.JBool? || output.JInt? ==> r == codec.dump(output)
  {
    match output
    case JString(s) => s
    case JArray(items) =>
      KeepEmpty(items, OutputPart);
      var texts := Keep(items, OutputPart);
      if |texts| > 0 then Join(texts, "\n") else FormatJsonLike(codec, output)
    case JObject(_) =>
      var text := Get(output, "text");
      if text.JString? then text.s else FormatJsonLike(codec, output)
    case _ => FormatJsonLike(codec, output)
  }

  /** When no text part holds a line feed, splitting the joined output at line
      feeds gives back exactly the text parts, in list order. */
  lemma OutputTextSplits(codec: Codec, items: seq<Json>)
    requires Keep(items, OutputPart) != []
    requires forall i | 0 <= i < |items| :: OutputPart(items[i]).Some? ==> '\n' !in OutputPart(items[i]).value
    ensures SplitOn(ExtractOutputText(codec, JArray(items)), '\n') == Keep(items, OutputPart)
  {
    var parts := Keep(items, OutputPart);
    forall k | 0 <= k < |parts| ensures '\n' !in parts[k] {
      KeepMember(items, OutputPart, parts[k]);
    }
    SplitOnJoin(parts, '\n');
  }

  /** Output lists concatenate: when both halves yield text parts, the text
      of the whole is the text of the first half, a line feed, and the text of
      the second. */
  lemma OutputTextAppend(codec: Codec, a: seq<Json>, b: seq<Json>)
    requires Keep(a, OutputPart) != [] && Keep(b, OutputPart) != []
    ensures ExtractOutputText(codec, JArray(a + b)) ==
              ExtractOutputText(codec, JArray(a)) + "\n" + ExtractOutputText(codec, JArray(b))
  {
    KeepAppend(a, b, OutputPart);
    JoinAppend(Keep(a, OutputPart), Keep(b, OutputPart), "\n");
  }

  // ---------------------------------------------------------------------------
  // `_extract_summary_text`

  /** `d.get("text") or d.get("summary")`. */
  function SummaryField(d: Json): (r: Json)
    ensures Truthy(Get(d, "text")) ==> r == Get(d, "text")
    ensures !Truthy(Get(d, "text")) ==> r == Get(d, "summary")
  {
    Or(Get(d, "text"), Get(d, "summary"))
  }

  /** The text of one summary part: a string as it is; a dict's text or
      summary field when that is a string; `str()` of anything else that is
      not `None`. */
  function SummaryPart(codec: Codec, item: Json): (r: Option<string>)
    ensures r.None? <==> item.JNull?
    ensures item.JString? ==> r == Some(item.s)
    ensures item.JObject? ==>
              r == Some(if SummaryField(item).JString? then SummaryField(item).s else codec.show(item))
    ensures item.JBool? || item.JInt? || item.JArray? ==> r == Some(codec.show(item))
  {
    match item
    case JNull => None
    case JString(s) => Some(s)
    case JObject(_) =>
      var text := SummaryField(item);
      if text.JString? then Some(text.s) else Some(codec.show(item))
    case _ => Some(codec.show(item))
  }

  /** The summary parts of a list, empty ones dropped. */
  function SummaryParts(codec: Codec, items: seq<Json>): seq<string> {
    NonEmpty(Keep(items, item => SummaryPart(codec, item)))
  }

  /** `_extract_summary_text(summary)`: a string as it is; the non-empty parts
      of a list joined with line feeds; a dict's text or summary field when it
      is a string; `""` for `None`; otherwise the formatted value. */
  function ExtractSummaryText(codec: Codec, summary: Json): (r: string)
    ensures summary.JString? ==> r == summary.s
    ensures summary.JNull? ==> r == ""
    ensures summary.JArray? ==> r == Join(SummaryParts(codec, summary.items), "\n")
    ensures summary == JArray([]) ==> r == ""
    ensures summary.JObject? && SummaryField(summary).JString? ==> r == SummaryField(summary).s
    ensures summary.JObject? && !SummaryField(summary).JString? ==> r == codec.dump(summary)
    ensures summary.JBool? || summary.JInt? ==> r == codec.dump(summary)
  {
    match summary
    case JString(s) => s
    case JArray(items) => Join(SummaryParts(codec, items), "\n")
    case JObject(_) =>
      var text := SummaryField(summary);
      if text.JString? then text.s else FormatJsonLike(codec, summary)
    case JNull => ""
    case _ => FormatJsonLike(codec, summary)
  }

  /** A summary list gives the empty string exactly when none of its items
      yields a non-empty part. */
  lemma SummaryListEmpty(codec: Codec, items: seq<Json>)
    ensures ExtractSummaryText(codec, JArray(items)) == "" <==>
              forall i | 0 <= i < |items| :: SummaryPart(codec, items[i]) in {None, Some("")}
  {
    var part := item => SummaryPart(codec, item);
    var kept := Keep(items, part);
    var parts := NonEmpty(kept);
    JoinNonEmpty(parts, "\n");
    NonEmptyNone(kept);
    if forall i | 0 <= i < |items| :: SummaryPart(codec, items[i]) in {None, Some("")} {
      forall k | 0 <= k < |kept| ensures kept[k] == "" {
        KeepMember(items, part, kept[k]);
      }
    } else {
      var i :| 0 <= i < |items| && SummaryPart(codec, items[i]) !in {None, Some("")};
      var p := SummaryPart(codec, items[i]).value;
      KeepMember(items, part, p);
      assert p in kept && p != "";
    }
  }

  /** A summary list of strings without empty strings or line feeds: splitting
      the summary at line feeds gives the list back. */
  lemma SummaryStringsSplit(codec: Codec, strs: seq<string>, items: seq<Json>)
    requires |strs| > 0 && |items| == |strs|
    requires forall i | 0 <= i < |strs| :: items[i] == JString(strs[i]) && strs[i] != "" && '\n' !in strs[i]
    ensures ExtractSummaryText(codec, JArray(items)) == Join(strs, "\n")
    ensures SplitOn(ExtractSummaryText(codec, JArray(items)), '\n') == strs
  {
    StringsKept(codec, strs, items);
    NonEmptyKeeps(strs);
    SplitOnJoin(strs, '\n');
  }

  lemma {:induction false} StringsKept(codec: Codec, strs: seq<string>, items: seq<Json>)
    requires |items| == |strs|
    requires forall i | 0 <= i < |strs| :: items[i] == JString(strs[i])
    ensures Keep(items, item => SummaryPart(codec, item)) == strs
    decreases |strs|
  {
    if |strs| > 0 {
      StringsKept(codec, strs[1..], items[1..]);
      assert [strs[0]] + strs[1..] == strs;
    }
  }

  lemma {:induction false} NonEmptyKeeps(parts: seq<string>)
    requires forall k | 0 <= k < |parts| :: parts[k] != ""
    ensures NonEmpty(parts) == parts
    decreases |parts|
  {
    if |parts| > 0 {
      NonEmptyKeeps(parts[1..]);
      assert [parts[0]] + parts[1..] == parts;
    }
  }
}
