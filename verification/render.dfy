/** The template filters of the session view: `pretty_json`, `render_output`
    and `session_item_context`, which turns one stored conversation item into
    the record the template displays. */
module Render {
  import opened Wrappers
  import opened Text
  import opened Html
  import opened JsonLike
  import opened Inline
  import opened Markdown
  import opened Extract

  // ---------------------------------------------------------------------------
  // `pretty_json` and `render_output`

  /** `pretty_json(value)`: a string, or the dump of any other value, with each
      backslash-`n` pair turned into a line break, then escaped. */
  function PrettyJson(codec: Codec, v: Json): (r: string)
    ensures forall i | 0 <= i < |r| :: r[i] != '<' && r[i] != '>' && r[i] != '"' && r[i] != '\''
  {
    var text := if v.JString? then v.s else codec.dump(v);
    Escape(ExpandNewlines(text))
  }

  /** What `pretty_json` shows can be read back: unescaping it gives the
      expanded text, which holds no backslash-`n` pair any more. */
  lemma PrettyJsonRecovers(codec: Codec, v: Json)
    ensures var text := if v.JString? then v.s else codec.dump(v);
            Unescape(PrettyJson(codec, v)) == ExpandNewlines(text)
    ensures !HasEscapedNewline(PrettyJson(codec, v))
  {
    var text := if v.JString? then v.s else codec.dump(v);
    UnescapeEscape(ExpandNewlines(text));
    ExpandNewlinesComplete(text);
    EscapeNoEscapedNewline(ExpandNewlines(text));
  }

  /** `render_output(value)`: a string is rendered as markdown; any other value
      is shown as its dump inside `<pre>`, exactly as `pretty_json` shows it.
      Either way the result is markup that starts with a tag. */
  function RenderOutput(codec: Codec, v: Json): (r: string)
    ensures v.JString? ==> r == RenderMarkdown(v.s)
    ensures !v.JString? ==> r == "<pre>" + PrettyJson(codec, v) + "</pre>"
    ensures |r| > 0 && r[0] == '<'
  {
    if v.JString? then RenderMarkdown(v.s)
    else "<pre>" + Escape(ExpandNewlines(codec.dump(v))) + "</pre>"
  }

  // ---------------------------------------------------------------------------
  // `session_item_context`

  /** The record the conversation template shows for one item; `caption` is
      the context's `label`. `meta` is whatever value the item's `call_id`
      holds (the template prints it). */
  datatype Display = Display(kind: string, caption: string, body: string, meta: Json, isCode: bool)

  /** The roles that make an item a message, whatever its type. */
  const MessageRoles: set<Json> := {JString("user"), JString("assistant"), JString("system"), JString("developer")}

  /** `d.get("type") == t`. */
  predicate TypeIs(v: Json, t: string) {
    Get(v, "type") == JString(t)
  }

  /** The message test, which comes before every test of the type. */
  predicate IsMessage(v: Json) {
    v.JObject? && (Get(v, "role") in MessageRoles || TypeIs(v, "message"))
  }

  predicate IsToolCall(v: Json) {
    v.JObject? && !IsMessage(v) && TypeIs(v, "function_call")
  }

  predicate IsToolOutput(v: Json) {
    v.JObject? && !IsMessage(v) && TypeIs(v, "function_call_output")
  }

  predicate IsReasoning(v: Json) {
    v.JObject? && !IsMessage(v) && TypeIs(v, "reasoning")
  }

  /** The items `session_item_context` renders without raising: a role must be
      hashable for the membership test, and a message's role must be a string
      or falsy for `.replace`. */
  predicate Renderable(v: Json) {
    v.JObject? ==>
      var role := Get(v, "role");
      && !role.JArray? && !role.JObject?
      && (IsMessage(v) ==> role.JString? || !Truthy(role))
  }

  /** `role or "assistant"` for a role that is a string or falsy. */
  function RoleOr(role: Json): (r: string)
    requires role.JString? || !Truthy(role)
    ensures r != ""
    ensures Truthy(role) ==> r == role.s
    ensures !Truthy(role) ==> r == "assistant"
  {
    if Truthy(role) then role.s else "assistant"
  }

  /** `kind.replace("_", " ").title()`. */
  function MessageLabel(kind: string): string {
    Title(ReplaceChar(kind, '_', ' '))
  }

  /** Text shown as code: escaped inside `<pre>`. */
  function Pre(text: string): string {
    "<pre>" + Escape(text) + "</pre>"
  }

  const ThoughtParagraph: string := "<p>\U{1F4AD} Thought for a moment.</p>"
  const DetailsTag: string := "<details"
  const DetailsOpen: string := DetailsTag + " class=\"thread-item__details\"><summary>Details</summary><pre>"
  const DetailsClose: string := "</pre></details>"

  /** The body of a reasoning item: the fixed paragraph, then the escaped
      summary in a details block when it has non-whitespace text. */
  function ReasoningBody(summaryText: string): (r: string)
    ensures ThoughtParagraph <= r
    ensures !AllSpace(summaryText) ==> r == ThoughtParagraph + DetailsOpen + Escape(summaryText) + DetailsClose
    ensures AllSpace(summaryText) ==> r == ThoughtParagraph
  {
    var details := if Strip(summaryText) != "" then DetailsOpen + Escape(summaryText) + DetailsClose else "";
    PrefixThenRest(ThoughtParagraph, details);
    Assoc4(ThoughtParagraph, DetailsOpen, Escape(summaryText), DetailsClose);
    ThoughtParagraph + details
  }

  lemma PrefixThenRest(a: string, b: string)
    ensures a <= a + b
  {
    assert (a + b)[..|a|] == a;
  }

  lemma Assoc4(a: string, b: string, c: string, d: string)
    ensures a + (b + c + d) == a + b + c + d
  {
  }

  /** The record of an item no branch claims. */
  function Fallback(codec: Codec, v: Json): (r: Display)
    ensures r.kind == "event" && r.caption == "Event" && r.isCode && r.meta == JString("")
  {
    Display("event", "Event", Pre(FormatJsonLike(codec, v)), JString(""), true)
  }

  /** `session_item_context(value)`: the message test first, then the tool
      call, tool output and reasoning types, and the generic event for
      anything else, non-dicts included. */
  function SessionItemContext(codec: Codec, v: Json): (r: Display)
    requires Renderable(v)
    ensures IsMessage(v) ==>
              && r.kind == RoleOr(Get(v, "role"))
              && r.caption == MessageLabel(r.kind)
              && r.body == RenderMarkdown(ExtractContentText(codec, Get(v, "content")))
              && r.meta == JString("") && !r.isCode
    ensures IsToolCall(v) ==>
              && r.kind == "tool"
              && r.caption == "Tool call: " + PyStr(codec, Or(Get(v, "name"), JString("tool")))
              && r.body == Pre(FormatJsonLike(codec, Lookup(v, "arguments").GetOr(JString(""))))
              && r.meta == Or(Get(v, "call_id"), JString("")) && r.isCode
    ensures IsToolOutput(v) ==>
              && r.kind == "tool-output" && r.caption == "Tool output"
              && r.body == Pre(ExtractOutputText(codec, Lookup(v, "output").GetOr(JString(""))))
              && r.meta == Or(Get(v, "call_id"), JString("")) && r.isCode
    ensures IsReasoning(v) ==>
              && r.kind == "reasoning" && r.caption == "Reasoning"
              && r.body == ReasoningBody(ExtractSummaryText(codec, Get(v, "summary")))
              && r.meta == JString("") && !r.isCode
    ensures !IsMessage(v) && !IsToolCall(v) && !IsToolOutput(v) && !IsReasoning(v) ==> r == Fallback(codec, v)
  {
    if !v.JObject? then Fallback(codec, v)
    else if IsMessage(v) then
      var kind := RoleOr(Get(v, "role"));
      var text := ExtractContentText(codec, Get(v, "content"));
      Display(kind, MessageLabel(kind), RenderMarkdown(text), JString(""), false)
    else if TypeIs(v, "function_call") then
      var name := Or(Get(v, "name"), JString("tool"));
      var arguments := FormatJsonLike(codec, Lookup(v, "arguments").GetOr(JString("")));
      var callId := Or(Get(v, "call_id"), JString(""));
      Display("tool", "Tool call: " + PyStr(codec, name), Pre(arguments), callId, true)
    else if TypeIs(v, "function_call_output") then
      var outputText := ExtractOutputText(codec, Lookup(v, "output").GetOr(JString("")));
      var callId := Or(Get(v, "call_id"), JString(""));
      Display("tool-output", "Tool output", Pre(outputText), callId, true)
    else if TypeIs(v, "reasoning") then
      var summaryText := ExtractSummaryText(codec, Get(v, "summary"));
      Display("reasoning", "Reasoning", ReasoningBody(summaryText), JString(""), false)
    else Fallback(codec, v)
  }

  // ---------------------------------------------------------------------------
  // Properties of the display record

  /** Exactly the tool items and the generic events are shown as code. */
  lemma CodeExactly(codec: Codec, v: Json)
    requires Renderable(v)
    ensures SessionItemContext(codec, v).isCode <==> !IsMessage(v) && !IsReasoning(v)
  {
  }

  /** The text a code item displays: the formatted arguments of a tool call,
      the extracted output of a tool output, the formatted item otherwise. */
  function CodeText(codec: Codec, v: Json): string {
    if IsToolCall(v) then FormatJsonLike(codec, Lookup(v, "arguments").GetOr(JString("")))
    else if IsToolOutput(v) then ExtractOutputText(codec, Lookup(v, "output").GetOr(JString("")))
    else FormatJsonLike(codec, v)
  }

  /** A code item's body is its text inside `<pre>`: no markup inside the
      tags, and unescaping the inside gives the text back. */
  lemma CodeBodyLossless(codec: Codec, v: Json)
    requires Renderable(v) && SessionItemContext(codec, v).isCode
    ensures var b := SessionItemContext(codec, v).body;
            && |b| >= 11 && b[..5] == "<pre>" && b[|b| - 6..] == "</pre>"
            && (forall i | 5 <= i < |b| - 6 :: b[i] != '<' && b[i] != '>')
            && Unescape(b[5..|b| - 6]) == CodeText(codec, v)
  {
    var t := CodeText(codec, v);
    var e := Escape(t);
    var b := SessionItemContext(codec, v).body;
    assert b == "<pre>" + e + "</pre>";
    assert b[5..|b| - 6] == e;
    UnescapeEscape(t);
  }

  /** The details block is there exactly when the extracted summary has
      non-whitespace text. */
  lemma ReasoningDetails(codec: Codec, v: Json)
    requires Renderable(v) && IsReasoning(v)
    ensures var body := SessionItemContext(codec, v).body;
            Contains(body, DetailsTag) <==> !AllSpace(ExtractSummaryText(codec, Get(v, "summary")))
  {
    var st := ExtractSummaryText(codec, Get(v, "summary"));
    var body := SessionItemContext(codec, v).body;
    if AllSpace(st) {
      NoDetails(body);
    } else {
      HasDetails(body, DetailsOpen + Escape(st) + DetailsClose);
    }
  }

  lemma NoDetails(s: string)
    requires s == ThoughtParagraph
    ensures !Contains(s, DetailsTag)
  {
    assert 'd' !in s;
    forall i | 0 <= i <= |s| - 8 ensures !OccursAt(s, DetailsTag, i) {
      assert s[i..i + 8][1] == s[i + 1];
    }
  }

  lemma HasDetails(s: string, tail: string)
    requires DetailsOpen <= tail
    requires s == ThoughtParagraph + tail
    ensures Contains(s, DetailsTag)
  {
    var i := |ThoughtParagraph|;
    assert |DetailsTag| == 8;
    assert s[i..i + 8] == tail[..8] == DetailsOpen[..8] == DetailsTag;
    assert OccursAt(s, DetailsTag, i);
  }

  // ---------------------------------------------------------------------------
  // Items from the view's tests, and the order of the branches

  /** The role test comes first: a user item typed as a tool call is a message. */
  lemma MessageBeforeType(codec: Codec, v: Json)
    requires v == JObject([("role", JString("user")), ("type", JString("function_call"))])
    ensures Renderable(v)
    ensures var r := SessionItemContext(codec, v);
            r.kind == "user" && r.caption == "User" && !r.isCode
  {
    UserRole(v, "type", JString("function_call"));
    UserLabel("user");
    var r := SessionItemContext(codec, v);
    assert r.kind == "user";
  }

  /** An object whose first member is the role `"user"` is a message. */
  lemma UserRole(v: Json, b: string, y: Json)
    requires v == JObject([("role", JString("user")), (b, y)])
    ensures Get(v, "role") == JString("user") && IsMessage(v) && Renderable(v)
    ensures RoleOr(Get(v, "role")) == "user"
  {
    GetPair(v, "role", JString("user"), b, y, "role");
  }

  lemma UserLabel(kind: string)
    requires kind == "user"
    ensures MessageLabel(kind) == "User"
  {
    var t := ReplaceChar(kind, '_', ' ');
    assert t == kind;
    assert Title(t) == [Upper('u')] + TitleFrom("ser", true);
  }

  /** A user message of one plain word renders as a paragraph holding the word. */
  lemma HelloMessage(codec: Codec, v: Json)
    requires v == JObject([("role", JString("user")), ("content", JString("Hello"))])
    ensures Renderable(v)
    ensures var r := SessionItemContext(codec, v);
            r.kind == "user" && r.caption == "User" && r.body == "<p>Hello</p>" && !r.isCode
  {
    UserMessage(codec, v, "Hello");
    HelloParagraph("Hello");
  }

  /** A user message whose content is a string renders that string. */
  lemma UserMessage(codec: Codec, v: Json, text: string)
    requires v == JObject([("role", JString("user")), ("content", JString(text))])
    ensures Renderable(v) && IsMessage(v)
    ensures SessionItemContext(codec, v) == Display("user", "User", RenderMarkdown(text), JString(""), false)
  {
    UserRole(v, "content", JString(text));
    GetPair(v, "role", JString("user"), "content", JString(text), "content");
    UserLabel("user");
  }

  lemma HelloParagraph(w: string)
    requires w == "Hello"
    ensures RenderMarkdown(w) == "<p>Hello</p>"
  {
    HelloFacts(w);
    WordParagraph(w);
    HelloTags(w);
  }

  lemma HelloTags(w: string)
    requires w == "Hello"
    ensures "<p>" + w + "</p>" == "<p>Hello</p>"
  {
  }

  lemma HelloFacts(w: string)
    requires w == "Hello"
    ensures w != "" && NoLineBreak(w) && !IsSpace(w[0]) && !IsSpace(w[|w| - 1])
    ensures w[0] == 'H' && '*' !in w && '_' !in w
    ensures forall i | 0 <= i < |w| :: !IsSpecial(w[i])
  {
  }

  /** A word without markup characters renders as a paragraph holding it. */
  lemma WordParagraph(w: string)
    requires w != "" && NoLineBreak(w) && !IsSpace(w[0]) && !IsSpace(w[|w| - 1])
    requires IsAsciiLetter(w[0]) && '*' !in w && '_' !in w
    requires forall i | 0 <= i < |w| :: !IsSpecial(w[i])
    ensures RenderMarkdown(w) == "<p>" + w + "</p>"
  {
    StripUnpadded(w);
    assert !AllSpace(w);
    ClassifyPlain(w);
    RenderOneLine(w);
    EscapePlain(w);
  }

  /** The member lookups of a two-member object. */
  lemma GetPair(v: Json, a: string, x: Json, b: string, y: Json, key: string)
    requires v == JObject([(a, x), (b, y)])
    ensures Get(v, key) == if key == a then x else if key == b then y else JNull
  {
    var ms := v.members;
    if key != a {
      var tail := [(b, y)];
      assert ms[1..] == tail;
      assert Lookup(v, key) == Lookup(JObject(tail), key);
      if key != b {
        assert tail[1..] == [];
        assert Lookup(JObject(tail), key) == Lookup(JObject([]), key) == None;
      }
    }
  }


  /** A `tool` role is not a message role: without a type the item is a
      generic event showing the formatted item. */
  lemma ToolRoleIsEvent(codec: Codec, v: Json)
    requires v == JObject([("role", JString("tool")), ("content", JString("Found"))])
    ensures Renderable(v)
    ensures var r := SessionItemContext(codec, v);
            r.kind == "event" && r.caption == "Event" && r.isCode && r.body == Pre(codec.dump(v))
  {
    GetPair(v, "role", JString("tool"), "content", JString("Found"), "role");
    GetPair(v, "role", JString("tool"), "content", JString("Found"), "type");
    NotMessageRole("tool");
    UntypedEvent(codec, v, JString("tool"));
  }

  lemma NotMessageRole(role: string)
    requires role == "tool"
    ensures JString(role) !in MessageRoles
  {
  }

  /** An untyped object whose role is not a message role is a generic event. */
  lemma UntypedEvent(codec: Codec, v: Json, role: Json)
    requires v.JObject? && Get(v, "role") == role && Get(v, "type") == JNull
    requires role.JString? && role !in MessageRoles
    ensures Renderable(v)
    ensures SessionItemContext(codec, v) == Fallback(codec, v)
  {
  }


  /** A reasoning item with an empty summary list shows only the fixed paragraph. */
  lemma ReasoningWithoutSummary(codec: Codec, v: Json)
    requires v == JObject([("type", JString("reasoning")), ("summary", JArray([]))])
    ensures Renderable(v)
    ensures var r := SessionItemContext(codec, v);
            r.kind == "reasoning" && r.body == ThoughtParagraph && !Contains(r.body, DetailsTag)
  {
    GetPair(v, "type", JString("reasoning"), "summary", JArray([]), "role");
    GetPair(v, "type", JString("reasoning"), "summary", JArray([]), "type");
    GetPair(v, "type", JString("reasoning"), "summary", JArray([]), "summary");
    ReasoningItem(codec, v);
    assert ExtractSummaryText(codec, JArray([])) == "";
    NoDetails(ThoughtParagraph);
  }

  /** A reasoning item whose summary is one sentence shows it in the details block. */
  lemma ReasoningWithSummary(codec: Codec, v: Json, line: string)
    requires line == "Used the map API."
    requires v == JObject([("type", JString("reasoning")), ("summary", JArray([JString(line)]))])
    ensures Renderable(v)
    ensures var r := SessionItemContext(codec, v);
            r.kind == "reasoning" && Contains(r.body, DetailsTag) && Contains(r.body, line)
  {
    var items := [JString(line)];
    GetPair(v, "type", JString("reasoning"), "summary", JArray(items), "role");
    GetPair(v, "type", JString("reasoning"), "summary", JArray(items), "type");
    GetPair(v, "type", JString("reasoning"), "summary", JArray(items), "summary");
    ReasoningItem(codec, v);
    SentenceFacts(line);
    SummaryShown(codec, line, items, SessionItemContext(codec, v).body);
  }

  lemma SentenceFacts(line: string)
    requires line == "Used the map API."
    ensures line != "" && '\n' !in line && !IsSpace(line[0])
    ensures forall i | 0 <= i < |line| :: !IsSpecial(line[i])
  {
  }

  /** A one-line summary without special characters appears verbatim in the
      details block of the reasoning body. */
  lemma SummaryShown(codec: Codec, line: string, items: seq<Json>, body: string)
    requires line != "" && '\n' !in line && !IsSpace(line[0])
    requires forall i | 0 <= i < |line| :: !IsSpecial(line[i])
    requires items == [JString(line)]
    requires body == ReasoningBody(ExtractSummaryText(codec, JArray(items)))
    ensures Contains(body, DetailsTag) && Contains(body, line)
  {
    SummaryStringsSplit(codec, [line], items);
    assert Join([line], "\n") == line;
    ShownBody(line);
    DetailsAround(body, line);
  }

  /** A summary line without specials and not starting with whitespace is
      shown as it is inside the details block. */
  lemma ShownBody(line: string)
    requires line != "" && !IsSpace(line[0])
    requires forall i | 0 <= i < |line| :: !IsSpecial(line[i])
    ensures ReasoningBody(line) == ThoughtParagraph + DetailsOpen + line + DetailsClose
  {
    assert !AllSpace(line);
    EscapePlain(line);
  }

  /** A details block holding `line` contains the tag and the line. */
  lemma DetailsAround(body: string, line: string)
    requires body == ThoughtParagraph + DetailsOpen + line + DetailsClose
    ensures Contains(body, DetailsTag) && Contains(body, line)
  {
    var head := ThoughtParagraph + DetailsOpen;
    assert body == ThoughtParagraph + (DetailsOpen + line + DetailsClose);
    HasDetails(body, DetailsOpen + line + DetailsClose);
    assert body == head + line + DetailsClose;
    assert body[|head|..|head| + |line|] == line;
    assert OccursAt(body, line, |head|);
  }


  /** A reasoning item without a role gets the reasoning record. */
  lemma ReasoningItem(codec: Codec, v: Json)
    requires v.JObject? && Get(v, "role") == JNull && TypeIs(v, "reasoning")
    ensures Renderable(v) && IsReasoning(v)
    ensures var r := SessionItemContext(codec, v);
            r.kind == "reasoning" && r.body == ReasoningBody(ExtractSummaryText(codec, Get(v, "summary")))
  {
  }
}
