# Conversation rendering of the agentic Django example, in Dafny

This project models the layer of the sample app that turns stored
conversation items into what the session page shows. The layer lives in
`apps/sample_app/templatetags/sample_app_tags.py`, and the project also models
`prompt_to_text` from `apps/sample_app/prompts/__init__.py`.

- **`session_item_context`** classifies a JSON-like item. It tests for a
  message first, then a tool call, a tool output and a reasoning item. Anything
  else falls back to a generic event. The result is a display record: kind,
  label, body, meta and an is-code flag.
- **Extractors and formatter.** The three text extractors pull text out of
  strings, part lists and dicts. `_format_json_like` re-serialises JSON text
  and values.
- **Markdown.** `_render_markdown` is a line-by-line state machine with an
  open list and a paragraph buffer. `_format_inline` escapes HTML and then
  runs three lazy emphasis substitutions, one after another.
- **Filters.** `pretty_json` and `render_output` are template filters over the
  same pieces.

Modules, one per file:

| file | module | what it holds |
|---|---|---|
| `wrappers.dfy` | `Wrappers` | `Option` |
| `text.dfy` | `Text` | Python's `isspace`, `strip`, `join`, `split`, `splitlines`, `replace` and `title` on the inputs the renderer gives them |
| `html.dfy` | `Html` | Django's `escape` and its inverse |
| `json.dfy` | `JsonLike` | the `Json` value, `dict.get`, truthiness, `str()`, the JSON codec as a parameter, `_format_json_like` |
| `inline.dfy` | `Inline` | one generic left-to-right scanner for `re.sub` with `X(.+?)X`, run on characters and on character/tag pieces; `_format_inline` |
| `markdown.dfy` | `Markdown` | line classification, the renderer's state machine, and an independent description of the blocks it emits |
| `extract.dfy` | `Extract` | the three extractors |
| `render.dfy` | `Render` | `pretty_json`, `render_output`, `session_item_context` |
| `prompts.dfy` | `Prompts` | `prompt_to_text` |

**How the model describes the Markdown renderer.** The renderer's pass is a
fold of `Step` over classified lines. It emits `Block` values, and `BlockHtml`
gives each block's text. `Group` is a second, run-by-run description of the
same output:

- blank lines only separate blocks;
- each maximal run of paragraph lines is one paragraph;
- each maximal run of same-kind items is one list.

`RenderBlocks` proves that the fold emits exactly what `Group` describes. The
list and paragraph properties are then proved about `Group`.

**How the model describes the emphasis passes.**

- `Sub` is the lazy scanner, and `FormatInline` is the three passes over the
  escaped text.
- `InlinePieces` runs the same passes over pieces, where an inserted tag is a
  single element. `SubFlatten` proves that running a pass on pieces and then
  writing them out gives the same text as running it on the text.
- `Within`/`Balanced` count the tags. They prove that `<strong>` pairs never
  nest, that `<em>` pairs nest at most two deep, and that every tag is closed.

**What is taken as a parameter, not modelled.** `json.loads`, `json.dumps` and
Python's `str()` of a non-string value form the `Codec` parameter. Their exact
text is outside the model. Only the idempotence lemma assumes anything about
them, namely that dumps are stable: a dump is non-empty text without
surrounding whitespace, it parses, and dumping the parsed value gives the same
text. The sorted keys of `json.dumps(..., sort_keys=True)` are what make the
real codec stable, even though the value read back may list an object's
members in another order than the value that was dumped.

## Model

| member | source | states |
|---|---|---|
| `Html.Escape` | apps/sample_app/templatetags/sample_app_tags.py:21 | No `<`, `>`, `"` or `'` survives escaping. The result is never shorter. A special first character becomes the start of an entity. |
| `Html.UnescapeEscape` | apps/sample_app/templatetags/sample_app_tags.py:21 | Escaping loses nothing: unescaping the escaped text gives the input back. |
| `Html.EscapeAppend` | apps/sample_app/templatetags/sample_app_tags.py:21 | Escaping a concatenation is the concatenation of the escapes. |
| `Html.EscapePlain` | apps/sample_app/templatetags/sample_app_tags.py:21 | Text without any of the five special characters is its own escape. |
| `Html.EscapeKeepsChar` | apps/sample_app/templatetags/sample_app_tags.py:21-24 | A character that no entity uses, such as `*` or `_`, is in the escaped text exactly when it is in the input. So the emphasis passes see exactly the user's markers. |
| `Html.EscapeNoEscapedNewline` | apps/sample_app/templatetags/sample_app_tags.py:154-155 | Escaping creates no backslash-`n` pair. |
| `Text.Strip` | apps/sample_app/templatetags/sample_app_tags.py:47 | `strip()` is empty exactly when the line is all whitespace. Otherwise it neither starts nor ends with whitespace, and it is a slice of the input with only whitespace around it. |
| `Text.StripUnpadded` | apps/sample_app/templatetags/sample_app_tags.py:94 | Stripping text without surrounding whitespace changes nothing. |
| `Text.JoinAppend` | apps/sample_app/templatetags/sample_app_tags.py:36 | Joining two non-empty runs of parts puts exactly one separator between the two joins. |
| `Text.SplitOnJoin` | apps/sample_app/templatetags/sample_app_tags.py:88 | Parts without line feeds, joined with `"\n"`, split back into the same parts. |
| `Text.JoinSplitOn` | apps/sample_app/templatetags/sample_app_tags.py:116 | Splitting at a character and joining with it gives the text back. |
| `Text.SplitLines` | apps/sample_app/templatetags/sample_app_tags.py:29 | No line holds a line boundary, and there are no lines exactly when the text is empty. |
| `Text.SplitLinesJoin` | apps/sample_app/templatetags/sample_app_tags.py:29 | Lines joined with `"\n"` split back into the same lines when the last one is not empty. |
| `Text.ExpandNewlines` | apps/sample_app/templatetags/sample_app_tags.py:154-155 | Expanding backslash-`n` pairs never lengthens the text and keeps a leading `n` exactly when the input starts with one. |
| `Text.ReplaceChar` | apps/sample_app/templatetags/sample_app_tags.py:186 | `replace("_", " ")` keeps the length, changes exactly the matching characters, and leaves no `_` behind. |
| `Text.ReplaceCharBack` | apps/sample_app/templatetags/sample_app_tags.py:186 | On a text without spaces, replacing `_` by a space is undone by replacing spaces by `_`: no information is lost. |
| `Text.Title` | apps/sample_app/templatetags/sample_app_tags.py:186 | `title()` upper-cases a letter that does not follow a letter and lower-cases one that does, position by position, and keeps every other character. |
| `Text.TitleIdempotent` | apps/sample_app/templatetags/sample_app_tags.py:186 | Title-casing a label twice gives the same label as once. |
| `Text.ExpandNewlinesComplete` | apps/sample_app/templatetags/sample_app_tags.py:154 | After `replace("\\n", "\n")` no backslash-`n` pair is left. |
| `Text.ExpandNewlinesIdentity` | apps/sample_app/templatetags/sample_app_tags.py:157 | Text without a backslash-`n` pair is left unchanged. |
| `Text.ExpandNewlinesSplit` | apps/sample_app/templatetags/sample_app_tags.py:154-155 | Each backslash-`n` pair becomes exactly one line feed, and the text on either side of it is expanded on its own; with `ExpandNewlinesIdentity` this fixes the result for every input. |
| `JsonLike.Lookup` | apps/sample_app/templatetags/sample_app_tags.py:182-183 | `dict.get` finds a value only for a member with that key, and finds nothing only when no member has the key. |
| `JsonLike.FormatJsonLike` | apps/sample_app/templatetags/sample_app_tags.py:92-102 | Whitespace-only text gives `""`. Text that fails to parse is returned unchanged, unstripped. Parsed text and any non-string value give the dump. |
| `JsonLike.FormatJsonLikeIdempotent` | apps/sample_app/templatetags/sample_app_tags.py:92-102 | With a stable codec, formatting the text of a formatted value gives the same text. |
| `JsonLike.DumpIsStable` | apps/sample_app/templatetags/sample_app_tags.py:97-101 | With a stable codec, formatting the text of a dump gives the dump again. |
| `Inline.FindClose` | apps/sample_app/templatetags/sample_app_tags.py:15-17 | The lazy search for the closing marker splits the rest into content, marker and remainder. No line feed is in the content, because `.` does not match one. |
| `Inline.FindCloseFirst` | apps/sample_app/templatetags/sample_app_tags.py:15-17 | The search stops at the first closing marker, and fails only when every closing marker has a line feed before it. |
| `Inline.SubNoMatch` | apps/sample_app/templatetags/sample_app_tags.py:22-24 | A substitution leaves a text in which the pattern matches at no position unchanged. |
| `Inline.SubFirstMatch` | apps/sample_app/templatetags/sample_app_tags.py:22-24 | A substitution replaces the leftmost match: the text before it is kept, the match becomes the opening tag, its group and the closing tag, and scanning resumes after the closing marker. |
| `Inline.SubInert` | apps/sample_app/templatetags/sample_app_tags.py:22-24 | A stretch of text without the marker's first character passes through a substitution unchanged, whatever follows it. |
| `Inline.SubElements` | apps/sample_app/templatetags/sample_app_tags.py:22-24 | Every character a substitution produces comes from the input or from the inserted tags. |
| `Inline.SubFlatten` | apps/sample_app/templatetags/sample_app_tags.py:22-24 | Running a pass on pieces and writing them out gives the same text as running it on the text. A tag inserted earlier acts as one opaque element in a later pass. |
| `Inline.SubWithin` | apps/sample_app/templatetags/sample_app_tags.py:22-24 | A pass keeps every tag pair's running depth in bounds. It leaves the final depth unchanged, and it raises the highest depth by one only for the pair it inserts. |
| `Inline.FormatInline` | apps/sample_app/templatetags/sample_app_tags.py:20-25 | Text with neither `*` nor `_` comes out merely escaped. |
| `Inline.InlineMarkup` | apps/sample_app/templatetags/sample_app_tags.py:20-25 | The output is the text of its pieces. `<strong>` tags are balanced and never nest. `<em>` tags are balanced and nest at most two deep. Every `<` or `>` in it belongs to an inserted tag. |
| `Inline.BoldExample` | apps/sample_app/templatetags/sample_app_tags.py:22-23 | `**a**` becomes `<strong>a</strong>`, because the bold pass runs before the single-star pass. |
| `Inline.CrossedTagsExample` | apps/sample_app/templatetags/sample_app_tags.py:22-23 | `**a*b**c*` becomes `<strong>a<em>b</strong>c</em>`: the passes do not respect each other's tags. |
| `Inline.UnderscoreExample` | apps/sample_app/templatetags/sample_app_tags.py:24 | `snake_case_name` becomes `snake<em>case</em>name`. |
| `Markdown.Classify` | apps/sample_app/templatetags/sample_app_tags.py:47-58 | A line is blank exactly when it is all whitespace. A paragraph line keeps its unstripped text. An item's text is non-empty, unpadded and has no line feed. |
| `Markdown.ClassifyItem` | apps/sample_app/templatetags/sample_app_tags.py:53-58 | A line is an item of a kind with a text exactly when that kind's pattern matches the stripped line with that group. The bullet pattern is tried first. |
| `Markdown.FlushParagraph` | apps/sample_app/templatetags/sample_app_tags.py:34-38 | Pending lines become one paragraph, and nothing is added when there are none. |
| `Markdown.CloseOpenList` | apps/sample_app/templatetags/sample_app_tags.py:40-44 | An open list gets its closing tag and the state forgets it. Nothing happens when no list is open. |
| `Markdown.Step` | apps/sample_app/templatetags/sample_app_tags.py:47-67 | One line only appends parts. Afterwards a paragraph and a list are never pending together. A paragraph line joins the pending paragraph, an item leaves its own kind of list open with the item last, and a blank line leaves nothing pending. |
| `Markdown.RunFrom` | apps/sample_app/templatetags/sample_app_tags.py:46-67 | The loop only appends parts, and after at least one line a paragraph and a list are never pending together. |
| `Markdown.Finish` | apps/sample_app/templatetags/sample_app_tags.py:69-70 | After the final flush and close nothing is pending, and the parts emitted so far are kept. |
| `Markdown.RenderBlocks` | apps/sample_app/templatetags/sample_app_tags.py:46-70 | The renderer's pass emits exactly the blocks of the run-by-run description: blank lines separate, a maximal paragraph run is one paragraph, and a maximal same-kind item run is one list. |
| `Markdown.GroupNested` | apps/sample_app/templatetags/sample_app_tags.py:59-63 | Lists never nest. Every list opened is closed by its own tag before the end. Items stand only inside lists and paragraphs only outside them. |
| `Markdown.GroupEmpty` | apps/sample_app/templatetags/sample_app_tags.py:48-51 | No block is emitted exactly when every line is blank. |
| `Markdown.GroupKeepsText` | apps/sample_app/templatetags/sample_app_tags.py:46-67 | The paragraphs hold every paragraph line and the lists every item, each in input order. |
| `Markdown.KindSwitchExample` | apps/sample_app/templatetags/sample_app_tags.py:59-63 | A bullet item followed by a numbered one closes the bullet list before the numbered list opens. |
| `Markdown.ParagraphExample` | apps/sample_app/templatetags/sample_app_tags.py:34-51 | Consecutive paragraph lines share one paragraph. A blank line between them makes two paragraphs. |
| `Markdown.RenderLines` | apps/sample_app/templatetags/sample_app_tags.py:69-71 | All-blank input gives exactly `<p></p>`. Otherwise the output is the blocks' HTML joined with line feeds. It is never empty and starts with a tag. |
| `Markdown.RenderMarkdown` | apps/sample_app/templatetags/sample_app_tags.py:28-71 | Empty text gives `<p></p>`, and the result always starts with a tag. |
| `Markdown.RenderOneLine` | apps/sample_app/templatetags/sample_app_tags.py:36-37 | A single paragraph line renders as one `<p>` holding its inline-formatted text. |
| `Extract.KeepAppend` | apps/sample_app/templatetags/sample_app_tags.py:78-88 | Collected parts keep the order of the items they come from. |
| `Extract.KeepMember` | apps/sample_app/templatetags/sample_app_tags.py:78-88 | A string is among the collected parts exactly when some item yields it. |
| `Extract.KeepEmpty` | apps/sample_app/templatetags/sample_app_tags.py:109-116 | Nothing is collected exactly when no item yields a part. |
| `Extract.Keep` | apps/sample_app/templatetags/sample_app_tags.py:78-88 | Collecting yields at most one part per item, and exactly one per item when every item yields a part. |
| `Extract.NonEmptyNone` | apps/sample_app/templatetags/sample_app_tags.py:140 | The `if part` filter leaves nothing exactly when every part is empty. |
| `Extract.ContentPart` | apps/sample_app/templatetags/sample_app_tags.py:80-87 | Only dicts yield content parts. A string `text` wins over `refusal`. When `text` is not a string, a string `refusal` is the part, and otherwise there is none. |
| `Extract.ExtractContentText` | apps/sample_app/templatetags/sample_app_tags.py:74-89 | A string is returned verbatim. A list gives its content parts joined with line feeds, which is `""` when there are none. `None` gives `""`, and a bool, number or dict gives `str()` of it. |
| `Extract.ContentTextSplits` | apps/sample_app/templatetags/sample_app_tags.py:77-88 | The parts are joined in list order with line feeds: splitting the result gives them back. |
| `Extract.ContentTextAppend` | apps/sample_app/templatetags/sample_app_tags.py:77-88 | The text of two concatenated content lists, each with parts, is the first text, a line feed, and the second text. |
| `Extract.OutputPart` | apps/sample_app/templatetags/sample_app_tags.py:111-114 | An output item yields a part exactly when it is a dict whose `text` is a string. |
| `Extract.ExtractOutputText` | apps/sample_app/templatetags/sample_app_tags.py:105-121 | A string is returned verbatim. A list with text parts gives them joined with line feeds. A dict with a string `text` gives that text. A list without text parts, a dict without a string `text`, and any scalar (`None` included) give the dump. |
| `Extract.OutputTextSplits` | apps/sample_app/templatetags/sample_app_tags.py:108-116 | The text parts are joined in list order with line feeds. |
| `Extract.OutputTextAppend` | apps/sample_app/templatetags/sample_app_tags.py:108-116 | The text of two concatenated output lists, each with text parts, is the first text, a line feed, and the second text. |
| `Extract.SummaryPart` | apps/sample_app/templatetags/sample_app_tags.py:129-139 | Only `None` yields no summary part. A string yields itself. A dict yields its `text`-or-`summary` field when that is a string and `str()` of the dict otherwise. A bool, number or list yields `str()` of itself. |
| `Extract.ExtractSummaryText` | apps/sample_app/templatetags/sample_app_tags.py:124-147 | A string is returned verbatim; `None` and an empty list give `""`; a list gives its non-empty parts joined with line feeds; a dict gives its `text` (or else `summary`) field when that is a string, and its JSON dump otherwise; a bool or number gives its JSON dump. |
| `Extract.SummaryListEmpty` | apps/sample_app/templatetags/sample_app_tags.py:127-140 | A summary list gives `""` exactly when none of its items yields a non-empty part. |
| `Extract.SummaryStringsSplit` | apps/sample_app/templatetags/sample_app_tags.py:127-140 | A list of non-empty single-line strings gives their join, and splitting it gives the list back. |
| `Render.PrettyJson` | apps/sample_app/templatetags/sample_app_tags.py:150-158 | The filter's output holds no `<`, `>`, `"` or `'`. |
| `Render.PrettyJsonRecovers` | apps/sample_app/templatetags/sample_app_tags.py:150-158 | Unescaping the output gives the text with backslash-`n` pairs expanded, and no such pair is left. |
| `Render.RenderOutput` | apps/sample_app/templatetags/sample_app_tags.py:161-168 | A string is rendered as markdown. Any other value is `pretty_json`'s text inside `<pre>`. The result starts with a tag. |
| `Render.RoleOr` | apps/sample_app/templatetags/sample_app_tags.py:186 | `role or "assistant"` is the role when the role is truthy and `"assistant"` when it is not. |
| `Render.ReasoningBody` | apps/sample_app/templatetags/sample_app_tags.py:228-240 | The body starts with the fixed paragraph. The escaped summary follows in a details block exactly when the summary has non-whitespace text. |
| `Render.Fallback` | apps/sample_app/templatetags/sample_app_tags.py:174-180 | The generic record has kind `event`, label `Event`, empty meta and is code. |
| `Render.SessionItemContext` | apps/sample_app/templatetags/sample_app_tags.py:181-249 | The message test comes before every type test. A message gets role-or-`assistant` as its kind, the title-cased label, the rendered content, empty meta and no code flag. The tool branches get their kinds, labels, `call_id`-or-`""` meta and the code flag. Reasoning gets its body. Everything else, non-dicts included, gets the generic record. |
| `Render.CodeExactly` | apps/sample_app/templatetags/sample_app_tags.py:179-245 | An item is shown as code exactly when it is neither a message nor reasoning. |
| `Render.CodeBodyLossless` | apps/sample_app/templatetags/sample_app_tags.py:205-248 | A code body is `<pre>`, escaped text, `</pre>`. Nothing between the tags can open markup, and unescaping it gives back the arguments, the output text or the formatted item. |
| `Render.ReasoningDetails` | apps/sample_app/templatetags/sample_app_tags.py:225-235 | The body contains `<details` exactly when the extracted summary has non-whitespace text. |
| `Render.MessageBeforeType` | apps/sample_app/templatetags/sample_app_tags.py:184-196 | A `user` item typed `function_call` renders as a user message. |
| `Render.HelloMessage` | apps/sample_app/tests/test_session_items.py:22-26 | `{"role": "user", "content": "Hello"}` renders as a `User` message whose body is `<p>Hello</p>`. |
| `Render.ToolRoleIsEvent` | apps/sample_app/tests/test_session_items.py:27-31 | `{"role": "tool", "content": "Found"}` is a generic event whose body is the escaped dump of the item. |
| `Render.ReasoningWithoutSummary` | apps/sample_app/tests/test_session_items.py:66-85 | A reasoning item with an empty summary list shows only the fixed paragraph, with no `<details`. |
| `Render.ReasoningWithSummary` | apps/sample_app/tests/test_session_items.py:88-108 | A reasoning item whose summary is `["Used the map API."]` shows a details block holding that sentence. |
| `Prompts.PromptToText` | apps/sample_app/prompts/__init__.py:25-31 | A non-empty system message wins. Otherwise a non-empty developer message wins. Otherwise the conversation's contents are joined with blank lines, which gives `""` for an empty conversation. |
| `Prompts.FirstNonEmpty` | apps/sample_app/prompts/__init__.py:28-31 | The reference selection is empty exactly when every candidate is, and otherwise is one of the candidates. |
| `Prompts.PromptToTextFirst` | apps/sample_app/prompts/__init__.py:28-31 | The prompt's text is the first non-empty one of the system message, the developer message and the joined conversation, with a missing message counting as empty. |

## Left out

- `_to_jsonable` is not part of this model. It is taken as the identity on JSON values, so every filter starts from a `Json`.
- JSON numbers other than integers, and Python's NaN/Infinity extensions, are not in `Json`.
- `json.loads`, `json.dumps` and `str()` are the `Codec` parameter. Their exact text (indentation, key order, quoting) is outside the model.
- `Render.ToolRoleIsEvent`: the view's test also expects `Found` on the page. That holds only when the dump of the item contains it, which depends on the abstract `json.dumps`.
- `mark_safe` only tags a string as safe. The model returns the plain string.
- `Markdown.Classify`: `\d` is taken to be the ASCII digits. Python's `\d` also matches other Unicode decimal digits.
- `Text.Title`: `str.title()` is modelled for ASCII letters only. Other characters are kept as they are and do not count as letters. Python case-maps non-ASCII letters and counts them as letters, so `"éa".title()` is `"Éa"` in Python while the model gives `"éA"`.
- The renderer's `html_parts` strings are modelled as `Block` values, with `BlockHtml` giving each one's text. The final join is over `BlockHtml` of the blocks.
- `Render.SessionItemContext` requires `Renderable`. Python raises `TypeError` when a dict's `role` is a list or dict (unhashable in the set test). It raises `AttributeError` when a message's role is truthy but not a string (`.replace`). Those items are outside the function's domain.
- `load_prompt` and `_promptdown_text` read package resources and call an external parser. `Prompt` holds only the fields `prompt_to_text` reads.
- The rest of the repository is outside this model: views, tools, settings, URL routing, the UI script, the agent registry, and the run/session orchestration of the unseen `agentic_django` package.
