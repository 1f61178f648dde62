/** `prompt_to_text`: the instruction text of a loaded prompt. */
module Prompts {
  import opened Wrappers
  import opened Text

  /** The parts of a structured prompt the function reads: the two optional
      header messages and the contents of the conversation's messages, in
      order. */
  datatype Prompt = Prompt(system: Option<string>, developer: Option<string>, conversation: seq<string>)

  /** Python's truth value of an optional string. */
  predicate Present(m: Option<string>) {
    m.Some? && m.value != ""
  }

  /** `prompt_to_text(prompt)`: the system message if it is non-empty, else
      the developer message if it is non-empty, else the conversation's
      contents joined with blank lines, and `""` when none of these gives
      text. */
  function PromptToText(p: Prompt): (r: string)
    ensures Present(p.system) ==> r == p.system.value
    ensures !Present(p.system) && Present(p.developer) ==> r == p.developer.value
    ensures !Present(p.system) && !Present(p.developer) ==> r == Join(p.conversation, "\n\n")
  {
    var text := if Present(p.system) then p.system else p.developer;
    var text := if !Present(text) && |p.conversation| > 0 then Some(Join(p.conversation, "\n\n")) else text;
    if Present(text) then text.value else ""
  }

  /** The first non-empty string of `candidates`, or `""`. */
  function FirstNonEmpty(candidates: seq<string>): (r: string)
    ensures r == "" <==> forall k | 0 <= k < |candidates| :: candidates[k] == ""
    ensures r != "" ==> r in candidates
    decreases |candidates|
  {
    if |candidates| == 0 then ""
    else if candidates[0] != "" then candidates[0]
    else FirstNonEmpty(candidates[1..])
  }

  /** The prompt's text is the first non-empty one of the system message, the
      developer message and the joined conversation, a missing message
      counting as empty. */
  lemma PromptToTextFirst(p: Prompt)
    ensures PromptToText(p) == FirstNonEmpty([p.system.GetOr(""), p.developer.GetOr(""), Join(p.conversation, "\n\n")])
  {
    var cs := [p.system.GetOr(""), p.developer.GetOr(""), Join(p.conversation, "\n\n")];
    assert cs[1..] == [cs[1], cs[2]] && cs[1..][1..] == [cs[2]] && cs[1..][1..][1..] == [];
  }
}
