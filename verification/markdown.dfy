/** The small Markdown renderer: the text is split into lines, each line is
    classified as blank, a list item or paragraph text, and a left-to-right
    pass groups consecutive paragraph lines into one `<p>` and consecutive
    items of one kind into one `<ul>` or `<ol>`.

    The pass is modelled as the state machine the renderer runs (`Step`,
    `RunFrom`, `Finish`), and `Group` gives an independent, run-by-run
    description of the blocks it should produce; `RenderBlocks` proves the
    two agree. The emitted parts are kept as `Block`s and turned into HTML
    text only at the end, by `BlockHtml`. */
module Markdown {
  import opened Wrappers
  import opened Text
  import opened Inline

  // ---------------------------------------------------------------------------
  // Line classification

  datatype ListKind = Bullet | Numbered

  /** The element name of a list kind. */
  function ListTag(k: ListKind): string {
    match k
    case Bullet => "ul"
    case Numbered => "ol"
  }

  /** A line as the renderer sees it: blank after stripping, a list item with
      its text, or paragraph text kept exactly as written. */
  datatype Line = Blank | Item(kind: ListKind, text: string) | Plain(line: string)

  predicate IsDigit(c: char) { '0' <= c <= '9' }

  predicate AllDigits(s: string) {
    forall i | 0 <= i < |s| :: IsDigit(s[i])
  }

  /** The length of the run of digits that starts `s`. */
  function DigitRun(s: string): (n: nat)
    ensures n <= |s| && AllDigits(s[..n])
    ensures n < |s| ==> !IsDigit(s[n])
    decreases |s|
  {
    if |s| > 0 && IsDigit(s[0]) then
      var n := 1 + DigitRun(s[1..]);
      assert forall i | 1 <= i < n :: s[..n][i] == s[1..][..n - 1][i - 1];
      n
    else 0
  }

  /** What `(.*)` captures after `\s+` in the item patterns: the rest of `st`
      once the whitespace run that starts at `i` is skipped. */
  function AfterSpace(st: string, i: nat): string
    requires i <= |st|
  {
    st[i + LeadingSpace(st[i..])..]
  }

  /** The two item patterns, `^[-*]\s+(.*)$` and `^\d+\.\s+(.*)$`, tried on
      the stripped line, bullets first; anything else that is not blank is
      paragraph text. */
  function Classify(line: string): (r: Line)
    ensures r.Blank? <==> AllSpace(line)
    ensures r.Plain? ==> r.line == line
    ensures r.Item? ==> r.text != "" && !IsSpace(r.text[0]) && !IsSpace(r.text[|r.text| - 1]) && '\n' !in r.text
  {
    var st := Strip(line);
    if st == "" then Blank
    else match BulletMatch(st)
      case Some(t) => Item(Bullet, t)
      case None =>
        match NumberedMatch(st)
        case Some(t) => Item(Numbered, t)
        case None => Plain(line)
  }

  /** The group `^[-*]\s+(.*)$` captures in the stripped line `st`, if the
      pattern matches. `.` does not match a line feed, so the group never
      holds one; in a line with no trailing whitespace it is not empty and
      has no surrounding whitespace. */
  function BulletMatch(st: string): (r: Option<string>)
    ensures r.Some? ==> |st| > 1 && IsSpace(st[1]) && '\n' !in r.value
    ensures r.Some? && !IsSpace(st[|st| - 1]) ==>
              r.value != "" && !IsSpace(r.value[0]) && !IsSpace(r.value[|r.value| - 1])
  {
    if |st| > 1 && (st[0] == '-' || st[0] == '*') && IsSpace(st[1]) && '\n' !in AfterSpace(st, 1) then
      ItemTextEnds(st, 1);
      Some(AfterSpace(st, 1))
    else None
  }

  /** The group `^\d+\.\s+(.*)$` captures in the stripped line `st`, if the
      pattern matches, with the same shape as a bullet's. */
  function NumberedMatch(st: string): (r: Option<string>)
    ensures r.Some? ==> 0 < DigitRun(st) && DigitRun(st) + 1 < |st| && '\n' !in r.value
    ensures r.Some? && !IsSpace(st[|st| - 1]) ==>
              r.value != "" && !IsSpace(r.value[0]) && !IsSpace(r.value[|r.value| - 1])
  {
    var n := DigitRun(st);
    if 0 < n && n + 1 < |st| && st[n] == '.' && IsSpace(st[n + 1]) && '\n' !in AfterSpace(st, n + 1) then
      ItemTextEnds(st, n + 1);
      Some(AfterSpace(st, n + 1))
    else None
  }

  /** The text after a whitespace run inside a stripped line is not empty and
      neither starts nor ends with whitespace. */
  lemma ItemTextShape(st: string, i: nat)
    requires i < |st| && !IsSpace(st[|st| - 1])
    ensures var t := AfterSpace(st, i);
            t != "" && !IsSpace(t[0]) && !IsSpace(t[|t| - 1]) && t == st[|st| - |t|..]
  {
    ItemTextEnds(st, i);
  }

  lemma ItemTextEnds(st: string, i: nat)
    requires i < |st|
    ensures var t := AfterSpace(st, i);
            !IsSpace(st[|st| - 1]) ==> t != "" && !IsSpace(t[0]) && !IsSpace(t[|t| - 1])
  {
    if !IsSpace(st[|st| - 1]) {
      var u := st[i..];
      var n := LeadingSpace(u);
      assert u[|u| - 1] == st[|st| - 1];
      assert n < |u|;
      assert u[n] == st[i + n];
    }
  }

  /** When `s` starts with exactly `n` whitespace characters,
      `LeadingSpace` finds them. */
  lemma {:induction false} LeadingSpaceExact(s: string, n: nat)
    requires n <= |s| && AllSpace(s[..n]) && (n < |s| ==> !IsSpace(s[n]))
    ensures LeadingSpace(s) == n
    decreases n
  {
    if n > 0 {
      assert s[..n][0] == s[0];
      assert s[1..][..n - 1] == s[..n][1..];
      LeadingSpaceExact(s[1..], n - 1);
    }
  }

  /** `^[-*]\s+(.*)$` matches the stripped line `st` with group `t`: a dash or
      star, one or more whitespace characters, then `t`, which starts with
      no whitespace (the run is greedy) and holds no line feed. */
  predicate BulletSyntax(st: string, t: string) {
    var j := |st| - |t|;
    && 2 <= j
    && (st[0] == '-' || st[0] == '*')
    && AllSpace(st[1..j])
    && st[j..] == t
    && (t == "" || !IsSpace(t[0]))
    && '\n' !in t
  }

  /** `^\d+\.\s+(.*)$` matches `st` with group `t`: digits, a dot, one or more
      whitespace characters, then `t`. */
  predicate NumberedSyntax(st: string, t: string) {
    var j := |st| - |t|;
    && 0 <= j
    && (exists n | 1 <= n && n + 2 <= j :: AllDigits(st[..n]) && st[n] == '.' && AllSpace(st[n + 1..j]))
    && st[j..] == t
    && (t == "" || !IsSpace(t[0]))
    && '\n' !in t
  }

  predicate ItemSyntax(k: ListKind, st: string, t: string) {
    match k
    case Bullet => BulletSyntax(st, t)
    case Numbered => NumberedSyntax(st, t) && !BulletSyntax(st, t)
  }

  /** A line is classified as an item of kind `k` with text `t` exactly when
      that kind's pattern matches the stripped line with group `t` (and, for a
      numbered item, the bullet pattern, tried first, does not). */
  lemma ClassifyItem(line: string, k: ListKind, t: string)
    ensures Classify(line) == Item(k, t) <==> ItemSyntax(k, Strip(line), t)
  {
    var st := Strip(line);
    if Classify(line) == Item(k, t) {
      ClassifyItemSound(line, k, t);
    }
    if ItemSyntax(k, st, t) {
      ClassifyItemComplete(line, k, t);
    }
  }

  lemma ClassifyItemSound(line: string, k: ListKind, t: string)
    requires Classify(line) == Item(k, t)
    ensures ItemSyntax(k, Strip(line), t)
  {
    var st := Strip(line);
    if BulletMatch(st).Some? {
      BulletSound(st, t);
    } else {
      var n := DigitRun(st);
      assert st[..n][0] == st[0];
      NumberedSound(st, t, n);
    }
  }

  lemma BulletSound(st: string, t: string)
    requires |st| > 1 && !IsSpace(st[|st| - 1])
    requires (st[0] == '-' || st[0] == '*') && IsSpace(st[1]) && '\n' !in t
    requires t == AfterSpace(st, 1)
    ensures BulletSyntax(st, t)
  {
    SpaceRun(st, 1);
    ItemTextShape(st, 1);
  }

  lemma NumberedSound(st: string, t: string, n: nat)
    requires 0 < n && n + 1 < |st| && !IsSpace(st[|st| - 1])
    requires AllDigits(st[..n]) && IsDigit(st[0])
    requires st[n] == '.' && IsSpace(st[n + 1]) && '\n' !in t
    requires t == AfterSpace(st, n + 1)
    ensures NumberedSyntax(st, t) && !BulletSyntax(st, t)
  {
    NumberedSyntaxOf(st, t, n);
    NotBullet(st, t);
  }

  lemma NumberedSyntaxOf(st: string, t: string, n: nat)
    requires 0 < n && n + 1 < |st| && !IsSpace(st[|st| - 1])
    requires AllDigits(st[..n])
    requires st[n] == '.' && IsSpace(st[n + 1]) && '\n' !in t
    requires t == AfterSpace(st, n + 1)
    ensures NumberedSyntax(st, t)
  {
    var i := n + 1;
    var j := i + LeadingSpace(st[i..]);
    SpaceRun(st, i);
    assert |t| == |st| - j;
    ItemTextEnds(st, i);
    NumberedWitness(st, t, n, j);
  }

  lemma NumberedWitness(st: string, t: string, n: nat, j: nat)
    requires 1 <= n && n + 2 <= j <= |st| && j == |st| - |t|
    requires AllDigits(st[..n]) && st[n] == '.' && AllSpace(st[n + 1..j])
    requires st[j..] == t && t != "" && !IsSpace(t[0]) && '\n' !in t
    ensures NumberedSyntax(st, t)
  {
  }

  lemma NotBullet(st: string, t: string)
    requires |st| > 0 && IsDigit(st[0])
    ensures !BulletSyntax(st, t)
  {
  }

  /** Where the whitespace run starting at `i` ends, when it is not empty. */
  lemma SpaceRun(st: string, i: nat)
    requires i < |st| && IsSpace(st[i])
    ensures var j := i + LeadingSpace(st[i..]);
            j > i && AllSpace(st[i..j]) && st[j..] == AfterSpace(st, i)
  {
    var u := st[i..];
    var n := LeadingSpace(u);
    assert u[0] == st[i];
    assert st[i..i + n] == u[..n];
  }

  /** A bullet match pins its group down: `t` is what follows the first
      whitespace run. */
  lemma BulletSyntaxExact(st: string, t: string)
    requires BulletSyntax(st, t)
    ensures IsSpace(st[1]) && t == AfterSpace(st, 1)
  {
    var j := |st| - |t|;
    assert st[1..j][0] == st[1];
    AfterSpaceExact(st, t, 1, j);
  }

  /** When a non-empty whitespace run from `i` to `j` is followed by `t`, which
      does not start with whitespace, `t` is what follows the run. */
  lemma AfterSpaceExact(st: string, t: string, i: nat, j: nat)
    requires i < j <= |st| && j == |st| - |t|
    requires AllSpace(st[i..j]) && st[j..] == t && (t == "" || !IsSpace(t[0]))
    ensures t == AfterSpace(st, i)
  {
    var u := st[i..];
    assert u[..j - i] == st[i..j];
    if j < |st| {
      assert u[j - i] == t[0];
    }
    LeadingSpaceExact(u, j - i);
  }

  lemma ClassifyItemComplete(line: string, k: ListKind, t: string)
    requires ItemSyntax(k, Strip(line), t)
    ensures Classify(line) == Item(k, t)
  {
    var st := Strip(line);
    match k
    case Bullet =>
      BulletSyntaxExact(st, t);
      ClassifyBullet(line, st, t);
    case Numbered =>
      var n := NumberedFacts(st, t);
      ClassifyNumbered(line, st, t, n);
  }

  /** The digit count of a numbered match. */
  lemma NumberedFacts(st: string, t: string) returns (n: nat)
    requires NumberedSyntax(st, t)
    ensures IsDigit(st[0]) && DigitRun(st) == n && 0 < n && n + 1 < |st| && st[n] == '.' && IsSpace(st[n + 1])
    ensures t == AfterSpace(st, n + 1) && '\n' !in t
  {
    var j := |st| - |t|;
    n :| 1 <= n && n + 2 <= j && AllDigits(st[..n]) && st[n] == '.' && AllSpace(st[n + 1..j]);
    NumberedSyntaxExact(st, t, n, j);
  }



  lemma ClassifyBullet(line: string, st: string, t: string)
    requires st == Strip(line) && |st| > 1
    requires (st[0] == '-' || st[0] == '*') && IsSpace(st[1])
    requires t == AfterSpace(st, 1) && '\n' !in t
    ensures Classify(line) == Item(Bullet, t)
  {
  }


  /** A numbered match pins its group down: `n` digits, a dot, and `t` is
      what follows the whitespace run after the dot. */
  lemma NumberedSyntaxExact(st: string, t: string, n: nat, j: nat)
    requires 1 <= n && n + 2 <= j && j == |st| - |t|
    requires AllDigits(st[..n]) && st[n] == '.' && AllSpace(st[n + 1..j])
    requires st[j..] == t && (t == "" || !IsSpace(t[0]))
    ensures IsDigit(st[0]) && DigitRun(st) == n && n + 1 < |st| && IsSpace(st[n + 1])
    ensures t == AfterSpace(st, n + 1)
  {
    assert st[..n][0] == st[0];
    DigitRunExact(st, n);
    assert st[n + 1..j][0] == st[n + 1];
    AfterSpaceExact(st, t, n + 1, j);
  }

  lemma ClassifyNumbered(line: string, st: string, t: string, n: nat)
    requires st == Strip(line) && |st| > 0
    requires IsDigit(st[0]) && DigitRun(st) == n && 0 < n && n + 1 < |st| && st[n] == '.' && IsSpace(st[n + 1])
    requires t == AfterSpace(st, n + 1) && '\n' !in t
    ensures Classify(line) == Item(Numbered, t)
  {
    NumberedMatches(st, t, n);
  }

  lemma NumberedMatches(st: string, t: string, n: nat)
    requires |st| > 0
    requires IsDigit(st[0]) && DigitRun(st) == n && 0 < n && n + 1 < |st| && st[n] == '.' && IsSpace(st[n + 1])
    requires t == AfterSpace(st, n + 1) && '\n' !in t
    ensures BulletMatch(st) == None && NumberedMatch(st) == Some(t)
  {
  }


  lemma {:induction false} DigitRunExact(s: string, n: nat)
    requires n < |s| && AllDigits(s[..n]) && !IsDigit(s[n])
    ensures DigitRun(s) == n
    decreases n
  {
    if n > 0 {
      assert s[..n][0] == s[0];
      assert s[1..][..n - 1] == s[..n][1..];
      DigitRunExact(s[1..], n - 1);
    }
  }

  // ---------------------------------------------------------------------------
  // The output blocks

  /** One entry of the renderer's list of HTML parts. */
  datatype Block = OpenList(kind: ListKind) | CloseList(kind: ListKind) | ListItem(text: string) | Paragraph(lines: seq<string>)

  function FormatAll(lines: seq<string>): (r: seq<string>)
    ensures |r| == |lines| && forall i | 0 <= i < |lines| :: r[i] == FormatInline(lines[i])
  {
    seq(|lines|, i requires 0 <= i < |lines| => FormatInline(lines[i]))
  }

  /** The HTML text of a block: list tags, an item, or a paragraph whose lines
      are formatted one by one and joined with `<br>`. */
  function BlockHtml(b: Block): (r: string)
    ensures |r| > 0 && r[0] == '<'
  {
    match b
    case OpenList(k) => "<" + ListTag(k) + ">"
    case CloseList(k) => "</" + ListTag(k) + ">"
    case ListItem(t) => "<li>" + FormatInline(t) + "</li>"
    case Paragraph(ls) => "<p>" + Join(FormatAll(ls), "<br>") + "</p>"
  }

  function HtmlAll(bs: seq<Block>): (r: seq<string>)
    ensures |r| == |bs| && forall i | 0 <= i < |bs| :: r[i] == BlockHtml(bs[i])
  {
    seq(|bs|, i requires 0 <= i < |bs| => BlockHtml(bs[i]))
  }

  // ---------------------------------------------------------------------------
  // The renderer's pass

  /** The renderer's variables: the parts emitted so far, the pending
      paragraph lines and the list that is open, if any. */
  datatype State = State(parts: seq<Block>, para: seq<string>, open: Option<ListKind>)

  const Init := State([], [], None)

  /** `flush_paragraph`: pending lines become one paragraph. */
  function FlushParagraph(st: State): (r: State)
    ensures r.para == [] && r.open == st.open
    ensures r.parts == st.parts + (if st.para == [] then [] else [Paragraph(st.para)])
  {
    if st.para == [] then st else State(st.parts + [Paragraph(st.para)], [], st.open)
  }

  /** `close_list`: the open list, if any, is closed. */
  function CloseOpenList(st: State): (r: State)
    ensures r.para == st.para && r.open == None
    ensures r.parts == st.parts + (if st.open.Some? then [CloseList(st.open.value)] else [])
  {
    match st.open
    case None => st
    case Some(k) => State(st.parts + [CloseList(k)], st.para, None)
  }

  /** One iteration of the loop over lines. Parts are only ever appended;
      afterwards a paragraph and a list are never pending together; a
      paragraph line joins the pending paragraph, an item leaves its list
      open with the item last, and a blank line leaves nothing pending. */
  function Step(st: State, l: Line): (r: State)
    ensures st.parts <= r.parts
    ensures r.para == [] || r.open == None
    ensures l.Plain? ==> r.para == st.para + [l.line] && r.open == None
    ensures l.Item? ==> r.para == [] && r.open == Some(l.kind) && |r.parts| > 0 && r.parts[|r.parts| - 1] == ListItem(l.text)
    ensures l.Blank? ==> r.para == [] && r.open == None
  {
    match l
    case Blank => CloseOpenList(FlushParagraph(st))
    case Item(k, t) =>
      var f := FlushParagraph(st);
      var g := if f.open == Some(k) then f
               else var c := CloseOpenList(f); State(c.parts + [OpenList(k)], c.para, Some(k));
      g.(parts := g.parts + [ListItem(t)])
    case Plain(x) =>
      var c := CloseOpenList(st);
      c.(para := c.para + [x])
  }

  /** The loop over lines, from state `st`: parts are only ever appended,
      and after at least one line a paragraph and a list are never pending
      together. */
  function RunFrom(st: State, ls: seq<Line>): (r: State)
    ensures st.parts <= r.parts
    ensures |ls| > 0 ==> r.para == [] || r.open == None
    decreases |ls|
  {
    if |ls| == 0 then st else RunFrom(Step(st, ls[0]), ls[1..])
  }

  /** What happens after the loop: flush, then close. */
  function Finish(st: State): (r: State)
    ensures r.para == [] && r.open == None
    ensures st.parts <= r.parts
  {
    CloseOpenList(FlushParagraph(st))
  }

  function ClassifyAll(lines: seq<string>): (r: seq<Line>)
    ensures |r| == |lines| && forall i | 0 <= i < |lines| :: r[i] == Classify(lines[i])
  {
    seq(|lines|, i requires 0 <= i < |lines| => Classify(lines[i]))
  }

  // ---------------------------------------------------------------------------
  // The blocks described run by run

  /** The number of paragraph lines that start `ls`. */
  function PlainRun(ls: seq<Line>): (n: nat)
    ensures n <= |ls| && (forall i | 0 <= i < n :: ls[i].Plain?) && (n < |ls| ==> !ls[n].Plain?)
    decreases |ls|
  {
    if |ls| > 0 && ls[0].Plain? then 1 + PlainRun(ls[1..]) else 0
  }

  /** The number of items of kind `k` that start `ls`. */
  function ItemRun(ls: seq<Line>, k: ListKind): (n: nat)
    ensures n <= |ls| && (forall i | 0 <= i < n :: ls[i].Item? && ls[i].kind == k)
    ensures n < |ls| ==> !(ls[n].Item? && ls[n].kind == k)
    decreases |ls|
  {
    if |ls| > 0 && ls[0].Item? && ls[0].kind == k then 1 + ItemRun(ls[1..], k) else 0
  }

  /** The paragraph lines of `ls`, in order. */
  function Texts(ls: seq<Line>): seq<string>
    decreases |ls|
  {
    if |ls| == 0 then [] else (if ls[0].Plain? then [ls[0].line] else []) + Texts(ls[1..])
  }

  /** The list items of `ls`, in order. */
  function Items(ls: seq<Line>): seq<Block>
    decreases |ls|
  {
    if |ls| == 0 then [] else (if ls[0].Item? then [ListItem(ls[0].text)] else []) + Items(ls[1..])
  }

  /** The blocks the lines call for: blank lines only separate; each maximal
      run of paragraph lines is one paragraph; each maximal run of items of
      one kind is one list. */
  function Group(ls: seq<Line>): seq<Block>
    decreases |ls|
  {
    if |ls| == 0 then []
    else match ls[0]
      case Blank => Group(ls[1..])
      case Plain(_) =>
        var n := PlainRun(ls);
        [Paragraph(Texts(ls[..n]))] + Group(ls[n..])
      case Item(k, _) =>
        var n := ItemRun(ls, k);
        [OpenList(k)] + Items(ls[..n]) + [CloseList(k)] + Group(ls[n..])
  }

  // ---------------------------------------------------------------------------
  // The pass produces the blocks `Group` describes

  function PlainsOf(p: seq<string>): (ls: seq<Line>)
    ensures |ls| == |p| && forall i | 0 <= i < |p| :: ls[i] == Plain(p[i])
  {
    seq(|p|, i requires 0 <= i < |p| => Plain(p[i]))
  }

  function ParaBlock(p: seq<string>): seq<Block> {
    if p == [] then [] else [Paragraph(p)]
  }

  /** The renderer's pass, run from the start and finished, emits exactly the
      blocks `Group` calls for. */
  lemma RenderBlocks(cls: seq<Line>)
    ensures Finish(RunFrom(Init, cls)).parts == Group(cls)
  {
    RunPara(Init, cls);
    EmptyPlains(cls);
    assert Init.parts + Group(cls) == Group(cls);
  }

  /** From a state with no open list, the rest of the pass emits the blocks of
      the pending paragraph lines followed by the remaining lines. */
  lemma {:induction false} RunPara(st: State, cls: seq<Line>)
    requires st.open == None
    ensures Finish(RunFrom(st, cls)).parts == st.parts + Group(PlainsOf(st.para) + cls)
    decreases |cls|
  {
    if |cls| == 0 {
      GroupAfterPara(st.para, []);
      assert PlainsOf(st.para) + cls == PlainsOf(st.para) + [];
    } else {
      match cls[0]
      case Plain(x) =>
        ParaStepPlain(st, cls, x);
        RunPara(State(st.parts, st.para + [x], None), cls[1..]);
        ParaPlain(st, cls, x);
      case Blank =>
        ParaStepBlank(st, cls);
        RunPara(State(st.parts + ParaBlock(st.para), [], None), cls[1..]);
        ParaBlank(st, cls);
      case Item(_, _) =>
        RunList(Step(st, cls[0]), cls[1..]);
        ParaStepItem(st, cls);
    }
  }

  /** `RunPara`'s step for a paragraph line, which joins the pending ones. */
  lemma ParaPlain(st: State, cls: seq<Line>, x: string)
    requires st.open == None && |cls| > 0 && cls[0].Plain? && cls[0].line == x
    requires Finish(RunFrom(State(st.parts, st.para + [x], None), cls[1..])).parts
             == st.parts + Group(PlainsOf(st.para + [x]) + cls[1..])
    ensures Finish(RunFrom(st, cls)).parts == st.parts + Group(PlainsOf(st.para) + cls)
  {
    RunFromStep(st, cls);
    ParaStepPlain(st, cls, x);
  }

  /** `RunPara`'s step for a blank line, which ends the pending paragraph. */
  lemma ParaBlank(st: State, cls: seq<Line>)
    requires st.open == None && |cls| > 0 && cls[0].Blank?
    requires Finish(RunFrom(State(st.parts + ParaBlock(st.para), [], None), cls[1..])).parts
             == st.parts + ParaBlock(st.para) + Group(PlainsOf([]) + cls[1..])
    ensures Finish(RunFrom(st, cls)).parts == st.parts + Group(PlainsOf(st.para) + cls)
  {
    var pb := ParaBlock(st.para);
    var st1 := State(st.parts + pb, [], None);
    RunFromStep(st, cls);
    ParaStepBlank(st, cls);
    assert RunFrom(st, cls) == RunFrom(st1, cls[1..]);
    Assoc3(st.parts, pb, Group(PlainsOf([]) + cls[1..]));
  }

  lemma Assoc3<T>(a: seq<T>, b: seq<T>, c: seq<T>)
    ensures a + b + c == a + (b + c)
  {
  }

  lemma ParaStepPlain(st: State, cls: seq<Line>, x: string)
    requires st.open == None && |cls| > 0 && cls[0].Plain? && cls[0].line == x
    ensures Step(st, cls[0]) == State(st.parts, st.para + [x], None)
    ensures PlainsOf(st.para + [x]) + cls[1..] == PlainsOf(st.para) + cls
  {
    var p := st.para;
    assert PlainsOf(p + [x]) == PlainsOf(p) + [cls[0]];
    assert [cls[0]] + cls[1..] == cls;
  }

  lemma ParaStepBlank(st: State, cls: seq<Line>)
    requires st.open == None && |cls| > 0 && cls[0].Blank?
    ensures Step(st, cls[0]) == State(st.parts + ParaBlock(st.para), [], None)
    ensures ParaBlock(st.para) + Group(PlainsOf([]) + cls[1..]) == Group(PlainsOf(st.para) + cls)
  {
    assert PlainsOf([]) + cls[1..] == cls[1..];
    GroupAfterPara(st.para, cls);
    assert Group(cls) == Group(cls[1..]);
  }

  /** `RunPara`'s step for an item, which opens a list. */
  lemma ParaStepItem(st: State, cls: seq<Line>)
    requires st.open == None && |cls| > 0
    requires var st' := Step(st, cls[0]);
             st'.open.Some? && st'.para == []
             && var n := ItemRun(cls[1..], st'.open.value);
                Finish(RunFrom(st', cls[1..])).parts
                == st'.parts + Items(cls[1..][..n]) + [CloseList(st'.open.value)] + Group(cls[1..][n..])
    ensures Finish(RunFrom(st, cls)).parts == st.parts + Group(PlainsOf(st.para) + cls)
  {
    var p := st.para;
    var k, t := cls[0].kind, cls[0].text;
    var st' := Step(st, cls[0]);
    var n := ItemRun(cls[1..], k);
    var pb, ol, items, close, rest := ParaBlock(p), [OpenList(k), ListItem(t)], Items(cls[1..][..n]), [CloseList(k)], Group(cls[1..][n..]);
    ParaOpensList(st, k, t);
    RunFromStep(st, cls);
    assert RunFrom(st, cls) == RunFrom(st', cls[1..]);
    GroupAfterPara(p, cls);
    GroupItem(cls, k, t);
    Assoc(st.parts, pb, ol, items, close, rest);
  }

  lemma ParaOpensList(st: State, k: ListKind, t: string)
    requires st.open == None
    ensures Step(st, Item(k, t)) == State(st.parts + ParaBlock(st.para) + [OpenList(k), ListItem(t)], [], Some(k))
  {
  }

  lemma RunFromStep(st: State, cls: seq<Line>)
    requires |cls| > 0
    ensures RunFrom(st, cls) == RunFrom(Step(st, cls[0]), cls[1..])
  {
  }

  lemma Assoc<T>(a: seq<T>, b: seq<T>, c: seq<T>, d: seq<T>, e: seq<T>, f: seq<T>)
    ensures a + b + c + d + e + f == a + (b + (c + d + e + f))
  {
  }

  /** From a state with list `k` open and no pending lines, the rest of the
      pass adds the items that continue the list, closes it, and then emits
      the blocks of the remaining lines. */
  lemma {:induction false} RunList(st: State, cls: seq<Line>)
    requires st.open.Some? && st.para == []
    ensures var k := st.open.value; var n := ItemRun(cls, k);
            Finish(RunFrom(st, cls)).parts == st.parts + Items(cls[..n]) + [CloseList(k)] + Group(cls[n..])
    decreases |cls|
  {
    if |cls| == 0 {
      assert cls[..0] == [] && cls[0..] == [];
    } else {
      var st' := Step(st, cls[0]);
      if st'.open == None {
        RunPara(st', cls[1..]);
        ListStepLeave(st, cls);
      } else {
        RunList(st', cls[1..]);
        ListStepItem(st, cls);
      }
    }
  }

  /** `RunList`'s step for a blank line or a paragraph line, which closes the
      list. */
  lemma ListStepLeave(st: State, cls: seq<Line>)
    requires st.open.Some? && st.para == [] && |cls| > 0
    requires var st' := Step(st, cls[0]);
             st'.open == None
             && Finish(RunFrom(st', cls[1..])).parts == st'.parts + Group(PlainsOf(st'.para) + cls[1..])
    ensures var k := st.open.value; var n := ItemRun(cls, k);
            Finish(RunFrom(st, cls)).parts == st.parts + Items(cls[..n]) + [CloseList(k)] + Group(cls[n..])
  {
    var k := st.open.value;
    var st' := Step(st, cls[0]);
    StepInList(st, cls[0]);
    RunFromStep(st, cls);
    assert st'.parts == st.parts + [CloseList(k)];
    assert st'.para == (if cls[0].Plain? then [cls[0].line] else []);
    GroupLeave(cls, st'.para);
    assert Finish(RunFrom(st, cls)).parts == st.parts + [CloseList(k)] + Group(cls);
    ListEnds(cls, k);
    assert st.parts + Items(cls[..0]) == st.parts;
  }

  /** One step with a list open and no pending paragraph lines. */
  lemma StepInList(st: State, l: Line)
    requires st.open.Some? && st.para == []
    ensures var k := st.open.value;
            Step(st, l) == match l
              case Blank => State(st.parts + [CloseList(k)], [], None)
              case Plain(x) => State(st.parts + [CloseList(k)], [x], None)
              case Item(k2, t) =>
                if k2 == k then State(st.parts + [ListItem(t)], [], Some(k))
                else State(st.parts + [CloseList(k), OpenList(k2), ListItem(t)], [], Some(k2))
  {
  }

  /** A line that is not an item of kind `k` ends a run of such items at once. */
  lemma ListEnds(cls: seq<Line>, k: ListKind)
    requires |cls| > 0 && !(cls[0].Item? && cls[0].kind == k)
    ensures ItemRun(cls, k) == 0 && Items(cls[..0]) == [] && cls[0..] == cls
  {
    assert cls[..0] == [];
  }

  lemma GroupLeave(cls: seq<Line>, para: seq<string>)
    requires |cls| > 0
    requires (cls[0].Blank? && para == []) || (cls[0].Plain? && para == [cls[0].line])
    ensures Group(PlainsOf(para) + cls[1..]) == Group(cls)
  {
    if cls[0].Blank? {
      EmptyPlains(cls[1..]);
      GroupBlank(cls);
    } else {
      OnePlain(cls);
    }
  }

  lemma GroupBlank(cls: seq<Line>)
    requires |cls| > 0 && cls[0].Blank?
    ensures Group(cls) == Group(cls[1..])
  {
  }

  lemma EmptyPlains(ls: seq<Line>)
    ensures PlainsOf([]) + ls == ls
  {
  }

  lemma OnePlain(cls: seq<Line>)
    requires |cls| > 0 && cls[0].Plain?
    ensures PlainsOf([cls[0].line]) + cls[1..] == cls
  {
    assert PlainsOf([cls[0].line]) == [cls[0]];
  }

  /** `RunList`'s step for an item: it continues the list when the kind
      matches and starts a new list otherwise. */
  lemma ListStepItem(st: State, cls: seq<Line>)
    requires st.open.Some? && st.para == [] && |cls| > 0
    requires var st' := Step(st, cls[0]);
             st'.open.Some? && st'.para == []
             && var n := ItemRun(cls[1..], st'.open.value);
                Finish(RunFrom(st', cls[1..])).parts
                == st'.parts + Items(cls[1..][..n]) + [CloseList(st'.open.value)] + Group(cls[1..][n..])
    ensures var k := st.open.value; var n := ItemRun(cls, k);
            Finish(RunFrom(st, cls)).parts == st.parts + Items(cls[..n]) + [CloseList(k)] + Group(cls[n..])
  {
    var k := st.open.value;
    var k2, t := cls[0].kind, cls[0].text;
    var st' := Step(st, cls[0]);
    StepInList(st, cls[0]);
    RunFromStep(st, cls);
    var n := ItemRun(cls[1..], k2);
    var lhs := Finish(RunFrom(st, cls)).parts;
    assert lhs == st'.parts + Items(cls[1..][..n]) + [CloseList(k2)] + Group(cls[1..][n..]);
    if k2 == k {
      ListContinue(st.parts, k, t, cls, lhs);
    } else {
      ListSwitch(st.parts, k, k2, t, cls, lhs);
    }
  }

  lemma ListContinue(parts: seq<Block>, k: ListKind, t: string, cls: seq<Line>, x: seq<Block>)
    requires |cls| > 0 && cls[0].Item? && cls[0].kind == k && cls[0].text == t
    requires var n := ItemRun(cls[1..], k);
             x == parts + [ListItem(t)] + Items(cls[1..][..n]) + [CloseList(k)] + Group(cls[1..][n..])
    ensures var m := ItemRun(cls, k);
            x == parts + Items(cls[..m]) + [CloseList(k)] + Group(cls[m..])
  {
    var n := ItemRun(cls[1..], k);
    ItemsCons(cls, k);
    var m := ItemRun(cls, k);
    var rest := Group(cls[1..][n..]);
    assert Group(cls[m..]) == rest;
    ContinueRegroup(parts, [ListItem(t)], Items(cls[1..][..n]), [CloseList(k)], rest, Items(cls[..m]), x);
  }

  lemma ContinueRegroup<T>(a: seq<T>, h: seq<T>, i: seq<T>, d: seq<T>, r: seq<T>, hi: seq<T>, x: seq<T>)
    requires hi == h + i && x == a + h + i + d + r
    ensures x == a + hi + d + r
  {
  }

  lemma ListSwitch(parts: seq<Block>, k: ListKind, k2: ListKind, t: string, cls: seq<Line>, x: seq<Block>)
    requires |cls| > 0 && cls[0].Item? && cls[0].kind == k2 && cls[0].text == t && k2 != k
    requires var n := ItemRun(cls[1..], k2);
             x == parts + [CloseList(k), OpenList(k2), ListItem(t)] + Items(cls[1..][..n]) + [CloseList(k2)] + Group(cls[1..][n..])
    ensures var m := ItemRun(cls, k);
            x == parts + Items(cls[..m]) + [CloseList(k)] + Group(cls[m..])
  {
    var n := ItemRun(cls[1..], k2);
    var ol, items, close2, rest := [OpenList(k2), ListItem(t)], Items(cls[1..][..n]), [CloseList(k2)], Group(cls[1..][n..]);
    GroupItem(cls, k2, t);
    var g := Group(cls);
    assert g == ol + items + close2 + rest;
    ListEnds(cls, k);
    assert [CloseList(k), OpenList(k2), ListItem(t)] == [CloseList(k)] + ol;
    SwitchRegroup(parts, [CloseList(k)], ol, items, close2, rest, g, x);
  }

  lemma SwitchRegroup<T>(a: seq<T>, c: seq<T>, o: seq<T>, i: seq<T>, d: seq<T>, r: seq<T>, g: seq<T>, x: seq<T>)
    requires g == o + i + d + r
    requires x == a + (c + o) + i + d + r
    ensures x == a + [] + c + g
  {
  }

  /** Pending paragraph lines followed by a line that is not paragraph text
      form one paragraph of their own. */
  lemma GroupAfterPara(p: seq<string>, cls: seq<Line>)
    requires cls == [] || !cls[0].Plain?
    ensures Group(PlainsOf(p) + cls) == ParaBlock(p) + Group(cls)
  {
    var ls := PlainsOf(p) + cls;
    if p == [] {
      assert ls == cls;
    } else {
      PlainRunExact(ls, |p|);
      assert ls[..|p|] == PlainsOf(p) && ls[|p|..] == cls;
      TextsPlains(p);
    }
  }

  lemma {:induction false} PlainRunExact(ls: seq<Line>, n: nat)
    requires n <= |ls| && (forall i | 0 <= i < n :: ls[i].Plain?) && (n < |ls| ==> !ls[n].Plain?)
    ensures PlainRun(ls) == n
    decreases n
  {
    if n > 0 {
      PlainRunExact(ls[1..], n - 1);
    }
  }

  lemma {:induction false} TextsPlains(p: seq<string>)
    ensures Texts(PlainsOf(p)) == p
    decreases |p|
  {
    if |p| > 0 {
      assert PlainsOf(p)[1..] == PlainsOf(p[1..]);
      TextsPlains(p[1..]);
    }
  }

  /** The blocks of lines that start with an item of kind `k`. */
  lemma GroupItem(cls: seq<Line>, k: ListKind, t: string)
    requires |cls| > 0 && cls[0].Item? && cls[0].kind == k && cls[0].text == t
    ensures var n := ItemRun(cls[1..], k);
            Group(cls) == [OpenList(k), ListItem(t)] + Items(cls[1..][..n]) + [CloseList(k)] + Group(cls[1..][n..])
  {
    ItemsCons(cls, k);
    var n := ItemRun(cls[1..], k);
    var x := Items(cls[1..][..n]);
    GroupList(cls, k, 1 + n);
    assert [OpenList(k)] + ([ListItem(t)] + x) == [OpenList(k), ListItem(t)] + x;
  }

  /** An item of kind `k` at the front of `cls` leads its run. */
  lemma ItemsCons(cls: seq<Line>, k: ListKind)
    requires |cls| > 0 && cls[0].Item? && cls[0].kind == k
    ensures var n := ItemRun(cls[1..], k);
            ItemRun(cls, k) == 1 + n
            && Items(cls[..1 + n]) == [ListItem(cls[0].text)] + Items(cls[1..][..n])
            && cls[1 + n..] == cls[1..][n..]
  {
    var n := ItemRun(cls[1..], k);
    var pre := cls[..1 + n];
    assert pre[0] == cls[0] && pre[1..] == cls[1..][..n];
  }

  // ---------------------------------------------------------------------------
  // What the blocks promise

  /** Where the list tags of `bs` leave the open list, starting from `open`;
      `None` when a tag is out of place: a list opened inside a list, a
      closing tag that does not match, an item outside a list, or a paragraph
      inside one. */
  function Nest(bs: seq<Block>, open: Option<ListKind>): Option<Option<ListKind>>
    decreases |bs|
  {
    if |bs| == 0 then Some(open)
    else match bs[0]
      case OpenList(k) => if open == None then Nest(bs[1..], Some(k)) else None
      case CloseList(k) => if open == Some(k) then Nest(bs[1..], None) else None
      case ListItem(_) => if open.Some? then Nest(bs[1..], open) else None
      case Paragraph(_) => if open == None then Nest(bs[1..], None) else None
  }

  lemma {:induction false} NestAppend(a: seq<Block>, b: seq<Block>, open: Option<ListKind>)
    ensures Nest(a + b, open) == match Nest(a, open) case None => None case Some(o) => Nest(b, o)
    decreases |a|
  {
    if |a| > 0 {
      assert (a + b)[0] == a[0] && (a + b)[1..] == a[1..] + b;
      match a[0]
      case OpenList(k) => NestAppend(a[1..], b, Some(k));
      case CloseList(k) => NestAppend(a[1..], b, None);
      case ListItem(_) => NestAppend(a[1..], b, open);
      case Paragraph(_) => NestAppend(a[1..], b, None);
    } else {
      assert a + b == b;
    }
  }

  lemma {:induction false} NestItems(ls: seq<Line>, k: ListKind)
    ensures Nest(Items(ls), Some(k)) == Some(Some(k))
    decreases |ls|
  {
    if |ls| > 0 {
      NestItems(ls[1..], k);
      var head := if ls[0].Item? then [ListItem(ls[0].text)] else [];
      NestAppend(head, Items(ls[1..]), Some(k));
    }
  }

  /** The blocks are properly nested: every list is closed by the tag of its
      own kind, items appear only inside lists, paragraphs only outside. */
  lemma {:induction false} GroupNested(ls: seq<Line>)
    ensures Nest(Group(ls), None) == Some(None)
    decreases |ls|
  {
    if |ls| > 0 {
      match ls[0]
      case Blank => GroupNested(ls[1..]);
      case Plain(_) =>
        var n := PlainRun(ls);
        GroupNested(ls[n..]);
        NestAppend([Paragraph(Texts(ls[..n]))], Group(ls[n..]), None);
      case Item(k, _) =>
        var n := ItemRun(ls, k);
        GroupNested(ls[n..]);
        NestItems(ls[..n], k);
        NestAppend([OpenList(k)] + Items(ls[..n]) + [CloseList(k)], Group(ls[n..]), None);
        NestAppend([OpenList(k)] + Items(ls[..n]), [CloseList(k)], None);
        NestAppend([OpenList(k)], Items(ls[..n]), None);
    }
  }

  /** There are no blocks exactly when every line is blank. */
  lemma {:induction false} GroupEmpty(ls: seq<Line>)
    ensures Group(ls) == [] <==> forall i | 0 <= i < |ls| :: ls[i].Blank?
    decreases |ls|
  {
    if |ls| > 0 {
      GroupEmpty(ls[1..]);
      assert forall i | 1 <= i < |ls| :: ls[i] == ls[1..][i - 1];
    }
  }

  /** The lines of all paragraphs, in order. */
  function ParaLines(bs: seq<Block>): seq<string>
    decreases |bs|
  {
    if |bs| == 0 then [] else (if bs[0].Paragraph? then bs[0].lines else []) + ParaLines(bs[1..])
  }

  /** The list items among the blocks, in order. */
  function ItemBlocks(bs: seq<Block>): seq<Block>
    decreases |bs|
  {
    if |bs| == 0 then [] else (if bs[0].ListItem? then [bs[0]] else []) + ItemBlocks(bs[1..])
  }

  lemma {:induction false} FiltersAppend(a: seq<Block>, b: seq<Block>)
    ensures ParaLines(a + b) == ParaLines(a) + ParaLines(b)
    ensures ItemBlocks(a + b) == ItemBlocks(a) + ItemBlocks(b)
    decreases |a|
  {
    if |a| > 0 {
      assert (a + b)[0] == a[0] && (a + b)[1..] == a[1..] + b;
      FiltersAppend(a[1..], b);
    } else {
      assert a + b == b;
    }
  }

  lemma {:induction false} LineFiltersAppend(a: seq<Line>, b: seq<Line>)
    ensures Texts(a + b) == Texts(a) + Texts(b)
    ensures Items(a + b) == Items(a) + Items(b)
    decreases |a|
  {
    if |a| > 0 {
      assert (a + b)[0] == a[0] && (a + b)[1..] == a[1..] + b;
      LineFiltersAppend(a[1..], b);
    } else {
      assert a + b == b;
    }
  }

  /** The blocks `Items` makes are list items only. */
  lemma {:induction false} ItemsAreItems(ls: seq<Line>)
    ensures ParaLines(Items(ls)) == [] && ItemBlocks(Items(ls)) == Items(ls)
    decreases |ls|
  {
    if |ls| > 0 {
      ItemsAreItems(ls[1..]);
      var head := if ls[0].Item? then [ListItem(ls[0].text)] else [];
      FiltersAppend(head, Items(ls[1..]));
    }
  }

  lemma {:induction false} RunFilters(ls: seq<Line>, n: nat)
    requires n <= |ls|
    ensures (forall i | 0 <= i < n :: ls[i].Plain?) ==> Items(ls[..n]) == []
    ensures (forall i | 0 <= i < n :: ls[i].Item?) ==> Texts(ls[..n]) == []
    decreases n
  {
    if n > 0 {
      RunFilters(ls[1..], n - 1);
      assert ls[..n][0] == ls[0] && ls[..n][1..] == ls[1..][..n - 1];
    }
  }

  /** Nothing is lost or reordered: the paragraphs hold every paragraph line
      and the lists every item, each in input order. */
  lemma {:induction false} GroupKeepsText(ls: seq<Line>)
    ensures ParaLines(Group(ls)) == Texts(ls)
    ensures ItemBlocks(Group(ls)) == Items(ls)
    decreases |ls|
  {
    if |ls| > 0 {
      match ls[0]
      case Blank =>
        GroupKeepsText(ls[1..]);
        assert Texts(ls) == Texts(ls[1..]) && Items(ls) == Items(ls[1..]);
      case Plain(_) =>
        var n := PlainRun(ls);
        GroupKeepsText(ls[n..]);
        KeepsParagraph(ls, n);
      case Item(k, _) =>
        var n := ItemRun(ls, k);
        GroupKeepsText(ls[n..]);
        KeepsList(ls, k, n);
    }
  }

  /** `GroupKeepsText`'s step over a paragraph run. */
  lemma KeepsParagraph(ls: seq<Line>, n: nat)
    requires |ls| > 0 && ls[0].Plain? && n == PlainRun(ls)
    requires ParaLines(Group(ls[n..])) == Texts(ls[n..]) && ItemBlocks(Group(ls[n..])) == Items(ls[n..])
    ensures ParaLines(Group(ls)) == Texts(ls) && ItemBlocks(Group(ls)) == Items(ls)
  {
    var a, b := ls[..n], ls[n..];
    var head := [Paragraph(Texts(a))];
    GroupPlain(ls, n);
    FiltersAppend(head, Group(b));
    ParagraphFilters(Texts(a));
    SplitFilters(ls, n);
    RunFilters(ls, n);
  }

  lemma GroupPlain(ls: seq<Line>, n: nat)
    requires |ls| > 0 && ls[0].Plain? && n == PlainRun(ls)
    ensures Group(ls) == [Paragraph(Texts(ls[..n]))] + Group(ls[n..])
  {
  }

  lemma ParagraphFilters(lines: seq<string>)
    ensures ParaLines([Paragraph(lines)]) == lines && ItemBlocks([Paragraph(lines)]) == []
  {
    assert [Paragraph(lines)][1..] == [];
  }

  lemma SplitFilters(ls: seq<Line>, n: nat)
    requires n <= |ls|
    ensures Texts(ls) == Texts(ls[..n]) + Texts(ls[n..]) && Items(ls) == Items(ls[..n]) + Items(ls[n..])
  {
    var a, b := ls[..n], ls[n..];
    assert ls == a + b;
    LineFiltersAppend(a, b);
  }

  /** `GroupKeepsText`'s step over a list run. */
  lemma KeepsList(ls: seq<Line>, k: ListKind, n: nat)
    requires |ls| > 0 && ls[0].Item? && ls[0].kind == k && n == ItemRun(ls, k)
    requires ParaLines(Group(ls[n..])) == Texts(ls[n..]) && ItemBlocks(Group(ls[n..])) == Items(ls[n..])
    ensures ParaLines(Group(ls)) == Texts(ls) && ItemBlocks(Group(ls)) == Items(ls)
  {
    var items := Items(ls[..n]);
    var head := [OpenList(k)] + items + [CloseList(k)];
    GroupList(ls, k, n);
    ItemsAreItems(ls[..n]);
    ListFilters(k, items);
    FiltersAppend(head, Group(ls[n..]));
    SplitFilters(ls, n);
    RunFilters(ls, n);
  }

  lemma GroupList(ls: seq<Line>, k: ListKind, n: nat)
    requires |ls| > 0 && ls[0].Item? && ls[0].kind == k && n == ItemRun(ls, k)
    ensures Group(ls) == [OpenList(k)] + Items(ls[..n]) + [CloseList(k)] + Group(ls[n..])
  {
  }

  /** A list's tags add nothing to the paragraph lines or the items. */
  lemma ListFilters(k: ListKind, items: seq<Block>)
    requires ParaLines(items) == [] && ItemBlocks(items) == items
    ensures ParaLines([OpenList(k)] + items + [CloseList(k)]) == []
    ensures ItemBlocks([OpenList(k)] + items + [CloseList(k)]) == items
  {
    var o := [OpenList(k)];
    var c := [CloseList(k)];
    FiltersAppend(o + items, c);
    FiltersAppend(o, items);
    assert o[1..] == [] && c[1..] == [];
    assert ParaLines(o) == [] && ItemBlocks(o) == [];
    assert ParaLines(c) == [] && ItemBlocks(c) == [];
  }


  /** A change of list kind closes the open list and opens a new one. */
  lemma KindSwitchExample(ls: seq<Line>)
    requires ls == [Item(Bullet, "a"), Item(Numbered, "b")]
    ensures Group(ls)
         == [OpenList(Bullet), ListItem("a"), CloseList(Bullet), OpenList(Numbered), ListItem("b"), CloseList(Numbered)]
  {
    var tail := ls[1..];
    LoneItem(ls, Bullet, "a");
    LoneItem(tail, Numbered, "b");
    assert tail[1..] == [];
  }

  /** An item whose successor does not continue its list forms a list alone. */
  lemma LoneItem(ls: seq<Line>, k: ListKind, t: string)
    requires |ls| > 0 && ls[0].Item? && ls[0].kind == k && ls[0].text == t
    requires |ls| == 1 || !(ls[1].Item? && ls[1].kind == k)
    ensures Group(ls) == [OpenList(k), ListItem(t), CloseList(k)] + Group(ls[1..])
  {
    GroupItem(ls, k, t);
    var rest := ls[1..];
    assert ItemRun(rest, k) == 0;
    assert rest[..0] == [] && rest[0..] == rest;
  }

  /** Paragraph lines separated by a blank line form two paragraphs; without
      it they share one. */
  lemma ParagraphExample(ls: seq<Line>, ms: seq<Line>)
    requires ls == [Plain("a"), Plain("b")] && ms == [Plain("a"), Blank, Plain("b")]
    ensures Group(ls) == [Paragraph(["a", "b"])]
    ensures Group(ms) == [Paragraph(["a"]), Paragraph(["b"])]
  {
    assert ls[1..] == [Plain("b")] && ls[1..][1..] == [];
    assert PlainRun(ls) == 2;
    assert ls[..2] == ls && ls[2..] == [];
    assert Texts(ls[1..]) == ["b"];
    assert Texts(ls) == ["a"] + ["b"];
    assert Group(ls) == [Paragraph(Texts(ls[..2]))] + Group(ls[2..]);
    assert Group([]) == [];
    assert Texts(ls[..2]) == ["a", "b"];
    assert [Paragraph(["a", "b"])] + [] == [Paragraph(["a", "b"])];
    var b := [Plain("b")];
    assert ms[1..] == [Blank] + b && ([Blank] + b)[1..] == b && b[1..] == [];
    assert PlainRun(b) == 1 && b[..1] == b && Texts(b) == ["b"];
    assert Group(b) == [Paragraph(["b"])];
    assert PlainRun(ms) == 1;
    assert ms[..1] == [Plain("a")] && Texts([Plain("a")]) == ["a"];
  }

  // ---------------------------------------------------------------------------
  // `_render_markdown`

  /** The renderer on a list of lines: the HTML of the blocks `Group` calls
      for, one per line, or an empty paragraph when every line is blank. */
  function RenderLines(lines: seq<string>): (r: string)
    ensures (forall i | 0 <= i < |lines| :: AllSpace(lines[i])) ==> r == "<p></p>"
    ensures !(forall i | 0 <= i < |lines| :: AllSpace(lines[i])) ==>
              r == Join(HtmlAll(Group(ClassifyAll(lines))), "\n")
    ensures |r| > 0 && r[0] == '<'
  {
    var cls := ClassifyAll(lines);
    var parts := Finish(RunFrom(Init, cls)).parts;
    RenderBlocks(cls);
    GroupEmpty(cls);
    if parts == [] then "<p></p>"
    else
      JoinFirst(HtmlAll(parts), "\n");
      Join(HtmlAll(parts), "\n")
  }

  /** `_render_markdown(text)`: the text's lines rendered. Empty text gives an
      empty paragraph. */
  function RenderMarkdown(text: string): (r: string)
    ensures text == "" ==> r == "<p></p>"
    ensures |r| > 0 && r[0] == '<'
  {
    RenderLines(SplitLines(text))
  }

  /** A line whose stripped text starts with neither a bullet marker nor a
      digit is paragraph text. */
  lemma ClassifyPlain(line: string)
    requires !AllSpace(line)
    requires var st := Strip(line); st[0] != '-' && st[0] != '*' && !IsDigit(st[0])
    ensures Classify(line) == Plain(line)
  {
  }

  /** Text of one paragraph line renders as one paragraph holding that line
      with its inline markup. */
  lemma RenderOneLine(w: string)
    requires w != "" && NoLineBreak(w) && Classify(w).Plain?
    ensures RenderMarkdown(w) == "<p>" + FormatInline(w) + "</p>"
  {
    RenderOneBlock(w);
    ParagraphOne(w);
  }

  lemma RenderOneBlock(w: string)
    requires w != "" && NoLineBreak(w) && Classify(w).Plain?
    ensures RenderMarkdown(w) == BlockHtml(Paragraph([w]))
  {
    SplitLinesOne(w);
    var lines := [w];
    assert !AllSpace(lines[0]);
    var cls := ClassifyAll(lines);
    assert cls[0] == Plain(w);
    assert cls == [Plain(w)];
    GroupOne(cls, w);
    var hs := HtmlAll(Group(cls));
    assert RenderLines(lines) == Join(hs, "\n");
    assert hs == [BlockHtml(Paragraph([w]))];
  }

  lemma ParagraphOne(w: string)
    ensures BlockHtml(Paragraph([w])) == "<p>" + FormatInline(w) + "</p>"
  {
    var fs := FormatAll([w]);
    assert fs == [FormatInline(w)];
    assert Join(fs, "<br>") == FormatInline(w);
  }


  lemma SplitLinesOne(w: string)
    requires w != "" && NoLineBreak(w)
    ensures SplitLines(w) == [w]
  {
    NoBreakLineEnd(w, "");
    assert w + "" == w && w[..|w|] == w;
  }

  lemma GroupOne(cls: seq<Line>, w: string)
    requires cls == [Plain(w)]
    ensures Group(cls) == [Paragraph([w])]
  {
    assert PlainRun(cls) == 1 && cls[..1] == cls && cls[1..] == [];
    assert Texts(cls) == [w];
    assert Group([]) == [];
  }

}
