/** The string primitives the rendering layer relies on: Python's `str.isspace`,
    `str.strip`, `str.join`, `str.split`, `str.splitlines`, `str.title`,
    `str.replace`, as they behave on the inputs the renderer hands them. */
module Text {

  /** The characters Python's `str.isspace()` accepts; `str.strip()` removes
      exactly these, and the regular expression class `\s` matches exactly these. */
  predicate IsSpace(c: char) {
    || c == ' '
    || '\t' <= c <= '\r'
    || '\U{1C}' <= c <= '\U{1F}'
    || c == '\U{85}' || c == '\U{A0}' || c == '\U{1680}'
    || '\U{2000}' <= c <= '\U{200A}'
    || c == '\U{2028}' || c == '\U{2029}' || c == '\U{202F}'
    || c == '\U{205F}' || c == '\U{3000}'
  }

  predicate AllSpace(s: string) {
    forall i | 0 <= i < |s| :: IsSpace(s[i])
  }

  /** The line boundaries of Python's `str.splitlines()` (`\r\n` counts as one). */
  predicate IsLineBreak(c: char) {
    || c == '\n' || c == '\r' || c == '\U{0B}' || c == '\U{0C}'
    || '\U{1C}' <= c <= '\U{1E}'
    || c == '\U{85}' || c == '\U{2028}' || c == '\U{2029}'
  }

  predicate NoLineBreak(s: string) {
    forall i | 0 <= i < |s| :: !IsLineBreak(s[i])
  }

  /** `t` occurs somewhere in `s` (Python's `t in s`). */
  predicate Contains(s: string, t: string) {
    exists i | 0 <= i <= |s| - |t| :: OccursAt(s, t, i)
  }

  predicate OccursAt(s: string, t: string, i: nat)
    requires i + |t| <= |s|
  {
    s[i..i + |t|] == t
  }

  // ---------------------------------------------------------------------------
  // strip

  /** Length of the whitespace run at the start of `s`. */
  function LeadingSpace(s: string): (n: nat)
    ensures n <= |s|
    ensures AllSpace(s[..n])
    ensures n < |s| ==> !IsSpace(s[n])
    decreases |s|
  {
    if |s| > 0 && IsSpace(s[0]) then
      var n := 1 + LeadingSpace(s[1..]);
      assert s[..n] == [s[0]] + s[1..][..n - 1];
      n
    else 0
  }

  /** Length of the whitespace run at the end of `s`. */
  function TrailingSpace(s: string): (n: nat)
    ensures n <= |s|
    ensures AllSpace(s[|s| - n..])
    ensures n < |s| ==> !IsSpace(s[|s| - 1 - n])
    decreases |s|
  {
    if |s| > 0 && IsSpace(s[|s| - 1]) then
      var m := TrailingSpace(s[..|s| - 1]);
      TrailingSpaceStep(s, m);
      1 + m
    else 0
  }

  lemma TrailingSpaceStep(s: string, m: nat)
    requires |s| > 0 && IsSpace(s[|s| - 1])
    requires var init := s[..|s| - 1];
             m <= |init| && AllSpace(init[|init| - m..]) && (m < |init| ==> !IsSpace(init[|init| - 1 - m]))
    ensures AllSpace(s[|s| - (m + 1)..])
    ensures m + 1 < |s| ==> !IsSpace(s[|s| - 2 - m])
  {
    var init := s[..|s| - 1];
    var tail := s[|s| - (m + 1)..];
    forall i | 0 <= i < m + 1
      ensures IsSpace(tail[i])
    {
      if i < m {
        assert tail[i] == init[|init| - m..][i];
      }
    }
    if m + 1 < |s| {
      assert s[|s| - 2 - m] == init[|init| - 1 - m];
    }
  }

  /** Python's `s.strip()`: `s` without its leading and trailing whitespace. */
  function Strip(s: string): (r: string)
    ensures r == "" <==> AllSpace(s)
    ensures r != "" ==> !IsSpace(r[0]) && !IsSpace(r[|r| - 1])
    ensures exists i :: StripsAt(s, r, i)
  {
    var a := LeadingSpace(s);
    var rest := s[a..];
    var b := TrailingSpace(rest);
    var r := rest[..|rest| - b];
    StripSlice(s, a, b, r);
    r
  }

  /** `r` sits at `i` in `s` with only whitespace around it. */
  predicate StripsAt(s: string, r: string, i: int) {
    0 <= i <= |s| - |r| && s[i..i + |r|] == r && AllSpace(s[..i]) && AllSpace(s[i + |r|..])
  }

  lemma StripSlice(s: string, a: nat, b: nat, r: string)
    requires a == LeadingSpace(s) && b == TrailingSpace(s[a..])
    requires r == s[a..][..|s[a..]| - b]
    ensures r == "" <==> AllSpace(s)
    ensures r != "" ==> !IsSpace(r[0]) && !IsSpace(r[|r| - 1])
    ensures StripsAt(s, r, a)
  {
    StripPlace(s, a, b, r);
    StripEmpty(s, a, b, r);
    StripEnds(s, a, b, r);
  }

  lemma StripPlace(s: string, a: nat, b: nat, r: string)
    requires a == LeadingSpace(s) && b == TrailingSpace(s[a..])
    requires r == s[a..][..|s[a..]| - b]
    ensures StripsAt(s, r, a)
  {
    SlicePlace(s, a, b, r);
  }

  /** Cutting `a` elements from the front and `b` from the back of `s` leaves
      a slice at `a` whose surroundings are the cut parts. */
  lemma SlicePlace(s: string, a: nat, b: nat, r: string)
    requires a <= |s| && b <= |s| - a
    requires r == s[a..][..|s[a..]| - b]
    requires AllSpace(s[..a]) && AllSpace(s[a..][|s[a..]| - b..])
    ensures StripsAt(s, r, a)
  {
    var rest := s[a..];
    assert s[a..a + |r|] == r;
    assert s[a + |r|..] == rest[|rest| - b..];
  }

  lemma StripEmpty(s: string, a: nat, b: nat, r: string)
    requires a == LeadingSpace(s) && b == TrailingSpace(s[a..])
    requires r == s[a..][..|s[a..]| - b]
    ensures r == "" <==> AllSpace(s)
  {
    if r == "" {
      LeadingSpaceStops(s);
      assert s[a..][|s[a..]| - b..] == s[a..];
      StripNothing(s, a);
    } else {
      assert !IsSpace(s[a]);
    }
  }

  /** When nothing is left after stripping, the leading run covered all of `s`. */
  lemma StripNothing(s: string, a: nat)
    requires a <= |s| && AllSpace(s[..a]) && AllSpace(s[a..])
    requires a < |s| ==> !AllSpace(s[a..])
    ensures AllSpace(s)
  {
    assert s[..a] == s;
  }

  lemma StripEnds(s: string, a: nat, b: nat, r: string)
    requires a == LeadingSpace(s) && b == TrailingSpace(s[a..])
    requires r == s[a..][..|s[a..]| - b]
    ensures r != "" ==> !IsSpace(r[0]) && !IsSpace(r[|r| - 1])
  {
    var rest := s[a..];
    if r != "" {
      assert r[0] == s[a];
      assert r[|r| - 1] == rest[|rest| - 1 - b];
    }
  }

  lemma LeadingSpaceStops(s: string)
    ensures LeadingSpace(s) < |s| ==> !AllSpace(s[LeadingSpace(s)..])
  {
    var a := LeadingSpace(s);
    if a < |s| {
      assert s[a..][0] == s[a];
    }
  }

  /** Stripping a string that has no surrounding whitespace changes nothing. */
  lemma {:induction false} StripUnpadded(s: string)
    requires s != "" ==> !IsSpace(s[0]) && !IsSpace(s[|s| - 1])
    ensures Strip(s) == s
  {
    assert LeadingSpace(s) == 0;
    assert s[0..] == s;
    assert TrailingSpace(s) == 0;
    assert s[..|s| - 0] == s;
  }

  // ---------------------------------------------------------------------------
  // join and split

  /** Python's `sep.join(parts)`. */
  function Join(parts: seq<string>, sep: string): (r: string)
    ensures |parts| == 1 ==> r == parts[0]
    ensures |parts| == 0 ==> r == ""
    decreases |parts|
  {
    if |parts| == 0 then ""
    else if |parts| == 1 then parts[0]
    else parts[0] + sep + Join(parts[1..], sep)
  }

  /** Joining two non-empty runs of parts puts one separator between their joins. */
  lemma {:induction false} JoinAppend(a: seq<string>, b: seq<string>, sep: string)
    requires |a| > 0 && |b| > 0
    ensures Join(a + b, sep) == Join(a, sep) + sep + Join(b, sep)
    decreases |a|
  {
    if |a| == 1 {
      assert (a + b)[1..] == b;
    } else {
      assert (a + b)[1..] == a[1..] + b;
      JoinAppend(a[1..], b, sep);
    }
  }

  /** A join starts with its first part. */
  lemma JoinFirst(parts: seq<string>, sep: string)
    requires |parts| > 0
    ensures parts[0] <= Join(parts, sep)
  {
  }

  /** Python's `s.split(c)` for a one-character separator: never empty. */
  function SplitOn(s: string, c: char): (r: seq<string>)
    ensures |r| >= 1
    ensures forall k | 0 <= k < |r| :: c !in r[k]
    decreases |s|
  {
    if |s| == 0 then [""]
    else
      var rest := SplitOn(s[1..], c);
      if s[0] == c then [""] + rest
      else [[s[0]] + rest[0]] + rest[1..]
  }

  /** Splitting then joining on the same character gives the input back. */
  lemma {:induction false} JoinSplitOn(s: string, c: char)
    ensures Join(SplitOn(s, c), [c]) == s
    decreases |s|
  {
    if |s| > 0 {
      var rest := SplitOn(s[1..], c);
      JoinSplitOn(s[1..], c);
      if s[0] == c {
        assert [""] + rest == [""] + rest;
        JoinAppend([""], rest, [c]);
      } else if |rest| == 1 {
      } else {
        var r := [[s[0]] + rest[0]] + rest[1..];
        assert r[1..] == rest[1..];
        assert rest == [rest[0]] + rest[1..];
        JoinAppend([rest[0]], rest[1..], [c]);
      }
    }
  }

  lemma {:induction false} SplitOnPrefix(w: string, u: string, c: char)
    requires c !in w
    ensures SplitOn(w + [c] + u, c) == [w] + SplitOn(u, c)
    decreases |w|
  {
    if |w| == 0 {
      assert w + [c] + u == [c] + u;
      assert ([c] + u)[1..] == u;
    } else {
      assert (w + [c] + u)[1..] == w[1..] + [c] + u;
      SplitOnPrefix(w[1..], u, c);
      assert [w[0]] + w[1..] == w;
    }
  }

  lemma {:induction false} SplitOnPlain(w: string, c: char)
    requires c !in w
    ensures SplitOn(w, c) == [w]
    decreases |w|
  {
    if |w| > 0 {
      SplitOnPlain(w[1..], c);
      assert [w[0]] + w[1..] == w;
    }
  }

  /** Joining parts that do not contain the separator character, then splitting
      on it, gives the parts back: the join loses nothing. */
  lemma {:induction false} SplitOnJoin(parts: seq<string>, c: char)
    requires |parts| >= 1
    requires forall k | 0 <= k < |parts| :: c !in parts[k]
    ensures SplitOn(Join(parts, [c]), c) == parts
    decreases |parts|
  {
    if |parts| == 1 {
      SplitOnPlain(parts[0], c);
    } else {
      SplitOnJoin(parts[1..], c);
      SplitOnPrefix(parts[0], Join(parts[1..], [c]), c);
      assert [parts[0]] + parts[1..] == parts;
    }
  }

  // ---------------------------------------------------------------------------
  // splitlines

  /** Index of the first line boundary in `s`, or `|s|` when there is none. */
  function LineEnd(s: string): (i: nat)
    ensures i <= |s|
    ensures NoLineBreak(s[..i])
    ensures i < |s| ==> IsLineBreak(s[i])
    decreases |s|
  {
    if |s| == 0 || IsLineBreak(s[0]) then 0
    else
      var i := 1 + LineEnd(s[1..]);
      assert s[..i] == [s[0]] + s[1..][..i - 1];
      i
  }

  /** Python's `s.splitlines()`: the lines of `s` without their terminators;
      a final terminator does not start an extra empty line. */
  function SplitLines(s: string): (lines: seq<string>)
    ensures forall k | 0 <= k < |lines| :: NoLineBreak(lines[k])
    ensures lines == [] <==> s == ""
    decreases |s|
  {
    if |s| == 0 then []
    else
      var i := LineEnd(s);
      if i == |s| then
        assert s[..i] == s;
        [s]
      else
        var width := if s[i] == '\r' && i + 1 < |s| && s[i + 1] == '\n' then 2 else 1;
        [s[..i]] + SplitLines(s[i + width..])
  }

  /** Lines without terminators, joined with `\n`, split back into the same
      lines, provided the last one is not empty (a trailing `\n` is dropped). */
  lemma {:induction false} SplitLinesJoin(lines: seq<string>)
    requires |lines| >= 1 && lines[|lines| - 1] != ""
    requires forall k | 0 <= k < |lines| :: NoLineBreak(lines[k])
    ensures SplitLines(Join(lines, "\n")) == lines
    decreases |lines|
  {
    var first := lines[0];
    if |lines| == 1 {
      NoBreakLineEnd(first, "");
      assert first + "" == first;
    } else {
      var rest := Join(lines[1..], "\n");
      SplitLinesJoin(lines[1..]);
      SplitLinesCons(first, rest);
      assert [first] + lines[1..] == lines;
    }
  }

  /** A line, a line feed and non-empty text split into the line and the
      lines of the text. */
  lemma SplitLinesCons(first: string, rest: string)
    requires NoLineBreak(first) && rest != ""
    ensures SplitLines(first + "\n" + rest) == [first] + SplitLines(rest)
  {
    var s := first + "\n" + rest;
    NoBreakLineEnd(first, "\n" + rest);
    assert first + ("\n" + rest) == s;
    assert s[..|first|] == first;
    assert s[|first|] == '\n';
    assert s[|first| + 1..] == rest;
  }

  lemma {:induction false} NoBreakLineEnd(w: string, u: string)
    requires NoLineBreak(w)
    requires u == "" || IsLineBreak(u[0])
    ensures LineEnd(w + u) == |w|
    decreases |w|
  {
    if |w| > 0 {
      assert (w + u)[1..] == w[1..] + u;
      NoBreakLineEnd(w[1..], u);
    } else {
      assert w + u == u;
    }
  }

  // ---------------------------------------------------------------------------
  // replace and title

  /** Python's `s.replace(a, b)` for single characters. */
  function ReplaceChar(s: string, a: char, b: char): (r: string)
    ensures |r| == |s|
    ensures forall i | 0 <= i < |s| :: r[i] == (if s[i] == a then b else s[i])
    ensures a != b ==> a !in r
  {
    seq(|s|, i requires 0 <= i < |s| => if s[i] == a then b else s[i])
  }

  /** Replacing `a` by `b` in a text without `b` is undone by replacing `b`
      by `a`: no information is lost. */
  lemma ReplaceCharBack(s: string, a: char, b: char)
    requires b !in s
    ensures ReplaceChar(ReplaceChar(s, a, b), b, a) == s
  {
    var t := ReplaceChar(ReplaceChar(s, a, b), b, a);
    forall i | 0 <= i < |s| ensures t[i] == s[i] {
      assert s[i] != b;
    }
  }

  predicate IsAsciiUpper(c: char) { 'A' <= c <= 'Z' }
  predicate IsAsciiLower(c: char) { 'a' <= c <= 'z' }
  predicate IsAsciiLetter(c: char) { IsAsciiUpper(c) || IsAsciiLower(c) }

  function Upper(c: char): (r: char)
    ensures IsAsciiLetter(c) ==> IsAsciiUpper(r)
  {
    if IsAsciiLower(c) then (c as int - 32) as char else c
  }

  function Lower(c: char): (r: char)
    ensures IsAsciiLetter(c) ==> IsAsciiLower(r)
  {
    if IsAsciiUpper(c) then (c as int + 32) as char else c
  }

  /** Python's `str.title()` on ASCII letters: a letter that follows a letter is
      lower-cased, any other letter is upper-cased; everything else is kept.
      `afterLetter` says whether the character before `s` was a letter. */
  function TitleFrom(s: string, afterLetter: bool): string
    decreases |s|
  {
    if |s| == 0 then ""
    else
      var c := s[0];
      if IsAsciiLetter(c) then
        [if afterLetter then Lower(c) else Upper(c)] + TitleFrom(s[1..], true)
      else
        [c] + TitleFrom(s[1..], false)
  }

  /** `Title` capitalises exactly the letters that start a run of letters and
      lower-cases the rest of each run, position by position. */
  function Title(s: string): (r: string)
    ensures |r| == |s|
    ensures forall i | 0 <= i < |s| :: r[i] == TitleAt(s, i, false)
  {
    TitleFromPointwise(s, false);
    TitleFrom(s, false)
  }

  /** The character `TitleFrom(s, afterLetter)` puts at position `i`, decided
      from `s` alone: a letter is lower-cased when the character before it (or
      `afterLetter`, at the start) is a letter, and upper-cased otherwise. */
  function TitleAt(s: string, i: nat, afterLetter: bool): char
    requires i < |s|
  {
    var prevIsLetter := if i == 0 then afterLetter else IsAsciiLetter(s[i - 1]);
    if !IsAsciiLetter(s[i]) then s[i]
    else if prevIsLetter then Lower(s[i])
    else Upper(s[i])
  }

  lemma {:induction false} TitleFromPointwise(s: string, afterLetter: bool)
    ensures |TitleFrom(s, afterLetter)| == |s|
    ensures forall i | 0 <= i < |s| :: TitleFrom(s, afterLetter)[i] == TitleAt(s, i, afterLetter)
    decreases |s|
  {
    if |s| > 0 {
      var after := IsAsciiLetter(s[0]);
      var tail := TitleFrom(s[1..], after);
      TitleFromPointwise(s[1..], after);
      var r := TitleFrom(s, afterLetter);
      assert r == [TitleAt(s, 0, afterLetter)] + tail;
      forall i | 0 <= i < |s| ensures r[i] == TitleAt(s, i, afterLetter) {
        if i > 0 {
          assert r[i] == tail[i - 1];
          assert s[1..][i - 1] == s[i];
          if i > 1 { assert s[1..][i - 2] == s[i - 1]; }
          assert tail[i - 1] == TitleAt(s[1..], i - 1, after);
        }
      }
    }
  }

  /** Title-casing twice is the same as title-casing once. */
  lemma TitleIdempotent(s: string)
    ensures Title(Title(s)) == Title(s)
  {
    var t := Title(s);
    forall i | 0 <= i < |s| ensures IsAsciiLetter(t[i]) == IsAsciiLetter(s[i]) {
    }
    forall i | 0 <= i < |s| ensures Title(t)[i] == t[i] {
      assert IsAsciiLetter(t[i]) == IsAsciiLetter(s[i]);
      if i > 0 { assert IsAsciiLetter(t[i - 1]) == IsAsciiLetter(s[i - 1]); }
    }
  }

  // ---------------------------------------------------------------------------
  // expanding the two-character escape `\n`

  /** `s` holds a backslash followed by the letter `n`. */
  predicate HasEscapedNewline(s: string) {
    exists i | 0 <= i < |s| - 1 :: s[i] == '\\' && s[i + 1] == 'n'
  }

  /** Python's `s.replace("\\n", "\n")`: each backslash-`n` pair, scanned left to
      right without overlap, becomes a real line break. */
  function ExpandNewlines(s: string): (r: string)
    ensures |s| > 0 ==> |r| > 0 && (r[0] == 'n' <==> s[0] == 'n')
    ensures |r| <= |s|
    decreases |s|
  {
    if |s| >= 2 && s[0] == '\\' && s[1] == 'n' then "\n" + ExpandNewlines(s[2..])
    else if |s| == 0 then ""
    else [s[0]] + ExpandNewlines(s[1..])
  }

  /** After expansion no backslash-`n` pair is left. */
  lemma {:induction false} ExpandNewlinesComplete(s: string)
    ensures !HasEscapedNewline(ExpandNewlines(s))
    decreases |s|
  {
    var r := ExpandNewlines(s);
    if |s| >= 2 && s[0] == '\\' && s[1] == 'n' {
      ExpandNewlinesComplete(s[2..]);
      var t := ExpandNewlines(s[2..]);
      forall i | 0 <= i < |r| - 1 && r[i] == '\\' ensures r[i + 1] != 'n' {
        assert i > 0;
        assert r[i] == t[i - 1] && r[i + 1] == t[i];
      }
    } else if |s| > 0 {
      ExpandNewlinesComplete(s[1..]);
      var t := ExpandNewlines(s[1..]);
      forall i | 0 <= i < |r| - 1 && r[i] == '\\' ensures r[i + 1] != 'n' {
        if i > 0 {
          assert r[i] == t[i - 1] && r[i + 1] == t[i];
        } else {
          assert r[1] == t[0];
        }
      }
    }
  }

  /** Text without a backslash-`n` pair is left as it is. */
  lemma {:induction false} ExpandNewlinesIdentity(s: string)
    requires !HasEscapedNewline(s)
    ensures ExpandNewlines(s) == s
    decreases |s|
  {
    if |s| > 0 {
      assert !HasEscapedNewline(s[1..]) by {
        forall i | 0 <= i < |s| - 2 ensures !(s[1..][i] == '\\' && s[1..][i + 1] == 'n') {
          assert s[1..][i] == s[i + 1] && s[1..][i + 1] == s[i + 2];
        }
      }
      ExpandNewlinesIdentity(s[1..]);
      assert [s[0]] + s[1..] == s;
    }
  }

  /** Each backslash-`n` pair becomes one line break, wherever it stands, and
      the text on either side is expanded on its own. */
  lemma {:induction false} ExpandNewlinesSplit(a: string, b: string)
    ensures ExpandNewlines(a + ['\\', 'n'] + b) == ExpandNewlines(a) + ['\n'] + ExpandNewlines(b)
    decreases |a|
  {
    var s := a + ['\\', 'n'] + b;
    if |a| == 0 {
      assert s == ['\\', 'n'] + b;
      assert s[2..] == b;
    } else if |a| >= 2 && a[0] == '\\' && a[1] == 'n' {
      assert s[0] == '\\' && s[1] == 'n';
      assert s[2..] == a[2..] + ['\\', 'n'] + b;
      ExpandNewlinesSplit(a[2..], b);
      ConsRegroup('\n', ExpandNewlines(a[2..]), '\n', ExpandNewlines(b));
    } else {
      assert s[0] == a[0] && s[1] == (if |a| >= 2 then a[1] else '\\');
      assert s[1..] == a[1..] + ['\\', 'n'] + b;
      ExpandNewlinesSplit(a[1..], b);
      ConsRegroup(a[0], ExpandNewlines(a[1..]), '\n', ExpandNewlines(b));
    }
  }

  lemma ConsRegroup(c: char, x: string, d: char, y: string)
    ensures [c] + (x + [d] + y) == [c] + x + [d] + y
  {
  }
}
