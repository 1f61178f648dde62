/** HTML escaping as done by Django's `escape`: the five characters that can
    open markup or end an attribute value are replaced by entities. */
module Html {
  import opened Text

  predicate IsSpecial(c: char) {
    c == '&' || c == '<' || c == '>' || c == '"' || c == '\''
  }

  /** The replacement Django's `escape` uses for one character. */
  function EscapeChar(c: char): string {
    match c
    case '&' => "&amp;"
    case '<' => "&lt;"
    case '>' => "&gt;"
    case '"' => "&quot;"
    case '\'' => "&#x27;"
    case _ => [c]
  }

  /** The characters that occur in the five entities. */
  predicate InEntity(c: char) {
    c in "&amp;&lt;&gt;&quot;&#x27;"
  }

  /** Django's `escape(s)`: every special character is replaced by its entity;
      no `<`, `>`, `"` or `'` survives, and every `&` starts an entity. */
  function Escape(s: string): (r: string)
    ensures forall i | 0 <= i < |r| :: r[i] != '<' && r[i] != '>' && r[i] != '"' && r[i] != '\''
    ensures |r| >= |s|
    ensures |s| > 0 ==> r[0] == (if IsSpecial(s[0]) then '&' else s[0])
    decreases |s|
  {
    if |s| == 0 then ""
    else
      var head := EscapeChar(s[0]);
      var tail := Escape(s[1..]);
      assert forall i | 0 <= i < |head| :: head[i] != '<' && head[i] != '>' && head[i] != '"' && head[i] != '\'';
      head + tail
  }

  /** The inverse of `Escape`: each of the five entities becomes its character. */
  function Unescape(s: string): string
    decreases |s|
  {
    if "&amp;" <= s then "&" + Unescape(s[5..])
    else if "&lt;" <= s then "<" + Unescape(s[4..])
    else if "&gt;" <= s then ">" + Unescape(s[4..])
    else if "&quot;" <= s then "\"" + Unescape(s[6..])
    else if "&#x27;" <= s then "'" + Unescape(s[6..])
    else if |s| == 0 then ""
    else [s[0]] + Unescape(s[1..])
  }

  /** Escaping loses nothing: unescaping the result gives the input back. */
  lemma {:induction false} UnescapeEscape(s: string)
    ensures Unescape(Escape(s)) == s
    decreases |s|
  {
    if |s| > 0 {
      UnescapeEscape(s[1..]);
      UnescapeEscapeChar(s[0], Escape(s[1..]));
      assert [s[0]] + s[1..] == s;
    }
  }

  lemma UnescapeEscapeChar(c: char, rest: string)
    ensures Unescape(EscapeChar(c) + rest) == [c] + Unescape(rest)
  {
    if IsSpecial(c) {
      UnescapeEntity(c, rest);
    } else {
      var e := EscapeChar(c) + rest;
      assert e[0] == c && e[1..] == rest;
    }
  }

  /** An entity at the front decodes to its character. */
  lemma UnescapeEntity(c: char, rest: string)
    requires IsSpecial(c)
    ensures Unescape(EscapeChar(c) + rest) == [c] + Unescape(rest)
  {
    var e := EscapeChar(c) + rest;
    var n := |EscapeChar(c)|;
    assert e[..n] == EscapeChar(c) && e[n..] == rest;
    match c
    case '&' =>
    case '<' =>
      assert e[1] == 'l';
    case '>' =>
      assert e[1] == 'g';
    case '"' =>
      assert e[1] == 'q';
    case '\'' =>
      assert e[1] == '#';
  }

  /** Text without special characters is its own escape. */
  lemma {:induction false} EscapePlain(s: string)
    requires forall i | 0 <= i < |s| :: !IsSpecial(s[i])
    ensures Escape(s) == s
    decreases |s|
  {
    if |s| > 0 {
      EscapePlain(s[1..]);
      assert [s[0]] + s[1..] == s;
    }
  }

  /** Escaping distributes over concatenation. */
  lemma {:induction false} EscapeAppend(a: string, b: string)
    ensures Escape(a + b) == Escape(a) + Escape(b)
    decreases |a|
  {
    if |a| > 0 {
      assert (a + b)[1..] == a[1..] + b;
      EscapeAppend(a[1..], b);
    } else {
      assert a + b == b;
    }
  }

  /** A character that no entity uses is in the escape exactly when it is in
      the input. */
  lemma {:induction false} EscapeKeepsChar(s: string, c: char)
    requires !InEntity(c) && !IsSpecial(c)
    ensures c in Escape(s) <==> c in s
    decreases |s|
  {
    if |s| > 0 {
      EscapeKeepsChar(s[1..], c);
      var head := EscapeChar(s[0]);
      assert Escape(s) == head + Escape(s[1..]);
      assert c in head <==> c == s[0];
      assert s == [s[0]] + s[1..];
    }
  }

  /** Escaping never creates a backslash-`n` pair. */
  lemma {:induction false} EscapeNoEscapedNewline(s: string)
    requires !HasEscapedNewline(s)
    ensures !HasEscapedNewline(Escape(s))
    decreases |s|
  {
    if |s| > 0 {
      NoPairTail(s);
      EscapeNoEscapedNewline(s[1..]);
      EntityNoPair(s[0]);
      if |s| > 1 {
        assert !(s[0] == '\\' && s[1] == 'n');
      }
      NoPairConcat(EscapeChar(s[0]), Escape(s[1..]));
    }
  }

  lemma NoPairTail(s: string)
    requires |s| > 0 && !HasEscapedNewline(s)
    ensures !HasEscapedNewline(s[1..])
  {
    var tail := s[1..];
    forall i | 0 <= i < |tail| - 1 ensures !(tail[i] == '\\' && tail[i + 1] == 'n') {
      assert tail[i] == s[i + 1] && tail[i + 1] == s[i + 2];
    }
  }

  /** Two texts without a backslash-`n` pair, the first not ending in a
      backslash that the second's `n` would complete, join without one. */
  lemma NoPairConcat(a: string, b: string)
    requires !HasEscapedNewline(a) && !HasEscapedNewline(b)
    requires !(|a| > 0 && |b| > 0 && a[|a| - 1] == '\\' && b[0] == 'n')
    ensures !HasEscapedNewline(a + b)
  {
    var r := a + b;
    forall i | 0 <= i < |r| - 1 ensures !(r[i] == '\\' && r[i + 1] == 'n') {
      if i >= |a| {
        assert r[i] == b[i - |a|] && r[i + 1] == b[i + 1 - |a|];
      } else if i < |a| - 1 {
        assert r[i] == a[i] && r[i + 1] == a[i + 1];
      }
    }
  }

  /** An entity holds no backslash-`n` pair and ends in `;`; any other
      character is its own escape. */
  lemma EntityNoPair(c: char)
    ensures !HasEscapedNewline(EscapeChar(c))
    ensures IsSpecial(c) ==> EscapeChar(c)[|EscapeChar(c)| - 1] == ';'
    ensures !IsSpecial(c) ==> EscapeChar(c) == [c]
  {
    var e := EscapeChar(c);
    if IsSpecial(c) {
      forall i | 0 <= i < |e| ensures e[i] != '\\' {
        assert e[i] in "&amp;&lt;&gt;&quot;&#x27;";
      }
    }
  }
}
