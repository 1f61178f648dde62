/** Inline emphasis: the text is HTML-escaped first, then three regular
    expression substitutions run in sequence on the escaped text,
    `\*\*(.+?)\*\*` to `<strong>…</strong>`, `\*(.+?)\*` to `<em>…</em>` and
    `_(.+?)_` to `<em>…</em>`.

    The scanner `Sub` is written once over any element type. On characters it
    is the substitution itself. On `Piece`s, where an inserted tag is one
    opaque element, it shows where the tags went; `SubFlatten` proves the two
    agree, which is what lets the markup guarantees be stated on pieces. */
module Inline {
  import opened Wrappers
  import opened Text
  import opened Html

  // ---------------------------------------------------------------------------
  // One `re.sub` pass of the pattern  M(.+?)M

  /** The lazy search for the closing marker `m` in `u`: the first position at
      which `m` starts, provided no line break (`nl`, which `.` does not match)
      comes before it. The result splits `u` into the content before the
      marker and the text after it. */
  function FindClose<T(==)>(u: seq<T>, m: seq<T>, nl: T): (r: Option<(seq<T>, seq<T>)>)
    requires |m| > 0
    ensures r.Some? ==> u == r.value.0 + m + r.value.1 && nl !in r.value.0
    decreases |u|
  {
    if m <= u then
      assert u == [] + m + u[|m|..];
      Some(([], u[|m|..]))
    else if |u| == 0 || u[0] == nl then None
    else
      match FindClose(u[1..], m, nl)
      case None => None
      case Some(p) => Some(([u[0]] + p.0, p.1))
  }

  /** `FindClose` finds the first marker that no line break precedes, and it
      fails only when every marker in `u` has a line break before it. */
  lemma {:induction false} FindCloseFirst<T>(u: seq<T>, m: seq<T>, nl: T)
    requires |m| > 0
    ensures FindClose(u, m, nl).Some? ==>
              forall k | 0 <= k < |FindClose(u, m, nl).value.0| :: !(m <= u[k..])
    ensures FindClose(u, m, nl).None? ==>
              forall k | 0 <= k <= |u| && m <= u[k..] :: nl in u[..k]
    decreases |u|
  {
    if m <= u {
    } else if |u| == 0 || u[0] == nl {
      assert forall k | 0 < k <= |u| :: u[..k][0] == u[0];
    } else {
      FindCloseFirst(u[1..], m, nl);
      assert forall k | 0 < k <= |u| :: u[k..] == u[1..][k - 1..] && u[..k] == [u[0]] + u[1..][..k - 1];
    }
  }

  /** `re.sub` with the pattern `m(.+?)m` and the replacement
      `open` + group + `close`, scanning `s` left to right: a match needs at
      least one character between the markers, none of them `nl`. */
  function Sub<T(==)>(s: seq<T>, m: seq<T>, nl: T, open: seq<T>, close: seq<T>): (r: seq<T>)
    requires |m| > 0
    decreases |s|
  {
    if |s| == 0 then []
    else if m <= s && |s| > |m| && s[|m|] != nl && FindClose(s[|m| + 1..], m, nl).Some? then
      var p := FindClose(s[|m| + 1..], m, nl).value;
      open + [s[|m|]] + p.0 + close + Sub(p.1, m, nl, open, close)
    else
      [s[0]] + Sub(s[1..], m, nl, open, close)
  }

  /** Every element `Sub` produces is one of its input's or an inserted one. */
  lemma {:induction false} SubElements<T>(s: seq<T>, m: seq<T>, nl: T, open: seq<T>, close: seq<T>)
    requires |m| > 0
    ensures forall x | x in Sub(s, m, nl, open, close) :: x in s || x in open || x in close
    decreases |s|
  {
    if |s| == 0 {
    } else if m <= s && |s| > |m| && s[|m|] != nl && FindClose(s[|m| + 1..], m, nl).Some? {
      var u := s[|m| + 1..];
      var p := FindClose(u, m, nl).value;
      var tail := Sub(p.1, m, nl, open, close);
      SubElements(p.1, m, nl, open, close);
      var r := open + [s[|m|]] + p.0 + close + tail;
      assert Sub(s, m, nl, open, close) == r;
      forall x | x in r ensures x in s || x in open || x in close {
        if x in p.0 || x in p.1 {
          assert u == p.0 + m + p.1;
          assert x in u;
          assert x in s;
        } else if x in tail {
        } else if x == s[|m|] {
        }
      }
    } else {
      SubElements(s[1..], m, nl, open, close);
      assert Sub(s, m, nl, open, close) == [s[0]] + Sub(s[1..], m, nl, open, close);
    }
  }

  /** Elements that cannot start the marker pass through `Sub` untouched. */
  lemma {:induction false} SubInert<T>(w: seq<T>, u: seq<T>, m: seq<T>, nl: T, open: seq<T>, close: seq<T>)
    requires |m| > 0
    requires m[0] !in w
    ensures Sub(w + u, m, nl, open, close) == w + Sub(u, m, nl, open, close)
    decreases |w|
  {
    if |w| > 0 {
      var s := w + u;
      assert s[0] == w[0];
      assert s[1..] == w[1..] + u;
      SubInert(w[1..], u, m, nl, open, close);
      assert [w[0]] + w[1..] == w;
    } else {
      assert w + u == u;
    }
  }

  function Prepend<T>(w: seq<T>, r: Option<(seq<T>, seq<T>)>): Option<(seq<T>, seq<T>)> {
    match r
    case None => None
    case Some(p) => Some((w + p.0, p.1))
  }

  /** Elements that are neither a marker start nor a line break are skipped by
      the search and end up in the content. */
  lemma {:induction false} FindCloseInert<T>(w: seq<T>, u: seq<T>, m: seq<T>, nl: T)
    requires |m| > 0
    requires m[0] !in w && nl !in w
    ensures FindClose(w + u, m, nl) == Prepend(w, FindClose(u, m, nl))
    decreases |w|
  {
    if |w| > 0 {
      var s := w + u;
      assert s[0] == w[0] && s[1..] == w[1..] + u;
      assert !(m <= s) by { assert m[0] != s[0]; }
      FindCloseSkip(s, m, nl);
      FindCloseInert(w[1..], u, m, nl);
      PrependPrepend([w[0]], w[1..], FindClose(u, m, nl));
      assert [w[0]] + w[1..] == w;
    } else {
      assert w + u == u;
      match FindClose(u, m, nl)
      case None =>
      case Some(p) => assert w + p.0 == p.0;
    }
  }

  lemma PrependPrepend<T>(a: seq<T>, b: seq<T>, r: Option<(seq<T>, seq<T>)>)
    ensures Prepend(a, Prepend(b, r)) == Prepend(a + b, r)
  {
    if r.Some? {
      assert a + (b + r.value.0) == (a + b) + r.value.0;
    }
  }

  // ---------------------------------------------------------------------------
  // Pieces: characters and whole inserted tags

  datatype Tag = StrongOpen | StrongClose | EmOpen | EmClose

  function TagText(t: Tag): string {
    match t
    case StrongOpen => "<strong>"
    case StrongClose => "</strong>"
    case EmOpen => "<em>"
    case EmClose => "</em>"
  }

  datatype Piece = Ch(c: char) | Mark(tag: Tag)

  /** The text a sequence of pieces stands for. */
  function Flatten(ps: seq<Piece>): string
    decreases |ps|
  {
    if |ps| == 0 then ""
    else
      (match ps[0] case Ch(c) => [c] case Mark(t) => TagText(t)) + Flatten(ps[1..])
  }

  function Lift(s: string): (ps: seq<Piece>)
    ensures |ps| == |s| && forall i | 0 <= i < |s| :: ps[i] == Ch(s[i])
  {
    seq(|s|, i requires 0 <= i < |s| => Ch(s[i]))
  }

  lemma {:induction false} FlattenAppend(a: seq<Piece>, b: seq<Piece>)
    ensures Flatten(a + b) == Flatten(a) + Flatten(b)
    decreases |a|
  {
    if |a| > 0 {
      assert (a + b)[1..] == a[1..] + b;
      FlattenAppend(a[1..], b);
    } else {
      assert a + b == b;
    }
  }

  lemma {:induction false} FlattenLift(s: string)
    ensures Flatten(Lift(s)) == s
    decreases |s|
  {
    if |s| > 0 {
      assert Lift(s)[1..] == Lift(s[1..]);
      FlattenLift(s[1..]);
      assert [s[0]] + s[1..] == s;
    }
  }

  /** The markers used by the three passes. None of their characters occurs
      in a tag, and none is a line break. */
  predicate IsMarker(m: string) {
    |m| > 0 && forall i | 0 <= i < |m| :: m[i] == '*' || m[i] == '_'
  }

  function LiftResult(r: Option<(seq<Piece>, seq<Piece>)>): Option<(string, string)> {
    match r
    case None => None
    case Some(p) => Some((Flatten(p.0), Flatten(p.1)))
  }

  lemma {:induction false} PrefixLift(ps: seq<Piece>, m: string)
    requires forall i | 0 <= i < |m| :: m[i] == '*' || m[i] == '_'
    ensures Lift(m) <= ps <==> m <= Flatten(ps)
    decreases |ps|
  {
    if |m| > 0 && |ps| > 0 {
      var s := Flatten(ps);
      match ps[0]
      case Mark(t) =>
        assert s == TagText(t) + Flatten(ps[1..]);
        assert s[0] == '<';
      case Ch(x) =>
        FlattenHead(ps);
        PrefixLift(ps[1..], m[1..]);
        assert Lift(m)[1..] == Lift(m[1..]);
        PrefixCons(Lift(m), ps);
        PrefixCons(m, s);
    }
  }

  /** A non-empty prefix is a matching first element and a prefix of the
      rest. */
  lemma PrefixCons<T>(a: seq<T>, b: seq<T>)
    requires |a| > 0 && |b| > 0
    ensures a <= b <==> a[0] == b[0] && a[1..] <= b[1..]
  {
    if a[0] == b[0] && a[1..] <= b[1..] {
      assert a == [a[0]] + a[1..] && b == [b[0]] + b[1..];
    }
  }

  /** Searching the text of some pieces finds the closing marker exactly where
      searching the pieces does. */
  lemma {:induction false} FindCloseFlatten(qs: seq<Piece>, m: string)
    requires IsMarker(m)
    ensures FindClose(Flatten(qs), m, '\n') == LiftResult(FindClose(qs, Lift(m), Ch('\n')))
    decreases |qs|
  {
    PrefixLift(qs, m);
    if Lift(m) <= qs {
      FlattenAfterMarker(qs, m);
    } else if |qs| > 0 {
      FindCloseFlatten(qs[1..], m);
      FindCloseFlattenStep(qs, m);
    }
  }

  /** Once the pieces start with the lifted marker, the text after the marker
      is the text of the pieces after it. */
  lemma FlattenAfterMarker(qs: seq<Piece>, m: string)
    requires Lift(m) <= qs
    ensures Flatten(qs) == m + Flatten(qs[|m|..])
  {
    assert qs == qs[..|m|] + qs[|m|..];
    FlattenAppend(qs[..|m|], qs[|m|..]);
    FlattenLift(m);
    assert qs[..|m|] == Lift(m);
  }

  lemma FindCloseFlattenStep(qs: seq<Piece>, m: string)
    requires IsMarker(m) && |qs| > 0
    requires !(Lift(m) <= qs) && !(m <= Flatten(qs))
    requires FindClose(Flatten(qs[1..]), m, '\n') == LiftResult(FindClose(qs[1..], Lift(m), Ch('\n')))
    ensures FindClose(Flatten(qs), m, '\n') == LiftResult(FindClose(qs, Lift(m), Ch('\n')))
  {
    match qs[0]
    case Ch(x) =>
      FlattenFirstChar(qs, x);
      if x == '\n' {
        assert FindClose(qs, Lift(m), Ch('\n')) == None;
      } else {
        FindCloseStepChar(qs, m, x);
      }
    case Mark(t) =>
      FindCloseStepMark(qs, m, t);
  }

  lemma FlattenFirstChar(qs: seq<Piece>, x: char)
    requires |qs| > 0 && qs[0].Ch? && qs[0].c == x
    ensures var s := Flatten(qs); |s| > 0 && s[0] == x && s[1..] == Flatten(qs[1..])
  {
    var s := Flatten(qs);
    assert s == [x] + Flatten(qs[1..]);
  }

  lemma FindCloseStepChar(qs: seq<Piece>, m: string, x: char)
    requires IsMarker(m) && |qs| > 0 && qs[0].Ch? && qs[0].c == x && x != '\n'
    requires !(Lift(m) <= qs) && !(m <= Flatten(qs))
    requires var s := Flatten(qs); |s| > 0 && s[0] == x && s[1..] == Flatten(qs[1..])
    requires FindClose(Flatten(qs[1..]), m, '\n') == LiftResult(FindClose(qs[1..], Lift(m), Ch('\n')))
    ensures FindClose(Flatten(qs), m, '\n') == LiftResult(FindClose(qs, Lift(m), Ch('\n')))
  {
    var s := Flatten(qs);
    var tail := FindClose(qs[1..], Lift(m), Ch('\n'));
    assert FindClose(s, m, '\n') == Prepend([x], FindClose(s[1..], m, '\n'));
    assert FindClose(qs, Lift(m), Ch('\n')) == Prepend([Ch(x)], tail);
    match tail
    case None =>
    case Some(p) =>
      FlattenAppend([Ch(x)], p.0);
      assert Flatten([Ch(x)]) == [x];
  }

  lemma FindCloseStepMark(qs: seq<Piece>, m: string, t: Tag)
    requires IsMarker(m) && |qs| > 0 && qs[0].Mark? && qs[0].tag == t
    requires !(Lift(m) <= qs)
    requires FindClose(Flatten(qs[1..]), m, '\n') == LiftResult(FindClose(qs[1..], Lift(m), Ch('\n')))
    ensures FindClose(Flatten(qs), m, '\n') == LiftResult(FindClose(qs, Lift(m), Ch('\n')))
  {
    var w := TagText(t);
    var tail := FindClose(qs[1..], Lift(m), Ch('\n'));
    assert Flatten(qs) == w + Flatten(qs[1..]);
    FindCloseInert(w, Flatten(qs[1..]), m, '\n');
    assert FindClose(qs, Lift(m), Ch('\n')) == Prepend([Mark(t)], tail);
    match tail
    case None =>
    case Some(p) =>
      FlattenAppend([Mark(t)], p.0);
      assert Flatten([Mark(t)]) == w;
  }

  /** Running the substitution on pieces and then writing them out gives the
      same text as running it on the written-out text: a tag inserted by an
      earlier pass behaves, for a later pass, like one opaque element. */
  lemma {:induction false} SubFlatten(ps: seq<Piece>, m: string, o: Tag, c: Tag)
    requires IsMarker(m)
    ensures Flatten(Sub(ps, Lift(m), Ch('\n'), [Mark(o)], [Mark(c)]))
         == Sub(Flatten(ps), m, '\n', TagText(o), TagText(c))
    decreases |ps|
  {
    if |ps| == 0 {
      return;
    }
    match ps[0]
    case Mark(t) =>
      SubFlatten(ps[1..], m, o, c);
      SubFlattenMark(ps, m, o, c, t);
    case Ch(x) =>
      if Lift(m) <= ps && |ps| > |m| && ps[|m|] != Ch('\n') {
        SubFlattenMatch(ps, m, o, c);
      } else {
        SubFlatten(ps[1..], m, o, c);
        SubFlattenSkip(ps, m, o, c, x);
      }
  }

  /** `SubFlatten`'s step over a tag, which neither pass can match. */
  lemma SubFlattenMark(ps: seq<Piece>, m: string, o: Tag, c: Tag, t: Tag)
    requires IsMarker(m) && |ps| > 0 && ps[0].Mark? && ps[0].tag == t
    requires Flatten(Sub(ps[1..], Lift(m), Ch('\n'), [Mark(o)], [Mark(c)]))
          == Sub(Flatten(ps[1..]), m, '\n', TagText(o), TagText(c))
    ensures Flatten(Sub(ps, Lift(m), Ch('\n'), [Mark(o)], [Mark(c)]))
         == Sub(Flatten(ps), m, '\n', TagText(o), TagText(c))
  {
    var rest := Sub(ps[1..], Lift(m), Ch('\n'), [Mark(o)], [Mark(c)]);
    SubSkipsMark(ps, m, o, c);
    FlattenCons(ps);
    assert m[0] !in TagText(t);
    SubInert(TagText(t), Flatten(ps[1..]), m, '\n', TagText(o), TagText(c));
    FlattenAppend([ps[0]], rest);
  }

  lemma SubSkipsMark(ps: seq<Piece>, m: string, o: Tag, c: Tag)
    requires IsMarker(m) && |ps| > 0 && ps[0].Mark?
    ensures Sub(ps, Lift(m), Ch('\n'), [Mark(o)], [Mark(c)])
         == [ps[0]] + Sub(ps[1..], Lift(m), Ch('\n'), [Mark(o)], [Mark(c)])
  {
    var M := Lift(m);
    assert !(M <= ps) by { assert M[0] != ps[0]; }
  }

  /** `SubFlatten`'s step over a character that does not start a match. */
  lemma SubFlattenSkip(ps: seq<Piece>, m: string, o: Tag, c: Tag, x: char)
    requires IsMarker(m) && |ps| > 0 && ps[0].Ch? && ps[0].c == x
    requires !(Lift(m) <= ps && |ps| > |m| && ps[|m|] != Ch('\n'))
    requires Flatten(Sub(ps[1..], Lift(m), Ch('\n'), [Mark(o)], [Mark(c)]))
          == Sub(Flatten(ps[1..]), m, '\n', TagText(o), TagText(c))
    ensures Flatten(Sub(ps, Lift(m), Ch('\n'), [Mark(o)], [Mark(c)]))
         == Sub(Flatten(ps), m, '\n', TagText(o), TagText(c))
  {
    var s := Flatten(ps);
    var M := Lift(m);
    var rest := Sub(ps[1..], M, Ch('\n'), [Mark(o)], [Mark(c)]);
    FlattenFirstChar(ps, x);
    PrefixLift(ps, m);
    SkipNotMatch(ps, m);
    assert Sub(ps, M, Ch('\n'), [Mark(o)], [Mark(c)]) == [ps[0]] + rest;
    assert Sub(s, m, '\n', TagText(o), TagText(c)) == [x] + Sub(s[1..], m, '\n', TagText(o), TagText(c));
    FlattenAppend([ps[0]], rest);
    assert Flatten([ps[0]]) == [x];
  }

  /** A character start that is no match at the piece level is none at the
      character level either. */
  lemma SkipNotMatch(ps: seq<Piece>, m: string)
    requires IsMarker(m) && |ps| > 0 && ps[0].Ch?
    requires !(Lift(m) <= ps && |ps| > |m| && ps[|m|] != Ch('\n'))
    requires Lift(m) <= ps <==> m <= Flatten(ps)
    ensures var s := Flatten(ps); !(m <= s && |s| > |m| && s[|m|] != '\n')
  {
    var s := Flatten(ps);
    var M := Lift(m);
    if M <= ps && |ps| > |m| {
      FlattenAfterMarker(ps, m);
      FlattenHead(ps[|m|..]);
      assert s[|m|] == '\n';
    } else if M <= ps {
      assert ps == M;
      FlattenLift(m);
    }
  }

  lemma FlattenHead(ps: seq<Piece>)
    requires |ps| > 0 && ps[0].Ch?
    ensures Flatten(ps) == [ps[0].c] + Flatten(ps[1..])
  {
  }

  /** What the character-level content search sees after the opening marker
      and the first content element `q`: the rest of `q`'s text, then the
      text of the pieces after it. */
  function QTail(q: Piece): string {
    match q
    case Ch(_) => ""
    case Mark(t) => TagText(t)[1..]
  }

  lemma QTailInert(q: Piece, m: string)
    requires IsMarker(m)
    ensures m[0] !in QTail(q) && '\n' !in QTail(q)
  {
  }

  lemma ContentSearch(q: Piece, rest: seq<Piece>, m: string)
    requires IsMarker(m) && q != Ch('\n')
    ensures |Flatten([q] + rest)| > 0 && Flatten([q] + rest)[0] != '\n'
    ensures Flatten([q]) == [Flatten([q] + rest)[0]] + QTail(q)
    ensures FindClose(Flatten([q] + rest)[1..], m, '\n')
         == Prepend(QTail(q), LiftResult(FindClose(rest, Lift(m), Ch('\n'))))
  {
    ContentHead(q, rest);
    QTailInert(q, m);
    var f := Flatten([q] + rest);
    InertAfterHead(f, QTail(q), Flatten(rest), m);
    FindCloseFlatten(rest, m);
  }

  /** The text of `[q] + rest`: the first character of `q`'s text, the rest
      of it, then the text of `rest`. */
  lemma ContentHead(q: Piece, rest: seq<Piece>)
    requires q != Ch('\n')
    ensures |Flatten([q] + rest)| > 0 && Flatten([q] + rest)[0] != '\n'
    ensures Flatten([q]) == [Flatten([q] + rest)[0]] + QTail(q)
    ensures Flatten([q] + rest) == [Flatten([q] + rest)[0]] + QTail(q) + Flatten(rest)
  {
    FlattenAppend([q], rest);
    FlattenOne(q);
  }

  lemma FlattenOne(q: Piece)
    requires q != Ch('\n')
    ensures |Flatten([q])| > 0 && Flatten([q])[0] != '\n'
    ensures Flatten([q]) == [Flatten([q])[0]] + QTail(q)
  {
    assert [q][1..] == [];
    match q
    case Ch(x) =>
    case Mark(t) =>
      assert TagText(t)[0] == '<';
  }

  /** A search that starts after the head of `f` passes over the inert `w`. */
  lemma InertAfterHead(f: string, w: string, u: string, m: string)
    requires IsMarker(m) && m[0] !in w && '\n' !in w
    requires |f| > 0 && f == [f[0]] + w + u
    ensures FindClose(f[1..], m, '\n') == Prepend(w, FindClose(u, m, '\n'))
  {
    assert f[1..] == w + u;
    FindCloseInert(w, u, m, '\n');
  }

  /** The case of `SubFlatten` where a marker starts the input. */
  lemma {:induction false} SubFlattenMatch(ps: seq<Piece>, m: string, o: Tag, c: Tag)
    requires IsMarker(m)
    requires Lift(m) <= ps && |ps| > |m| && ps[|m|] != Ch('\n')
    ensures Flatten(Sub(ps, Lift(m), Ch('\n'), [Mark(o)], [Mark(c)]))
         == Sub(Flatten(ps), m, '\n', TagText(o), TagText(c))
    decreases |ps|, 0
  {
    var found := FindClose(ps[|m| + 1..], Lift(m), Ch('\n'));
    if found.None? {
      SubFlatten(ps[1..], m, o, c);
      MatchNone(ps, m, o, c);
    } else {
      var p := found.value;
      assert ps[|m| + 1..] == p.0 + Lift(m) + p.1;
      SubFlatten(p.1, m, o, c);
      MatchSome(ps, m, o, c);
    }
  }

  lemma MatchNone(ps: seq<Piece>, m: string, o: Tag, c: Tag)
    requires IsMarker(m)
    requires Lift(m) <= ps && |ps| > |m| && ps[|m|] != Ch('\n')
    requires FindClose(ps[|m| + 1..], Lift(m), Ch('\n')).None?
    requires Flatten(Sub(ps[1..], Lift(m), Ch('\n'), [Mark(o)], [Mark(c)]))
          == Sub(Flatten(ps[1..]), m, '\n', TagText(o), TagText(c))
    ensures Flatten(Sub(ps, Lift(m), Ch('\n'), [Mark(o)], [Mark(c)]))
         == Sub(Flatten(ps), m, '\n', TagText(o), TagText(c))
  {
    CharSkip(ps, m, TagText(o), TagText(c));
    PieceSkip(ps, m, o, c);
  }

  /** The character-level pass over the text of `ps` when the closing
      marker is missing: the marker's first character is kept. */
  lemma CharSkip(ps: seq<Piece>, m: string, O: string, C: string)
    requires IsMarker(m)
    requires Lift(m) <= ps && |ps| > |m| && ps[|m|] != Ch('\n')
    requires FindClose(ps[|m| + 1..], Lift(m), Ch('\n')).None?
    ensures Sub(Flatten(ps), m, '\n', O, C) == [m[0]] + Sub(Flatten(ps[1..]), m, '\n', O, C)
  {
    var s := Flatten(ps);
    MatchSetup(ps, m);
    SubSkip(s, m, '\n', O, C);
    assert ps[0] == Lift(m)[0];
    FlattenHead(ps);
  }

  /** The piece-level pass over `ps` when the closing marker is missing,
      written out. */
  lemma PieceSkip(ps: seq<Piece>, m: string, o: Tag, c: Tag)
    requires IsMarker(m)
    requires Lift(m) <= ps && |ps| > |m|
    requires FindClose(ps[|m| + 1..], Lift(m), Ch('\n')).None?
    ensures Flatten(Sub(ps, Lift(m), Ch('\n'), [Mark(o)], [Mark(c)]))
         == [m[0]] + Flatten(Sub(ps[1..], Lift(m), Ch('\n'), [Mark(o)], [Mark(c)]))
  {
    var M := Lift(m);
    SubSkip(ps, M, Ch('\n'), [Mark(o)], [Mark(c)]);
    assert ps[0] == M[0];
    FlattenHead([ps[0]] + Sub(ps[1..], M, Ch('\n'), [Mark(o)], [Mark(c)]));
    assert ([ps[0]] + Sub(ps[1..], M, Ch('\n'), [Mark(o)], [Mark(c)]))[1..] == Sub(ps[1..], M, Ch('\n'), [Mark(o)], [Mark(c)]);
  }

  lemma MatchSome(ps: seq<Piece>, m: string, o: Tag, c: Tag)
    requires IsMarker(m)
    requires Lift(m) <= ps && |ps| > |m| && ps[|m|] != Ch('\n')
    requires FindClose(ps[|m| + 1..], Lift(m), Ch('\n')).Some?
    requires var p := FindClose(ps[|m| + 1..], Lift(m), Ch('\n')).value;
      Flatten(Sub(p.1, Lift(m), Ch('\n'), [Mark(o)], [Mark(c)]))
        == Sub(Flatten(p.1), m, '\n', TagText(o), TagText(c))
    ensures Flatten(Sub(ps, Lift(m), Ch('\n'), [Mark(o)], [Mark(c)]))
         == Sub(Flatten(ps), m, '\n', TagText(o), TagText(c))
  {
    CharMatch(ps, m, TagText(o), TagText(c));
    PieceMatch(ps, m, o, c);
  }

  /** The character-level pass over the text of `ps` at a match. */
  lemma CharMatch(ps: seq<Piece>, m: string, O: string, C: string)
    requires IsMarker(m)
    requires Lift(m) <= ps && |ps| > |m| && ps[|m|] != Ch('\n')
    requires FindClose(ps[|m| + 1..], Lift(m), Ch('\n')).Some?
    ensures var p := FindClose(ps[|m| + 1..], Lift(m), Ch('\n')).value;
      Sub(Flatten(ps), m, '\n', O, C)
        == O + Flatten([ps[|m|]]) + Flatten(p.0) + C + Sub(Flatten(p.1), m, '\n', O, C)
  {
    var s := Flatten(ps);
    var p := FindClose(ps[|m| + 1..], Lift(m), Ch('\n')).value;
    var q := ps[|m|];
    MatchSetup(ps, m);
    var sp := FindClose(s[|m| + 1..], m, '\n').value;
    assert sp == (QTail(q) + Flatten(p.0), Flatten(p.1));
    SubTake(s, m, '\n', O, C);
    ConcatRegroup(O, C, [s[|m|]], QTail(q), Flatten(p.0), Sub(sp.1, m, '\n', O, C),
                  Sub(s, m, '\n', O, C), O + Flatten([q]) + Flatten(p.0) + C + Sub(sp.1, m, '\n', O, C), Flatten([q]));
  }

  /** The piece-level pass over `ps` at a match, written out. */
  lemma PieceMatch(ps: seq<Piece>, m: string, o: Tag, c: Tag)
    requires IsMarker(m)
    requires Lift(m) <= ps && |ps| > |m| && ps[|m|] != Ch('\n')
    requires FindClose(ps[|m| + 1..], Lift(m), Ch('\n')).Some?
    ensures var p := FindClose(ps[|m| + 1..], Lift(m), Ch('\n')).value;
      Flatten(Sub(ps, Lift(m), Ch('\n'), [Mark(o)], [Mark(c)]))
        == TagText(o) + Flatten([ps[|m|]]) + Flatten(p.0) + TagText(c)
           + Flatten(Sub(p.1, Lift(m), Ch('\n'), [Mark(o)], [Mark(c)]))
  {
    var M := Lift(m);
    var p := FindClose(ps[|m| + 1..], M, Ch('\n')).value;
    SubTake(ps, M, Ch('\n'), [Mark(o)], [Mark(c)]);
    MatchOutput(ps[|m|], p.0, Sub(p.1, M, Ch('\n'), [Mark(o)], [Mark(c)]), o, c);
  }

  lemma ConcatRegroup(O: string, C: string, head: string, qt: string, a: string, tail: string,
                      X: string, Y: string, F: string)
    requires X == O + head + (qt + a) + C + tail
    requires Y == O + F + a + C + tail
    requires F == head + qt
    ensures X == Y
  {
  }

  lemma FlattenCons(ps: seq<Piece>)
    requires |ps| > 0
    ensures Flatten(ps) == Flatten([ps[0]]) + Flatten(ps[1..])
  {
    assert ps == [ps[0]] + ps[1..];
    FlattenAppend([ps[0]], ps[1..]);
  }

  /** After a lifted marker and a content start that is not a line break, the
      character-level scanner sees the marker, the content start, and the same
      closing-marker search as the piece-level one. */
  lemma MatchSetup(ps: seq<Piece>, m: string)
    requires IsMarker(m)
    requires Lift(m) <= ps && |ps| > |m| && ps[|m|] != Ch('\n')
    ensures var s := Flatten(ps); var q := ps[|m|]; var rest := ps[|m| + 1..];
      && m <= s && |s| > |m| && s[|m|] != '\n'
      && FindClose(s[|m| + 1..], m, '\n') == Prepend(QTail(q), LiftResult(FindClose(rest, Lift(m), Ch('\n'))))
      && Flatten([q]) == [s[|m|]] + QTail(q)
  {
    var s := Flatten(ps);
    var q := ps[|m|];
    var rest := ps[|m| + 1..];
    FlattenAfterMarkerSplit(ps, m);
    ContentSearch(q, rest, m);
    MarkerThen(s, m, Flatten([q] + rest));
  }

  lemma FlattenAfterMarkerSplit(ps: seq<Piece>, m: string)
    requires Lift(m) <= ps && |ps| > |m|
    ensures Flatten(ps) == m + Flatten([ps[|m|]] + ps[|m| + 1..])
  {
    FlattenAfterMarker(ps, m);
    SplitAt(ps, |m|);
  }

  lemma SplitAt<T>(s: seq<T>, k: nat)
    requires k < |s|
    ensures s[k..] == [s[k]] + s[k + 1..]
  {
  }

  lemma MarkerThen(s: string, m: string, after: string)
    requires s == m + after && |after| > 0
    ensures m <= s && |s| > |m| && s[|m|] == after[0] && s[|m| + 1..] == after[1..]
  {
  }

  /** `Sub` when no match starts at the first element. */
  lemma SubSkip<T>(s: seq<T>, m: seq<T>, nl: T, open: seq<T>, close: seq<T>)
    requires |m| > 0 && |s| > 0
    requires !(m <= s && |s| > |m| && s[|m|] != nl && FindClose(s[|m| + 1..], m, nl).Some?)
    ensures Sub(s, m, nl, open, close) == [s[0]] + Sub(s[1..], m, nl, open, close)
  {
  }

  /** `Sub` when a match starts at the first element. */
  lemma SubTake<T>(s: seq<T>, m: seq<T>, nl: T, open: seq<T>, close: seq<T>)
    requires |m| > 0
    requires m <= s && |s| > |m| && s[|m|] != nl && FindClose(s[|m| + 1..], m, nl).Some?
    ensures var p := FindClose(s[|m| + 1..], m, nl).value;
            Sub(s, m, nl, open, close) == open + [s[|m|]] + p.0 + close + Sub(p.1, m, nl, open, close)
  {
  }

  /** The pattern `m(.+?)m` matches at position `i` of `s`. */
  predicate MatchAt<T(==)>(s: seq<T>, m: seq<T>, nl: T, i: nat)
    requires |m| > 0
  {
    && i < |s| && m <= s[i..] && |s| > i + |m| && s[i + |m|] != nl
    && FindClose(s[i + |m| + 1..], m, nl).Some?
  }

  /** Text before the first match passes through `Sub` unchanged. */
  lemma {:induction false} SubLeftmost<T>(s: seq<T>, m: seq<T>, nl: T, open: seq<T>, close: seq<T>, i: nat)
    requires |m| > 0 && i <= |s|
    requires forall j | 0 <= j < i :: !MatchAt(s, m, nl, j)
    ensures Sub(s, m, nl, open, close) == s[..i] + Sub(s[i..], m, nl, open, close)
    decreases i
  {
    if i > 0 {
      assert !MatchAt(s, m, nl, 0);
      MatchAtHead(s, m, nl);
      SubSkip(s, m, nl, open, close);
      NoMatchTail(s, m, nl, i);
      SubLeftmost(s[1..], m, nl, open, close, i - 1);
      SliceCons(s, i);
      ConsConcat(s[0], s[1..][..i - 1], Sub(s[i..], m, nl, open, close));
    }
  }

  lemma MatchAtHead<T>(s: seq<T>, m: seq<T>, nl: T)
    requires |m| > 0 && |s| > 0
    ensures MatchAt(s, m, nl, 0) == (m <= s && |s| > |m| && s[|m|] != nl && FindClose(s[|m| + 1..], m, nl).Some?)
  {
    assert s[0..] == s;
  }

  lemma NoMatchTail<T>(s: seq<T>, m: seq<T>, nl: T, i: nat)
    requires |m| > 0 && 0 < i <= |s|
    requires forall j | 0 <= j < i :: !MatchAt(s, m, nl, j)
    ensures forall j | 0 <= j < i - 1 :: !MatchAt(s[1..], m, nl, j)
  {
    forall j | 0 <= j < i - 1 ensures !MatchAt(s[1..], m, nl, j) {
      MatchAtTail(s, m, nl, j);
    }
  }

  lemma MatchAtTail<T>(s: seq<T>, m: seq<T>, nl: T, j: nat)
    requires |m| > 0 && |s| > 0
    ensures MatchAt(s[1..], m, nl, j) == MatchAt(s, m, nl, j + 1)
  {
    if j + 1 < |s| {
      assert s[1..][j..] == s[j + 1..];
      if |s| > j + 1 + |m| {
        assert s[1..][j + |m| + 1..] == s[j + 1 + |m| + 1..];
      }
    }
  }

  lemma ConsConcat<T>(x: T, a: seq<T>, b: seq<T>)
    ensures [x] + (a + b) == ([x] + a) + b
  {
  }

  lemma SliceCons<T>(s: seq<T>, i: nat)
    requires 0 < i <= |s|
    ensures s[1..][i - 1..] == s[i..] && [s[0]] + s[1..][..i - 1] == s[..i]
  {
  }

  /** `re.sub` leaves a text in which the pattern matches nowhere unchanged. */
  lemma SubNoMatch<T>(s: seq<T>, m: seq<T>, nl: T, open: seq<T>, close: seq<T>)
    requires |m| > 0
    requires forall j | 0 <= j < |s| :: !MatchAt(s, m, nl, j)
    ensures Sub(s, m, nl, open, close) == s
  {
    SubLeftmost(s, m, nl, open, close, |s|);
    assert s[..|s|] == s;
  }

  /** `re.sub` replaces the leftmost match: the text before it is kept, the
      match becomes `open`, its group and `close`, and scanning resumes right
      after the closing marker. */
  lemma SubFirstMatch<T>(s: seq<T>, m: seq<T>, nl: T, open: seq<T>, close: seq<T>, i: nat)
    requires |m| > 0
    requires MatchAt(s, m, nl, i) && forall j | 0 <= j < i :: !MatchAt(s, m, nl, j)
    ensures var p := FindClose(s[i + |m| + 1..], m, nl).value;
            Sub(s, m, nl, open, close) ==
              s[..i] + (open + [s[i + |m|]] + p.0 + close) + Sub(p.1, m, nl, open, close)
  {
    SubLeftmost(s, m, nl, open, close, i);
    var t := s[i..];
    assert t[|m|] == s[i + |m|] && t[|m| + 1..] == s[i + |m| + 1..];
    SubTake(t, m, nl, open, close);
  }

  lemma MatchOutput(q: Piece, a: seq<Piece>, tail: seq<Piece>, o: Tag, c: Tag)
    ensures Flatten([Mark(o)] + [q] + a + [Mark(c)] + tail)
         == TagText(o) + Flatten([q]) + Flatten(a) + TagText(c) + Flatten(tail)
  {
    FlattenAppend([Mark(o)] + [q] + a + [Mark(c)], tail);
    FlattenAppend([Mark(o)] + [q] + a, [Mark(c)]);
    FlattenAppend([Mark(o)] + [q], a);
    FlattenAppend([Mark(o)], [q]);
  }

  // ---------------------------------------------------------------------------
  // Tag balance

  /** How a piece moves the nesting depth of the tag pair `o`/`c`. */
  function Delta(x: Piece, o: Tag, c: Tag): int {
    if x == Mark(o) then 1 else if x == Mark(c) then -1 else 0
  }

  /** The nesting depth of `o`/`c` after all of `ps`. */
  function Depth(ps: seq<Piece>, o: Tag, c: Tag): int
    decreases |ps|
  {
    if |ps| == 0 then 0 else Delta(ps[0], o, c) + Depth(ps[1..], o, c)
  }

  /** Starting at depth `d`, the running depth of `o`/`c` stays between 0 and
      `hi` before, between and after the pieces of `ps`. */
  predicate Within(ps: seq<Piece>, d: int, hi: int, o: Tag, c: Tag)
    decreases |ps|
  {
    0 <= d <= hi && (|ps| > 0 ==> Within(ps[1..], d + Delta(ps[0], o, c), hi, o, c))
  }

  /** Every `o` is closed by a later `c`, no `c` comes without an open `o`,
      and at most `hi` of them are open at once. */
  predicate Balanced(ps: seq<Piece>, hi: int, o: Tag, c: Tag) {
    Within(ps, 0, hi, o, c) && Depth(ps, o, c) == 0
  }

  lemma {:induction false} WithinAppend(a: seq<Piece>, b: seq<Piece>, d: int, hi: int, o: Tag, c: Tag)
    ensures Within(a + b, d, hi, o, c) <==> Within(a, d, hi, o, c) && Within(b, d + Depth(a, o, c), hi, o, c)
    ensures Depth(a + b, o, c) == Depth(a, o, c) + Depth(b, o, c)
    decreases |a|
  {
    DepthAppend(a, b, o, c);
    if |a| > 0 {
      assert (a + b)[1..] == a[1..] + b;
      assert (a + b)[0] == a[0];
      WithinAppend(a[1..], b, d + Delta(a[0], o, c), hi, o, c);
    } else {
      assert a + b == b;
    }
  }

  lemma {:induction false} DepthAppend(a: seq<Piece>, b: seq<Piece>, o: Tag, c: Tag)
    ensures Depth(a + b, o, c) == Depth(a, o, c) + Depth(b, o, c)
    decreases |a|
  {
    if |a| > 0 {
      assert (a + b)[1..] == a[1..] + b;
      assert (a + b)[0] == a[0];
      DepthAppend(a[1..], b, o, c);
    } else {
      assert a + b == b;
    }
  }

  /** Raising the start depth by `k` keeps the pieces within a bound raised by
      at least `k`. */
  lemma {:induction false} WithinShift(ps: seq<Piece>, d: int, hi: int, k: int, hi': int, o: Tag, c: Tag)
    requires Within(ps, d, hi, o, c)
    requires 0 <= k && hi + k <= hi'
    ensures Within(ps, d + k, hi', o, c)
    decreases |ps|
  {
    if |ps| > 0 {
      WithinShift(ps[1..], d + Delta(ps[0], o, c), hi, k, hi', o, c);
    }
  }

  /** Plain characters leave every depth alone. */
  lemma {:induction false} WithinLift(s: string, d: int, hi: int, o: Tag, c: Tag)
    requires 0 <= d <= hi
    ensures Within(Lift(s), d, hi, o, c) && Depth(Lift(s), o, c) == 0
    decreases |s|
  {
    if |s| > 0 {
      assert Lift(s)[1..] == Lift(s[1..]);
      WithinLift(s[1..], d, hi, o, c);
    }
  }

  /** The tag pair a pass inserts is either the pair being counted or shares
      no tag with it. */
  predicate Separate(ot: Tag, ct: Tag, o: Tag, c: Tag) {
    (ot == o && ct == c) || (ot != o && ot != c && ct != o && ct != c)
  }

  function Raise(ot: Tag, o: Tag): int {
    if ot == o then 1 else 0
  }

  /** A marker made of plain characters only, as every lifted marker is. */
  predicate PlainMarker(M: seq<Piece>) {
    |M| > 0 && forall i | 0 <= i < |M| :: M[i].Ch?
  }

  /** One pass keeps the count of a tag pair at zero overall and raises the
      highest nesting by at most one, and only when it inserts that pair. */
  lemma {:induction false} SubWithin(ps: seq<Piece>, M: seq<Piece>, ot: Tag, ct: Tag, d: int, hi: int, o: Tag, c: Tag)
    requires PlainMarker(M) && Separate(ot, ct, o, c) && o != c
    requires Within(ps, d, hi, o, c)
    ensures var r := Sub(ps, M, Ch('\n'), [Mark(ot)], [Mark(ct)]);
            Within(r, d, hi + Raise(ot, o), o, c) && Depth(r, o, c) == Depth(ps, o, c)
    decreases |ps|, 1
  {
    if |ps| == 0 {
    } else if M <= ps && |ps| > |M| && ps[|M|] != Ch('\n') && FindClose(ps[|M| + 1..], M, Ch('\n')).Some? {
      SubWithinMatch(ps, M, ot, ct, d, hi, o, c);
    } else {
      SubWithinSkip(ps, M, ot, ct, d, hi, o, c);
    }
  }

  /** The case of `SubWithin` where no match starts the input. */
  lemma {:induction false} SubWithinSkip(ps: seq<Piece>, M: seq<Piece>, ot: Tag, ct: Tag, d: int, hi: int, o: Tag, c: Tag)
    requires PlainMarker(M) && Separate(ot, ct, o, c) && o != c
    requires Within(ps, d, hi, o, c) && |ps| > 0
    requires !(M <= ps && |ps| > |M| && ps[|M|] != Ch('\n') && FindClose(ps[|M| + 1..], M, Ch('\n')).Some?)
    ensures var r := Sub(ps, M, Ch('\n'), [Mark(ot)], [Mark(ct)]);
            Within(r, d, hi + Raise(ot, o), o, c) && Depth(r, o, c) == Depth(ps, o, c)
    decreases |ps|, 0
  {
    SubSkip(ps, M, Ch('\n'), [Mark(ot)], [Mark(ct)]);
    var e := d + Delta(ps[0], o, c);
    assert Within(ps[1..], e, hi, o, c);
    SubWithin(ps[1..], M, ot, ct, e, hi, o, c);
    ConsWithin(ps[0], Sub(ps[1..], M, Ch('\n'), [Mark(ot)], [Mark(ct)]), d, hi + Raise(ot, o), o, c);
  }

  lemma ConsWithin(x: Piece, rest: seq<Piece>, d: int, hi: int, o: Tag, c: Tag)
    requires 0 <= d <= hi && Within(rest, d + Delta(x, o, c), hi, o, c)
    ensures Within([x] + rest, d, hi, o, c) && Depth([x] + rest, o, c) == Delta(x, o, c) + Depth(rest, o, c)
  {
    assert ([x] + rest)[0] == x && ([x] + rest)[1..] == rest;
  }

  /** The case of `SubWithin` where a match `M x a M rest` starts the input:
      the inserted pair wraps the body, and the rest is passed over on its
      own. */
  lemma {:induction false} SubWithinMatch(ps: seq<Piece>, M: seq<Piece>, ot: Tag, ct: Tag, d: int, hi: int, o: Tag, c: Tag)
    requires PlainMarker(M) && Separate(ot, ct, o, c) && o != c
    requires Within(ps, d, hi, o, c)
    requires M <= ps && |ps| > |M| && ps[|M|] != Ch('\n') && FindClose(ps[|M| + 1..], M, Ch('\n')).Some?
    ensures var r := Sub(ps, M, Ch('\n'), [Mark(ot)], [Mark(ct)]);
            Within(r, d, hi + Raise(ot, o), o, c) && Depth(r, o, c) == Depth(ps, o, c)
    decreases |ps|, 0
  {
    match FindClose(ps[|M| + 1..], M, Ch('\n'))
    case Some((a, rest)) =>
      MatchBody(ps, M, a, rest, d, hi, o, c);
      SubWithin(rest, M, ot, ct, d + Depth([ps[|M|]] + a, o, c), hi, o, c);
      SubWrapped(ps, M, a, rest, ot, ct);
      WrapSame(ps, rest, Sub(ps, M, Ch('\n'), [Mark(ot)], [Mark(ct)]), ot, ct, [ps[|M|]] + a,
               Sub(rest, M, Ch('\n'), [Mark(ot)], [Mark(ct)]), d, hi, o, c);
  }

  /** The depth walk over a match splits at its body. */
  lemma MatchBody(ps: seq<Piece>, M: seq<Piece>, a: seq<Piece>, rest: seq<Piece>, d: int, hi: int, o: Tag, c: Tag)
    requires PlainMarker(M) && Within(ps, d, hi, o, c)
    requires M <= ps && |ps| > |M| && FindClose(ps[|M| + 1..], M, Ch('\n')) == Some((a, rest))
    ensures Within([ps[|M|]] + a, d, hi, o, c) && Within(rest, d + Depth([ps[|M|]] + a, o, c), hi, o, c)
    ensures Depth(ps, o, c) == Depth([ps[|M|]] + a, o, c) + Depth(rest, o, c)
    ensures |rest| < |ps|
  {
    assert ps[|M| + 1..] == a + M + rest;
    MatchPieces(ps, M, a, rest, d, hi, o, c);
  }

  /** `WrapWithin` for a sequence known to equal the wrapped one, whose
      rest keeps the depth of `rest`. The facts about `r` and `tail` are
      stated as a hypothesis rather than required, so that the caller's
      proof uses them as they stand. */
  lemma WrapSame(ps: seq<Piece>, rest: seq<Piece>, r: seq<Piece>, ot: Tag, ct: Tag, body: seq<Piece>, tail: seq<Piece>,
                 d: int, hi: int, o: Tag, c: Tag)
    requires Separate(ot, ct, o, c) && o != c
    requires Within(body, d, hi, o, c)
    ensures r == [Mark(ot)] + body + [Mark(ct)] + tail
            && Within(tail, d + Depth(body, o, c), hi + Raise(ot, o), o, c)
            && Depth(tail, o, c) == Depth(rest, o, c) && Depth(ps, o, c) == Depth(body, o, c) + Depth(rest, o, c)
            ==> Within(r, d, hi + Raise(ot, o), o, c) && Depth(r, o, c) == Depth(ps, o, c)
  {
    if r == [Mark(ot)] + body + [Mark(ct)] + tail && Within(tail, d + Depth(body, o, c), hi + Raise(ot, o), o, c) {
      WrapWithin(ot, ct, body, tail, d, hi, o, c);
    }
  }

  /** A match at the start: the inserted pair around the body, then the pass
      over the rest. */
  lemma SubWrapped(ps: seq<Piece>, M: seq<Piece>, a: seq<Piece>, rest: seq<Piece>, ot: Tag, ct: Tag)
    requires PlainMarker(M)
    requires M <= ps && |ps| > |M| && ps[|M|] != Ch('\n') && FindClose(ps[|M| + 1..], M, Ch('\n')) == Some((a, rest))
    ensures Sub(ps, M, Ch('\n'), [Mark(ot)], [Mark(ct)])
            == [Mark(ot)] + ([ps[|M|]] + a) + [Mark(ct)] + Sub(rest, M, Ch('\n'), [Mark(ot)], [Mark(ct)])
  {
    SubTake(ps, M, Ch('\n'), [Mark(ot)], [Mark(ct)]);
    Regroup([Mark(ot)], [ps[|M|]], a, [Mark(ct)], Sub(rest, M, Ch('\n'), [Mark(ot)], [Mark(ct)]));
  }

  lemma Regroup<T>(a: seq<T>, b: seq<T>, c: seq<T>, d: seq<T>, e: seq<T>)
    ensures a + b + c + d + e == a + (b + c) + d + e
  {
  }

  /** Wrapping a body in one inserted tag pair, then appending the rest. */
  lemma WrapWithin(ot: Tag, ct: Tag, body: seq<Piece>, tail: seq<Piece>, d: int, hi: int, o: Tag, c: Tag)
    requires Separate(ot, ct, o, c) && o != c
    requires Within(body, d, hi, o, c)
    requires Within(tail, d + Depth(body, o, c), hi + Raise(ot, o), o, c)
    ensures var r := [Mark(ot)] + body + [Mark(ct)] + tail;
            Within(r, d, hi + Raise(ot, o), o, c) && Depth(r, o, c) == Depth(body, o, c) + Depth(tail, o, c)
  {
    var H := hi + Raise(ot, o);
    var abc := [Mark(ot)] + body + [Mark(ct)];
    WrapBody(ot, ct, body, d, hi, o, c);
    WithinAppend(abc, tail, d, H, o, c);
  }

  /** The body wrapped in one inserted tag pair stays within a bound raised by
      one exactly when the pair is the one counted, and leaves the depth
      where the body leaves it. */
  lemma WrapBody(ot: Tag, ct: Tag, body: seq<Piece>, d: int, hi: int, o: Tag, c: Tag)
    requires Separate(ot, ct, o, c) && o != c
    requires Within(body, d, hi, o, c)
    ensures var abc := [Mark(ot)] + body + [Mark(ct)];
            Within(abc, d, hi + Raise(ot, o), o, c) && Depth(abc, o, c) == Depth(body, o, c)
  {
    var R := Raise(ot, o);
    var H := hi + R;
    var D := Depth(body, o, c);
    assert Delta(Mark(ot), o, c) == R && Delta(Mark(ct), o, c) == -R;
    WithinShift(body, d, hi, R, H, o, c);
    WithinEnd(body, d, hi, o, c);
    var ab := [Mark(ot)] + body;
    OpenWithin(ot, body, d, H, o, c);
    WithinOne(Mark(ct), d + R + D, H, o, c);
    WithinAppend(ab, [Mark(ct)], d, H, o, c);
  }

  lemma OpenWithin(ot: Tag, body: seq<Piece>, d: int, hi: int, o: Tag, c: Tag)
    requires 0 <= d <= hi && 0 <= d + Delta(Mark(ot), o, c) <= hi
    requires Within(body, d + Delta(Mark(ot), o, c), hi, o, c)
    ensures Within([Mark(ot)] + body, d, hi, o, c)
    ensures Depth([Mark(ot)] + body, o, c) == Delta(Mark(ot), o, c) + Depth(body, o, c)
  {
    WithinOne(Mark(ot), d, hi, o, c);
    WithinAppend([Mark(ot)], body, d, hi, o, c);
  }

  lemma {:induction false} WithinEnd(ps: seq<Piece>, d: int, hi: int, o: Tag, c: Tag)
    requires Within(ps, d, hi, o, c)
    ensures 0 <= d + Depth(ps, o, c) <= hi
    decreases |ps|
  {
    if |ps| > 0 {
      WithinEnd(ps[1..], d + Delta(ps[0], o, c), hi, o, c);
    }
  }

  lemma WithinOne(x: Piece, d: int, hi: int, o: Tag, c: Tag)
    ensures Within([x], d, hi, o, c) <==> 0 <= d <= hi && 0 <= d + Delta(x, o, c) <= hi
    ensures Depth([x], o, c) == Delta(x, o, c)
  {
    assert [x][1..] == [];
  }

  /** A match `M x a M rest` splits the depth walk into the match body
      `x a` and the rest; the markers themselves are plain characters. */
  lemma MatchPieces(ps: seq<Piece>, M: seq<Piece>, a: seq<Piece>, rest: seq<Piece>, d: int, hi: int, o: Tag, c: Tag)
    requires |ps| > |M| && M <= ps && ps[|M| + 1..] == a + M + rest
    requires forall i | 0 <= i < |M| :: M[i].Ch?
    requires Within(ps, d, hi, o, c)
    ensures var body := [ps[|M|]] + a;
            Within(body, d, hi, o, c) && Within(rest, d + Depth(body, o, c), hi, o, c)
            && Depth(ps, o, c) == Depth(body, o, c) + Depth(rest, o, c)
  {
    var body := [ps[|M|]] + a;
    assert ps == M + (body + (M + rest));
    MarkerFlat(M, d, hi, o, c);
    WithinAppend(M, body + (M + rest), d, hi, o, c);
    WithinAppend(body, M + rest, d, hi, o, c);
    WithinAppend(M, rest, d + Depth(body, o, c), hi, o, c);
  }

  lemma {:induction false} MarkerFlat(M: seq<Piece>, d: int, hi: int, o: Tag, c: Tag)
    requires forall i | 0 <= i < |M| :: M[i].Ch?
    requires 0 <= d <= hi
    ensures Depth(M, o, c) == 0 && Within(M, d, hi, o, c)
    decreases |M|
  {
    if |M| > 0 {
      MarkerFlat(M[1..], d, hi, o, c);
    }
  }

  // ---------------------------------------------------------------------------
  // The three passes

  /** One substitution pass on text, with tag `o` before and `c` after. */
  function Pass(s: string, m: string, o: Tag, c: Tag): string
    requires IsMarker(m)
  {
    Sub(s, m, '\n', TagText(o), TagText(c))
  }

  /** The same pass on pieces. */
  function PiecePass(ps: seq<Piece>, m: string, o: Tag, c: Tag): seq<Piece>
    requires IsMarker(m)
  {
    Sub(ps, Lift(m), Ch('\n'), [Mark(o)], [Mark(c)])
  }

  /** `_format_inline`: escape, then bold `**`, italic `*` and italic `_`.
      Text with neither `*` nor `_` comes out merely escaped. */
  function FormatInline(text: string): (r: string)
    ensures '*' !in text && '_' !in text ==> r == Escape(text)
  {
    EscapeKeepsChar(text, '*');
    EscapeKeepsChar(text, '_');
    var e := Escape(text);
    PassesInert(e);
    Pass(Pass(Pass(e, "**", StrongOpen, StrongClose), "*", EmOpen, EmClose), "_", EmOpen, EmClose)
  }

  /** Text without `*` and `_` goes through all three passes unchanged. */
  lemma PassesInert(e: string)
    ensures '*' !in e && '_' !in e ==>
              Pass(Pass(Pass(e, "**", StrongOpen, StrongClose), "*", EmOpen, EmClose), "_", EmOpen, EmClose) == e
  {
    if '*' !in e && '_' !in e {
      PassInert(e, "**", StrongOpen, StrongClose);
      PassInert(e, "*", EmOpen, EmClose);
      PassInert(e, "_", EmOpen, EmClose);
    }
  }

  /** The same pipeline on pieces, where every inserted tag is one element. */
  function InlinePieces(text: string): seq<Piece> {
    var e := Lift(Escape(text));
    PiecePass(PiecePass(PiecePass(e, "**", StrongOpen, StrongClose), "*", EmOpen, EmClose), "_", EmOpen, EmClose)
  }

  /** The markup `FormatInline` produces: its output is the text of
      `InlinePieces`, in which `<strong>` tags never nest and are all closed,
      `<em>` tags nest at most two deep and are all closed, and no `<` or `>`
      stands outside a tag. The input's own `<` and `>` are all escaped. */
  lemma InlineMarkup(text: string)
    ensures FormatInline(text) == Flatten(InlinePieces(text))
    ensures Balanced(InlinePieces(text), 1, StrongOpen, StrongClose)
    ensures Balanced(InlinePieces(text), 2, EmOpen, EmClose)
    ensures forall x | x in InlinePieces(text) :: x != Ch('<') && x != Ch('>')
  {
    InlineText(text);
    InlineStrong(text);
    InlineEm(text);
    InlineBrackets(text);
  }

  lemma InlineText(text: string)
    ensures FormatInline(text) == Flatten(InlinePieces(text))
  {
    var e := Escape(text);
    var p0 := Lift(e);
    var p1 := PiecePass(p0, "**", StrongOpen, StrongClose);
    var p2 := PiecePass(p1, "*", EmOpen, EmClose);
    FlattenLift(e);
    SubFlatten(p0, "**", StrongOpen, StrongClose);
    SubFlatten(p1, "*", EmOpen, EmClose);
    SubFlatten(p2, "_", EmOpen, EmClose);
  }

  /** `SubWithin` for one pass of a marker. */
  lemma PassWithin(ps: seq<Piece>, m: string, ot: Tag, ct: Tag, d: int, hi: int, o: Tag, c: Tag)
    requires IsMarker(m) && Separate(ot, ct, o, c) && o != c
    requires Within(ps, d, hi, o, c)
    ensures var r := PiecePass(ps, m, ot, ct);
            Within(r, d, hi + Raise(ot, o), o, c) && Depth(r, o, c) == Depth(ps, o, c)
  {
    SubWithin(ps, Lift(m), ot, ct, d, hi, o, c);
  }

  lemma InlineStrong(text: string)
    ensures Balanced(InlinePieces(text), 1, StrongOpen, StrongClose)
  {
    var e := Escape(text);
    var p0 := Lift(e);
    var p1 := PiecePass(p0, "**", StrongOpen, StrongClose);
    var p2 := PiecePass(p1, "*", EmOpen, EmClose);
    WithinLift(e, 0, 0, StrongOpen, StrongClose);
    PassWithin(p0, "**", StrongOpen, StrongClose, 0, 0, StrongOpen, StrongClose);
    PassWithin(p1, "*", EmOpen, EmClose, 0, 1, StrongOpen, StrongClose);
    PassWithin(p2, "_", EmOpen, EmClose, 0, 1, StrongOpen, StrongClose);
  }

  lemma InlineEm(text: string)
    ensures Balanced(InlinePieces(text), 2, EmOpen, EmClose)
  {
    var e := Escape(text);
    var p0 := Lift(e);
    var p1 := PiecePass(p0, "**", StrongOpen, StrongClose);
    var p2 := PiecePass(p1, "*", EmOpen, EmClose);
    WithinLift(e, 0, 0, EmOpen, EmClose);
    PassWithin(p0, "**", StrongOpen, StrongClose, 0, 0, EmOpen, EmClose);
    PassWithin(p1, "*", EmOpen, EmClose, 0, 0, EmOpen, EmClose);
    PassWithin(p2, "_", EmOpen, EmClose, 0, 1, EmOpen, EmClose);
  }

  lemma InlineBrackets(text: string)
    ensures forall x | x in InlinePieces(text) :: x != Ch('<') && x != Ch('>')
  {
    var e := Escape(text);
    var p0 := Lift(e);
    var p1 := PiecePass(p0, "**", StrongOpen, StrongClose);
    var p2 := PiecePass(p1, "*", EmOpen, EmClose);
    var p3 := PiecePass(p2, "_", EmOpen, EmClose);
    assert forall x | x in p0 :: x != Ch('<') && x != Ch('>') by {
      forall x | x in p0 ensures x != Ch('<') && x != Ch('>') {
        var i :| 0 <= i < |p0| && p0[i] == x;
        assert x == Ch(e[i]);
      }
    }
    SubElements(p0, Lift("**"), Ch('\n'), [Mark(StrongOpen)], [Mark(StrongClose)]);
    SubElements(p1, Lift("*"), Ch('\n'), [Mark(EmOpen)], [Mark(EmClose)]);
    SubElements(p2, Lift("_"), Ch('\n'), [Mark(EmOpen)], [Mark(EmClose)]);
  }

  /** `FindClose` when no marker starts its input. */
  lemma FindCloseSkip<T>(u: seq<T>, m: seq<T>, nl: T)
    requires |m| > 0 && |u| > 0 && u[0] != nl && !(m <= u)
    ensures FindClose(u, m, nl) == Prepend([u[0]], FindClose(u[1..], m, nl))
  {
  }

  lemma FormatInlineSteps(text: string)
    ensures FormatInline(text)
         == Pass(Pass(Pass(Escape(text), "**", StrongOpen, StrongClose), "*", EmOpen, EmClose), "_", EmOpen, EmClose)
  {
  }

  /** A pass whose marker does not occur leaves the text alone. */
  lemma PassInert(s: string, m: string, o: Tag, c: Tag)
    requires IsMarker(m) && m[0] !in s
    ensures Pass(s, m, o, c) == s
  {
    SubInert(s, [], m, '\n', TagText(o), TagText(c));
    assert s + [] == s;
  }

  /** Bold markers become a `<strong>` pair. */
  lemma BoldExample(s: string)
    requires s == "**a**"
    ensures FormatInline(s) == "<strong>a</strong>"
  {
    FormatInlineSteps(s);
    EscapeLiteral(s);
    BoldPass(s);
    ItalicInert("<strong>a</strong>");
  }

  /** The examples' inputs hold no character `escape` replaces. */
  lemma EscapeLiteral(s: string)
    requires s == "**a**" || s == "**a*b**c*" || s == "snake_case_name"
    ensures Escape(s) == s
  {
    forall i | 0 <= i < |s|
      ensures !IsSpecial(s[i])
    {
      assert s[i] in "*_abcekmns";
    }
    EscapePlain(s);
  }

  lemma ItalicInert(b: string)
    requires b == "<strong>a</strong>"
    ensures Pass(Pass(b, "*", EmOpen, EmClose), "_", EmOpen, EmClose) == b
  {
    forall i | 0 <= i < |b|
      ensures b[i] != '*' && b[i] != '_'
    {
      assert b[i] in "</>agnorst";
    }
    PassInert(b, "*", EmOpen, EmClose);
    PassInert(b, "_", EmOpen, EmClose);
  }

  lemma BoldPass(s: string)
    requires s == "**a**"
    ensures Pass(s, "**", StrongOpen, StrongClose) == "<strong>a</strong>"
  {
    var u := s[3..];
    assert "**" <= s && s[2] == 'a' && u == "**";
    assert FindClose(u, "**", '\n') == Some(([], [])) by {
      assert "**" <= u && u[2..] == [];
    }
    SubTake(s, "**", '\n', "<strong>", "</strong>");
    assert Sub([], "**", '\n', "<strong>", "</strong>") == [];
    assert Pass(s, "**", StrongOpen, StrongClose) == "<strong>" + [s[2]] + [] + "</strong>" + [];
    assert "<strong>" + "a" + [] + "</strong>" + [] == "<strong>a</strong>";
  }

  /** The passes do not respect one another's tags: an italic span may start
      inside a bold one and end after it. */
  lemma CrossedTagsExample(s: string)
    requires s == "**a*b**c*"
    ensures FormatInline(s) == "<strong>a<em>b</strong>c</em>"
  {
    FormatInlineSteps(s);
    EscapeLiteral(s);
    CrossedBoldPass(s);
    CrossedItalicPass("<strong>a*b</strong>c*");
    UnderscoreInert("<strong>a<em>b</strong>c</em>");
  }

  lemma UnderscoreInert(b: string)
    requires b == "<strong>a<em>b</strong>c</em>"
    ensures Pass(b, "_", EmOpen, EmClose) == b
  {
    PassInert(b, "_", EmOpen, EmClose);
  }

  lemma CrossedBoldPass(s: string)
    requires s == "**a*b**c*"
    ensures Pass(s, "**", StrongOpen, StrongClose) == "<strong>a*b</strong>c*"
  {
    var u := s[3..];
    assert "**" <= s && s[2] == 'a' && u == "*b**c*";
    CrossedBoldSearch(u);
    SubTake(s, "**", '\n', "<strong>", "</strong>");
    CrossedBoldTail("c*");
    assert Pass(s, "**", StrongOpen, StrongClose) == "<strong>" + [s[2]] + "*b" + "</strong>" + "c*";
    CrossedBoldJoin("*b");
  }

  lemma CrossedBoldJoin(w: string)
    requires w == "*b"
    ensures "<strong>" + "a" + w + "</strong>" + "c*" == "<strong>a*b</strong>c*"
  {
  }

  lemma CrossedBoldSearch(u: string)
    requires u == "*b**c*"
    ensures FindClose(u, "**", '\n') == Some(("*b", "c*"))
  {
    var v := "**c*";
    assert u[1] == 'b' && u[1..] == "b" + v;
    FindCloseSkip(u, "**", '\n');
    FindCloseInert("b", v, "**", '\n');
    FindCloseHit(v, "**", '\n');
    assert v[2..] == "c*";
    assert [u[0]] + ("b" + []) == "*b";
  }

  /** `FindClose` when a marker starts its input. */
  lemma FindCloseHit<T>(u: seq<T>, m: seq<T>, nl: T)
    requires |m| > 0 && m <= u
    ensures FindClose(u, m, nl) == Some(([], u[|m|..]))
  {
  }

  lemma CrossedBoldTail(t: string)
    requires t == "c*"
    ensures Sub(t, "**", '\n', "<strong>", "</strong>") == t
  {
    assert t == "c" + "*";
    SubInert("c", "*", "**", '\n', "<strong>", "</strong>");
  }

  lemma CrossedItalicPass(b: string)
    requires b == "<strong>a*b</strong>c*"
    ensures Pass(b, "*", EmOpen, EmClose) == "<strong>a<em>b</strong>c</em>"
  {
    var w, t := "<strong>a", "*b</strong>c*";
    CrossedItalicParts(b, w, t);
    SubInert(w, t, "*", '\n', "<em>", "</em>");
    CrossedItalicMatch(t);
  }

  lemma CrossedItalicParts(b: string, w: string, t: string)
    requires b == "<strong>a*b</strong>c*" && w == "<strong>a" && t == "*b</strong>c*"
    ensures b == w + t && '*' !in w && w + "<em>b</strong>c</em>" == "<strong>a<em>b</strong>c</em>"
  {
  }

  lemma CrossedItalicMatch(t: string)
    requires t == "*b</strong>c*"
    ensures Sub(t, "*", '\n', "<em>", "</em>") == "<em>b</strong>c</em>"
  {
    var u := t[2..];
    assert "*" <= t && t[1] == 'b' && u == "</strong>c*";
    CrossedItalicSearch(u);
    SubTake(t, "*", '\n', "<em>", "</em>");
    assert Sub([], "*", '\n', "<em>", "</em>") == [];
    assert Sub(t, "*", '\n', "<em>", "</em>") == "<em>" + [t[1]] + "</strong>c" + "</em>" + [];
    CrossedItalicJoin("</strong>c");
  }

  lemma CrossedItalicSearch(u: string)
    requires u == "</strong>c*"
    ensures FindClose(u, "*", '\n') == Some(("</strong>c", []))
  {
    var w := "</strong>c";
    assert u == w + "*";
    FindCloseInert(w, "*", "*", '\n');
    FindCloseHit("*", "*", '\n');
    assert w + [] == w;
  }

  lemma CrossedItalicJoin(w: string)
    requires w == "</strong>c"
    ensures "<em>" + "b" + w + "</em>" + [] == "<em>b</strong>c</em>"
  {
  }

  /** Underscores inside a word are italic markers too. */
  lemma UnderscoreExample(s: string)
    requires s == "snake_case_name"
    ensures FormatInline(s) == "snake<em>case</em>name"
  {
    FormatInlineSteps(s);
    EscapeLiteral(s);
    StarInert(s);
    UnderscorePass(s);
  }

  lemma StarInert(s: string)
    requires s == "snake_case_name"
    ensures Pass(Pass(s, "**", StrongOpen, StrongClose), "*", EmOpen, EmClose) == s
  {
    PassInert(s, "**", StrongOpen, StrongClose);
    PassInert(s, "*", EmOpen, EmClose);
  }

  lemma UnderscorePass(s: string)
    requires s == "snake_case_name"
    ensures Pass(s, "_", EmOpen, EmClose) == "snake<em>case</em>name"
  {
    var w, t := "snake", "_case_name";
    SnakeParts(s, w, t);
    SubInert(w, t, "_", '\n', "<em>", "</em>");
    UnderscoreMatch(t);
  }

  lemma SnakeParts(s: string, w: string, t: string)
    requires s == "snake_case_name" && w == "snake" && t == "_case_name"
    ensures s == w + t && '_' !in w && w + "<em>case</em>name" == "snake<em>case</em>name"
  {
  }

  lemma UnderscoreMatch(t: string)
    requires t == "_case_name"
    ensures Sub(t, "_", '\n', "<em>", "</em>") == "<em>case</em>name"
  {
    var u := t[2..];
    assert "_" <= t && t[1] == 'c' && u == "ase_name";
    UnderscoreSearch(u);
    SubTake(t, "_", '\n', "<em>", "</em>");
    SubInert("name", [], "_", '\n', "<em>", "</em>");
    assert Sub(t, "_", '\n', "<em>", "</em>") == "<em>" + [t[1]] + "ase" + "</em>" + ("name" + []);
    UnderscoreJoin("ase");
  }

  lemma UnderscoreSearch(u: string)
    requires u == "ase_name"
    ensures FindClose(u, "_", '\n') == Some(("ase", "name"))
  {
    var w, v := "ase", "_name";
    assert u == w + v;
    FindCloseInert(w, v, "_", '\n');
    FindCloseHit(v, "_", '\n');
    assert v[1..] == "name";
    assert w + [] == w;
  }

  lemma UnderscoreJoin(w: string)
    requires w == "ase"
    ensures "<em>" + "c" + w + "</em>" + ("name" + []) == "<em>case</em>name"
  {
  }
}
