/** What destinations and endings of links are, written position by position and apart from the
    scans of tools/document_checks.py, and that the scans find exactly these. */
module LinkShapes {
  import opened Common
  import opened PythonText
  import opened CodeSpans
  import opened LinkSyntax

  // ---------------------------------------------------------------------------
  // Escapes
  // ---------------------------------------------------------------------------

  /** A scan that reads escapes from `from` on stands between two characters at i. */
  predicate Between(t: string, i: nat, stop: nat) {
    i < stop <= |t| ==> !IsPunctuation(t[i]) || !Escaped(t, i)
  }

  lemma EscapeStep(t: string, i: nat, stop: nat)
    requires i < stop <= |t| && Between(t, i, stop)
    ensures if EscapesNext(t, i, stop) then Between(t, i + 2, stop) && Escaped(t, i + 1)
            else Between(t, i + 1, stop)
  {
  }

  // ---------------------------------------------------------------------------
  // Destinations
  // ---------------------------------------------------------------------------

  /** The unescaped parentheses from s to e: opened less closed. */
  function Depth(t: string, s: nat, e: nat): int
    requires s <= e <= |t|
    decreases e
  {
    if e == s then 0
    else
      Depth(t, s, e - 1) +
      if Escaped(t, e - 1) then 0 else if t[e - 1] == '(' then 1 else if t[e - 1] == ')' then -1 else 0
  }

  /** Nothing inside ends a plain destination: no white space, no unescaped angle bracket, and
      parentheses that are opened before they close and never more than 32 deep. */
  predicate PlainInside(t: string, s: nat, e: nat)
    requires s <= e <= |t|
  {
    && (forall i | s <= i < e :: !IsSpace(t[i]))
    && (forall i | s <= i < e && t[i] == '<' :: Escaped(t, i))
    && (forall i | s <= i <= e :: 0 <= Depth(t, s, i) <= MAX_NESTING)
  }

  /** A plain destination from s to e, of at most 8192 characters, balanced, and ended by white
      space, by an unescaped parenthesis that closes nothing, or by the limit. */
  predicate PlainSpan(t: string, s: nat, e: nat, stop: nat) {
    && s < e <= stop <= |t| && e - s <= MAX_DESTINATION_CHARS
    && PlainInside(t, s, e) && Depth(t, s, e) == 0
    && (e < stop ==> IsSpace(t[e]) || (t[e] == ')' && !Escaped(t, e)))
  }

  lemma {:induction false} PlainFinds(t: string, s: nat, i: nat, stop: nat, e: nat)
    requires s <= i <= e && stop <= |t| && PlainSpan(t, s, e, stop) && Between(t, i, stop)
    ensures Plain(t, s, i, Depth(t, s, i), stop) == Some(Destination(s, e, e))
    decreases e - i
  {
    if i == e {
    } else {
      EscapeStep(t, i, stop);
      if EscapesNext(t, i, stop) {
        assert i + 2 <= e by {
          PunctuationIsNoSpace(t[i + 1]);
        }
        assert !Escaped(t, i);
        assert Depth(t, s, i + 1) == Depth(t, s, i) && Depth(t, s, i + 2) == Depth(t, s, i + 1);
        PlainFinds(t, s, i + 2, stop, e);
      } else {
        assert Depth(t, s, i + 1) <= MAX_NESTING;
        PlainFinds(t, s, i + 1, stop, e);
      }
    }
  }

  lemma {:induction false} PlainFound(t: string, s: nat, i: nat, stop: nat)
    requires s <= i <= stop <= |t| && PlainInside(t, s, i) && Between(t, i, stop)
    requires Plain(t, s, i, Depth(t, s, i), stop).Some?
    ensures var d := Plain(t, s, i, Depth(t, s, i), stop).value;
            d.start == s && d.next == d.end && PlainSpan(t, s, d.end, stop)
    decreases stop - i
  {
    if i < stop {
      EscapeStep(t, i, stop);
      if EscapesNext(t, i, stop) {
        PunctuationIsNoSpace(t[i]);
        PunctuationIsNoSpace(t[i + 1]);
        assert Depth(t, s, i + 1) == Depth(t, s, i) && Depth(t, s, i + 2) == Depth(t, s, i + 1);
        PlainFound(t, s, i + 2, stop);
      } else if EndsPlain(t[i], Depth(t, s, i)) {
      } else {
        assert Depth(t, s, i + 1) == Depth(t, s, i) + if t[i] == '(' then 1 else if t[i] == ')' then -1 else 0;
        PlainFound(t, s, i + 1, stop);
      }
    }
  }

  /** The scan finds the plain destination exactly. */
  lemma PlainIsExact(t: string, s: nat, e: nat, stop: nat)
    requires s <= stop <= |t| && Between(t, s, stop)
    ensures Plain(t, s, s, 0, stop) == Some(Destination(s, e, e)) <==> PlainSpan(t, s, e, stop)
  {
    if PlainSpan(t, s, e, stop) {
      PlainFinds(t, s, s, stop, e);
    }
    if Plain(t, s, s, 0, stop).Some? {
      PlainFound(t, s, s, stop);
    }
  }

  /** A destination in angle brackets from s to e: not empty, on one line, and every angle bracket
      in it escaped. */
  predicate AngleSpan(t: string, s: nat, e: nat, stop: nat) {
    && s < e < stop <= |t| && t[e] == '>' && !Escaped(t, e)
    && (forall i | s <= i < e :: t[i] != '\n' && t[i] != '\r')
    && (forall i | s <= i < e && (t[i] == '<' || t[i] == '>') :: Escaped(t, i))
  }

  lemma {:induction false} AngleFinds(t: string, s: nat, i: nat, stop: nat, e: nat)
    requires s <= i <= e && AngleSpan(t, s, e, stop) && Between(t, i, stop)
    ensures Angle(t, s, i, stop) == Some(Destination(s, e, e + 1))
    decreases e - i
  {
    EscapeStep(t, i, stop);
    if i < e {
      if EscapesNext(t, i, stop) {
        AngleFinds(t, s, i + 2, stop, e);
      } else {
        AngleFinds(t, s, i + 1, stop, e);
      }
    }
  }

  predicate AngleInside(t: string, s: nat, i: nat)
    requires i <= |t|
  {
    && (forall j | s <= j < i :: t[j] != '\n' && t[j] != '\r')
    && (forall j | s <= j < i && (t[j] == '<' || t[j] == '>') :: Escaped(t, j))
  }

  lemma {:induction false} AngleFound(t: string, s: nat, i: nat, stop: nat)
    requires s <= i && stop <= |t| && (i <= |t| ==> AngleInside(t, s, i)) && Between(t, i, stop)
    requires Angle(t, s, i, stop).Some?
    ensures var d := Angle(t, s, i, stop).value;
            d.start == s && d.next == d.end + 1 && AngleSpan(t, s, d.end, stop)
    decreases stop - i
  {
    EscapeStep(t, i, stop);
    if EscapesNext(t, i, stop) {
      AngleFound(t, s, i + 2, stop);
    } else if t[i] == '>' {
    } else {
      AngleFound(t, s, i + 1, stop);
    }
  }

  lemma AngleIsExact(t: string, s: nat, e: nat, stop: nat)
    requires stop <= |t| && Between(t, s, stop)
    ensures Angle(t, s, s, stop) == Some(Destination(s, e, e + 1)) <==> AngleSpan(t, s, e, stop)
  {
    if AngleSpan(t, s, e, stop) {
      AngleFinds(t, s, s, stop, e);
    }
    if Angle(t, s, s, stop).Some? {
      AngleFound(t, s, s, stop);
    }
  }

  /** A destination that is written from position on: its text from s to e, and where it is over. */
  predicate DestinationSpan(t: string, position: nat, limit: nat, s: nat, e: nat, next: nat) {
    if position < |t| && t[position] == '<' then
      s == position + 1 && next == e + 1 && AngleSpan(t, s, e, Min(limit, s + MAX_DESTINATION_CHARS + 1))
    else
      s == position && next == e && PlainSpan(t, s, e, Min(limit, s + MAX_DESTINATION_CHARS + 1))
  }

  lemma DestinationIsExact(t: string, position: nat, limit: nat, s: nat, e: nat, next: nat)
    requires position <= limit <= |t|
    requires 0 < position ==> t[position - 1] != '\\'
    ensures DestinationAt(t, position, limit) == Some(Destination(s, e, next))
            <==> DestinationSpan(t, position, limit, s, e, next)
  {
    var start := if position < |t| && t[position] == '<' then position + 1 else position;
    var stop := Min(limit, start + MAX_DESTINATION_CHARS + 1);
    if position < |t| && t[position] == '<' {
      if DestinationAt(t, position, limit).Some? {
        AngleFound(t, start, start, stop);
      }
      AngleIsExact(t, start, e, stop);
    } else {
      if DestinationAt(t, position, limit).Some? {
        PlainFound(t, start, start, stop);
      }
      PlainIsExact(t, start, e, stop);
    }
  }

  // ---------------------------------------------------------------------------
  // Endings
  // ---------------------------------------------------------------------------

  /** All white space from p to q, and no more of it. */
  predicate SpacesTo(t: string, p: nat, q: nat, limit: nat) {
    && p <= q <= limit <= |t| && (forall i | p <= i < q :: IsSpace(t[i])) && (q < limit ==> !IsSpace(t[q]))
  }

  lemma {:induction false} SpacesAreExact(t: string, p: nat, q: nat, limit: nat)
    requires p <= limit <= |t|
    ensures SkipSpaces(t, p, limit) == q <==> SpacesTo(t, p, q, limit)
    decreases limit - p
  {
    if p < limit && IsSpace(t[p]) {
      SpacesAreExact(t, p + 1, q, limit);
    }
  }

  predicate OpensTitle(c: char) {
    c == '\"' || c == '\'' || c == '('
  }

  /** A title from its opening mark q to its closing mark r: on one line but for escapes, and the
      first unescaped closing mark. */
  predicate TitleSpan(t: string, q: nat, r: nat, limit: nat) {
    && q < r < limit <= |t| && OpensTitle(t[q])
    && var close := if t[q] == '(' then ')' else t[q];
       && t[r] == close && !Escaped(t, r)
       && forall i | q < i < r && (t[i] == close || t[i] == '\n' || t[i] == '\r') :: Escaped(t, i)
  }

  lemma {:induction false} TitleFinds(t: string, i: nat, limit: nat, close: char, r: nat)
    requires i <= r < limit <= |t| && t[r] == close && !Escaped(t, r) && !Escaped(t, i) && close != '\\'
    requires forall j | i <= j < r && (t[j] == close || t[j] == '\n' || t[j] == '\r') :: Escaped(t, j)
    ensures TitleEnd(t, i, limit, close) == Some(r + 1)
    decreases r - i
  {
    if i < r {
      if t[i] == '\\' {
        assert Escaped(t, i + 1) && !Escaped(t, i + 2);
        TitleFinds(t, i + 2, limit, close, r);
      } else {
        TitleFinds(t, i + 1, limit, close, r);
      }
    }
  }

  lemma {:induction false} TitleFound(t: string, q: nat, i: nat, limit: nat, close: char)
    requires q < i && limit <= |t| && (i <= |t| ==> !Escaped(t, i)) && close != '\\'
    requires forall j | q < j < i && j < |t| && (t[j] == close || t[j] == '\n' || t[j] == '\r') :: Escaped(t, j)
    requires TitleEnd(t, i, limit, close).Some?
    ensures var r := TitleEnd(t, i, limit, close).value - 1;
            && i <= r < limit && t[r] == close && !Escaped(t, r)
            && forall j | q < j < r && (t[j] == close || t[j] == '\n' || t[j] == '\r') :: Escaped(t, j)
    decreases limit - i
  {
    if t[i] == '\\' && i + 1 < limit {
      assert Escaped(t, i + 1) && !Escaped(t, i + 2);
      TitleFound(t, q, i + 2, limit, close);
    } else if t[i] != close {
      TitleFound(t, q, i + 1, limit, close);
    }
  }

  /** White space from p to n, around a title if white space comes before its mark. */
  ghost predicate TitleSpaces(t: string, p: nat, n: nat, limit: nat) {
    || (SpacesTo(t, p, n, limit) && (p < n < limit ==> !OpensTitle(t[n])))
    || exists q: nat, r: nat :: SpacedTitle(t, p, q, r, n, limit)
  }

  predicate SpacedTitle(t: string, p: nat, q: nat, r: nat, n: nat, limit: nat) {
    p < q && SpacesTo(t, p, q, limit) && TitleSpan(t, q, r, limit) && SpacesTo(t, r + 1, n, limit)
  }

  lemma TitleIsFound(t: string, p: nat, q: nat, limit: nat)
    requires p < q < limit <= |t| && SpacesTo(t, p, q, limit) && OpensTitle(t[q])
    requires AfterTitle(t, p, limit).Some?
    ensures TitleSpaces(t, p, AfterTitle(t, p, limit).value, limit)
  {
    var close := if t[q] == '(' then ')' else t[q];
    var n := AfterTitle(t, p, limit).value;
    SpacesAreExact(t, p, q, limit);
    TitleFound(t, q, q + 1, limit, close);
    var r := TitleEnd(t, q + 1, limit, close).value - 1;
    SpacesAreExact(t, r + 1, n, limit);
    assert SpacedTitle(t, p, q, r, n, limit);
  }

  lemma TitleIsRead(t: string, p: nat, q: nat, r: nat, n: nat, limit: nat)
    requires SpacedTitle(t, p, q, r, n, limit)
    ensures AfterTitle(t, p, limit) == Some(n)
  {
    var close := if t[q] == '(' then ')' else t[q];
    SpacesAreExact(t, p, q, limit);
    TitleFinds(t, q + 1, limit, close, r);
    SpacesAreExact(t, r + 1, n, limit);
  }

  lemma TitleIsExact(t: string, p: nat, n: nat, limit: nat)
    requires p <= limit <= |t|
    ensures AfterTitle(t, p, limit) == Some(n) <==> TitleSpaces(t, p, n, limit)
  {
    var q := SkipSpaces(t, p, limit);
    SpacesAreExact(t, p, q, limit);
    SpacesAreExact(t, p, n, limit);
    if q > p && q < limit && OpensTitle(t[q]) && AfterTitle(t, p, limit).Some? {
      TitleIsFound(t, p, q, limit);
    }
    if q': nat, r: nat :| SpacedTitle(t, p, q', r, n, limit) {
      TitleIsRead(t, p, q', r, n, limit);
    }
  }

  /** A link's ending finds exactly the closing parenthesis behind these spaces. */
  lemma InlineEndingIsExact(t: string, p: nat, n: nat, limit: nat)
    requires p <= limit <= |t|
    ensures Ending(t, p, limit, true) == Some(n)
            <==> 0 < n <= limit && t[n - 1] == ')' && TitleSpaces(t, p, n - 1, limit)
  {
    if AfterTitle(t, p, limit).Some? {
      TitleIsExact(t, p, AfterTitle(t, p, limit).value, limit);
    }
    if n > 0 {
      TitleIsExact(t, p, n - 1, limit);
    }
  }

  /** A definition's ending is exactly the end of its line behind these spaces. */
  lemma LineEndingIsExact(t: string, p: nat, limit: nat)
    requires p <= limit <= |t|
    ensures Ending(t, p, limit, false).Some? <==> TitleSpaces(t, p, limit, limit)
  {
    TitleIsExact(t, p, limit, limit);
  }
}
