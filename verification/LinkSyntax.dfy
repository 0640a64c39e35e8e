/** The pieces of a link in tools/document_checks.py: destinations, endings and definitions. */
module LinkSyntax {
  import opened Common
  import opened PythonText

  const MAX_DESTINATION_CHARS: nat := 8192
  const MAX_NESTING: nat := 32
  const MAX_LABEL_CHARS: nat := 999

  /** string.punctuation */
  predicate IsPunctuation(c: char) {
    '!' <= c <= '/' || ':' <= c <= '@' || '[' <= c <= '`' || '{' <= c <= '~'
  }

  function Min(a: nat, b: nat): nat {
    if a < b then a else b
  }

  // ---------------------------------------------------------------------------
  // Destinations
  // ---------------------------------------------------------------------------

  /** The raw bounds of a destination and the offset after it. */
  datatype Destination = Destination(start: nat, end: nat, next: nat)

  predicate EscapesNext(text: string, index: nat, stop: nat)
    requires index < stop <= |text|
  {
    text[index] == '\\' && index + 1 < stop && IsPunctuation(text[index + 1])
  }

  /** A destination in angle brackets, from index on. */
  function Angle(text: string, start: nat, index: nat, stop: nat): Option<Destination>
    requires stop <= |text|
    decreases stop - index
  {
    if index >= stop then None
    else if EscapesNext(text, index, stop) then Angle(text, start, index + 2, stop)
    else if text[index] == '>' then if index > start then Some(Destination(start, index, index + 1)) else None
    else if text[index] == '<' || text[index] == '\n' || text[index] == '\r' then None
    else Angle(text, start, index + 1, stop)
  }

  predicate EndsPlain(c: char, depth: nat) {
    IsSpace(c) || (c == ')' && depth == 0)
  }

  /** A plain destination, from index on at this depth of parentheses. */
  function Plain(text: string, start: nat, index: nat, depth: nat, stop: nat): Option<Destination>
    requires stop <= |text|
    decreases stop - index
  {
    if index < stop && EscapesNext(text, index, stop) then Plain(text, start, index + 2, depth, stop)
    else if index >= stop || EndsPlain(text[index], depth) then
      if depth > 0 || index <= start || index - start > MAX_DESTINATION_CHARS then None
      else Some(Destination(start, index, index))
    else if text[index] == '<' then None
    else if text[index] == '(' then
      if depth + 1 > MAX_NESTING then None else Plain(text, start, index + 1, depth + 1, stop)
    else Plain(text, start, index + 1, if text[index] == ')' then depth - 1 else depth, stop)
  }

  function DestinationAt(text: string, position: nat, limit: nat): Option<Destination>
    requires limit <= |text|
  {
    var angle := position < |text| && text[position] == '<';
    var start := if angle then position + 1 else position;
    var stop := Min(limit, start + MAX_DESTINATION_CHARS + 1);
    if angle then Angle(text, start, start, stop) else Plain(text, start, start, 0, stop)
  }

  /** The loop of the source. */
  method FindDestination(text: string, position: nat, limit: nat) returns (r: Option<Destination>)
    requires limit <= |text|
    ensures r == DestinationAt(text, position, limit)
  {
    var angle := position < |text| && text[position] == '<';
    var start := if angle then position + 1 else position;
    var index, depth := start, 0;
    var stop := Min(limit, start + MAX_DESTINATION_CHARS + 1);
    while index < stop
      invariant start <= index && depth >= 0
      invariant DestinationAt(text, position, limit) ==
                if angle then Angle(text, start, index, stop) else Plain(text, start, index, depth, stop)
    {
      var c := text[index];
      if c == '\\' && index + 1 < stop && IsPunctuation(text[index + 1]) {
        index := index + 2;
        continue;
      }
      if angle {
        if c == '>' {
          return if index > start then Some(Destination(start, index, index + 1)) else None;
        }
        if c == '<' || c == '\n' || c == '\r' {
          return None;
        }
      } else {
        if IsSpace(c) || (c == ')' && depth == 0) {
          break;
        }
        if c == '<' {
          return None;
        }
        if c == '(' {
          depth := depth + 1;
          if depth > MAX_NESTING {
            return None;
          }
        } else if c == ')' {
          depth := depth - 1;
        }
      }
      index := index + 1;
    }
    r := if angle || depth > 0 || index == start || index - start > MAX_DESTINATION_CHARS then None
         else Some(Destination(start, index, index));
  }

  /** The unescaped parentheses from index to end: None when one closes that was not opened. */
  function Nesting(text: string, index: nat, end: nat, depth: nat, stop: nat): Option<nat>
    requires end <= stop <= |text|
    decreases end - index
  {
    if index >= end then Some(depth)
    else if EscapesNext(text, index, stop) then Nesting(text, index + 2, end, depth, stop)
    else if text[index] == '(' then Nesting(text, index + 1, end, depth + 1, stop)
    else if text[index] == ')' then if depth == 0 then None else Nesting(text, index + 1, end, depth - 1, stop)
    else Nesting(text, index + 1, end, depth, stop)
  }

  /** A plain destination holds no white space, no unescaped angle bracket, and balanced
      parentheses; it ends at white space, at an unbalanced parenthesis, or at the limit. */
  lemma {:induction false} PlainMeans(text: string, start: nat, index: nat, depth: nat, stop: nat)
    requires start <= index <= stop <= |text| && Plain(text, start, index, depth, stop).Some?
    ensures
      var d := Plain(text, start, index, depth, stop).value;
      && d.start == start < d.end == d.next <= stop && index <= d.end && d.end - start <= MAX_DESTINATION_CHARS
      && (forall i | index <= i < d.end :: !IsSpace(text[i]))
      && (forall i | index <= i < d.end && text[i] == '<' :: i > 0 && text[i - 1] == '\\')
      && Nesting(text, index, d.end, depth, stop) == Some(0)
      && (d.end < stop ==> EndsPlain(text[d.end], 0))
    decreases stop - index
  {
    if index < stop && EscapesNext(text, index, stop) {
      PlainMeans(text, start, index + 2, depth, stop);
      PunctuationIsNoSpace(text[index]);
      PunctuationIsNoSpace(text[index + 1]);
    } else if index >= stop || EndsPlain(text[index], depth) {
    } else if text[index] == '(' {
      PlainMeans(text, start, index + 1, depth + 1, stop);
    } else {
      PlainMeans(text, start, index + 1, if text[index] == ')' then depth - 1 else depth, stop);
    }
  }

  lemma PunctuationIsNoSpace(c: char)
    ensures IsPunctuation(c) ==> !IsSpace(c)
  {
  }

  /** An angled destination is not empty, stays on its line and holds no unescaped bracket. */
  lemma {:induction false} AngleMeans(text: string, start: nat, index: nat, stop: nat)
    requires start <= index && stop <= |text| && Angle(text, start, index, stop).Some?
    ensures
      var d := Angle(text, start, index, stop).value;
      && d.start == start < d.end < d.next == d.end + 1 <= stop && index <= d.end && text[d.end] == '>'
      && (forall i | index <= i < d.end :: text[i] != '\n' && text[i] != '\r')
      && (forall i | index <= i < d.end && (text[i] == '<' || text[i] == '>') :: i > 0 && text[i - 1] == '\\')
    decreases stop - index
  {
    if EscapesNext(text, index, stop) {
      AngleMeans(text, start, index + 2, stop);
    } else if text[index] != '>' {
      AngleMeans(text, start, index + 1, stop);
    }
  }

  lemma DestinationMeans(text: string, position: nat, limit: nat)
    requires position <= limit <= |text| && DestinationAt(text, position, limit).Some?
    ensures
      var d := DestinationAt(text, position, limit).value;
      position <= d.start < d.end <= d.next <= limit && d.end - d.start <= MAX_DESTINATION_CHARS
  {
    var angle := position < |text| && text[position] == '<';
    var start := if angle then position + 1 else position;
    var stop := Min(limit, start + MAX_DESTINATION_CHARS + 1);
    if angle {
      AngleMeans(text, start, start, stop);
    } else {
      PlainMeans(text, start, start, 0, stop);
    }
  }

  // ---------------------------------------------------------------------------
  // Endings
  // ---------------------------------------------------------------------------

  function SkipSpaces(text: string, index: nat, limit: nat): (n: nat)
    requires limit <= |text|
    ensures index <= n && (index <= limit ==> n <= limit)
    decreases limit - index
  {
    if index < limit && IsSpace(text[index]) then SkipSpaces(text, index + 1, limit) else index
  }

  /** The offset after a title's closing mark. */
  function TitleEnd(text: string, index: nat, limit: nat, close: char): (n: Option<nat>)
    requires limit <= |text|
    ensures n.Some? ==> index < n.value <= limit
    decreases limit - index
  {
    if index >= limit then None
    else if text[index] == '\\' && index + 1 < limit then TitleEnd(text, index + 2, limit, close)
    else if text[index] == close then Some(index + 1)
    else if text[index] == '\n' || text[index] == '\r' then None
    else TitleEnd(text, index + 1, limit, close)
  }

  /** White space, an optional title, and white space. */
  function AfterTitle(text: string, position: nat, limit: nat): (n: Option<nat>)
    requires limit <= |text|
    ensures n.Some? && position <= limit ==> position <= n.value <= limit
  {
    var index := SkipSpaces(text, position, limit);
    if index > position && index < limit && (text[index] == '\"' || text[index] == '\'' || text[index] == '(') then
      var end := TitleEnd(text, index + 1, limit, if text[index] == '(' then ')' else text[index]);
      if end.None? then None else Some(SkipSpaces(text, end.value, limit))
    else Some(index)
  }

  /** The offset after an inline link's parenthesis, or the end of a definition's line. */
  function Ending(text: string, position: nat, limit: nat, inline: bool): (n: Option<nat>)
    requires limit <= |text|
    ensures inline && n.Some? && position <= limit ==> position < n.value <= limit && text[n.value - 1] == ')'
    ensures !inline && n.Some? ==> n.value == limit
  {
    var index := AfterTitle(text, position, limit);
    if index.None? then None
    else if inline then if index.value < limit && text[index.value] == ')' then Some(index.value + 1) else None
    else if index.value == limit then index else None
  }

  method FindEnding(text: string, position: nat, limit: nat, inline: bool) returns (r: Option<nat>)
    requires limit <= |text|
    ensures r == Ending(text, position, limit, inline)
  {
    var index := position;
    while index < limit && IsSpace(text[index])
      invariant SkipSpaces(text, index, limit) == SkipSpaces(text, position, limit)
    {
      index := index + 1;
    }
    if index > position && index < limit && (text[index] == '\"' || text[index] == '\'' || text[index] == '(') {
      var close := if text[index] == '(' then ')' else text[index];
      ghost var end := TitleEnd(text, index + 1, limit, close);
      index := index + 1;
      var closed := false;
      while index < limit && !closed
        invariant end == if closed then Some(index) else TitleEnd(text, index, limit, close)
        decreases limit - index, if closed then 0 else 1
      {
        if text[index] == '\\' && index + 1 < limit {
          index := index + 2;
        } else if text[index] == close {
          index, closed := index + 1, true;
        } else if text[index] == '\n' || text[index] == '\r' {
          return None;
        } else {
          index := index + 1;
        }
      }
      if !closed {
        return None;
      }
      ghost var after := index;
      while index < limit && IsSpace(text[index])
        invariant SkipSpaces(text, index, limit) == SkipSpaces(text, after, limit)
      {
        index := index + 1;
      }
    }
    if inline {
      return if index < limit && text[index] == ')' then Some(index + 1) else None;
    }
    r := if index == limit then Some(index) else None;
  }
}
