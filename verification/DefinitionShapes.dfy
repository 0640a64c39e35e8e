/** Which lines of tools/document_checks.py define a reference, position by position, and that a
    text's definitions are exactly those of its lines, the first of a label standing. */
module DefinitionShapes {
  import opened Common
  import opened PythonText
  import opened CodeSpans
  import opened LinkSyntax
  import opened LinkShapes
  import opened Links

  /** A label from s to its closing bracket e: on one line, every bracket in it escaped. */
  predicate LabelSpan(line: string, s: nat, e: nat) {
    && s <= e < |line| && line[e] == ']' && !Escaped(line, e)
    && forall i | s <= i < e ::
         line[i] != '\n' && (line[i] == '[' || line[i] == ']' ==> Escaped(line, i))
  }

  lemma {:induction false} LabelFinds(line: string, i: nat, e: nat)
    requires i <= e && LabelSpan(line, i, e) && !Escaped(line, i)
    ensures LabelEnd(line, i) == Some(e)
    decreases e - i
  {
    if i < e {
      if line[i] == '\\' {
        assert Escaped(line, i + 1) && !Escaped(line, i + 2);
        LabelFinds(line, i + 2, e);
      } else {
        LabelFinds(line, i + 1, e);
      }
    }
  }

  lemma {:induction false} LabelFound(line: string, i: nat)
    requires i <= |line| && !Escaped(line, i) && LabelEnd(line, i).Some?
    ensures LabelSpan(line, i, LabelEnd(line, i).value)
    decreases |line| - i
  {
    var e := LabelEnd(line, i).value;
    if line[i] == '\\' {
      assert Escaped(line, i + 1) && !Escaped(line, i + 2);
      LabelFound(line, i + 2);
    } else if line[i] != ']' {
      LabelFound(line, i + 1);
    }
  }

  /** Where the line's text ends before its trailing carriage returns and newlines. */
  predicate TextEnd(line: string, n: nat) {
    && n <= |line| && (forall i | n <= i < |line| :: line[i] == '\r' || line[i] == '\n')
    && (0 < n ==> line[n - 1] != '\r' && line[n - 1] != '\n')
  }

  lemma {:induction false} TextEndIsExact(line: string, n: nat)
    ensures BodyLength(line) == n <==> TextEnd(line, n)
    decreases |line|
  {
    if line != [] && (line[|line| - 1] == '\r' || line[|line| - 1] == '\n') {
      var before := line[..|line| - 1];
      TextEndIsExact(before, n);
      assert n <= |before| ==> (TextEnd(before, n) <==> TextEnd(line, n));
    }
  }

  predicate BlanksTo(line: string, p: nat, q: nat) {
    && p <= q <= |line| && (forall i | p <= i < q :: IsBlank(line[i])) && (q < |line| ==> !IsBlank(line[q]))
  }

  lemma {:induction false} BlanksAreExact(line: string, p: nat, q: nat)
    requires p <= |line|
    ensures SkipBlanks(line, p) == q <==> BlanksTo(line, p, q)
    decreases |line| - p
  {
    if p < |line| && IsBlank(line[p]) {
      BlanksAreExact(line, p + 1, q);
    }
  }

  predicate Indented(line: string, n: nat) {
    n <= 3 && n < |line| && line[n] == '[' && forall i | 0 <= i < n :: line[i] == ' '
  }

  lemma {:induction false} IndentIsExact(line: string, n: nat)
    ensures Run(line, ' ') == n <==>
              n <= |line| && (forall i | 0 <= i < n :: line[i] == ' ') && (n < |line| ==> line[n] != ' ')
    decreases |line|
  {
    if line != [] && line[0] == ' ' {
      if n > 0 {
        IndentIsExact(line[1..], n - 1);
        assert forall i | 0 < i < |line| :: line[i] == line[1..][i - 1];
      }
    }
  }

  /** A line that defines d: at most three spaces, a label of 1 to 999 characters in brackets, a
      colon, blanks, a destination, and nothing more but a title. */
  ghost predicate Defines(line: string, d: Definition, fold: Labels) {
    exists indent: nat, e: nat, q: nat, limit: nat, next: nat :: DefinesBy(line, d, fold, indent, e, q, limit, next)
  }

  ghost predicate DefinesBy(line: string, d: Definition, fold: Labels, indent: nat, e: nat, q: nat, limit: nat, next: nat) {
    && Indented(line, indent)
    && LabelSpan(line, indent + 1, e) && 1 <= e - (indent + 1) <= MAX_LABEL_CHARS
    && e + 1 < |line| && line[e + 1] == ':' && BlanksTo(line, e + 2, q) && TextEnd(line, limit) && q <= limit
    && DestinationSpan(line, q, limit, d.start, d.end, next) && next <= limit
    && TitleSpaces(line, next, limit, limit)
    && d.key == fold(line[indent + 1..e]) && d.key != ""
  }

  lemma ColonPosition(line: string, e: nat)
    requires e + 1 < |line| && line[e + 1] == ':'
    ensures var q := SkipBlanks(line, e + 2);
            e + 2 <= q <= BodyLength(line) && line[q - 1] != '\\'
  {
    var q := SkipBlanks(line, e + 2);
    BlanksAreExact(line, e + 2, q);
    TextEndIsExact(line, BodyLength(line));
    assert line[q - 1] == ':' || IsBlank(line[q - 1]);
  }

  lemma DefinedIsRead(line: string, d: Definition, fold: Labels, indent: nat, e: nat, q: nat, limit: nat, next: nat)
    requires DefinesBy(line, d, fold, indent, e, q, limit, next)
    ensures DefinitionOf(line, fold) == Some(d)
  {
    IndentIsExact(line, indent);
    LabelFinds(line, indent + 1, e);
    BlanksAreExact(line, e + 2, q);
    TextEndIsExact(line, limit);
    ColonPosition(line, e);
    DestinationIsExact(line, q, limit, d.start, d.end, next);
    LineEndingIsExact(line, next, limit);
  }

  lemma ReadIsDefined(line: string, fold: Labels)
    requires DefinitionOf(line, fold).Some?
    ensures Defines(line, DefinitionOf(line, fold).value, fold)
  {
    var d := DefinitionOf(line, fold).value;
    var indent := Run(line, ' ');
    var e := LabelEnd(line, indent + 1).value;
    var q, limit := SkipBlanks(line, e + 2), BodyLength(line);
    IndentIsExact(line, indent);
    LabelFound(line, indent + 1);
    BlanksAreExact(line, e + 2, q);
    TextEndIsExact(line, limit);
    ColonPosition(line, e);
    var next := DestinationAt(line, q, limit).value.next;
    DestinationMeans(line, q, limit);
    DestinationIsExact(line, q, limit, d.start, d.end, next);
    LineEndingIsExact(line, next, limit);
    assert DefinesBy(line, d, fold, indent, e, q, limit, next);
  }

  /** A line is read as a definition exactly if it is written as one. */
  lemma DefinitionIsExact(line: string, d: Definition, fold: Labels)
    ensures DefinitionOf(line, fold) == Some(d) <==> Defines(line, d, fold)
  {
    if DefinitionOf(line, fold).Some? {
      ReadIsDefined(line, fold);
    }
    if indent: nat, e: nat, q: nat, limit: nat, next: nat :| DefinesBy(line, d, fold, indent, e, q, limit, next) {
      DefinedIsRead(line, d, fold, indent, e, q, limit, next);
    }
  }

  // ---------------------------------------------------------------------------
  // All definitions of a text
  // ---------------------------------------------------------------------------

  /** Where line k starts, when the first one starts at offset. */
  function Offset(lines: seq<string>, k: nat, offset: nat): nat
    requires k <= |lines|
  {
    if k == 0 then offset else Offset(lines, k - 1, offset) + |lines[k - 1]|
  }

  lemma {:induction false} OffsetTail(lines: seq<string>, k: nat, offset: nat)
    requires lines != [] && k < |lines|
    ensures Offset(lines[1..], k, offset + |lines[0]|) == Offset(lines, k + 1, offset)
  {
    if k > 0 {
      OffsetTail(lines, k - 1, offset);
    } else {
      assert Offset(lines, 1, offset) == Offset(lines, 0, offset) + |lines[0]|;
    }
  }

  function KeyOf(line: string, fold: Labels): Option<string> {
    match DefinitionOf(line, fold)
    case None => None
    case Some(d) => Some(d.key)
  }

  /** The key that each line defines, if any. */
  function Keys(lines: seq<string>, fold: Labels): (keys: seq<Option<string>>)
    ensures |keys| == |lines|
  {
    if lines == [] then [] else [KeyOf(lines[0], fold)] + Keys(lines[1..], fold)
  }

  /** Line k is the first that defines the key. */
  predicate FirstOf(keys: seq<Option<string>>, k: nat, key: string) {
    k < |keys| && keys[k] == Some(key) && forall j | 0 <= j < k :: keys[j] != Some(key)
  }

  lemma FirstTail(keys: seq<Option<string>>, key: string)
    requires keys != []
    ensures keys[0] == Some(key) ==> FirstOf(keys, 0, key) && forall k: nat | FirstOf(keys, k, key) :: k == 0
    ensures keys[0] != Some(key) ==>
              && (forall k: nat :: FirstOf(keys[1..], k, key) <==> FirstOf(keys, k + 1, key))
              && !FirstOf(keys, 0, key)
  {
    forall k: nat | keys[0] != Some(key)
      ensures FirstOf(keys[1..], k, key) <==> FirstOf(keys, k + 1, key)
    {
      assert forall j | 0 <= j < |keys| - 1 :: keys[1..][j] == keys[j + 1];
      if FirstOf(keys, k + 1, key) {
        assert forall j | 0 <= j < k :: keys[1..][j] == keys[j + 1];
      }
      if FirstOf(keys[1..], k, key) {
        forall j | 0 <= j < k + 1
          ensures keys[j] != Some(key)
        {
          if j > 0 {
            assert keys[1..][j - 1] == keys[j];
          }
        }
      }
    }
  }

  /** The bounds of line k's destination in the text. */
  function BoundsAt(lines: seq<string>, k: nat, offset: nat, fold: Labels): Option<(nat, nat)>
    requires k < |lines|
  {
    match DefinitionOf(lines[k], fold)
    case None => None
    case Some(d) => Some((Offset(lines, k, offset) + d.start, Offset(lines, k, offset) + d.end))
  }

  lemma BoundsTail(lines: seq<string>, k: nat, offset: nat, fold: Labels)
    requires k + 1 < |lines|
    ensures BoundsAt(lines[1..], k, offset + |lines[0]|, fold) == BoundsAt(lines, k + 1, offset, fold)
  {
    OffsetTail(lines, k, offset);
  }

  /** What a line's definition adds. */
  lemma DefineAdds(defs: Definitions, found: Option<Definition>, offset: nat, length: nat, key: string)
    ensures
      var next := Define(defs, found, offset, length);
      && next.spans == (if found.Some? then defs.spans + [Span(offset, offset + length)] else defs.spans)
      && (key !in defs.bounds ==>
            && (key in next.bounds <==> found.Some? && found.value.key == key)
            && (key in next.bounds ==> next.bounds[key] == (offset + found.value.start, offset + found.value.end)))
  {
  }

  lemma BoundsHead(lines: seq<string>, offset: nat, fold: Labels)
    requires lines != [] && KeyOf(lines[0], fold).Some?
    ensures var d := DefinitionOf(lines[0], fold).value;
            BoundsAt(lines, 0, offset, fold) == Some((offset + d.start, offset + d.end))
  {
  }

  /** A key not bound before is bound to its first defining line, and only then. */
  lemma {:induction false} BoundsAreExact(defs: Definitions, lines: seq<string>, offset: nat, fold: Labels, key: string)
    requires key !in defs.bounds
    ensures var bounds := DefineAll(defs, lines, offset, fold).bounds;
            && (key in bounds ==> exists k: nat :: FirstOf(Keys(lines, fold), k, key))
            && (forall k: nat | FirstOf(Keys(lines, fold), k, key) ::
                  key in bounds && Some(bounds[key]) == BoundsAt(lines, k, offset, fold))
    decreases |lines|
  {
    if lines != [] {
      var keys := Keys(lines, fold);
      var next, rest := Define(defs, DefinitionOf(lines[0], fold), offset, |lines[0]|), lines[1..];
      assert keys[0] == KeyOf(lines[0], fold) && keys[1..] == Keys(rest, fold);
      DefineAdds(defs, DefinitionOf(lines[0], fold), offset, |lines[0]|, key);
      FirstTail(keys, key);
      if keys[0] == Some(key) {
        BoundsHead(lines, offset, fold);
        FirstDefinitionStands(next, rest, offset + |lines[0]|, fold, key);
      } else {
        BoundsAreExact(next, rest, offset + |lines[0]|, fold, key);
        BoundsShift(lines, offset, fold, key, DefineAll(next, rest, offset + |lines[0]|, fold).bounds);
      }
    }
  }

  lemma BoundsShift(lines: seq<string>, offset: nat, fold: Labels, key: string, bounds: Bounds)
    requires lines != [] && Keys(lines, fold)[0] != Some(key)
    requires Keys(lines, fold)[1..] == Keys(lines[1..], fold)
    requires key in bounds ==> exists k: nat :: FirstOf(Keys(lines[1..], fold), k, key)
    requires forall k: nat | FirstOf(Keys(lines[1..], fold), k, key) ::
               key in bounds && Some(bounds[key]) == BoundsAt(lines[1..], k, offset + |lines[0]|, fold)
    ensures key in bounds ==> exists k: nat :: FirstOf(Keys(lines, fold), k, key)
    ensures forall k: nat | FirstOf(Keys(lines, fold), k, key) ::
              key in bounds && Some(bounds[key]) == BoundsAt(lines, k, offset, fold)
  {
    FirstTail(Keys(lines, fold), key);
    if key in bounds {
      var k: nat :| FirstOf(Keys(lines[1..], fold), k, key);
      assert FirstOf(Keys(lines, fold), k + 1, key);
    }
    forall k: nat | FirstOf(Keys(lines, fold), k, key)
      ensures key in bounds && Some(bounds[key]) == BoundsAt(lines, k, offset, fold)
    {
      assert FirstOf(Keys(lines[1..], fold), k - 1, key);
      BoundsTail(lines, k - 1, offset, fold);
    }
  }

  /** The span of line k. */
  function LineSpan(lines: seq<string>, k: nat, offset: nat): Span
    requires k < |lines|
  {
    Span(Offset(lines, k, offset), Offset(lines, k, offset) + |lines[k]|)
  }

  /** The span is that of a line with a key. */
  ghost predicate DefiningSpan(lines: seq<string>, keys: seq<Option<string>>, offset: nat, s: Span) {
    exists k: nat | k < |lines| && k < |keys| :: keys[k].Some? && s == LineSpan(lines, k, offset)
  }

  lemma DefiningTail(lines: seq<string>, keys: seq<Option<string>>, offset: nat, s: Span)
    requires lines != [] && |keys| == |lines|
    ensures DefiningSpan(lines, keys, offset, s) <==>
              || (keys[0].Some? && s == Span(offset, offset + |lines[0]|))
              || DefiningSpan(lines[1..], keys[1..], offset + |lines[0]|, s)
  {
    var rest := lines[1..];
    if k: nat :| k < |lines| && keys[k].Some? && s == LineSpan(lines, k, offset) {
      if k > 0 {
        OffsetTail(lines, k - 1, offset);
        assert rest[k - 1] == lines[k] && keys[1..][k - 1] == keys[k];
      }
    }
    if k: nat :| k < |rest| && keys[1..][k].Some? && s == LineSpan(rest, k, offset + |lines[0]|) {
      OffsetTail(lines, k, offset);
      assert lines[k + 1] == rest[k] && keys[k + 1] == keys[1..][k];
    }
    assert LineSpan(lines, 0, offset) == Span(offset, offset + |lines[0]|);
  }

  lemma {:induction false} SpansAreExact(defs: Definitions, lines: seq<string>, offset: nat, fold: Labels, s: Span)
    ensures s in DefineAll(defs, lines, offset, fold).spans <==>
              s in defs.spans || DefiningSpan(lines, Keys(lines, fold), offset, s)
    decreases |lines|
  {
    if lines != [] {
      var keys, found := Keys(lines, fold), DefinitionOf(lines[0], fold);
      assert keys[0] == KeyOf(lines[0], fold) && keys[1..] == Keys(lines[1..], fold);
      DefiningTail(lines, keys, offset, s);
      DefineAdds(defs, found, offset, |lines[0]|, "");
      SpansAreExact(Define(defs, found, offset, |lines[0]|), lines[1..], offset + |lines[0]|, fold, s);
    }
  }

  /** The definitions of a text: the spans are those of exactly the defining lines, and a key is
      bound exactly if some line defines it, to the destination of the first such line. */
  lemma DefinitionsAreExact(masked: string, fold: Labels, key: string, s: Span)
    ensures
      var defs, lines := DefinitionsOf(masked, fold), Lines(masked);
      && (s in defs.spans <==> DefiningSpan(lines, Keys(lines, fold), 0, s))
      && (key in defs.bounds <==> exists k: nat :: FirstOf(Keys(lines, fold), k, key))
      && (forall k: nat | FirstOf(Keys(lines, fold), k, key) ::
            key in defs.bounds && Some(defs.bounds[key]) == BoundsAt(lines, k, 0, fold))
  {
    BoundsAreExact(Definitions(map[], []), Lines(masked), 0, fold, key);
    SpansAreExact(Definitions(map[], []), Lines(masked), 0, fold, s);
  }
}
