/** Links, reference definitions and evidence prose of tools/document_checks.py. The label
    normalisation (decoding, white space, case folding) is a parameter of everything here. */
module Links {
  import opened Common
  import opened PythonText
  import opened CodeSpans
  import opened LinkSyntax
  import opened Brackets

  type Labels = string -> string

  // ---------------------------------------------------------------------------
  // Reference definitions
  // ---------------------------------------------------------------------------

  /** Where an unescaped bracket closes the label that starts before i. */
  function LabelEnd(line: string, i: nat): (e: Option<nat>)
    ensures e.Some? ==> i <= e.value < |line|
    decreases |line| - i
  {
    if i >= |line| || line[i] == '[' || line[i] == '\n' then None
    else if line[i] == ']' then Some(i)
    else if line[i] == '\\' then
      if i + 1 < |line| && line[i + 1] != '\n' then LabelEnd(line, i + 2) else None
    else LabelEnd(line, i + 1)
  }

  function SkipBlanks(line: string, i: nat): nat
    decreases |line| - i
  {
    if i < |line| && IsBlank(line[i]) then SkipBlanks(line, i + 1) else i
  }

  /** The length without trailing carriage returns and newlines. */
  function BodyLength(line: string): (n: nat)
    ensures n <= |line|
  {
    if line != [] && (line[|line| - 1] == '\r' || line[|line| - 1] == '\n') then BodyLength(line[..|line| - 1]) else |line|
  }

  datatype Definition = Definition(key: string, start: nat, end: nat)

  function DefinitionOf(line: string, fold: Labels): Option<Definition> {
    var indent := Run(line, ' ');
    if indent > 3 || indent == |line| || line[indent] != '[' then None
    else
      var e := LabelEnd(line, indent + 1);
      if e.None? || !(1 <= e.value - indent - 1 <= MAX_LABEL_CHARS)
         || e.value + 1 == |line| || line[e.value + 1] != ':' then None
      else
        var limit := BodyLength(line);
        var d := DestinationAt(line, SkipBlanks(line, e.value + 2), limit);
        var key := fold(line[indent + 1..e.value]);
        if d.None? || Ending(line, d.value.next, limit, false).None? || key == "" then None
        else Some(Definition(key, d.value.start, d.value.end))
  }

  type Bounds = map<string, (nat, nat)>

  /** The destinations by key, and the whole lines that define them. */
  datatype Definitions = Definitions(bounds: Bounds, spans: seq<Span>)

  /** What a line of this length at this offset defines; the first definition of a key stands. */
  function Define(defs: Definitions, found: Option<Definition>, offset: nat, length: nat): Definitions {
    match found
    case None => defs
    case Some(d) =>
      Definitions(if d.key in defs.bounds then defs.bounds else defs.bounds[d.key := (offset + d.start, offset + d.end)],
                  defs.spans + [Span(offset, offset + length)])
  }

  function DefineAll(defs: Definitions, lines: seq<string>, offset: nat, fold: Labels): Definitions
    decreases |lines|
  {
    if lines == [] then defs
    else DefineAll(Define(defs, DefinitionOf(lines[0], fold), offset, |lines[0]|), lines[1..], offset + |lines[0]|, fold)
  }

  function DefinitionsOf(masked: string, fold: Labels): Definitions {
    DefineAll(Definitions(map[], []), Lines(masked), 0, fold)
  }

  method FindDefinitions(masked: string, fold: Labels) returns (defs: Definitions)
    ensures defs == DefinitionsOf(masked, fold)
  {
    defs := Definitions(map[], []);
    var lines, offset := Lines(masked), 0;
    while lines != []
      invariant offset >= 0 && DefinitionsOf(masked, fold) == DefineAll(defs, lines, offset, fold)
      decreases |lines|
    {
      defs := Define(defs, DefinitionOf(lines[0], fold), offset, |lines[0]|);
      lines, offset := lines[1..], offset + |lines[0]|;
    }
  }

  lemma {:induction false} LinesAreNonempty(s: string)
    ensures forall k | 0 <= k < |Lines(s)| :: Lines(s)[k] != []
  {
    if s != [] {
      LinesAreNonempty(s[LineLength(s)..]);
    }
  }

  lemma {:induction false} DefinitionSpansOrdered(defs: Definitions, lines: seq<string>, offset: nat, fold: Labels)
    requires Ordered(defs.spans, 0, offset) && forall k | 0 <= k < |lines| :: lines[k] != []
    ensures Ordered(DefineAll(defs, lines, offset, fold).spans, 0, offset + |Concat(lines)|)
    decreases |lines|
  {
    if lines != [] {
      var next := Define(defs, DefinitionOf(lines[0], fold), offset, |lines[0]|);
      assert Ordered(next.spans, 0, offset + |lines[0]|);
      DefinitionSpansOrdered(next, lines[1..], offset + |lines[0]|, fold);
    }
  }

  /** The definition spans are separate lines of the text. */
  lemma DefinitionsAreLines(masked: string, fold: Labels)
    ensures Ordered(DefinitionsOf(masked, fold).spans, 0, |masked|)
  {
    LinesAreNonempty(masked);
    ConcatLines(masked);
    DefinitionSpansOrdered(Definitions(map[], []), Lines(masked), 0, fold);
  }

  /** A later definition never replaces an earlier one. */
  lemma {:induction false} FirstDefinitionStands(defs: Definitions, lines: seq<string>, offset: nat,
                                                 fold: Labels, key: string)
    requires key in defs.bounds
    ensures key in DefineAll(defs, lines, offset, fold).bounds
    ensures DefineAll(defs, lines, offset, fold).bounds[key] == defs.bounds[key]
    decreases |lines|
  {
    if lines != [] {
      FirstDefinitionStands(Define(defs, DefinitionOf(lines[0], fold), offset, |lines[0]|), lines[1..], offset + |lines[0]|, fold, key);
    }
  }

  // ---------------------------------------------------------------------------
  // Links
  // ---------------------------------------------------------------------------

  datatype Kind = Inline | Image | Reference

  datatype Link = Link(
    start: nat, end: nat, destinationStart: nat, destinationEnd: nat, kind: Kind, labelStart: nat, labelEnd: nat)

  predicate ValidPairs(t: string, pairs: map<nat, nat>) {
    forall a | a in pairs :: a < pairs[a] < |t| && t[a] == '[' && t[pairs[a]] == ']'
  }

  /** Where a link whose bracket opens at index starts: at a leading, unescaped exclamation mark. */
  function StartOf(t: string, index: nat): (n: nat)
    requires index < |t|
    ensures n <= index
  {
    if index > 0 && t[index - 1] == '!' && !Escaped(t, index - 1) then index - 1 else index
  }

  /** What an opening bracket turns out to be: nothing (scanning goes on at next), or a link. */
  datatype Outcome = Nothing(next: nat) | Found(link: Link)

  function InlineAt(t: string, index: nat, close: nat): Outcome
    requires index < close && close + 1 < |t|
  {
    var d := DestinationAt(t, SkipSpaces(t, close + 2, |t|), |t|);
    if d.None? then Nothing(close + 1)
    else
      var end := Ending(t, d.value.next, Min(|t|, d.value.next + MAX_DESTINATION_CHARS), true);
      if end.None? then Nothing(close + 1)
      else Found(Link(StartOf(t, index), end.value, d.value.start, d.value.end,
                      if StartOf(t, index) < index then Image else Inline, index + 1, close))
  }

  function ReferenceAt(t: string, index: nat, close: nat, key: string, end: nat, bounds: Bounds): Outcome
    requires index < close < |t|
  {
    if key in bounds then
      Found(Link(StartOf(t, index), end, bounds[key].0, bounds[key].1, Reference, index + 1, close))
    else Nothing(close + 1)
  }

  function LinkAt(t: string, index: nat, pairs: map<nat, nat>, bounds: Bounds, fold: Labels): (o: Outcome)
    requires index < |t| && ValidPairs(t, pairs)
  {
    if index !in pairs || pairs[index] - index > MAX_LABEL_CHARS + 1 then Nothing(index + 1)
    else
      var close := pairs[index];
      var key := fold(t[index + 1..close]);
      if close + 1 < |t| && t[close + 1] == '(' then InlineAt(t, index, close)
      else if close + 1 !in pairs then ReferenceAt(t, index, close, key, close + 1, bounds)
      else
        var refClose := pairs[close + 1];
        if refClose - (close + 1) > MAX_LABEL_CHARS + 1 then Nothing(refClose + 1)
        else
          var explicit := t[close + 2..refClose];
          ReferenceAt(t, index, close, if explicit != [] then fold(explicit) else key, refClose + 1, bounds)
  }

  /** A link's bracket is inside it; its first and last characters are its delimiters. */
  predicate Delimited(t: string, index: nat, l: Link) {
    && l.start <= index < l.labelStart <= l.labelEnd < l.end <= |t|
    && l.start == StartOf(t, index) && l.labelStart == index + 1
    && (t[l.start] == '!' || t[l.start] == '[') && (t[l.end - 1] == ')' || t[l.end - 1] == ']')
  }

  lemma LinkAtMeans(t: string, index: nat, pairs: map<nat, nat>, bounds: Bounds, fold: Labels)
    requires index < |t| && ValidPairs(t, pairs)
    ensures
      match LinkAt(t, index, pairs, bounds, fold)
      case Nothing(next) => index < next
      case Found(l) => Delimited(t, index, l)
  {
    if index in pairs && pairs[index] - index <= MAX_LABEL_CHARS + 1 {
      var close := pairs[index];
      if close + 1 < |t| && t[close + 1] == '(' {
        InlineMeans(t, index, close);
      }
    }
  }

  lemma InlineMeans(t: string, index: nat, close: nat)
    requires index < close && close + 1 < |t| && t[index] == '['
    ensures
      match InlineAt(t, index, close)
      case Nothing(next) => index < next
      case Found(l) => Delimited(t, index, l)
  {
    var position := SkipSpaces(t, close + 2, |t|);
    var d := DestinationAt(t, position, |t|);
    if d.Some? {
      DestinationMeans(t, position, |t|);
    }
  }

  function LinksFrom(t: string, index: nat, pairs: map<nat, nat>, bounds: Bounds, fold: Labels): seq<Link>
    requires ValidPairs(t, pairs)
    decreases |t| - index
  {
    if index >= |t| then []
    else
      LinkAtMeans(t, index, pairs, bounds, fold);
      match LinkAt(t, index, pairs, bounds, fold)
      case Nothing(next) => LinksFrom(t, next, pairs, bounds, fold)
      case Found(l) => [l] + LinksFrom(t, l.end, pairs, bounds, fold)
  }

  /** What makes a link: a paired label, followed by a destination of its own in parentheses, or
      naming a definition by its label or by the paired text after it. */
  predicate Justified(t: string, l: Link, pairs: map<nat, nat>, bounds: Bounds, fold: Labels)
    requires ValidPairs(t, pairs)
  {
    && 0 < l.labelStart && l.labelStart - 1 in pairs && pairs[l.labelStart - 1] == l.labelEnd
    && l.labelEnd - l.labelStart <= MAX_LABEL_CHARS
    && if l.kind.Reference? then NamesDefinition(t, l, pairs, bounds, fold)
       else
         && l.labelEnd + 1 < l.destinationStart < l.destinationEnd < l.end <= |t|
         && t[l.labelEnd + 1] == '(' && t[l.end - 1] == ')'
         && (l.kind.Image? <==> l.start == l.labelStart - 2)
  }

  predicate NamesDefinition(t: string, l: Link, pairs: map<nat, nat>, bounds: Bounds, fold: Labels)
    requires ValidPairs(t, pairs)
  {
    && l.labelStart <= l.labelEnd < |t|
    && var own := fold(t[l.labelStart..l.labelEnd]);
       if l.labelEnd + 1 !in pairs then
         l.end == l.labelEnd + 1 && own in bounds && bounds[own] == (l.destinationStart, l.destinationEnd)
       else
         && l.end == pairs[l.labelEnd + 1] + 1
         && var explicit := t[l.labelEnd + 2..l.end - 1];
            var key := if explicit == [] then own else fold(explicit);
            key in bounds && bounds[key] == (l.destinationStart, l.destinationEnd)
  }

  lemma InlineIsJustified(t: string, index: nat, pairs: map<nat, nat>, bounds: Bounds, fold: Labels)
    requires index < |t| && ValidPairs(t, pairs) && index in pairs && pairs[index] - index <= MAX_LABEL_CHARS + 1
    requires pairs[index] + 1 < |t| && t[pairs[index] + 1] == '('
    requires InlineAt(t, index, pairs[index]).Found?
    ensures Justified(t, InlineAt(t, index, pairs[index]).link, pairs, bounds, fold)
  {
    var position := SkipSpaces(t, pairs[index] + 2, |t|);
    DestinationMeans(t, position, |t|);
  }

  lemma LinkAtIsJustified(t: string, index: nat, pairs: map<nat, nat>, bounds: Bounds, fold: Labels)
    requires index < |t| && ValidPairs(t, pairs) && LinkAt(t, index, pairs, bounds, fold).Found?
    ensures Justified(t, LinkAt(t, index, pairs, bounds, fold).link, pairs, bounds, fold)
  {
    var close := pairs[index];
    if close + 1 < |t| && t[close + 1] == '(' {
      InlineIsJustified(t, index, pairs, bounds, fold);
    }
  }

  /** One step of the scan: at most one link, and where it goes on. */
  lemma LinksStep(t: string, index: nat, pairs: map<nat, nat>, bounds: Bounds, fold: Labels)
    returns (next: nat, first: seq<Link>)
    requires index < |t| && ValidPairs(t, pairs)
    ensures index < next && |first| <= 1
    ensures LinksFrom(t, index, pairs, bounds, fold) == first + LinksFrom(t, next, pairs, bounds, fold)
    ensures first != [] ==>
              next == first[0].end && Delimited(t, index, first[0]) && Justified(t, first[0], pairs, bounds, fold)
  {
    LinkAtMeans(t, index, pairs, bounds, fold);
    match LinkAt(t, index, pairs, bounds, fold)
    case Nothing(after) =>
      next, first := after, [];
    case Found(l) =>
      next, first := l.end, [l];
      LinkAtIsJustified(t, index, pairs, bounds, fold);
  }

  lemma {:induction false} LinksAreJustified(t: string, index: nat, pairs: map<nat, nat>, bounds: Bounds,
                                             fold: Labels, j: nat)
    requires ValidPairs(t, pairs) && j < |LinksFrom(t, index, pairs, bounds, fold)|
    ensures Justified(t, LinksFrom(t, index, pairs, bounds, fold)[j], pairs, bounds, fold)
    decreases |t| - index
  {
    var next, first := LinksStep(t, index, pairs, bounds, fold);
    if |first| <= j {
      LinksAreJustified(t, next, pairs, bounds, fold, j - |first|);
    }
  }

  // ---------------------------------------------------------------------------
  // Links are disjoint and in order
  // ---------------------------------------------------------------------------

  /** Links in order from floor on, each with its delimiters. */
  predicate Apart(t: string, links: seq<Link>, floor: nat) {
    links != [] ==>
      && floor <= links[0].start < links[0].end <= |t|
      && (t[links[0].start] == '!' || t[links[0].start] == '[')
      && (t[links[0].end - 1] == ')' || t[links[0].end - 1] == ']')
      && Apart(t, links[1..], links[0].end)
  }

  lemma ApartFirst(t: string, index: nat, floor: nat, l: Link, rest: seq<Link>)
    requires floor <= index < |t| && Delimited(t, index, l) && Apart(t, rest, l.end)
    requires index == floor && 0 < index ==> t[index - 1] != '!'
    ensures Apart(t, [l] + rest, floor)
  {
    assert ([l] + rest)[1..] == rest;
  }

  /** Scanning goes on after floor, or right at it when no exclamation mark ends the last link. */
  lemma {:induction false} LinksAreApart(t: string, index: nat, floor: nat, pairs: map<nat, nat>,
                                         bounds: Bounds, fold: Labels)
    requires ValidPairs(t, pairs) && floor <= index
    requires index == floor && 0 < index <= |t| ==> t[index - 1] != '!'
    ensures Apart(t, LinksFrom(t, index, pairs, bounds, fold), floor)
    decreases |t| - index
  {
    if index < |t| {
      var next, first := LinksStep(t, index, pairs, bounds, fold);
      var rest := LinksFrom(t, next, pairs, bounds, fold);
      if first == [] {
        LinksAreApart(t, next, floor, pairs, bounds, fold);
        assert first + rest == rest;
      } else {
        LinksAreApart(t, next, next, pairs, bounds, fold);
        ApartFirst(t, index, floor, first[0], rest);
        assert first == [first[0]];
      }
    }
  }

  // ---------------------------------------------------------------------------
  // The parser
  // ---------------------------------------------------------------------------

  method FindInlineAt(t: string, index: nat, close: nat) returns (o: Outcome)
    requires index < close && close + 1 < |t|
    ensures o == InlineAt(t, index, close)
  {
    var position := SkipSpaces(t, close + 2, |t|);
    var d := FindDestination(t, position, |t|);
    if d.None? {
      return Nothing(close + 1);
    }
    var end := FindEnding(t, d.value.next, Min(|t|, d.value.next + MAX_DESTINATION_CHARS), true);
    if end.None? {
      return Nothing(close + 1);
    }
    var start := StartOf(t, index);
    o := Found(Link(start, end.value, d.value.start, d.value.end, if start < index then Image else Inline,
                    index + 1, close));
  }

  method FindLinkAt(t: string, index: nat, pairs: map<nat, nat>, bounds: Bounds, fold: Labels) returns (o: Outcome)
    requires index < |t| && ValidPairs(t, pairs)
    ensures o == LinkAt(t, index, pairs, bounds, fold)
  {
    if index !in pairs || pairs[index] - index > MAX_LABEL_CHARS + 1 {
      return Nothing(index + 1);
    }
    var close := pairs[index];
    var following := close + 1;
    if following < |t| && t[following] == '(' {
      o := FindInlineAt(t, index, close);
      return;
    }
    var key := fold(t[index + 1..close]);
    var end := following;
    if following in pairs {
      var refClose := pairs[following];
      if refClose - following > MAX_LABEL_CHARS + 1 {
        return Nothing(refClose + 1);
      }
      var explicit := t[following + 1..refClose];
      if explicit != [] {
        key := fold(explicit);
      }
      end := refClose + 1;
    }
    if key !in bounds {
      return Nothing(following);
    }
    o := Found(Link(StartOf(t, index), end, bounds[key].0, bounds[key].1, Reference, index + 1, close));
  }

  method FindLinks(t: string, pairs: map<nat, nat>, bounds: Bounds, fold: Labels) returns (links: seq<Link>)
    requires ValidPairs(t, pairs)
    ensures links == LinksFrom(t, 0, pairs, bounds, fold)
  {
    links := [];
    var index: nat := 0;
    ghost var goal := LinksFrom(t, 0, pairs, bounds, fold);
    while index < |t|
      invariant goal == links + LinksFrom(t, index, pairs, bounds, fold)
      decreases |t| - index
    {
      var o := FindLinkAt(t, index, pairs, bounds, fold);
      LinkAtMeans(t, index, pairs, bounds, fold);
      match o {
        case Nothing(next) => index := next;
        case Found(l) =>
          Append(links, l, LinksFrom(t, l.end, pairs, bounds, fold));
          links, index := links + [l], l.end;
      }
    }
    assert links + [] == links;
  }

  lemma Append(links: seq<Link>, l: Link, rest: seq<Link>)
    ensures links + ([l] + rest) == links + [l] + rest
  {
  }

  /** The text with code and definitions masked, where links are looked for. */
  function Body(text: string, fold: Labels): string {
    Painted(WithoutCode(text, false), DefinitionsOf(WithoutCode(text, false), fold).spans)
  }

  function SpansOf(text: string, fold: Labels): seq<Span> {
    DefinitionsOf(WithoutCode(text, false), fold).spans
  }

  function LinksOf(text: string, fold: Labels): seq<Link> {
    var t := Body(text, fold);
    PairsBalance(t);
    LinksFrom(t, 0, Pairs(t), DefinitionsOf(WithoutCode(text, false), fold).bounds, fold)
  }

  method Parse(text: string, fold: Labels) returns (links: seq<Link>, spans: seq<Span>)
    ensures links == LinksOf(text, fold) && spans == SpansOf(text, fold)
  {
    var masked := MaskCode(text, false);
    var defs := FindDefinitions(masked, fold);
    var t := Painted(masked, defs.spans);
    var pairs := FindPairs(t);
    PairsBalance(t);
    links := FindLinks(t, pairs, defs.bounds, fold);
    spans := defs.spans;
  }

  // ---------------------------------------------------------------------------
  // Main results
  // ---------------------------------------------------------------------------

  lemma {:induction false} ApartMeans(t: string, links: seq<Link>, floor: nat, j: nat)
    requires Apart(t, links, floor) && j < |links|
    ensures floor <= links[j].start < links[j].end <= |t|
    ensures t[links[j].start] == '!' || t[links[j].start] == '['
    ensures t[links[j].end - 1] == ')' || t[links[j].end - 1] == ']'
    ensures forall i | 0 <= i < j :: links[i].end <= links[j].start
  {
    if j > 0 {
      ApartMeans(t, links[1..], links[0].end, j - 1);
      forall i | 0 <= i < j
        ensures links[i].end <= links[j].start
      {
        if i > 0 {
          assert links[1..][i - 1] == links[i];
        }
      }
    }
  }

  lemma BodyLengthIs(text: string, fold: Labels)
    ensures |Body(text, fold)| == |text|
  {
    WithoutCodeMasks(text, false);
  }

  lemma LinksAreApartIn(text: string, fold: Labels)
    ensures Apart(Body(text, fold), LinksOf(text, fold), 0) && |Body(text, fold)| == |text|
  {
    var t := Body(text, fold);
    BodyLengthIs(text, fold);
    PairsBalance(t);
    LinksAreApart(t, 0, 0, Pairs(t), DefinitionsOf(WithoutCode(text, false), fold).bounds, fold);
  }

  /** Links are increasing and disjoint, the leading exclamation mark included. */
  lemma LinksAreDisjoint(text: string, fold: Labels, i: nat, j: nat)
    requires i < j < |LinksOf(text, fold)|
    ensures LinksOf(text, fold)[i].start < LinksOf(text, fold)[i].end <= LinksOf(text, fold)[j].start
    ensures LinksOf(text, fold)[j].end <= |text|
  {
    LinksAreApartIn(text, fold);
    ApartMeans(Body(text, fold), LinksOf(text, fold), 0, i);
    ApartMeans(Body(text, fold), LinksOf(text, fold), 0, j);
  }

  /** Every reported link has a paired label and its own destination, or names a definition. */
  lemma EveryLinkIsJustified(text: string, fold: Labels, j: nat)
    requires j < |LinksOf(text, fold)|
    ensures
      var t := Body(text, fold);
      && ValidPairs(t, Pairs(t))
      && Justified(t, LinksOf(text, fold)[j], Pairs(t), DefinitionsOf(WithoutCode(text, false), fold).bounds, fold)
  {
    var t := Body(text, fold);
    PairsBalance(t);
    LinksAreJustified(t, 0, Pairs(t), DefinitionsOf(WithoutCode(text, false), fold).bounds, fold, j);
  }

  predicate Meets(s: Span, l: Link) {
    s.start < l.end && l.start < s.end
  }

  predicate Visible(t: string, i: int) {
    0 <= i < |t| && t[i] != ' ' && t[i] != '\n'
  }

  /** A link in a painted text starts and ends at visible characters, so a span inside which
      either lay would have hidden it. */
  lemma SpansAreApartOrInside(masked: string, spans: seq<Span>, t: string, links: seq<Link>, k: nat, j: nat)
    requires t == Painted(masked, spans) && Apart(t, links, 0) && k < |spans| && j < |links|
    requires spans[k].start < spans[k].end
    ensures links[j].start < links[j].end <= |t|
    ensures Meets(spans[k], links[j]) ==> links[j].start < spans[k].start && spans[k].end < links[j].end
  {
    ApartMeans(t, links, 0, j);
    OutsideSpan(masked, spans, k, links[j].start);
    OutsideSpan(masked, spans, k, links[j].end - 1);
  }

  /** A definition that meets a link lies inside it, after its first character. */
  lemma DefinitionsAreApartOrInside(text: string, fold: Labels, k: nat, j: nat)
    requires k < |SpansOf(text, fold)| && j < |LinksOf(text, fold)|
    ensures var s, l := SpansOf(text, fold)[k], LinksOf(text, fold)[j];
            && s.start < s.end <= |text| && l.start < l.end <= |text|
            && (Meets(s, l) ==> l.start < s.start && s.end < l.end)
  {
    var masked := WithoutCode(text, false);
    LinksAreApartIn(text, fold);
    WithoutCodeMasks(text, false);
    DefinitionsAreLines(masked, fold);
    SpansAreApartOrInside(masked, SpansOf(text, fold), Body(text, fold), LinksOf(text, fold), k, j);
  }

  /** A visible character of a painted text lies in none of the spans. */
  lemma OutsideSpan(masked: string, spans: seq<Span>, k: nat, i: nat)
    requires k < |spans| && i < |masked| && Visible(Painted(masked, spans), i)
    ensures !(spans[k].start <= i < spans[k].end)
  {
  }

  // ---------------------------------------------------------------------------
  // Evidence prose
  // ---------------------------------------------------------------------------

  function LinkSpans(links: seq<Link>): (r: seq<Span>)
    ensures |r| == |links| && forall i | 0 <= i < |r| :: r[i] == Span(links[i].start, links[i].end)
  {
    if links == [] then [] else [Span(links[0].start, links[0].end)] + LinkSpans(links[1..])
  }

  predicate Before(a: Span, b: Span) {
    a.start < b.start || (a.start == b.start && a.end <= b.end)
  }

  function Insert(s: Span, sorted: seq<Span>): seq<Span> {
    if sorted == [] || Before(s, sorted[0]) then [s] + sorted else [sorted[0]] + Insert(s, sorted[1..])
  }

  function Sort(spans: seq<Span>): seq<Span> {
    if spans == [] then [] else Insert(spans[0], Sort(spans[1..]))
  }

  predicate Sorted(spans: seq<Span>) {
    forall i, j | 0 <= i < j < |spans| :: Before(spans[i], spans[j])
  }

  lemma {:induction false} InsertSorts(s: Span, sorted: seq<Span>)
    requires Sorted(sorted)
    ensures Sorted(Insert(s, sorted))
    ensures forall x :: x in Insert(s, sorted) <==> x == s || x in sorted
  {
    if sorted != [] && !Before(s, sorted[0]) {
      InsertSorts(s, sorted[1..]);
      assert sorted == [sorted[0]] + sorted[1..];
      var more := Insert(s, sorted[1..]);
      forall j | 0 <= j < |more|
        ensures Before(sorted[0], more[j])
      {
        assert more[j] in more;
        if more[j] != s {
          var i :| 1 <= i < |sorted| && sorted[i] == more[j];
        }
      }
    } else {
      forall i | 0 <= i < |sorted|
        ensures Before(s, sorted[i])
      {
        assert i > 0 ==> Before(sorted[0], sorted[i]);
      }
    }
  }

  lemma {:induction false} SortSorts(spans: seq<Span>)
    ensures Sorted(Sort(spans))
    ensures forall x :: x in Sort(spans) <==> x in spans
  {
    if spans != [] {
      SortSorts(spans[1..]);
      InsertSorts(spans[0], Sort(spans[1..]));
      assert spans == [spans[0]] + spans[1..];
    }
  }

  /** The same, apart, or one inside the other and starting later. */
  predicate Friendly(a: Span, b: Span) {
    || a == b || a.end <= b.start || b.end <= a.start
    || (a.start < b.start && b.end <= a.end) || (b.start < a.start && a.end <= b.end)
  }

  predicate AllFriendly(spans: seq<Span>, n: nat) {
    && (forall a | a in spans :: a.start < a.end <= n)
    && (forall a, b | a in spans && b in spans :: Friendly(a, b))
  }

  lemma FriendlyInOrder(spans: seq<Span>, n: nat, i: nat, j: nat)
    requires Sorted(spans) && AllFriendly(spans, n) && i < j < |spans|
    ensures spans[i].start <= spans[j].start
    ensures spans[i].end <= spans[j].start || spans[j].end <= spans[i].end
  {
    assert spans[i] in spans && spans[j] in spans;
    assert Friendly(spans[i], spans[j]) && Before(spans[i], spans[j]);
  }

  lemma WithinMember(spans: seq<Span>, i: int)
    ensures Within(spans, i) <==> exists s :: s in spans && s.start <= i < s.end
  {
  }

  /** Up to k all spans end by position, and position is where one of them ends. */
  predicate Reached(spans: seq<Span>, k: nat, position: nat) {
    && k <= |spans| && (forall i | 0 <= i < k :: spans[i].end <= position)
    && (position == 0 || exists i | 0 <= i < k :: spans[i].end == position)
  }

  lemma SkippedIsInside(spans: seq<Span>, n: nat, k: nat, position: nat)
    requires Sorted(spans) && AllFriendly(spans, n) && k < |spans| && Reached(spans, k, position)
    requires spans[k].start < position
    ensures Reached(spans, k + 1, position)
  {
    var i :| 0 <= i < k && spans[i].end == position;
    FriendlyInOrder(spans, n, i, k);
  }

  lemma GapIsOutside(spans: seq<Span>, k: nat, position: nat, i: nat)
    requires Sorted(spans) && Reached(spans, k, position)
    requires position <= i && (k < |spans| ==> i < spans[k].start)
    ensures !Within(spans, i)
  {
    forall j | 0 <= j < |spans|
      ensures !(spans[j].start <= i < spans[j].end)
    {
      assert j > k ==> Before(spans[k], spans[j]);
    }
  }

  lemma NextPart(t: string, spans: seq<Span>, k: nat, position: nat)
    requires Sorted(spans) && AllFriendly(spans, |t|) && k < |spans| && Reached(spans, k, position)
    requires position <= spans[k].start
    ensures position <= spans[k].start < spans[k].end <= |t| && Reached(spans, k + 1, spans[k].end)
    ensures Painted(t, spans)[position..spans[k].end] ==
            t[position..spans[k].start] + Mask(t[spans[k].start..spans[k].end])
  {
    var s := spans[k];
    assert s in spans;
    forall i: nat | position <= i < s.end
      ensures Within(spans, i) <==> s.start <= i
    {
      if i < s.start {
        GapIsOutside(spans, k, position, i);
      } else {
        assert spans[k].start <= i < spans[k].end;
      }
    }
  }

  lemma LastPart(t: string, spans: seq<Span>, position: nat)
    requires Sorted(spans) && Reached(spans, |spans|, position) && position <= |t|
    ensures Painted(t, spans)[position..] == t[position..]
  {
    forall i: nat | position <= i < |t|
      ensures !Within(spans, i)
    {
      GapIsOutside(spans, |spans|, position, i);
    }
  }

  /** Masks sorted spans in one pass, skipping those inside an earlier one. */
  method MaskSorted(t: string, spans: seq<Span>) returns (r: string)
    requires Sorted(spans) && AllFriendly(spans, |t|)
    ensures r == Painted(t, spans)
  {
    ghost var goal := Painted(t, spans);
    r := [];
    var position: nat := 0;
    for k := 0 to |spans|
      invariant position <= |t| && Reached(spans, k, position) && r == goal[..position]
    {
      var s := spans[k];
      if s.start < position {
        SkippedIsInside(spans, |t|, k, position);
        continue;
      }
      NextPart(t, spans, k, position);
      var part := t[position..s.start] + Mask(t[s.start..s.end]);
      Extend(goal, position, s.end, part);
      r, position := r + part, s.end;
    }
    LastPart(t, spans, position);
    Extend(goal, position, |t|, t[position..]);
    r := r + t[position..];
  }

  function Excluded(text: string, fold: Labels): seq<Span> {
    LinkSpans(LinksOf(text, fold)) + SpansOf(text, fold)
  }

  lemma MixedAreFriendly(text: string, fold: Labels, a: Span, b: Span)
    requires a in LinkSpans(LinksOf(text, fold)) && b in SpansOf(text, fold)
    ensures b.start < b.end <= |text| && Friendly(a, b) && Friendly(b, a)
  {
    var links := LinksOf(text, fold);
    var j :| 0 <= j < |links| && LinkSpans(links)[j] == a;
    var k :| 0 <= k < |SpansOf(text, fold)| && SpansOf(text, fold)[k] == b;
    DefinitionsAreApartOrInside(text, fold, k, j);
  }

  lemma OrderedAreFriendly(spans: seq<Span>, n: nat)
    requires Ordered(spans, 0, n)
    ensures AllFriendly(spans, n)
  {
    forall a: Span, b: Span | a in spans && b in spans
      ensures a.start < a.end <= n && Friendly(a, b)
    {
      var i :| 0 <= i < |spans| && spans[i] == a;
      var j :| 0 <= j < |spans| && spans[j] == b;
    }
  }

  lemma ApartAreOrdered(t: string, links: seq<Link>)
    requires Apart(t, links, 0)
    ensures Ordered(LinkSpans(links), 0, |t|)
  {
    forall j | 0 <= j < |links|
      ensures links[j].start < links[j].end <= |t| && forall i | 0 <= i < j :: links[i].end <= links[j].start
    {
      ApartMeans(t, links, 0, j);
    }
  }

  lemma UnitedAreFriendly(a: seq<Span>, b: seq<Span>, n: nat)
    requires AllFriendly(a, n) && AllFriendly(b, n)
    requires forall x: Span, y: Span | x in a && y in b :: Friendly(x, y) && Friendly(y, x)
    ensures AllFriendly(a + b, n)
  {
    assert forall x :: x in a + b <==> x in a || x in b;
  }

  lemma ExcludedAreFriendly(text: string, fold: Labels, links: seq<Span>, spans: seq<Span>)
    requires links == LinkSpans(LinksOf(text, fold)) && spans == SpansOf(text, fold)
    ensures AllFriendly(links + spans, |text|)
  {
    LinksAreApartIn(text, fold);
    ApartAreOrdered(Body(text, fold), LinksOf(text, fold));
    OrderedAreFriendly(links, |text|);
    WithoutCodeMasks(text, false);
    DefinitionsAreLines(WithoutCode(text, false), fold);
    OrderedAreFriendly(spans, |text|);
    forall a: Span, b: Span | a in links && b in spans
      ensures Friendly(a, b) && Friendly(b, a)
    {
      MixedAreFriendly(text, fold, a, b);
    }
    UnitedAreFriendly(links, spans, |text|);
  }

  lemma SameSpans(t: string, a: seq<Span>, b: seq<Span>)
    requires forall x :: x in a <==> x in b
    ensures Painted(t, a) == Painted(t, b)
    ensures forall n: nat :: AllFriendly(a, n) ==> AllFriendly(b, n)
  {
    forall i | 0 <= i < |t|
      ensures Within(a, i) == Within(b, i)
    {
      WithinMember(a, i);
      WithinMember(b, i);
    }
  }

  /** Evidence prose keeps the length, masks every character of a link or definition (newlines
      stay), and is otherwise the text without examples. */
  method EvidenceProse(text: string, fold: Labels) returns (r: string)
    ensures r == Painted(WithoutExamples(text, false), Excluded(text, fold))
    ensures |r| == |text|
    ensures forall i | 0 <= i < |text| :: r[i] == '\n' <==> text[i] == '\n'
  {
    var links, spans := Parse(text, fold);
    var masked := MaskExamples(text, false);
    masked := Uncommented(masked);
    var all := LinkSpans(links) + spans;
    WithoutExamplesMasks(text, false);
    ExcludedAreFriendly(text, fold, LinkSpans(links), spans);
    SortSorts(all);
    SameSpans(masked, all, Sort(all));
    r := MaskSorted(masked, Sort(all));
  }
}
