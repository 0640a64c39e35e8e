/** Which links tools/document_checks.py reports: exactly the well-formed ones whose bracket the
    scan reaches, and which brackets it does not reach. */
module LinkCompleteness {
  import opened Common
  import opened PythonText
  import opened CodeSpans
  import opened LinkSyntax
  import opened LinkShapes
  import opened Brackets
  import opened Links

  // ---------------------------------------------------------------------------
  // Well-formed links
  // ---------------------------------------------------------------------------

  /** The bracket at index is paired and its label has at most 999 characters. */
  predicate ShortLabel(pairs: map<nat, nat>, index: nat) {
    index in pairs && pairs[index] - index <= MAX_LABEL_CHARS + 1
  }

  /** The link begins at its bracket, or at an unescaped exclamation mark right before it. */
  predicate Begins(t: string, index: nat, start: nat)
    requires index < |t|
  {
    if 0 < index && t[index - 1] == '!' && !Escaped(t, index - 1) then start + 1 == index else start == index
  }

  /** After its label the link has a parenthesis with a destination of its own. */
  ghost predicate InlineForm(t: string, l: Link) {
    exists position: nat, next: nat :: InlineParts(t, l, position, next)
  }

  ghost predicate InlineParts(t: string, l: Link, position: nat, next: nat) {
    && l.labelEnd + 1 < |t| && t[l.labelEnd + 1] == '('
    && SpacesTo(t, l.labelEnd + 2, position, |t|)
    && DestinationSpan(t, position, |t|, l.destinationStart, l.destinationEnd, next)
    && next <= |t|
    && 0 < l.end <= Min(|t|, next + MAX_DESTINATION_CHARS) && t[l.end - 1] == ')'
    && TitleSpaces(t, next, l.end - 1, Min(|t|, next + MAX_DESTINATION_CHARS))
  }

  /** Its label, or the paired text right after it, names a definition. */
  predicate NamedForm(t: string, l: Link, pairs: map<nat, nat>, bounds: Bounds, fold: Labels)
    requires ValidPairs(t, pairs) && l.labelStart <= l.labelEnd < |t|
  {
    && !(l.labelEnd + 1 < |t| && t[l.labelEnd + 1] == '(')
    && var own := t[l.labelStart..l.labelEnd];
       var following := l.labelEnd + 1;
       if following in pairs then
         && pairs[following] - following <= MAX_LABEL_CHARS + 1
         && l.end == pairs[following] + 1
         && var explicit := t[following + 1..pairs[following]];
            Names(fold(if explicit == [] then own else explicit), l, bounds)
       else l.end == following && Names(fold(own), l, bounds)
  }

  predicate Names(key: string, l: Link, bounds: Bounds) {
    key in bounds && bounds[key] == (l.destinationStart, l.destinationEnd)
  }

  /** The link l is written at this bracket. */
  ghost predicate Written(t: string, index: nat, l: Link, pairs: map<nat, nat>, bounds: Bounds, fold: Labels)
    requires index < |t| && ValidPairs(t, pairs)
  {
    && ShortLabel(pairs, index) && l.labelStart == index + 1 && l.labelEnd == pairs[index]
    && Begins(t, index, l.start)
    && match l.kind
       case Inline => l.start == index && InlineForm(t, l)
       case Image => l.start < index && InlineForm(t, l)
       case Reference => NamedForm(t, l, pairs, bounds, fold)
  }

  lemma EndingIsExact(t: string, p: nat, n: nat)
    requires p <= |t|
    ensures
      var limit := Min(|t|, p + MAX_DESTINATION_CHARS);
      Ending(t, p, limit, true) == Some(n) <==> 0 < n <= limit && t[n - 1] == ')' && TitleSpaces(t, p, n - 1, limit)
  {
    InlineEndingIsExact(t, p, n, Min(|t|, p + MAX_DESTINATION_CHARS));
  }

  lemma SpacesEnd(t: string, p: nat)
    requires 0 < p <= |t| && t[p - 1] != '\\'
    ensures var q := SkipSpaces(t, p, |t|);
            SpacesTo(t, p, q, |t|) && 0 < q && t[q - 1] != '\\'
    ensures forall q: nat :: SpacesTo(t, p, q, |t|) ==> q == SkipSpaces(t, p, |t|)
  {
    var q := SkipSpaces(t, p, |t|);
    SpacesAreExact(t, p, q, |t|);
    forall q': nat | SpacesTo(t, p, q', |t|)
      ensures q' == q
    {
      SpacesAreExact(t, p, q', |t|);
    }
    assert IsSpace('\\') == false;
  }

  /** The scans behind the label find this link. */
  predicate Scanned(t: string, l: Link)
    requires l.labelEnd + 1 < |t|
  {
    var d := DestinationAt(t, SkipSpaces(t, l.labelEnd + 2, |t|), |t|);
    && d.Some? && d.value.start == l.destinationStart && d.value.end == l.destinationEnd
    && Ending(t, d.value.next, Min(|t|, d.value.next + MAX_DESTINATION_CHARS), true) == Some(l.end)
  }

  lemma PartsOf(t: string, l: Link, position: nat, next: nat)
    requires l.labelEnd + 1 < |t| && t[l.labelEnd + 1] == '(' && SpacesTo(t, l.labelEnd + 2, position, |t|)
    requires DestinationSpan(t, position, |t|, l.destinationStart, l.destinationEnd, next) && next <= |t|
    requires Ending(t, next, Min(|t|, next + MAX_DESTINATION_CHARS), true) == Some(l.end)
    ensures InlineForm(t, l)
  {
    EndingIsExact(t, next, l.end);
    assert InlineParts(t, l, position, next);
  }

  lemma SpanOf(t: string, position: nat)
    requires 0 < position <= |t| && t[position - 1] != '\\' && DestinationAt(t, position, |t|).Some?
    ensures var d := DestinationAt(t, position, |t|).value;
            DestinationSpan(t, position, |t|, d.start, d.end, d.next) && d.next <= |t|
  {
    var d := DestinationAt(t, position, |t|).value;
    DestinationMeans(t, position, |t|);
    DestinationIsExact(t, position, |t|, d.start, d.end, d.next);
  }

  lemma ScannedIsInline(t: string, l: Link)
    requires l.labelEnd + 1 < |t| && t[l.labelEnd + 1] == '(' && Scanned(t, l)
    ensures InlineForm(t, l)
  {
    var position := SkipSpaces(t, l.labelEnd + 2, |t|);
    SpacesEnd(t, l.labelEnd + 2);
    SpanOf(t, position);
    PartsOf(t, l, position, DestinationAt(t, position, |t|).value.next);
  }

  lemma InlineIsScanned(t: string, l: Link, position: nat, next: nat)
    requires InlineParts(t, l, position, next)
    ensures Scanned(t, l)
  {
    SpacesEnd(t, l.labelEnd + 2);
    DestinationIsExact(t, position, |t|, l.destinationStart, l.destinationEnd, next);
    EndingIsExact(t, next, l.end);
  }

  lemma InlineIsExact(t: string, l: Link)
    requires l.labelEnd + 1 < |t| && t[l.labelEnd + 1] == '('
    ensures InlineForm(t, l) <==> Scanned(t, l)
  {
    if Scanned(t, l) {
      ScannedIsInline(t, l);
    }
    if position: nat, next: nat :| InlineParts(t, l, position, next) {
      InlineIsScanned(t, l, position, next);
    }
  }

  /** The fields of a link whose bracket opens at index. */
  predicate Framed(t: string, index: nat, close: nat, l: Link)
    requires index < |t|
  {
    l.labelStart == index + 1 && l.labelEnd == close && l.start == StartOf(t, index)
  }

  lemma InlineAtIsExact(t: string, index: nat, close: nat, l: Link)
    requires index < close && close + 1 < |t| && l.labelEnd == close
    ensures InlineAt(t, index, close) == Found(l)
            <==> Scanned(t, l) && Framed(t, index, close, l)
                 && l.kind == if StartOf(t, index) < index then Image else Inline
  {
  }

  lemma InlineIsWritten(t: string, index: nat, l: Link, pairs: map<nat, nat>, bounds: Bounds, fold: Labels)
    requires index < |t| && ValidPairs(t, pairs) && ShortLabel(pairs, index) && l.labelEnd == pairs[index]
    requires pairs[index] + 1 < |t| && t[pairs[index] + 1] == '('
    ensures Written(t, index, l, pairs, bounds, fold) <==>
              && InlineForm(t, l) && Framed(t, index, pairs[index], l)
              && l.kind == if StartOf(t, index) < index then Image else Inline
  {
  }

  lemma InlineCase(t: string, index: nat, l: Link, pairs: map<nat, nat>, bounds: Bounds, fold: Labels)
    requires index < |t| && ValidPairs(t, pairs) && ShortLabel(pairs, index) && l.labelEnd == pairs[index]
    requires pairs[index] + 1 < |t| && t[pairs[index] + 1] == '('
    ensures LinkAt(t, index, pairs, bounds, fold) == Found(l) <==> Written(t, index, l, pairs, bounds, fold)
  {
    assert LinkAt(t, index, pairs, bounds, fold) == InlineAt(t, index, pairs[index]);
    InlineIsWritten(t, index, l, pairs, bounds, fold);
    InlineAtIsExact(t, index, pairs[index], l);
    InlineIsExact(t, l);
  }

  lemma NamedCase(t: string, index: nat, l: Link, pairs: map<nat, nat>, bounds: Bounds, fold: Labels)
    requires index < |t| && ValidPairs(t, pairs) && ShortLabel(pairs, index)
    requires !(pairs[index] + 1 < |t| && t[pairs[index] + 1] == '(')
    ensures LinkAt(t, index, pairs, bounds, fold) == Found(l) <==> Written(t, index, l, pairs, bounds, fold)
  {
  }

  /** A bracket is taken for a link exactly where one is written. */
  lemma LinkIsExact(t: string, index: nat, l: Link, pairs: map<nat, nat>, bounds: Bounds, fold: Labels)
    requires index < |t| && ValidPairs(t, pairs)
    ensures LinkAt(t, index, pairs, bounds, fold) == Found(l) <==> Written(t, index, l, pairs, bounds, fold)
  {
    if ShortLabel(pairs, index) {
      if pairs[index] + 1 < |t| && t[pairs[index] + 1] == '(' {
        if l.labelEnd == pairs[index] {
          InlineCase(t, index, l, pairs, bounds, fold);
        } else {
          OtherLabel(t, index, l, pairs[index]);
        }
      } else {
        NamedCase(t, index, l, pairs, bounds, fold);
      }
    }
  }

  lemma OtherLabel(t: string, index: nat, l: Link, close: nat)
    requires index < close && close + 1 < |t| && l.labelEnd != close
    ensures InlineAt(t, index, close) != Found(l)
  {
  }

  // ---------------------------------------------------------------------------
  // Which brackets the scan reaches
  // ---------------------------------------------------------------------------

  /** A bracket that is reached hides what follows: the rest of its link, or of its short label, or
      the over-long second label behind it. */
  ghost predicate Hides(t: string, q: nat, p: nat, pairs: map<nat, nat>, bounds: Bounds, fold: Labels)
    requires q < |t| && ValidPairs(t, pairs)
  {
    || (exists l: Link :: Written(t, q, l, pairs, bounds, fold) && p < l.end)
    || (ShortLabel(pairs, q) && p <= pairs[q])
    || (ShortLabel(pairs, q) && HasLongSecond(t, pairs[q], pairs) && p <= pairs[pairs[q] + 1])
  }

  predicate HasLongSecond(t: string, close: nat, pairs: map<nat, nat>) {
    && !(close + 1 < |t| && t[close + 1] == '(')
    && close + 1 in pairs && pairs[close + 1] - (close + 1) > MAX_LABEL_CHARS + 1
  }

  /** Some earlier bracket that is not hidden itself hides p. */
  ghost predicate Hidden(t: string, p: nat, pairs: map<nat, nat>, bounds: Bounds, fold: Labels)
    requires ValidPairs(t, pairs)
    decreases p
  {
    exists q: nat | q < p && q < |t| :: Hides(t, q, p, pairs, bounds, fold) && !Hidden(t, q, pairs, bounds, fold)
  }

  /** Where the scan goes on after index. */
  function NextOf(o: Outcome): nat {
    match o
    case Nothing(next) => next
    case Found(l) => l.end
  }

  lemma HidesIsNext(t: string, q: nat, p: nat, pairs: map<nat, nat>, bounds: Bounds, fold: Labels)
    requires q < |t| && ValidPairs(t, pairs) && q < p
    ensures Hides(t, q, p, pairs, bounds, fold) <==> p < NextOf(LinkAt(t, q, pairs, bounds, fold))
  {
    var o := LinkAt(t, q, pairs, bounds, fold);
    LinkAtMeans(t, q, pairs, bounds, fold);
    forall l: Link
      ensures Written(t, q, l, pairs, bounds, fold) <==> o == Found(l)
    {
      LinkIsExact(t, q, l, pairs, bounds, fold);
    }
    if o.Found? {
      assert Written(t, q, o.link, pairs, bounds, fold);
      assert o.link.labelEnd == pairs[q] && o.link.labelEnd < o.link.end;
    } else {
      NothingNext(t, q, pairs, bounds, fold);
    }
  }

  lemma NothingNext(t: string, q: nat, pairs: map<nat, nat>, bounds: Bounds, fold: Labels)
    requires q < |t| && ValidPairs(t, pairs) && LinkAt(t, q, pairs, bounds, fold).Nothing?
    ensures LinkAt(t, q, pairs, bounds, fold).next ==
            if !ShortLabel(pairs, q) then q + 1
            else if HasLongSecond(t, pairs[q], pairs) then pairs[pairs[q] + 1] + 1
            else pairs[q] + 1
  {
  }

  /** No bracket before index that was reached hides anything from index on. */
  ghost predicate Clear(t: string, index: nat, pairs: map<nat, nat>, bounds: Bounds, fold: Labels)
    requires ValidPairs(t, pairs)
  {
    forall q: nat, p: nat | q < |t| && q < index <= p && Hides(t, q, p, pairs, bounds, fold) ::
      Hidden(t, q, pairs, bounds, fold)
  }

  lemma ClearStep(t: string, index: nat, next: nat, pairs: map<nat, nat>, bounds: Bounds, fold: Labels)
    requires index < |t| && ValidPairs(t, pairs) && Clear(t, index, pairs, bounds, fold)
    requires next == NextOf(LinkAt(t, index, pairs, bounds, fold))
    ensures index < next && !Hidden(t, index, pairs, bounds, fold)
    ensures Clear(t, next, pairs, bounds, fold)
    ensures forall p: nat | index < p < next :: Hidden(t, p, pairs, bounds, fold)
  {
    LinkAtMeans(t, index, pairs, bounds, fold);
    forall p: nat | index < p < next
      ensures Hidden(t, p, pairs, bounds, fold)
    {
      HidesIsNext(t, index, p, pairs, bounds, fold);
    }
    forall q: nat, p: nat | q < |t| && q < next <= p && Hides(t, q, p, pairs, bounds, fold)
      ensures Hidden(t, q, pairs, bounds, fold)
    {
      if q == index {
        HidesIsNext(t, index, p, pairs, bounds, fold);
      }
    }
  }

  ghost predicate Reported(t: string, index: nat, l: Link, pairs: map<nat, nat>, bounds: Bounds, fold: Labels)
    requires ValidPairs(t, pairs)
  {
    exists p: nat | index <= p < |t| :: Written(t, p, l, pairs, bounds, fold) && !Hidden(t, p, pairs, bounds, fold)
  }

  lemma {:induction false} ScanIsComplete(t: string, index: nat, pairs: map<nat, nat>, bounds: Bounds, fold: Labels,
                                          l: Link)
    requires ValidPairs(t, pairs) && Clear(t, index, pairs, bounds, fold)
    ensures l in LinksFrom(t, index, pairs, bounds, fold) <==> Reported(t, index, l, pairs, bounds, fold)
    decreases |t| - index
  {
    if index < |t| {
      var o := LinkAt(t, index, pairs, bounds, fold);
      var next := NextOf(o);
      ClearStep(t, index, next, pairs, bounds, fold);
      LinkIsExact(t, index, l, pairs, bounds, fold);
      ScanIsComplete(t, next, pairs, bounds, fold, l);
      if Reported(t, next, l, pairs, bounds, fold) {
        assert Reported(t, index, l, pairs, bounds, fold);
      }
    }
  }

  // ---------------------------------------------------------------------------
  // Main results
  // ---------------------------------------------------------------------------

  function BoundsOf(text: string, fold: Labels): Bounds {
    DefinitionsOf(WithoutCode(text, false), fold).bounds
  }

  /** The bracket at p of the text is not reached by the scan. */
  ghost predicate HiddenIn(text: string, fold: Labels, p: nat) {
    PairsBalance(Body(text, fold));
    Hidden(Body(text, fold), p, Pairs(Body(text, fold)), BoundsOf(text, fold), fold)
  }

  ghost predicate WrittenIn(text: string, fold: Labels, p: nat, l: Link)
    requires p < |Body(text, fold)|
  {
    PairsBalance(Body(text, fold));
    Written(Body(text, fold), p, l, Pairs(Body(text, fold)), BoundsOf(text, fold), fold)
  }

  /** In every text exactly those links are reported that are written at a bracket which is not
      hidden by an earlier one. */
  lemma LinksAreComplete(text: string, fold: Labels, l: Link)
    ensures l in LinksOf(text, fold) <==>
              exists p: nat | p < |Body(text, fold)| :: WrittenIn(text, fold, p, l) && !HiddenIn(text, fold, p)
  {
    var t := Body(text, fold);
    PairsBalance(t);
    ScanIsComplete(t, 0, Pairs(t), BoundsOf(text, fold), fold, l);
    forall p: nat | p < |t|
      ensures WrittenIn(text, fold, p, l) <==> Written(t, p, l, Pairs(t), BoundsOf(text, fold), fold)
      ensures HiddenIn(text, fold, p) <==> Hidden(t, p, Pairs(t), BoundsOf(text, fold), fold)
    {
    }
  }

  /** The bracket lies inside no recorded pair. */
  predicate Outermost(pairs: map<nat, nat>, p: nat) {
    forall a | a in pairs :: !(a < p <= pairs[a])
  }

  /** The bracket lies inside no reported link. */
  predicate OutsideLinks(text: string, fold: Labels, p: nat) {
    forall l | l in LinksOf(text, fold) :: !(l.labelStart <= p < l.end)
  }

  lemma OutermostHidden(t: string, p: nat, q: nat, pairs: map<nat, nat>, bounds: Bounds, fold: Labels) returns (l: Link)
    requires ValidPairs(t, pairs) && Outermost(pairs, p) && ShortLabel(pairs, p)
    requires q < p && q < |t| && Hides(t, q, p, pairs, bounds, fold)
    ensures Written(t, q, l, pairs, bounds, fold) && p < l.end
  {
    assert !(q in pairs && p <= pairs[q]);
    if ShortLabel(pairs, q) && HasLongSecond(t, pairs[q], pairs) {
      var second := pairs[q] + 1;
      assert p != second;
      assert !(second < p <= pairs[second]);
    }
    l :| Written(t, q, l, pairs, bounds, fold) && p < l.end;
  }

  lemma OutermostIsSeen(t: string, p: nat, pairs: map<nat, nat>, bounds: Bounds, fold: Labels)
    requires ValidPairs(t, pairs) && Outermost(pairs, p) && ShortLabel(pairs, p)
    requires forall l | l in LinksFrom(t, 0, pairs, bounds, fold) :: !(l.labelStart <= p < l.end)
    ensures !Hidden(t, p, pairs, bounds, fold)
  {
    if Hidden(t, p, pairs, bounds, fold) {
      var q: nat :| q < p && q < |t| && Hides(t, q, p, pairs, bounds, fold) && !Hidden(t, q, pairs, bounds, fold);
      var l := OutermostHidden(t, p, q, pairs, bounds, fold);
      ScanIsComplete(t, 0, pairs, bounds, fold, l);
      assert false;
    }
  }

  /** A paired bracket with a short label that is inside no other pair and no reported link is
      always reached: there a link is reported exactly if one is written. */
  lemma OutermostIsReached(text: string, fold: Labels, p: nat, l: Link)
    requires p < |Body(text, fold)| && ShortLabel(Pairs(Body(text, fold)), p)
    requires Outermost(Pairs(Body(text, fold)), p) && OutsideLinks(text, fold, p)
    ensures !HiddenIn(text, fold, p)
    ensures WrittenIn(text, fold, p, l) ==> l in LinksOf(text, fold)
  {
    PairsBalance(Body(text, fold));
    OutermostIsSeen(Body(text, fold), p, Pairs(Body(text, fold)), BoundsOf(text, fold), fold);
    LinksAreComplete(text, fold, l);
  }

  /** Not so inside a label: a bracket that is reached, and is no link itself, hides every link
      written in its short label. */
  lemma LabelsHide(t: string, o: nat, p: nat, pairs: map<nat, nat>, bounds: Bounds, fold: Labels)
    requires o < p < |t| && ValidPairs(t, pairs) && ShortLabel(pairs, o) && p <= pairs[o]
    requires !Hidden(t, o, pairs, bounds, fold)
    ensures Hidden(t, p, pairs, bounds, fold)
  {
    assert Hides(t, o, p, pairs, bounds, fold);
  }

  /** For example, the link in a bracketed phrase is not reported. */
  lemma PhraseHidesItsLink(fold: Labels)
    ensures
      var t, pairs, l := "[a [b](c) d]", map[0 := 11, 3 := 5], Link(3, 9, 7, 8, Inline, 4, 5);
      && ValidPairs(t, pairs)
      && Written(t, 3, l, pairs, map[], fold)
      && LinksFrom(t, 0, pairs, map[], fold) == []
  {
    var t, pairs, l := "[a [b](c) d]", map[0 := 11, 3 := 5], Link(3, 9, 7, 8, Inline, 4, 5);
    assert Depth(t, 7, 8) == 0;
    assert PlainSpan(t, 7, 8, 12);
    assert SpacesTo(t, 7, 7, 12) && SpacesTo(t, 8, 8, 12);
    assert InlineParts(t, l, 7, 8);
    assert LinkAt(t, 0, pairs, map[], fold) == Nothing(12);
  }

  // ---------------------------------------------------------------------------
  // What evidence prose masks
  // ---------------------------------------------------------------------------

  /** The result of EvidenceProse. */
  function Evidence(text: string, fold: Labels): string {
    Painted(WithoutExamples(text, false), Excluded(text, fold))
  }

  lemma ReportedIsMasked(text: string, fold: Labels, l: Link, i: nat)
    requires l in LinksOf(text, fold) && l.start <= i < l.end && i < |Evidence(text, fold)|
    ensures Evidence(text, fold)[i] == Blank(WithoutExamples(text, false)[i])
  {
    var links := LinksOf(text, fold);
    var j :| 0 <= j < |links| && links[j] == l;
    assert Excluded(text, fold)[j] == Span(l.start, l.end);
  }

  predicate PlainLabel(name: string) {
    |name| <= MAX_LABEL_CHARS && forall c | c in name :: c != '[' && c != ']' && c != '\\'
  }

  predicate PlainTarget(target: string) {
    && 0 < |target| <= MAX_DESTINATION_CHARS
    && forall c | c in target :: !IsSpace(c) && c != '<' && c != '(' && c != ')' && c != '\\'
  }

  lemma {:induction false} LabelCloses(t: string, i: nat, close: nat)
    requires i <= close < |t| && t[close] == ']'
    requires forall j | i <= j < close :: t[j] != '[' && t[j] != ']' && t[j] != '\\'
    ensures Closer(t, i, 1) == Some(close)
    decreases close - i
  {
    if i < close {
      LabelCloses(t, i + 1, close);
    }
  }

  lemma {:induction false} FlatDepth(t: string, s: nat, e: nat)
    requires s <= e <= |t| && forall j | s <= j < e :: t[j] != '(' && t[j] != ')'
    ensures Depth(t, s, e) == 0
    decreases e
  {
    if s < e {
      FlatDepth(t, s, e - 1);
    }
  }

  lemma TargetSpan(t: string, s: nat, e: nat)
    requires s < e < |t| && e - s <= MAX_DESTINATION_CHARS && t[e] == ')' && t[e - 1] != '\\'
    requires forall j | s <= j < e :: !IsSpace(t[j]) && t[j] != '<' && t[j] != '(' && t[j] != ')'
    ensures DestinationSpan(t, s, |t|, s, e, e)
  {
    forall i | s <= i <= e
      ensures Depth(t, s, i) == 0
    {
      FlatDepth(t, s, i);
    }
  }

  /** Where "[name](target)" stands at p of the text in which links are looked for. */
  predicate StandsAt(t: string, p: nat, name: string, target: string) {
    && p + |name| + |target| + 4 <= |t| && t[p] == '['
    && t[p + 1..p + 1 + |name|] == name
    && t[p + |name| + 1] == ']' && t[p + |name| + 2] == '('
    && t[p + |name| + 3..p + |name| + 3 + |target|] == target
    && t[p + |name| + |target| + 3] == ')'
  }

  lemma PlainIsWritten(t: string, p: nat, name: string, target: string, pairs: map<nat, nat>, bounds: Bounds, fold: Labels)
    returns (l: Link)
    requires ValidPairs(t, pairs) && PlainLabel(name) && PlainTarget(target) && StandsAt(t, p, name, target)
    requires p in pairs && pairs[p] == p + |name| + 1
    ensures Written(t, p, l, pairs, bounds, fold)
    ensures l.start <= p && l.end == p + |name| + |target| + 4
    ensures l.destinationStart == p + |name| + 3 && l.destinationEnd == l.end - 1
  {
    var close := p + |name| + 1;
    var s, e := close + 2, close + 2 + |target|;
    l := Link(StartOf(t, p), e + 1, s, e, if StartOf(t, p) < p then Image else Inline, p + 1, close);
    forall j | s <= j < e
      ensures t[j] in target
    {
      assert t[j] == t[s..e][j - s];
    }
    assert t[s] in target && t[e - 1] in target;
    TargetSpan(t, s, e);
    assert SpacesTo(t, s, s, |t|);
    assert SpacesTo(t, e, e, Min(|t|, e + MAX_DESTINATION_CHARS));
    assert InlineParts(t, l, s, e);
  }

  lemma PlainIsPaired(t: string, p: nat, name: string, target: string)
    requires PlainLabel(name) && StandsAt(t, p, name, target) && !Escaped(t, p) && !Crowded(t, p + |name| + 1)
    ensures p in Pairs(t) && Pairs(t)[p] == p + |name| + 1
  {
    var close := p + |name| + 1;
    forall j | p + 1 <= j < close
      ensures t[j] in name
    {
      assert t[j] == t[p + 1..close][j - p - 1];
    }
    LabelCloses(t, p + 1, close);
    PairsAreExact(t, p, close);
  }

  lemma PlainIsReported(text: string, fold: Labels, p: nat, name: string, target: string) returns (l: Link)
    requires PlainLabel(name) && PlainTarget(target) && StandsAt(Body(text, fold), p, name, target)
    requires !Escaped(Body(text, fold), p) && !Crowded(Body(text, fold), p + |name| + 1)
    requires Outermost(Pairs(Body(text, fold)), p) && OutsideLinks(text, fold, p)
    ensures l in LinksOf(text, fold)
    ensures l.start <= p && l.end == p + |name| + |target| + 4
    ensures l.destinationStart == p + |name| + 3 && l.destinationEnd == l.end - 1
  {
    var t := Body(text, fold);
    PlainIsPaired(t, p, name, target);
    PairsBalance(t);
    l := PlainIsWritten(t, p, name, target, Pairs(t), BoundsOf(text, fold), fold);
    OutermostIsReached(text, fold, p, l);
  }

  /** Every plain "[name](target)" outside examples, code and definitions, in no other brackets, in
      no other link and in no stretch of more than 32 open brackets, is masked as a whole. */
  lemma PlainLinkIsMasked(text: string, fold: Labels, p: nat, name: string, target: string, i: nat)
    requires PlainLabel(name) && PlainTarget(target) && StandsAt(Body(text, fold), p, name, target)
    requires !Escaped(Body(text, fold), p) && !Crowded(Body(text, fold), p + |name| + 1)
    requires Outermost(Pairs(Body(text, fold)), p) && OutsideLinks(text, fold, p)
    requires p <= i < p + |name| + |target| + 4
    ensures i < |text| && |Evidence(text, fold)| == |text| == |WithoutExamples(text, false)|
    ensures Evidence(text, fold)[i] == Blank(WithoutExamples(text, false)[i])
  {
    var l := PlainIsReported(text, fold, p, name, target);
    BodyLengthIs(text, fold);
    WithoutExamplesMasks(text, false);
    ReportedIsMasked(text, fold, l, i);
  }
}
