/** The masking of examples, comments and inline code in tools/document_checks.py. A masked text
    has every character but newlines of the masked parts replaced by a space, so offsets stay. */
module CodeSpans {
  import opened Common
  import opened PythonText

  // ---------------------------------------------------------------------------
  // Masking
  // ---------------------------------------------------------------------------

  function Blank(c: char): char {
    if c == '\n' then c else ' '
  }

  function Mask(s: string): (m: string) {
    seq(|s|, i requires 0 <= i < |s| => Blank(s[i]))
  }

  /** b is a with some characters masked: same length, newlines in the same places. */
  predicate Masks(a: string, b: string) {
    |a| == |b| && forall i | 0 <= i < |a| :: b[i] == a[i] || b[i] == Blank(a[i])
  }

  lemma MaskMasks(a: string)
    ensures Masks(a, Mask(a)) && Masks(a, a)
  {
  }

  lemma MasksConcat(a: string, a': string, b: string, b': string)
    requires Masks(a, a') && Masks(b, b')
    ensures Masks(a + b, a' + b')
  {
  }

  lemma MasksTransitive(a: string, b: string, c: string)
    requires Masks(a, b) && Masks(b, c)
    ensures Masks(a, c)
  {
  }

  // ---------------------------------------------------------------------------
  // Fenced and indented examples
  // ---------------------------------------------------------------------------

  datatype Fence = Fence(mark: char, length: nat)

  function Run(s: string, c: char): (n: nat)
    ensures n <= |s| && (n < |s| ==> s[n] != c) && forall i | 0 <= i < n :: s[i] == c
  {
    if s == [] || s[0] != c then 0 else 1 + Run(s[1..], c)
  }

  /** Up to three spaces, at least three backticks or tildes, and the rest of the line. */
  function FenceOf(line: string): Option<(Fence, string)> {
    var indent := Run(line, ' ');
    var body := line[indent..];
    if indent > 3 || body == [] || (body[0] != '`' && body[0] != '~') || Run(body, body[0]) < 3 then None
    else Some((Fence(body[0], Run(body, body[0])), Until(body[Run(body, body[0])..], '\n')))
  }

  predicate Opens(line: string, legacy: bool) {
    FenceOf(line).Some? && (legacy || !(FenceOf(line).value.0.mark == '`' && '`' in FenceOf(line).value.1))
  }

  predicate Closes(line: string, fence: Fence) {
    && FenceOf(line).Some?
    && FenceOf(line).value.0.mark == fence.mark && FenceOf(line).value.0.length >= fence.length
    && AllSpace(FenceOf(line).value.1)
  }

  predicate Indented(line: string) {
    "    " <= line || "\t" <= line
  }

  /** What becomes of a line inside or outside a fence, and the fence after it. */
  function Shown(line: string, fence: Option<Fence>, legacy: bool): string {
    if fence.Some? || Opens(line, legacy) || (!legacy && Indented(line)) then Mask(line) else line
  }

  function NextFence(line: string, fence: Option<Fence>, legacy: bool): Option<Fence> {
    if fence.Some? then if Closes(line, fence.value) then None else fence
    else if Opens(line, legacy) then Some(FenceOf(line).value.0)
    else None
  }

  function Examples(lines: seq<string>, fence: Option<Fence>, legacy: bool): string
    decreases |lines|
  {
    if lines == [] then []
    else Shown(lines[0], fence, legacy) + Examples(lines[1..], NextFence(lines[0], fence, legacy), legacy)
  }

  const OPEN: string := "<!--"
  const CLOSE: string := "-->"

  /** The length of a comment after its opening: to its end, or all of the text. */
  function CommentLength(s: string): (n: nat)
    ensures n <= |s|
  {
    if s == [] then 0 else if CLOSE <= s then 3 else 1 + CommentLength(s[1..])
  }

  function Uncommented(s: string): string
    decreases |s|
  {
    if s == [] then []
    else if OPEN <= s then
      var n := 4 + CommentLength(s[4..]);
      Mask(s[..n]) + Uncommented(s[n..])
    else [s[0]] + Uncommented(s[1..])
  }

  function WithoutExamples(text: string, legacy: bool): string {
    var masked := Examples(Lines(text), None, legacy);
    if legacy then masked else Uncommented(masked)
  }

  method MaskLine(line: string, fence: Option<Fence>, legacy: bool) returns (part: string, next: Option<Fence>)
    ensures part == Shown(line, fence, legacy) && next == NextFence(line, fence, legacy)
  {
    var found := FenceOf(line);
    part, next := line, fence;
    if fence.Some? {
      part := Mask(line);
      if found.Some? && found.value.0.mark == fence.value.mark && found.value.0.length >= fence.value.length
         && AllSpace(found.value.1) {
        next := None;
      }
    } else if found.Some? && (legacy || !(found.value.0.mark == '`' && '`' in found.value.1)) {
      next := Some(found.value.0);
      part := Mask(line);
    } else if !legacy && Indented(line) {
      part := Mask(line);
    }
  }

  method MaskExamples(text: string, legacy: bool) returns (masked: string)
    ensures masked == Examples(Lines(text), None, legacy)
  {
    var lines := Lines(text);
    var fence: Option<Fence> := None;
    ghost var goal := Examples(lines, None, legacy);
    masked := [];
    while lines != []
      invariant goal == masked + Examples(lines, fence, legacy)
      decreases |lines|
    {
      var part, next := MaskLine(lines[0], fence, legacy);
      Append(masked, part, Examples(lines[1..], next, legacy));
      masked, fence, lines := masked + part, next, lines[1..];
    }
    assert masked + [] == masked;
  }

  lemma Append(a: string, b: string, c: string)
    ensures a + (b + c) == a + b + c
  {
  }

  function Concat(lines: seq<string>): string {
    if lines == [] then [] else lines[0] + Concat(lines[1..])
  }

  lemma {:induction false} ConcatLines(s: string)
    ensures Concat(Lines(s)) == s
  {
    if s != [] {
      ConcatLines(s[LineLength(s)..]);
      assert s == s[..LineLength(s)] + s[LineLength(s)..];
    }
  }

  lemma {:induction false} ExamplesMask(lines: seq<string>, fence: Option<Fence>, legacy: bool)
    ensures Masks(Concat(lines), Examples(lines, fence, legacy))
    decreases |lines|
  {
    if lines != [] {
      var line := lines[0];
      var next := NextFence(line, fence, legacy);
      ExamplesMask(lines[1..], next, legacy);
      MaskMasks(line);
      MasksConcat(line, Mask(line), Concat(lines[1..]), Examples(lines[1..], next, legacy));
      MasksConcat(line, line, Concat(lines[1..]), Examples(lines[1..], next, legacy));
    }
  }

  lemma {:induction false} UncommentedMasks(s: string)
    ensures Masks(s, Uncommented(s))
    decreases |s|
  {
    if s == [] {
    } else if OPEN <= s {
      var n := 4 + CommentLength(s[4..]);
      UncommentedMasks(s[n..]);
      MaskMasks(s[..n]);
      MasksConcat(s[..n], Mask(s[..n]), s[n..], Uncommented(s[n..]));
      assert s == s[..n] + s[n..];
    } else {
      UncommentedMasks(s[1..]);
      MaskMasks([s[0]]);
      MasksConcat([s[0]], [s[0]], s[1..], Uncommented(s[1..]));
      assert s == [s[0]] + s[1..];
    }
  }

  /** Offsets and newlines survive, whatever is an example. */
  lemma WithoutExamplesMasks(text: string, legacy: bool)
    ensures Masks(text, WithoutExamples(text, legacy))
  {
    ConcatLines(text);
    ExamplesMask(Lines(text), None, legacy);
    if !legacy {
      var masked := Examples(Lines(text), None, legacy);
      UncommentedMasks(masked);
      MasksTransitive(text, masked, Uncommented(masked));
    }
  }

  /** No comment opening is left. */
  lemma {:induction false} NoCommentLeft(s: string, i: nat)
    requires i <= |Uncommented(s)|
    ensures !(OPEN <= Uncommented(s)[i..])
    decreases |s|
  {
    if s == [] {
    } else if OPEN <= s {
      var n := 4 + CommentLength(s[4..]);
      if i < n {
        UncommentedMasks(s);
        assert Uncommented(s)[i..][0] == Mask(s[..n])[i];
        assert Mask(s[..n])[i] != '<';
      } else {
        assert Uncommented(s)[i..] == Uncommented(s[n..])[i - n..];
        NoCommentLeft(s[n..], i - n);
      }
    } else if i == 0 {
      UncommentedMasks(s);
    } else {
      assert Uncommented(s)[i..] == Uncommented(s[1..])[i - 1..];
      NoCommentLeft(s[1..], i - 1);
    }
  }

  // ---------------------------------------------------------------------------
  // Runs of backticks
  // ---------------------------------------------------------------------------

  datatype Span = Span(start: nat, end: nat)

  function NextTick(t: string, i: nat): (n: nat)
    requires i <= |t|
    ensures i <= n <= |t| && (n < |t| ==> t[n] == '`') && forall j | i <= j < n :: t[j] != '`'
    decreases |t| - i
  {
    if i == |t| || t[i] == '`' then i else NextTick(t, i + 1)
  }

  function RunEnd(t: string, i: nat): (n: nat)
    requires i <= |t|
    ensures i <= n <= |t| && (n < |t| ==> t[n] != '`') && forall j | i <= j < n :: t[j] == '`'
    decreases |t| - i
  {
    if i == |t| || t[i] != '`' then i else RunEnd(t, i + 1)
  }

  /** The matches of `+ from position i on. */
  function Runs(t: string, i: nat): seq<Span>
    requires i <= |t|
    decreases |t| - i
  {
    var a := NextTick(t, i);
    if a == |t| then [] else [Span(a, RunEnd(t, a + 1))] + Runs(t, RunEnd(t, a + 1))
  }

  /** Spans in order, from position i to n. */
  predicate Ordered(spans: seq<Span>, i: nat, n: nat) {
    && (forall k | 0 <= k < |spans| :: i <= spans[k].start < spans[k].end <= n)
    && (forall j, k | 0 <= j < k < |spans| :: spans[j].end <= spans[k].start)
  }

  predicate Within(spans: seq<Span>, i: int) {
    exists k | 0 <= k < |spans| :: spans[k].start <= i < spans[k].end
  }

  lemma WithinCons(s: Span, rest: seq<Span>, i: int)
    ensures Within([s] + rest, i) <==> s.start <= i < s.end || Within(rest, i)
  {
    var all := [s] + rest;
    if Within(rest, i) {
      var k :| 0 <= k < |rest| && rest[k].start <= i < rest[k].end;
      assert all[k + 1].start <= i < all[k + 1].end;
    }
    if s.start <= i < s.end {
      assert all[0].start <= i < all[0].end;
    }
  }

  lemma OrderedCons(s: Span, rest: seq<Span>, i: nat, n: nat)
    requires i <= s.start < s.end <= n && Ordered(rest, s.end, n)
    ensures Ordered([s] + rest, i, n)
  {
  }

  lemma {:induction false} RunsAreOrdered(t: string, i: nat)
    requires i <= |t|
    ensures Ordered(Runs(t, i), i, |t|)
    decreases |t| - i
  {
    var a := NextTick(t, i);
    if a < |t| {
      var b := RunEnd(t, a + 1);
      RunsAreOrdered(t, b);
      OrderedCons(Span(a, b), Runs(t, b), i, |t|);
    }
  }

  /** A run is as long as possible. */
  predicate Maximal(t: string, s: Span) {
    && s.start < s.end <= |t|
    && (s.start > 0 ==> t[s.start - 1] != '`') && (s.end < |t| ==> t[s.end] != '`')
  }

  lemma {:induction false} RunsAreLong(t: string, i: nat, k: nat)
    requires i <= |t| && (0 < i < |t| && t[i] == '`' ==> t[i - 1] != '`')
    requires k < |Runs(t, i)|
    ensures Maximal(t, Runs(t, i)[k])
    decreases k
  {
    var b := RunEnd(t, NextTick(t, i) + 1);
    if k > 0 {
      assert Runs(t, i)[k] == Runs(t, b)[k - 1];
      RunsAreLong(t, b, k - 1);
    }
  }

  lemma {:induction false} RunsAreTicks(t: string, i: nat, j: nat)
    requires i <= j < |t|
    ensures t[j] == '`' <==> Within(Runs(t, i), j)
    decreases |t| - i
  {
    var a := NextTick(t, i);
    if a < |t| {
      var b := RunEnd(t, a + 1);
      WithinCons(Span(a, b), Runs(t, b), j);
      RunsAreOrdered(t, b);
      if j >= b {
        RunsAreTicks(t, b, j);
      }
    }
  }

  /** The runs are in order, as long as possible, and exactly the backticks. */
  lemma RunsAreMaximal(t: string)
    ensures Ordered(Runs(t, 0), 0, |t|)
    ensures forall k | 0 <= k < |Runs(t, 0)| :: Maximal(t, Runs(t, 0)[k])
    ensures forall j | 0 <= j < |t| :: t[j] == '`' <==> Within(Runs(t, 0), j)
  {
    RunsAreOrdered(t, 0);
    forall k | 0 <= k < |Runs(t, 0)| {
      RunsAreLong(t, 0, k);
    }
    forall j | 0 <= j < |t|
      ensures t[j] == '`' <==> Within(Runs(t, 0), j)
    {
      RunsAreTicks(t, 0, j);
    }
  }

  function Size(s: Span): int {
    s.end - s.start
  }

  /** The nearest run from index k on with this length. */
  function Nearest(runs: seq<Span>, k: nat, size: int): (r: Option<nat>)
    requires k <= |runs|
    ensures r.Some? ==> k <= r.value < |runs| && Size(runs[r.value]) == size
    decreases |runs| - k
  {
    if k == |runs| then None else if Size(runs[k]) == size then Some(k) else Nearest(runs, k + 1, size)
  }

  /** An odd number of backslashes precedes the position. */
  predicate Escaped(t: string, position: nat) {
    0 < position <= |t| && t[position - 1] == '\\' && !Escaped(t, position - 1)
  }

  /** The rule: the next run outside a span that is not escaped opens one if a later run has its
      length, and the nearest such run closes it. */
  function Chosen(t: string, runs: seq<Span>, k: nat, legacy: bool): seq<Span>
    requires k <= |runs|
    decreases |runs| - k
  {
    if k == |runs| then []
    else if !legacy && Escaped(t, runs[k].start) then Chosen(t, runs, k + 1, legacy)
    else
      var closing := Nearest(runs, k + 1, Size(runs[k]));
      if closing.None? then Chosen(t, runs, k + 1, legacy)
      else [Span(runs[k].start, runs[closing.value].end)] + Chosen(t, runs, closing.value + 1, legacy)
  }

  function CodeIn(t: string, legacy: bool): seq<Span> {
    Chosen(t, Runs(t, 0), 0, legacy)
  }

  /** The text with exactly the characters of the spans masked. */
  function Painted(t: string, spans: seq<Span>): string {
    seq(|t|, i requires 0 <= i < |t| => if Within(spans, i) then Blank(t[i]) else t[i])
  }

  function WithoutCode(text: string, legacy: bool): string {
    var examples := WithoutExamples(text, legacy);
    var masked := Painted(examples, CodeIn(examples, legacy));
    if legacy then WithoutExamples(masked, false) else masked
  }

  predicate StartFrom(spans: seq<Span>, n: nat) {
    forall k | 0 <= k < |spans| :: n <= spans[k].start
  }

  predicate EndBy(spans: seq<Span>, n: nat) {
    forall k | 0 <= k < |spans| :: spans[k].end <= n
  }

  lemma RunsLater(runs: seq<Span>, k: nat, from: nat, n: nat)
    requires k < |runs| && Ordered(runs, 0, n) && from <= runs[k].start
    ensures from <= runs[k].start < runs[k].end <= n
    ensures k + 1 < |runs| ==> runs[k].end <= runs[k + 1].start && from <= runs[k + 1].start
    ensures forall j | k <= j < |runs| :: runs[k].start < runs[j].end <= n && from <= runs[j].start
  {
  }

  lemma {:induction false} ChosenStarts(t: string, runs: seq<Span>, k: nat, from: nat, legacy: bool)
    requires k <= |runs| && Ordered(runs, 0, |t|) && (k < |runs| ==> from <= runs[k].start)
    ensures StartFrom(Chosen(t, runs, k, legacy), from)
    decreases |runs| - k
  {
    if k < |runs| {
      var closing := Nearest(runs, k + 1, Size(runs[k]));
      RunsLater(runs, k, from, |t|);
      if (!legacy && Escaped(t, runs[k].start)) || closing.None? {
        ChosenStarts(t, runs, k + 1, from, legacy);
      } else {
        ChosenStarts(t, runs, closing.value + 1, from, legacy);
      }
    }
  }

  // ---------------------------------------------------------------------------
  // The linear algorithm
  // ---------------------------------------------------------------------------

  method FindRuns(t: string) returns (runs: seq<Span>)
    ensures runs == Runs(t, 0)
  {
    runs := [];
    var i := 0;
    while i < |t|
      invariant i <= |t|
      invariant Runs(t, 0) == runs + Runs(t, i)
    {
      var a := NextTick(t, i);
      if a == |t| {
        assert runs + [] == runs;
        return;
      }
      var b := RunEnd(t, a + 1);
      assert runs + ([Span(a, b)] + Runs(t, b)) == runs + [Span(a, b)] + Runs(t, b);
      runs, i := runs + [Span(a, b)], b;
    }
    assert runs + [] == runs;
  }

  function At(next: map<int, nat>, size: int): Option<nat> {
    if size in next then Some(next[size]) else None
  }

  predicate ClosingsOf(runs: seq<Span>, closings: map<nat, Option<nat>>, from: nat) {
    forall k: nat | from <= k < |runs| :: k in closings && closings[k] == Nearest(runs, k + 1, Size(runs[k]))
  }

  /** The next run of every length, from this index on. */
  ghost predicate Tabled(runs: seq<Span>, next: map<int, nat>, index: nat)
    requires index <= |runs|
  {
    forall size: int :: At(next, size) == Nearest(runs, index, size)
  }

  lemma TabledStep(runs: seq<Span>, next: map<int, nat>, index: nat)
    requires index < |runs| && Tabled(runs, next, index + 1)
    ensures Tabled(runs, next[Size(runs[index]) := index], index)
  {
    forall size: int
      ensures At(next[Size(runs[index]) := index], size) == Nearest(runs, index, size)
    {
      assert At(next, size) == Nearest(runs, index + 1, size);
    }
  }

  lemma ClosingsStep(runs: seq<Span>, closings: map<nat, Option<nat>>, index: nat)
    requires index < |runs| && ClosingsOf(runs, closings, index + 1)
    ensures ClosingsOf(runs, closings[index := Nearest(runs, index + 1, Size(runs[index]))], index)
  {
    var more := closings[index := Nearest(runs, index + 1, Size(runs[index]))];
    forall k: nat | index <= k < |runs|
      ensures k in more && more[k] == Nearest(runs, k + 1, Size(runs[k]))
    {
      assert k > index ==> k in closings && more[k] == closings[k];
    }
  }

  /** From right to left: where each run would be closed. */
  method FindClosings(runs: seq<Span>) returns (closings: map<nat, Option<nat>>)
    ensures ClosingsOf(runs, closings, 0)
  {
    var next: map<int, nat> := map[];
    closings := map[];
    var index: nat := |runs|;
    while index > 0
      invariant index <= |runs|
      invariant Tabled(runs, next, index)
      invariant ClosingsOf(runs, closings, index)
    {
      index := index - 1;
      var size := Size(runs[index]);
      TabledStep(runs, next, index);
      ClosingsStep(runs, closings, index);
      closings := closings[index := At(next, size)];
      next := next[size := index];
    }
  }

  lemma WithinConcat(a: seq<Span>, b: seq<Span>, i: int)
    ensures Within(a + b, i) <==> Within(a, i) || Within(b, i)
  {
    if Within(a, i) {
      var k :| 0 <= k < |a| && a[k].start <= i < a[k].end;
      assert (a + b)[k].start <= i < (a + b)[k].end;
    }
    if Within(b, i) {
      var k :| 0 <= k < |b| && b[k].start <= i < b[k].end;
      assert (a + b)[|a| + k].start <= i < (a + b)[|a| + k].end;
    }
  }

  /** Between the spans before and after, only s is masked. */
  lemma PaintedPart(t: string, before: seq<Span>, s: Span, after: seq<Span>, position: nat)
    requires EndBy(before, position) && position <= s.start <= s.end <= |t| && StartFrom(after, s.end)
    ensures
      Painted(t, before + ([s] + after))[position..s.end] == t[position..s.start] + Mask(t[s.start..s.end])
  {
    var part := Painted(t, before + ([s] + after))[position..s.end];
    forall i | 0 <= i < |part|
      ensures part[i] == (t[position..s.start] + Mask(t[s.start..s.end]))[i]
    {
      WithinConcat(before, [s] + after, position + i);
      WithinCons(s, after, position + i);
    }
  }

  lemma PaintedRest(t: string, before: seq<Span>, position: nat)
    requires EndBy(before, position) && position <= |t|
    ensures Painted(t, before)[position..] == t[position..]
  {
  }

  lemma Extend(whole: string, position: nat, end: nat, part: string)
    requires position <= end <= |whole| && whole[position..end] == part
    ensures whole[..end] == whole[..position] + part
  {
  }

  lemma ChosenStep(t: string, runs: seq<Span>, k: nat, legacy: bool)
    requires k < |runs|
    ensures
      var closing := Nearest(runs, k + 1, Size(runs[k]));
      Chosen(t, runs, k, legacy) ==
      if (!legacy && Escaped(t, runs[k].start)) || closing.None? then Chosen(t, runs, k + 1, legacy)
      else [Span(runs[k].start, runs[closing.value].end)] + Chosen(t, runs, closing.value + 1, legacy)
  {
  }

  /** The span that run k opens fits between what was masked before and what comes after. */
  lemma SpanFits(runs: seq<Span>, k: nat, closing: nat, before: seq<Span>, position: nat, n: nat)
    requires k < closing < |runs| && Ordered(runs, 0, n) && EndBy(before, position) && position <= runs[k].start
    ensures position <= runs[k].start < runs[closing].end <= n
    ensures EndBy(before + [Span(runs[k].start, runs[closing].end)], runs[closing].end)
    ensures closing + 1 < |runs| ==> runs[closing].end <= runs[closing + 1].start
  {
  }

  /** One opening: what it adds to the masked text. */
  lemma PaintedStep(t: string, runs: seq<Span>, before: seq<Span>, s: Span, next: nat, position: nat, legacy: bool)
    requires Ordered(runs, 0, |t|) && next <= |runs| && EndBy(before, position)
    requires position <= s.start <= s.end <= |t| && (next < |runs| ==> s.end <= runs[next].start)
    ensures
      var all := before + [s] + Chosen(t, runs, next, legacy);
      Painted(t, all)[position..s.end] == t[position..s.start] + Mask(t[s.start..s.end])
  {
    var after := Chosen(t, runs, next, legacy);
    ChosenStarts(t, runs, next, s.end, legacy);
    PaintedPart(t, before, s, after, position);
    assert before + ([s] + after) == before + [s] + after;
  }

  /** The loop's state: the text up to position is masked as it must be, where `all` are the spans. */
  ghost predicate Painting(t: string, runs: seq<Span>, legacy: bool, all: seq<Span>, index: nat, position: nat,
                           before: seq<Span>, masked: string)
  {
    && index <= |runs| && position <= |t| && (index < |runs| ==> position <= runs[index].start)
    && EndBy(before, position)
    && all == before + Chosen(t, runs, index, legacy)
    && masked == Painted(t, all)[..position]
  }

  lemma PaintSkip(t: string, runs: seq<Span>, legacy: bool, all: seq<Span>, index: nat, position: nat,
                  before: seq<Span>, masked: string)
    requires Ordered(runs, 0, |t|) && Painting(t, runs, legacy, all, index, position, before, masked) && index < |runs|
    requires (!legacy && Escaped(t, runs[index].start)) || Nearest(runs, index + 1, Size(runs[index])).None?
    ensures Painting(t, runs, legacy, all, index + 1, position, before, masked)
  {
    RunsLater(runs, index, position, |t|);
    ChosenStep(t, runs, index, legacy);
  }

  lemma PaintMore(t: string, runs: seq<Span>, legacy: bool, all: seq<Span>, before: seq<Span>, s: Span, next: nat,
                  position: nat, masked: string)
    requires Ordered(runs, 0, |t|) && next <= |runs| && EndBy(before, position)
    requires position <= s.start <= s.end <= |t| && (next < |runs| ==> s.end <= runs[next].start)
    requires all == before + [s] + Chosen(t, runs, next, legacy) && masked == Painted(t, all)[..position]
    ensures masked + (t[position..s.start] + Mask(t[s.start..s.end])) == Painted(t, all)[..s.end]
  {
    PaintedStep(t, runs, before, s, next, position, legacy);
    Extend(Painted(t, all), position, s.end, t[position..s.start] + Mask(t[s.start..s.end]));
  }

  lemma SpanChosen(t: string, runs: seq<Span>, legacy: bool, all: seq<Span>, index: nat, before: seq<Span>,
                   closing: nat, s: Span)
    requires index < |runs| && all == before + Chosen(t, runs, index, legacy)
    requires (legacy || !Escaped(t, runs[index].start)) && Nearest(runs, index + 1, Size(runs[index])) == Some(closing)
    requires s == Span(runs[index].start, runs[closing].end)
    ensures all == before + [s] + Chosen(t, runs, closing + 1, legacy)
  {
    ChosenStep(t, runs, index, legacy);
    Regroup(before, s, Chosen(t, runs, closing + 1, legacy));
  }

  lemma PaintSpan(t: string, runs: seq<Span>, legacy: bool, all: seq<Span>, index: nat, position: nat, before: seq<Span>,
                  masked: string)
    requires Ordered(runs, 0, |t|) && Painting(t, runs, legacy, all, index, position, before, masked) && index < |runs|
    requires (legacy || !Escaped(t, runs[index].start)) && Nearest(runs, index + 1, Size(runs[index])).Some?
    ensures
      var closing := Nearest(runs, index + 1, Size(runs[index])).value;
      var s := Span(runs[index].start, runs[closing].end);
      && position <= s.start <= s.end <= |t|
      && Painting(t, runs, legacy, all, closing + 1, s.end, before + [s],
                  masked + (t[position..s.start] + Mask(t[s.start..s.end])))
  {
    var closing := Nearest(runs, index + 1, Size(runs[index])).value;
    var s := Span(runs[index].start, runs[closing].end);
    SpanChosen(t, runs, legacy, all, index, before, closing, s);
    SpanFits(runs, index, closing, before, position, |t|);
    PaintMore(t, runs, legacy, all, before, s, closing + 1, position, masked);
  }

  lemma PaintEnd(t: string, runs: seq<Span>, legacy: bool, all: seq<Span>, position: nat, before: seq<Span>, masked: string)
    requires Painting(t, runs, legacy, all, |runs|, position, before, masked)
    ensures position <= |t| && masked + t[position..] == Painted(t, all)
  {
    assert before + [] == before;
    PaintedRest(t, before, position);
    Extend(Painted(t, before), position, |t|, t[position..]);
  }

  method PaintSpans(t: string, runs: seq<Span>, closings: map<nat, Option<nat>>, legacy: bool)
    returns (masked: string)
    requires Ordered(runs, 0, |t|) && ClosingsOf(runs, closings, 0)
    ensures masked == Painted(t, Chosen(t, runs, 0, legacy))
  {
    ghost var all, before: seq<Span> := Chosen(t, runs, 0, legacy), [];
    masked := [];
    var position: nat, index: nat := 0, 0;
    while index < |runs|
      invariant Painting(t, runs, legacy, all, index, position, before, masked)
    {
      var opening := runs[index];
      var closing := closings[index];
      if (!legacy && Escaped(t, opening.start)) || closing.None? {
        PaintSkip(t, runs, legacy, all, index, position, before, masked);
        index := index + 1;
      } else {
        PaintSpan(t, runs, legacy, all, index, position, before, masked);
        var end := runs[closing.value].end;
        masked := masked + (t[position..opening.start] + Mask(t[opening.start..end]));
        before := before + [Span(opening.start, end)];
        position, index := end, closing.value + 1;
      }
    }
    PaintEnd(t, runs, legacy, all, position, before, masked);
    masked := masked + t[position..];
  }

  lemma Regroup(before: seq<Span>, s: Span, after: seq<Span>)
    ensures before + ([s] + after) == before + [s] + after
  {
  }

  method MaskCode(text: string, legacy: bool) returns (masked: string)
    ensures masked == WithoutCode(text, legacy)
  {
    var examples := MaskExamples(text, legacy);
    if !legacy {
      examples := Uncommented(examples);
    }
    var runs := FindRuns(examples);
    var closings := FindClosings(runs);
    RunsAreOrdered(examples, 0);
    masked := PaintSpans(examples, runs, closings, legacy);
    if legacy {
      var more := MaskExamples(masked, false);
      masked := Uncommented(more);
    }
  }

  // ---------------------------------------------------------------------------
  // Main results
  // ---------------------------------------------------------------------------

  /** Masking code keeps every offset and newline. */
  lemma WithoutCodeMasks(text: string, legacy: bool)
    ensures Masks(text, WithoutCode(text, legacy))
  {
    var examples := WithoutExamples(text, legacy);
    var masked := Painted(examples, CodeIn(examples, legacy));
    WithoutExamplesMasks(text, legacy);
    MasksTransitive(text, examples, masked);
    if legacy {
      WithoutExamplesMasks(masked, false);
      MasksTransitive(text, masked, WithoutExamples(masked, false));
    }
  }

  lemma {:induction false} NearestMeans(runs: seq<Span>, k: nat, size: int)
    requires k <= |runs|
    ensures
      var r := Nearest(runs, k, size);
      forall m | k <= m < (if r.Some? then r.value else |runs|) :: Size(runs[m]) != size
    decreases |runs| - k
  {
    if k < |runs| && Size(runs[k]) != size {
      NearestMeans(runs, k + 1, size);
    }
  }

  /** Run a opens a span that run b closes: equal lengths, not escaped, no closer run of that length. */
  predicate Delimits(t: string, runs: seq<Span>, s: Span, a: nat, b: nat, legacy: bool) {
    && a < b < |runs| && s == Span(runs[a].start, runs[b].end)
    && Size(runs[a]) == Size(runs[b]) && (legacy || !Escaped(t, runs[a].start))
    && forall m | a < m < b :: Size(runs[m]) != Size(runs[a])
  }

  /** Every masked span is delimited by two runs. */
  lemma {:induction false} ChosenAreDelimited(t: string, runs: seq<Span>, k: nat, legacy: bool, j: nat)
    returns (a: nat, b: nat)
    requires k <= |runs| && j < |Chosen(t, runs, k, legacy)|
    ensures k <= a && Delimits(t, runs, Chosen(t, runs, k, legacy)[j], a, b, legacy)
    decreases |runs| - k
  {
    var closing := Nearest(runs, k + 1, Size(runs[k]));
    NearestMeans(runs, k + 1, Size(runs[k]));
    if (!legacy && Escaped(t, runs[k].start)) || closing.None? {
      a, b := ChosenAreDelimited(t, runs, k + 1, legacy, j);
    } else if j == 0 {
      a, b := k, closing.value;
    } else {
      a, b := ChosenAreDelimited(t, runs, closing.value + 1, legacy, j - 1);
    }
  }

  /** A run left visible is escaped or has no later run of its length. */
  lemma {:induction false} UncoveredRunsAreOpen(t: string, runs: seq<Span>, k: nat, legacy: bool, m: nat)
    requires k <= m < |runs| && Ordered(runs, 0, |t|) && !Within(Chosen(t, runs, k, legacy), runs[m].start)
    ensures (!legacy && Escaped(t, runs[m].start)) || Nearest(runs, m + 1, Size(runs[m])).None?
    decreases |runs| - k
  {
    var closing := Nearest(runs, k + 1, Size(runs[k]));
    if (!legacy && Escaped(t, runs[k].start)) || closing.None? {
      if m > k {
        UncoveredRunsAreOpen(t, runs, k + 1, legacy, m);
      }
    } else {
      var s := Span(runs[k].start, runs[closing.value].end);
      WithinCons(s, Chosen(t, runs, closing.value + 1, legacy), runs[m].start);
      assert m > closing.value;
      UncoveredRunsAreOpen(t, runs, closing.value + 1, legacy, m);
    }
  }
}
