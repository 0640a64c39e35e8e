/** Which lines of tools/document_checks.py are examples and which characters are comments, said
    of the whole text and apart from the scans. */
module ExampleShapes {
  import opened Common
  import opened PythonText
  import opened CodeSpans

  // ---------------------------------------------------------------------------
  // Fences
  // ---------------------------------------------------------------------------

  predicate All(s: string, c: char) {
    forall i | 0 <= i < |s| :: s[i] == c
  }

  /** A fence line: at most three spaces, at least three marks and no more of them, and the text
      up to the newline. */
  ghost predicate IsFence(line: string, fence: Fence, info: string) {
    exists margin: string, marks: string, rest: string ::
      line == margin + (marks + (info + rest)) && Fenced(margin, marks, info, rest, fence)
  }

  predicate Fenced(margin: string, marks: string, info: string, rest: string, fence: Fence) {
    && |margin| <= 3 && All(margin, ' ')
    && 3 <= |marks| == fence.length && All(marks, fence.mark) && (fence.mark == '`' || fence.mark == '~')
    && '\n' !in info && (rest != [] ==> rest[0] == '\n')
    && (info + rest != [] ==> (info + rest)[0] != fence.mark)
  }

  lemma {:induction false} RunOf(a: string, c: char, b: string)
    requires All(a, c) && (b != [] ==> b[0] != c)
    ensures Run(a + b, c) == |a| && (a + b)[|a|..] == b
  {
    if a == [] {
      assert a + b == b;
    } else {
      assert (a + b)[1..] == a[1..] + b;
      RunOf(a[1..], c, b);
    }
  }

  lemma RunSplits(s: string, c: char)
    ensures var n := Run(s, c);
            s == s[..n] + s[n..] && All(s[..n], c) && (s[n..] != [] ==> s[n..][0] != c)
  {
  }

  lemma {:induction false} FindOf(a: string, c: char, b: string)
    requires c !in a && (b != [] ==> b[0] == c)
    ensures Find(a + b, c) == |a| && (a + b)[..|a|] == a
  {
    if a == [] {
      assert a + b == b;
    } else {
      assert (a + b)[1..] == a[1..] + b;
      FindOf(a[1..], c, b);
    }
  }

  lemma FindSplits(s: string, c: char)
    ensures var n := Find(s, c);
            s == s[..n] + s[n..] && c !in s[..n] && (s[n..] != [] ==> s[n..][0] == c)
  {
  }

  lemma FenceIsRead(line: string, margin: string, marks: string, info: string, rest: string, fence: Fence)
    requires line == margin + (marks + (info + rest)) && Fenced(margin, marks, info, rest, fence)
    ensures FenceOf(line) == Some((fence, info))
  {
    var tail := info + rest;
    var body := marks + tail;
    assert body[0] == marks[0];
    RunOf(margin, ' ', body);
    RunOf(marks, fence.mark, tail);
    FindOf(info, '\n', rest);
  }

  lemma BodyIsFence(margin: string, body: string)
    requires |margin| <= 3 && All(margin, ' ') && body != [] && (body[0] == '`' || body[0] == '~')
    requires Run(body, body[0]) >= 3
    ensures var n := Run(body, body[0]);
            IsFence(margin + body, Fence(body[0], n), Until(body[n..], '\n'))
  {
    var n := Run(body, body[0]);
    RunSplits(body, body[0]);
    var tail := body[n..];
    var m := Find(tail, '\n');
    FindSplits(tail, '\n');
    assert Fenced(margin, body[..n], tail[..m], tail[m..], Fence(body[0], n));
  }

  lemma FenceIsFound(line: string)
    requires FenceOf(line).Some?
    ensures IsFence(line, FenceOf(line).value.0, FenceOf(line).value.1)
  {
    var indent := Run(line, ' ');
    RunSplits(line, ' ');
    BodyIsFence(line[..indent], line[indent..]);
  }

  lemma FenceIsExact(line: string, fence: Fence, info: string)
    ensures FenceOf(line) == Some((fence, info)) <==> IsFence(line, fence, info)
  {
    if FenceOf(line).Some? {
      FenceIsFound(line);
    }
    if margin: string, marks: string, rest: string :|
        line == margin + (marks + (info + rest)) && Fenced(margin, marks, info, rest, fence) {
      FenceIsRead(line, margin, marks, info, rest, fence);
    }
  }

  /** The line can open a block with this fence: no backtick follows a fence of backticks. */
  ghost predicate OpensWith(line: string, fence: Fence, legacy: bool) {
    exists info: string :: IsFence(line, fence, info) && (legacy || fence.mark == '~' || '`' !in info)
  }

  /** The line closes such a block: as many of its marks or more, and only white space. */
  ghost predicate ClosesBlock(line: string, fence: Fence) {
    exists closing: Fence, info: string ::
      IsFence(line, closing, info) && closing.mark == fence.mark && closing.length >= fence.length && AllSpace(info)
  }

  lemma OpensIsExact(line: string, fence: Fence, legacy: bool)
    ensures OpensWith(line, fence, legacy) <==> Opens(line, legacy) && FenceOf(line).value.0 == fence
    ensures Opens(line, legacy) ==> OpensWith(line, FenceOf(line).value.0, legacy)
  {
    if info: string :| IsFence(line, fence, info) && (legacy || fence.mark == '~' || '`' !in info) {
      FenceIsExact(line, fence, info);
      var margin: string, marks: string, rest: string :|
        line == margin + (marks + (info + rest)) && Fenced(margin, marks, info, rest, fence);
    }
    if Opens(line, legacy) {
      FenceIsFound(line);
    }
  }

  lemma ClosesIsExact(line: string, fence: Fence)
    ensures ClosesBlock(line, fence) <==> Closes(line, fence)
  {
    if closing: Fence, info: string :|
        IsFence(line, closing, info) && closing.mark == fence.mark && closing.length >= fence.length && AllSpace(info) {
      FenceIsExact(line, closing, info);
    }
    if Closes(line, fence) {
      FenceIsFound(line);
    }
  }

  // ---------------------------------------------------------------------------
  // Blocks
  // ---------------------------------------------------------------------------

  /** A block begins at line j: it can open one, and no earlier block is still open there. */
  ghost predicate BlockAt(lines: seq<string>, j: nat, legacy: bool)
    decreases j, 1
  {
    && j < |lines| && (exists fence: Fence :: OpensWith(lines[j], fence, legacy))
    && !InBlock(lines, j, legacy)
  }

  /** No line between j and k closes the block of line j. */
  ghost predicate StillOpen(lines: seq<string>, j: nat, k: nat, legacy: bool)
    requires j < |lines| && k <= |lines|
  {
    forall fence: Fence, i | OpensWith(lines[j], fence, legacy) && j < i < k :: !ClosesBlock(lines[i], fence)
  }

  ghost predicate InBlock(lines: seq<string>, k: nat, legacy: bool)
    decreases k, 0
  {
    exists j: nat | j < k && j < |lines| && k <= |lines| :: BlockAt(lines, j, legacy) && StillOpen(lines, j, k, legacy)
  }

  /** The line begins a block, lies in one (its closing line included), or is indented. */
  ghost predicate IsExample(lines: seq<string>, k: nat, legacy: bool)
    requires k < |lines|
  {
    || BlockAt(lines, k, legacy) || InBlock(lines, k, legacy)
    || (!legacy && ("    " <= lines[k] || "\t" <= lines[k]))
  }

  /** The lines from k on with exactly the examples masked. */
  ghost function Marked(lines: seq<string>, k: nat, legacy: bool): string
    requires k <= |lines|
    decreases |lines| - k
  {
    if k == |lines| then []
    else (if IsExample(lines, k, legacy) then Mask(lines[k]) else lines[k]) + Marked(lines, k + 1, legacy)
  }

  /** The scan's fence before line k is that of the block still open there, if any. */
  ghost predicate FenceAt(lines: seq<string>, k: nat, fence: Option<Fence>, legacy: bool) {
    && k <= |lines|
    && match fence
       case None => !InBlock(lines, k, legacy)
       case Some(f) =>
         exists j: nat | j < k :: BlockAt(lines, j, legacy) && StillOpen(lines, j, k, legacy) && OpensWith(lines[j], f, legacy)
  }

  lemma FenceIsUnique(line: string, f: Fence, g: Fence, legacy: bool)
    requires OpensWith(line, f, legacy) && OpensWith(line, g, legacy)
    ensures f == g
  {
    OpensIsExact(line, f, legacy);
    OpensIsExact(line, g, legacy);
  }

  lemma EarlierHides(lines: seq<string>, i: nat, j: nat, k: nat, legacy: bool)
    requires i < j < k <= |lines| && BlockAt(lines, i, legacy) && StillOpen(lines, i, k, legacy)
    ensures !BlockAt(lines, j, legacy)
  {
    assert StillOpen(lines, i, j, legacy);
  }

  lemma BlockIsUnique(lines: seq<string>, i: nat, j: nat, k: nat, legacy: bool)
    requires i < k <= |lines| && j < k
    requires BlockAt(lines, i, legacy) && StillOpen(lines, i, k, legacy)
    requires BlockAt(lines, j, legacy) && StillOpen(lines, j, k, legacy)
    ensures i == j
  {
    if i < j {
      EarlierHides(lines, i, j, k, legacy);
    } else if j < i {
      EarlierHides(lines, j, i, k, legacy);
    }
  }

  lemma OpenStep(lines: seq<string>, j: nat, k: nat, f: Fence, legacy: bool)
    requires j < k < |lines| && OpensWith(lines[j], f, legacy)
    ensures StillOpen(lines, j, k + 1, legacy) <==> StillOpen(lines, j, k, legacy) && !ClosesBlock(lines[k], f)
  {
    forall g: Fence | OpensWith(lines[j], g, legacy)
      ensures g == f
    {
      FenceIsUnique(lines[j], f, g, legacy);
    }
  }

  /** After the line that closes the one open block, no block is open. */
  lemma ClosedStep(lines: seq<string>, j: nat, k: nat, f: Fence, legacy: bool)
    requires j < k < |lines| && BlockAt(lines, j, legacy) && StillOpen(lines, j, k, legacy)
    requires OpensWith(lines[j], f, legacy) && ClosesBlock(lines[k], f) && !BlockAt(lines, k, legacy)
    ensures !InBlock(lines, k + 1, legacy)
  {
    forall i: nat | i < k + 1 && BlockAt(lines, i, legacy)
      ensures !StillOpen(lines, i, k + 1, legacy)
    {
      if i < k && StillOpen(lines, i, k + 1, legacy) {
        assert StillOpen(lines, i, k, legacy);
        BlockIsUnique(lines, i, j, k, legacy);
        OpenStep(lines, j, k, f, legacy);
        assert false;
      }
    }
  }

  lemma InsideStep(lines: seq<string>, k: nat, f: Fence, legacy: bool)
    requires k < |lines| && FenceAt(lines, k, Some(f), legacy)
    ensures InBlock(lines, k, legacy) && !BlockAt(lines, k, legacy)
    ensures FenceAt(lines, k + 1, if ClosesBlock(lines[k], f) then None else Some(f), legacy)
  {
    var j: nat :| j < k && BlockAt(lines, j, legacy) && StillOpen(lines, j, k, legacy) && OpensWith(lines[j], f, legacy);
    OpenStep(lines, j, k, f, legacy);
    assert InBlock(lines, k, legacy);
    if ClosesBlock(lines[k], f) {
      ClosedStep(lines, j, k, f, legacy);
    }
  }

  lemma OutsideStep(lines: seq<string>, k: nat, legacy: bool)
    requires k < |lines| && FenceAt(lines, k, None, legacy)
    ensures !InBlock(lines, k, legacy)
    ensures forall f: Fence | OpensWith(lines[k], f, legacy) :: FenceAt(lines, k + 1, Some(f), legacy)
    ensures !BlockAt(lines, k, legacy) ==> FenceAt(lines, k + 1, None, legacy)
  {
    forall f: Fence | OpensWith(lines[k], f, legacy)
      ensures FenceAt(lines, k + 1, Some(f), legacy)
    {
      assert BlockAt(lines, k, legacy) && StillOpen(lines, k, k + 1, legacy);
    }
    if InBlock(lines, k + 1, legacy) {
      var i: nat :| i < k + 1 && BlockAt(lines, i, legacy) && StillOpen(lines, i, k + 1, legacy);
      if i < k {
        assert StillOpen(lines, i, k, legacy);
      }
    }
  }

  lemma LineStep(lines: seq<string>, k: nat, fence: Option<Fence>, legacy: bool)
    requires k < |lines| && FenceAt(lines, k, fence, legacy)
    ensures Shown(lines[k], fence, legacy) == if IsExample(lines, k, legacy) then Mask(lines[k]) else lines[k]
    ensures FenceAt(lines, k + 1, NextFence(lines[k], fence, legacy), legacy)
  {
    match fence
    case Some(f) =>
      InsideStep(lines, k, f, legacy);
      ClosesIsExact(lines[k], f);
    case None =>
      OutsideStep(lines, k, legacy);
      if Opens(lines[k], legacy) {
        OpensIsExact(lines[k], FenceOf(lines[k]).value.0, legacy);
      }
      forall f: Fence
        ensures OpensWith(lines[k], f, legacy) ==> Opens(lines[k], legacy)
      {
        OpensIsExact(lines[k], f, legacy);
      }
  }

  lemma ExamplesStep(lines: seq<string>, k: nat, fence: Option<Fence>, legacy: bool)
    requires k < |lines|
    ensures Examples(lines[k..], fence, legacy) ==
            Shown(lines[k], fence, legacy) + Examples(lines[k + 1..], NextFence(lines[k], fence, legacy), legacy)
  {
    assert lines[k..][0] == lines[k] && lines[k..][1..] == lines[k + 1..];
  }

  lemma OneLine(lines: seq<string>, k: nat, fence: Option<Fence>, legacy: bool) returns (next: Option<Fence>)
    requires k < |lines| && FenceAt(lines, k, fence, legacy)
    ensures FenceAt(lines, k + 1, next, legacy)
    ensures Examples(lines[k..], fence, legacy) ==
            (if IsExample(lines, k, legacy) then Mask(lines[k]) else lines[k]) + Examples(lines[k + 1..], next, legacy)
  {
    next := NextFence(lines[k], fence, legacy);
    ExamplesStep(lines, k, fence, legacy);
    LineStep(lines, k, fence, legacy);
  }

  lemma {:induction false} ExamplesFrom(lines: seq<string>, k: nat, fence: Option<Fence>, legacy: bool)
    requires FenceAt(lines, k, fence, legacy)
    ensures Examples(lines[k..], fence, legacy) == Marked(lines, k, legacy)
    decreases |lines| - k
  {
    if k < |lines| {
      var next := OneLine(lines, k, fence, legacy);
      ExamplesFrom(lines, k + 1, next, legacy);
    }
  }

  /** Exactly the example lines are masked: fenced blocks from their opening to their closing line
      and, in the newer grammar, indented lines. */
  lemma ExamplesAreExact(lines: seq<string>, legacy: bool)
    ensures Examples(lines, None, legacy) == Marked(lines, 0, legacy)
  {
    assert lines[0..] == lines;
    ExamplesFrom(lines, 0, None, legacy);
  }

  // ---------------------------------------------------------------------------
  // Comments
  // ---------------------------------------------------------------------------

  predicate StandsAt(s: string, i: nat, mark: string) {
    i + |mark| <= |s| && s[i..i + |mark|] == mark
  }

  /** A comment that opens at a is not over before i: no closing mark ends between. */
  predicate Reaches(s: string, a: nat, i: nat) {
    forall j: nat | a + 4 <= j && j + 3 <= i && j + 3 <= |s| :: !StandsAt(s, j, CLOSE)
  }

  /** A comment opens at a: its mark stands there, outside every earlier comment. */
  ghost predicate CommentAt(s: string, a: nat)
    decreases a, 1
  {
    StandsAt(s, a, OPEN) && !InComment(s, a)
  }

  /** i lies in a comment that opened before. */
  ghost predicate InComment(s: string, i: nat)
    decreases i, 0
  {
    exists a: nat | a < i :: CommentAt(s, a) && Reaches(s, a, i)
  }

  lemma StandsIsPrefix(s: string, i: nat, mark: string)
    requires i <= |s|
    ensures mark <= s[i..] <==> StandsAt(s, i, mark)
  {
    if StandsAt(s, i, mark) {
      assert s[i..][..|mark|] == mark;
    }
    if mark <= s[i..] {
      assert s[i..i + |mark|] == s[i..][..|mark|];
    }
  }

  lemma {:induction false} CommentEnds(s: string, a: nat, p: nat)
    requires a + 4 <= p <= |s|
    requires forall j: nat | a + 4 <= j < p :: !StandsAt(s, j, CLOSE)
    ensures var e := p + CommentLength(s[p..]);
            && p <= e <= |s|
            && (forall i: nat | a < i < e :: Reaches(s, a, i))
            && (e < |s| ==> forall i: nat | e <= i :: !Reaches(s, a, i))
    decreases |s| - p
  {
    if p < |s| {
      StandsIsPrefix(s, p, CLOSE);
      if !StandsAt(s, p, CLOSE) {
        assert s[p..][1..] == s[p + 1..];
        CommentEnds(s, a, p + 1);
      }
    }
  }

  /** No comment that opened before p goes on at p or later. */
  ghost predicate Over(s: string, p: nat) {
    forall a: nat, i: nat | a < p <= i < |s| && CommentAt(s, a) :: !Reaches(s, a, i)
  }

  lemma CommentStep(s: string, p: nat)
    requires p + 4 <= |s| && Over(s, p) && StandsAt(s, p, OPEN)
    ensures var e := p + 4 + CommentLength(s[p + 4..]);
            && p + 4 <= e <= |s| && Over(s, e) && CommentAt(s, p)
            && (forall i: nat | p < i < e :: InComment(s, i))
  {
    var e := p + 4 + CommentLength(s[p + 4..]);
    CommentEnds(s, p, p + 4);
    assert CommentAt(s, p);
    forall i: nat | p < i < e
      ensures InComment(s, i)
    {
    }
    forall a: nat | p < a < e
      ensures !CommentAt(s, a)
    {
      assert InComment(s, a);
    }
  }

  lemma PlainStep(s: string, p: nat)
    requires p < |s| && Over(s, p) && !StandsAt(s, p, OPEN)
    ensures Over(s, p + 1) && !CommentAt(s, p) && !InComment(s, p)
  {
  }

  /** The character at i is part of a comment. */
  ghost predicate Commented(s: string, i: nat) {
    CommentAt(s, i) || InComment(s, i)
  }

  lemma UncommentedOpen(rest: string)
    requires OPEN <= rest
    ensures var n := 4 + CommentLength(rest[4..]);
            && n <= |rest| && |Uncommented(rest)| == n + |Uncommented(rest[n..])|
            && (forall k | 0 <= k < n :: Uncommented(rest)[k] == Blank(rest[k]))
            && (forall k | 0 <= k < |Uncommented(rest[n..])| :: Uncommented(rest)[n + k] == Uncommented(rest[n..])[k])
  {
  }

  lemma UncommentedPlain(rest: string)
    requires rest != [] && !(OPEN <= rest)
    ensures |Uncommented(rest)| == 1 + |Uncommented(rest[1..])| && Uncommented(rest)[0] == rest[0]
    ensures forall k | 0 <= k < |Uncommented(rest[1..])| :: Uncommented(rest)[1 + k] == Uncommented(rest[1..])[k]
  {
  }

  /** One character of the rest from p on, when a comment opens there. */
  lemma OpenCase(s: string, p: nat, e: nat, i: nat)
    requires p + 4 <= |s| && StandsAt(s, p, OPEN) && e == p + 4 + CommentLength(s[p + 4..]) && p <= i < |s|
    requires |Uncommented(s[p..])| == |s| - p && |Uncommented(s[e..])| == |s| - e
    ensures Uncommented(s[p..])[i - p] == if i < e then Blank(s[i]) else Uncommented(s[e..])[i - e]
  {
    var rest := s[p..];
    StandsIsPrefix(s, p, OPEN);
    assert rest[4..] == s[p + 4..];
    UncommentedOpen(rest);
    assert rest[e - p..] == s[e..];
    if i >= e {
      assert Uncommented(rest)[(e - p) + (i - e)] == Uncommented(rest[e - p..])[i - e];
    }
  }

  lemma PlainCase(s: string, p: nat, i: nat)
    requires p <= i < |s| && !StandsAt(s, p, OPEN)
    requires |Uncommented(s[p..])| == |s| - p && |Uncommented(s[p + 1..])| == |s| - (p + 1)
    ensures Uncommented(s[p..])[i - p] == if i == p then s[i] else Uncommented(s[p + 1..])[i - (p + 1)]
  {
    var rest := s[p..];
    StandsIsPrefix(s, p, OPEN);
    UncommentedPlain(rest);
    assert rest[1..] == s[p + 1..];
    if i > p {
      assert Uncommented(rest)[1 + (i - p - 1)] == Uncommented(rest[1..])[i - p - 1];
    }
  }

  lemma SameLength(s: string, p: nat)
    requires p <= |s|
    ensures |Uncommented(s[p..])| == |s| - p
  {
    UncommentedMasks(s[p..]);
  }

  lemma {:induction false} UncommentedFrom(s: string, p: nat, i: nat)
    requires p <= i < |s| && Over(s, p)
    ensures |Uncommented(s[p..])| == |s| - p
    ensures Uncommented(s[p..])[i - p] == if Commented(s, i) then Blank(s[i]) else s[i]
    decreases |s| - p
  {
    SameLength(s, p);
    if StandsAt(s, p, OPEN) {
      var e := p + 4 + CommentLength(s[p + 4..]);
      CommentStep(s, p);
      SameLength(s, e);
      OpenCase(s, p, e, i);
      if i >= e {
        UncommentedFrom(s, e, i);
      }
    } else {
      PlainStep(s, p);
      SameLength(s, p + 1);
      PlainCase(s, p, i);
      if i > p {
        UncommentedFrom(s, p + 1, i);
      }
    }
  }

  /** Exactly the characters of comments are masked: from an opening mark outside earlier comments
      to the first closing mark after it, or to the end of the text. */
  lemma CommentsAreExact(s: string, i: nat)
    requires i < |s|
    ensures |Uncommented(s)| == |s|
    ensures Uncommented(s)[i] == if Commented(s, i) then Blank(s[i]) else s[i]
  {
    assert s[0..] == s;
    UncommentedFrom(s, 0, i);
  }
}
