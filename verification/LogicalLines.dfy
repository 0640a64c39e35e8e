/** What logical_lines of packaging/distro_pam.py reads, stated on the physical lines: where each
    one stops, which ones run on, and the words the whole run gives. */
module LogicalLineShapes {
  import opened Common
  import opened DistroPam
  import opened PythonText

  // ---------------------------------------------------------------------------
  // One physical line
  // ---------------------------------------------------------------------------

  predicate Fill(c: char) {
    c == ' ' || c == '\t' || c == '\n'
  }

  predicate Hollow(s: string) {
    forall i | 0 <= i < |s| :: Fill(s[i])
  }

  /** A comment starts here, or a backslash with nothing but blanks after it. */
  predicate Stop(p: string, e: nat)
    requires e < |p|
  {
    p[e] == '#' || (p[e] == '\\' && Hollow(p[e + 1..]))
  }

  /** The first such place, or the end of the line. */
  predicate StopsAt(p: string, e: nat) {
    e <= |p| && (e < |p| ==> Stop(p, e)) && forall i | 0 <= i < e :: !Stop(p, i)
  }

  predicate RunsOn(p: string, e: nat) {
    e < |p| && p[e] == '\\'
  }

  lemma {:induction false} TrimEndIs(s: string, e: nat)
    requires e <= |s| && Hollow(s[e..]) && (e > 0 ==> !Fill(s[e - 1]))
    ensures TrimEnd(s) == s[..e]
  {
    if e == |s| {
      assert s[..e] == s;
    } else {
      var front := s[..|s| - 1];
      assert s[|s| - 1] == s[e..][|s| - 1 - e];
      assert front[e..] == s[e..][..|s| - 1 - e];
      assert front[..e] == s[..e];
      TrimEndIs(front, e);
    }
  }

  /** The last character that is no blank. */
  lemma {:induction false} LastFull(s: string) returns (e: nat)
    ensures e <= |s| && Hollow(s[e..]) && (e > 0 ==> !Fill(s[e - 1]))
  {
    if s == [] || !Fill(s[|s| - 1]) {
      e := |s|;
    } else {
      e := LastFull(s[..|s| - 1]);
      assert forall i | 0 <= i < |s[e..]| :: s[e..][i] == s[e + i];
      assert forall i | e <= i < |s| - 1 :: s[i] == s[..|s| - 1][e..][i - e];
    }
  }

  /** A line with a mark: it is continued, and the text before the mark is kept. */
  lemma MarkIs(p: string, m: nat)
    requires m < |p| && p[m] == '\\' && Hollow(p[m + 1..])
    ensures Continued(p) && Unmarked(p) == p[..m] + [' ']
  {
    TrimEndIs(p, m + 1);
    assert p[..m + 1][..m] == p[..m];
  }

  lemma MarkIsNeeded(p: string) returns (m: nat)
    requires Continued(p)
    ensures m < |p| && p[m] == '\\' && Hollow(p[m + 1..])
  {
    var e := LastFull(p);
    TrimEndIs(p, e);
    m := e - 1;
  }

  lemma {:induction false} FindIs(s: string, c: char, n: nat)
    requires n <= |s| && (n < |s| ==> s[n] == c) && c !in s[..n]
    ensures Find(s, c) == n
  {
    assert forall j | 0 <= j < n :: s[j] == s[..n][j];
  }

  lemma StopAvoids(p: string, e: nat)
    requires StopsAt(p, e)
    ensures '#' !in p[..e]
  {
    assert forall j | 0 <= j < e :: p[..e][j] == p[j] && !Stop(p, j);
  }

  /** The line runs on exactly at a mark outside a comment. */
  lemma LineMeans(p: string, e: nat)
    requires StopsAt(p, e)
    ensures Joins(p) <==> RunsOn(p, e)
    ensures Piece(p) == TrimStart(if RunsOn(p, e) then p[..e] + [' '] else p[..e])
  {
    StopAvoids(p, e);
    if RunsOn(p, e) {
      MarkIs(p, e);
      FindIs(Unmarked(p), '#', |Unmarked(p)|);
      assert Unmarked(p)[..|Unmarked(p)|] == Unmarked(p);
    } else if Continued(p) {
      var m := MarkIsNeeded(p);
      MarkIs(p, m);
      assert Stop(p, m) && e < m;
      assert Unmarked(p)[e] == '#' && Unmarked(p)[..e] == p[..e];
      FindIs(Unmarked(p), '#', e);
    } else {
      FindIs(p, '#', e);
    }
  }

  // ---------------------------------------------------------------------------
  // Words of a run
  // ---------------------------------------------------------------------------

  lemma {:induction false} TrimStartWords(s: string)
    ensures Words(TrimStart(s)) == Words(s)
  {
    if s != [] && IsBlank(s[0]) {
      TrimStartWords(s[1..]);
    }
  }

  lemma {:induction false} WordStops(a: string, c: char, b: string)
    requires IsSpace(c)
    ensures Word(a + [c] + b) == Word(a)
  {
    if a != [] {
      assert (a + [c] + b)[1..] == a[1..] + [c] + b;
      WordStops(a[1..], c, b);
    }
  }

  /** A space ends a word. */
  lemma {:induction false} WordsApart(a: string, c: char, b: string)
    requires IsSpace(c)
    ensures Words(a + [c] + b) == Words(a) + Words(b)
    decreases |a|
  {
    var s := a + [c] + b;
    if a == [] {
      assert s == [c] + b && s[1..] == b;
    } else if IsSpace(a[0]) {
      assert s[1..] == a[1..] + [c] + b;
      WordsApart(a[1..], c, b);
    } else {
      WordStops(a, c, b);
      var w := Word(a);
      assert s[|w|..] == a[|w|..] + [c] + b;
      WordsApart(a[|w|..], c, b);
      assert Words(a) == [w] + Words(a[|w|..]);
    }
  }

  /** Nothing is pending, or a space ends it. */
  predicate Pending(s: string) {
    s == [] || s[|s| - 1] == ' '
  }

  lemma PendingWords(pending: string, s: string)
    requires Pending(pending)
    ensures Words(pending + s) == Words(pending) + Words(s)
  {
    if pending == [] {
      assert pending + s == s;
      assert Words(pending) + Words(s) == Words(s);
    } else {
      SpaceEnds(pending[..|pending| - 1], s);
      assert pending == pending[..|pending| - 1] + [' '];
    }
  }

  lemma SpaceEnds(a: string, s: string)
    ensures Words(a + [' '] + s) == Words(a + [' ']) + Words(s)
    ensures Words(a + [' ']) == Words(a)
  {
    WordsApart(a, ' ', s);
    WordsApart(a, ' ', []);
    assert a + [' '] + [] == a + [' '];
    assert Words(a) + [] == Words(a);
  }

  lemma {:induction false} TrimStartEnds(s: string)
    requires Pending(s)
    ensures Pending(TrimStart(s))
  {
    if s != [] && IsBlank(s[0]) {
      TrimStartEnds(s[1..]);
    }
  }

  predicate Stops(lines: seq<string>, ends: seq<nat>) {
    |lines| == |ends| && forall i | 0 <= i < |lines| :: StopsAt(lines[i], ends[i])
  }

  /** The words of all the lines, each up to where it stops. */
  function Gathered(lines: seq<string>, ends: seq<nat>): seq<string>
    requires Stops(lines, ends)
  {
    if lines == [] then [] else Words(lines[0][..ends[0]]) + Gathered(lines[1..], ends[1..])
  }

  predicate AllRunOn(lines: seq<string>, ends: seq<nat>)
    requires |lines| == |ends|
  {
    forall i | 0 <= i < |lines| :: RunsOn(lines[i], ends[i])
  }

  lemma PieceWords(p: string, e: nat)
    requires StopsAt(p, e)
    ensures Words(Piece(p)) == Words(p[..e])
    ensures RunsOn(p, e) ==> Pending(Piece(p))
  {
    LineMeans(p, e);
    if RunsOn(p, e) {
      var s := p[..e] + [' '];
      TrimStartWords(s);
      TrimStartEnds(s);
      assert s == p[..e] + [' '] + [];
      WordsApart(p[..e], ' ', []);
    } else {
      TrimStartWords(p[..e]);
    }
  }

  lemma PendingPlus(a: string, b: string)
    requires Pending(a) && Pending(b)
    ensures Pending(a + b)
  {
    if b == [] {
      assert a + b == a;
    } else {
      assert (a + b)[|a + b| - 1] == b[|b| - 1];
    }
  }

  lemma JoinedPending(pending: string, p: string, e: nat, ws: seq<string>) returns (after: string)
    requires Pending(pending) && StopsAt(p, e) && RunsOn(p, e) && Words(pending) == ws
    ensures Pending(after) && after == pending + Piece(p)
    ensures Words(after) == ws + Words(p[..e])
  {
    PieceWords(p, e);
    PendingWords(pending, Piece(p));
    PendingPlus(pending, Piece(p));
    after := pending + Piece(p);
  }

  /** The logical line of these words, if there are any, before the others. */
  function Given(ws: seq<string>, rest: Option<seq<string>>): Option<seq<string>> {
    Prefixed(if ws == [] then [] else [Spaced(ws)], rest)
  }

  lemma LastGives(last: string, e: nat, rest: seq<string>, pending: string, ws: seq<string>)
    requires StopsAt(last, e) && !RunsOn(last, e) && Pending(pending) && Words(pending) == ws
    ensures Logical([last] + rest, pending) == Given(ws + Words(last[..e]), Logical(rest, []))
  {
    var all := [last] + rest;
    assert all[0] == last && all[1..] == rest;
    LineMeans(last, e);
    PieceWords(last, e);
    PendingWords(pending, Piece(last));
    SpacedChars(Words(pending + Piece(last)));
    LogicalStep(all, pending);
  }

  lemma PlusRegroups(a: seq<string>, b: seq<string>, c: seq<string>)
    ensures a + b + c == a + (b + c)
  {
  }

  lemma GatheredStep(lines: seq<string>, ends: seq<nat>, ws: seq<string>, more: seq<string>)
    requires Stops(lines, ends) && AllRunOn(lines, ends) && lines != []
    requires Stops(lines[1..], ends[1..]) && more == ws + Words(lines[0][..ends[0]]) + Gathered(lines[1..], ends[1..])
    ensures more == ws + Gathered(lines, ends)
  {
    var first, others := Words(lines[0][..ends[0]]), Gathered(lines[1..], ends[1..]);
    assert Gathered(lines, ends) == first + others;
    PlusRegroups(ws, first, others);
  }

  lemma HeadRunsOn(lines: seq<string>, ends: seq<nat>)
    requires Stops(lines, ends) && AllRunOn(lines, ends) && lines != []
    ensures StopsAt(lines[0], ends[0]) && RunsOn(lines[0], ends[0])
    ensures Stops(lines[1..], ends[1..]) && AllRunOn(lines[1..], ends[1..])
  {
  }

  lemma LineRunsOn(line: string, e: nat, lines: seq<string>, pending: string)
    requires lines != [] && lines[0] == line && StopsAt(line, e) && RunsOn(line, e)
    ensures Logical(lines, pending) == Logical(lines[1..], pending + Piece(line))
  {
    LineMeans(line, e);
  }

  lemma FirstOfBoth(lines: seq<string>, tail: seq<string>)
    requires lines != []
    ensures (lines + tail)[0] == lines[0] && (lines + tail)[1..] == lines[1..] + tail
  {
  }

  lemma StepThrough(lines: seq<string>, ends: seq<nat>, tail: seq<string>, pending: string, ws: seq<string>)
      returns (next: string)
    requires Stops(lines, ends) && AllRunOn(lines, ends) && lines != [] && Pending(pending) && Words(pending) == ws
    ensures Stops(lines[1..], ends[1..]) && AllRunOn(lines[1..], ends[1..])
    ensures Logical(lines + tail, pending) == Logical(lines[1..] + tail, next)
    ensures Pending(next) && Words(next) == ws + Words(lines[0][..ends[0]])
  {
    HeadRunsOn(lines, ends);
    next := JoinedPending(pending, lines[0], ends[0], ws);
    FirstOfBoth(lines, tail);
    LineRunsOn(lines[0], ends[0], lines + tail, pending);
  }

  lemma {:induction false} RunFrom(lines: seq<string>, ends: seq<nat>, tail: seq<string>, pending: string, ws: seq<string>)
      returns (after: string)
    requires Stops(lines, ends) && AllRunOn(lines, ends) && Pending(pending) && Words(pending) == ws
    ensures Logical(lines + tail, pending) == Logical(tail, after)
    ensures Pending(after) && Words(after) == ws + Gathered(lines, ends)
    decreases |lines|
  {
    if lines == [] {
      assert lines + tail == tail && ws + [] == ws;
      after := pending;
    } else {
      var next := StepThrough(lines, ends, tail, pending, ws);
      after := RunFrom(lines[1..], ends[1..], tail, next, Words(next));
      GatheredStep(lines, ends, ws, Words(after));
    }
  }

  /** Lines that run on and the first that does not give one logical line: the words of all of them
      up to their comments and marks, in order, one space apart; none without a word. */
  lemma RunIsOneLine(lines: seq<string>, ends: seq<nat>, last: string, e: nat, rest: seq<string>)
    requires Stops(lines, ends) && AllRunOn(lines, ends) && StopsAt(last, e) && !RunsOn(last, e)
    ensures
      var ws := Gathered(lines, ends) + Words(last[..e]);
      Logical(lines + ([last] + rest), []) == Prefixed(if ws == [] then [] else [Spaced(ws)], Logical(rest, []))
  {
    var pending := RunFrom(lines, ends, [last] + rest, [], []);
    assert [] + Gathered(lines, ends) == Gathered(lines, ends);
    LastGives(last, e, rest, pending, Gathered(lines, ends));
  }

  // ---------------------------------------------------------------------------
  // A run without an end
  // ---------------------------------------------------------------------------

  predicate Blank(s: string) {
    forall i | 0 <= i < |s| :: IsBlank(s[i])
  }

  lemma {:induction false} TrimStartIsEmpty(s: string)
    ensures TrimStart(s) == [] <==> Blank(s)
  {
    if s != [] && IsBlank(s[0]) {
      TrimStartIsEmpty(s[1..]);
      assert forall i | 1 <= i < |s| :: s[i] == s[1..][i - 1];
      assert forall i | 0 <= i < |s| - 1 :: s[1..][i] == s[i + 1];
    }
  }

  lemma PieceIsEmpty(p: string, e: nat)
    requires StopsAt(p, e) && RunsOn(p, e)
    ensures Piece(p) == [] <==> Blank(p[..e])
  {
    LineMeans(p, e);
    var s := p[..e] + [' '];
    TrimStartIsEmpty(s);
    assert forall i | 0 <= i < e :: s[i] == p[..e][i];
  }

  lemma {:induction false} OpenRun(lines: seq<string>, ends: seq<nat>, pending: string)
    requires Stops(lines, ends) && AllRunOn(lines, ends)
    ensures Logical(lines, pending).Some? <==> pending == [] && forall i | 0 <= i < |lines| :: Blank(lines[i][..ends[i]])
    decreases |lines|
  {
    if lines != [] {
      LineMeans(lines[0], ends[0]);
      PieceIsEmpty(lines[0], ends[0]);
      OpenRun(lines[1..], ends[1..], pending + Piece(lines[0]));
      assert forall i | 1 <= i < |lines| :: lines[i] == lines[1..][i - 1] && ends[i] == ends[1..][i - 1];
      assert forall i | 0 <= i < |lines| - 1 :: lines[1..][i] == lines[i + 1] && ends[1..][i] == ends[i + 1];
    }
  }

  /** Lines that run on to the end of the file are refused exactly when one of them has content. */
  lemma OpenRunIsRefused(lines: seq<string>, ends: seq<nat>)
    requires Stops(lines, ends) && AllRunOn(lines, ends)
    ensures Logical(lines, []).None? <==> exists i | 0 <= i < |lines| :: !Blank(lines[i][..ends[i]])
  {
    OpenRun(lines, ends, []);
  }

  /** Every line stops somewhere, so the two cases above cover every text. */
  lemma {:induction false} EveryLineStops(p: string, from: nat) returns (e: nat)
    requires from <= |p| && forall i | 0 <= i < from :: !Stop(p, i)
    ensures StopsAt(p, e)
    decreases |p| - from
  {
    if from == |p| || Stop(p, from) {
      e := from;
    } else {
      e := EveryLineStops(p, from + 1);
    }
  }
}
