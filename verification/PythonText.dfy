/** Characters and lines as Python's str methods see them. */
module PythonText {
  /** str.isspace and the \s class. */
  predicate IsSpace(c: char) {
    || '\t' <= c <= '\r' || '\U{1c}' <= c <= ' ' || c == '\U{85}' || c == '\U{a0}' || c == '\U{1680}'
    || '\U{2000}' <= c <= '\U{200a}' || c == '\U{2028}' || c == '\U{2029}' || c == '\U{202f}'
    || c == '\U{205f}' || c == '\U{3000}'
  }

  /** Where str.splitlines ends a line. */
  predicate IsBreak(c: char) {
    || '\n' <= c <= '\r' || '\U{1c}' <= c <= '\U{1e}' || c == '\U{85}' || c == '\U{2028}' || c == '\U{2029}'
  }

  /** The length of the first line with its terminator; \r\n is one terminator. */
  function LineLength(s: string): (n: nat)
    requires s != []
    ensures 0 < n <= |s|
  {
    if s[0] == '\r' && |s| > 1 && s[1] == '\n' then 2
    else if IsBreak(s[0]) || |s| == 1 then 1
    else 1 + LineLength(s[1..])
  }

  /** str.splitlines(keepends=True). */
  function Lines(s: string): seq<string> {
    if s == [] then [] else [s[..LineLength(s)]] + Lines(s[LineLength(s)..])
  }

  /** A line without breaks, ended by a newline, is the first line. */
  lemma {:induction false} FirstLine(line: string, rest: string)
    requires forall i | 0 <= i < |line| :: !IsBreak(line[i])
    ensures LineLength(line + ['\n'] + rest) == |line| + 1
    ensures Lines(line + ['\n'] + rest) == [line + ['\n']] + Lines(rest)
  {
    var s := line + ['\n'] + rest;
    if line != [] {
      assert s[1..] == line[1..] + ['\n'] + rest;
      FirstLine(line[1..], rest);
    }
    assert s[..|line| + 1] == line + ['\n'] && s[|line| + 1..] == rest;
  }

  /** The first position of c, or the length. */
  function Find(s: string, c: char): (n: nat)
    ensures n <= |s| && (n < |s| ==> s[n] == c) && forall j | 0 <= j < n :: s[j] != c
  {
    if s == [] || s[0] == c then 0 else 1 + Find(s[1..], c)
  }

  lemma {:induction false} FindExactly(a: string, c: char, b: string)
    requires c !in a
    ensures Find(a + [c] + b, c) == |a|
  {
    if a != [] {
      assert (a + [c] + b)[1..] == a[1..] + [c] + b;
      FindExactly(a[1..], c, b);
    }
  }

  /** The text before the first c, all of it if there is none. */
  function Until(s: string, c: char): string {
    s[..Find(s, c)]
  }

  // ---------------------------------------------------------------------------
  // str.split() and ' '.join
  // ---------------------------------------------------------------------------

  predicate IsWord(w: string) {
    w != [] && forall i | 0 <= i < |w| :: !IsSpace(w[i])
  }

  function Word(s: string): (w: string)
    ensures |w| <= |s| && s[..|w|] == w && forall i | 0 <= i < |w| :: !IsSpace(w[i])
  {
    if s == [] || IsSpace(s[0]) then [] else [s[0]] + Word(s[1..])
  }

  function Words(s: string): (ws: seq<string>)
    ensures forall i | 0 <= i < |ws| :: IsWord(ws[i])
    decreases |s|
  {
    if s == [] then []
    else if IsSpace(s[0]) then Words(s[1..])
    else [Word(s)] + Words(s[|Word(s)|..])
  }

  function Spaced(ws: seq<string>): string {
    if ws == [] then []
    else if |ws| == 1 then ws[0]
    else ws[0] + [' '] + Spaced(ws[1..])
  }

  lemma {:induction false} WordExactly(w: string, rest: string)
    requires IsWord(w) && (rest != [] ==> IsSpace(rest[0]))
    ensures Word(w + rest) == w
  {
    if |w| == 1 {
      assert w + rest == [w[0]] + rest;
      assert (w + rest)[1..] == rest;
    } else {
      assert (w + rest)[1..] == w[1..] + rest;
      WordExactly(w[1..], rest);
    }
  }

  predicate AllSpace(s: string) {
    forall i | 0 <= i < |s| :: IsSpace(s[i])
  }

  lemma {:induction false} WordsOfSpace(s: string)
    requires AllSpace(s)
    ensures Words(s) == []
  {
    if s != [] {
      WordsOfSpace(s[1..]);
    }
  }

  lemma SpacedSplit(ws: seq<string>, tail: string)
    requires |ws| > 1
    ensures Spaced(ws) + tail == ws[0] + ([' '] + (Spaced(ws[1..]) + tail))
  {
  }

  lemma WordsCons(w: string, rest: string)
    requires IsWord(w) && (rest != [] ==> IsSpace(rest[0]))
    ensures Words(w + rest) == [w] + Words(rest)
  {
    WordExactly(w, rest);
    assert (w + rest)[|w|..] == rest;
  }

  lemma WordsAfterSpace(rest: string)
    ensures Words([' '] + rest) == Words(rest)
  {
    assert ([' '] + rest)[1..] == rest;
  }

  /** Words come apart again where they were joined. */
  lemma {:induction false} WordsOfSpaced(ws: seq<string>, tail: string)
    requires AllSpace(tail) && forall i | 0 <= i < |ws| :: IsWord(ws[i])
    ensures Words(Spaced(ws) + tail) == ws
  {
    if ws == [] {
      assert Spaced(ws) + tail == tail;
      WordsOfSpace(tail);
    } else if |ws| == 1 {
      WordsOfSpace(tail);
      WordsCons(ws[0], tail);
    } else {
      SpacedSplit(ws, tail);
      WordsOfSpaced(ws[1..], tail);
      WordsAfterSpace(Spaced(ws[1..]) + tail);
      WordsCons(ws[0], [' '] + (Spaced(ws[1..]) + tail));
      assert ws == [ws[0]] + ws[1..];
    }
  }

  /** Every character of joined words is one of theirs or a space. */
  lemma {:induction false} SpacedChars(ws: seq<string>)
    requires forall i | 0 <= i < |ws| :: IsWord(ws[i])
    ensures forall j | 0 <= j < |Spaced(ws)| :: Spaced(ws)[j] == ' ' || !IsSpace(Spaced(ws)[j])
    ensures ws != [] ==> Spaced(ws) != [] && !IsSpace(Spaced(ws)[0]) && !IsSpace(Spaced(ws)[|Spaced(ws)| - 1])
  {
    if |ws| > 1 {
      SpacedChars(ws[1..]);
    }
  }

  lemma {:induction false} WordsAvoid(s: string, c: char)
    requires c !in s && c != ' '
    ensures c !in Spaced(Words(s))
    decreases |s|
  {
    if s == [] {
    } else if IsSpace(s[0]) {
      WordsAvoid(s[1..], c);
    } else {
      var w := Word(s);
      var rest := s[|w|..];
      WordsAvoid(rest, c);
      assert c !in w by {
        assert forall i | 0 <= i < |w| :: w[i] == s[i];
      }
      assert Words(s) == [w] + Words(rest);
      assert Words(s)[1..] == Words(rest);
    }
  }
}
