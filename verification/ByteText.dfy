/** Bytes as characters below 256, and the parts of Python's bytes methods the models use:
    strip, splitlines(keepends=True), partition, and strict UTF-8 decoding. */
module ByteText {
  predicate IsSpace(c: char) {
    c == ' ' || ('\t' <= c <= '\r')
  }

  predicate AllSpace(s: string) {
    forall i | 0 <= i < |s| :: IsSpace(s[i])
  }

  function LStrip(s: string): string {
    if s != [] && IsSpace(s[0]) then LStrip(s[1..]) else s
  }

  function RStrip(s: string): string {
    if s != [] && IsSpace(s[|s| - 1]) then RStrip(s[..|s| - 1]) else s
  }

  function Strip(s: string): string {
    RStrip(LStrip(s))
  }

  lemma {:induction false} LStripFacts(s: string)
    ensures var r := LStrip(s);
            && |r| <= |s| && s[|s| - |r|..] == r && AllSpace(s[..|s| - |r|])
            && (r != [] ==> !IsSpace(r[0]))
  {
    if s != [] && IsSpace(s[0]) {
      LStripFacts(s[1..]);
      var r := LStrip(s);
      assert s[..|s| - |r|] == [s[0]] + s[1..][..|s| - 1 - |r|];
    }
  }

  lemma {:induction false} RStripFacts(s: string)
    ensures var r := RStrip(s);
            && |r| <= |s| && s[..|r|] == r && AllSpace(s[|r|..])
            && (r != [] ==> !IsSpace(r[|r| - 1]))
  {
    if s != [] && IsSpace(s[|s| - 1]) {
      RStripFacts(s[..|s| - 1]);
      var r := RStrip(s);
      assert s[|r|..] == s[..|s| - 1][|r|..] + [s[|s| - 1]];
    }
  }

  lemma {:induction false} AllBlank(s: string)
    requires AllSpace(s)
    ensures LStrip(s) == []
  {
    if s != [] {
      AllBlank(s[1..]);
    }
  }

  /** Stripping removes exactly the blank margins. */
  lemma StripMargins(pre: string, core: string, post: string)
    requires AllSpace(pre) && AllSpace(post)
    requires core != [] && !IsSpace(core[0]) && !IsSpace(core[|core| - 1])
    ensures LStrip(pre + core + post) == core + post
    ensures Strip(pre + core + post) == core
  {
    LStripMargin(pre, core + post);
    assert pre + core + post == pre + (core + post);
    RStripMargin(core, post);
  }

  lemma {:induction false} LStripMargin(pre: string, rest: string)
    requires AllSpace(pre) && rest != [] && !IsSpace(rest[0])
    ensures LStrip(pre + rest) == rest
  {
    if pre == [] {
      assert pre + rest == rest;
    } else {
      assert (pre + rest)[1..] == pre[1..] + rest;
      LStripMargin(pre[1..], rest);
    }
  }

  lemma {:induction false} RStripMargin(core: string, post: string)
    requires AllSpace(post) && core != [] && !IsSpace(core[|core| - 1])
    ensures RStrip(core + post) == core
  {
    if post == [] {
      assert core + post == core;
    } else {
      assert (core + post)[..|core + post| - 1] == core + post[..|post| - 1];
      RStripMargin(core, post[..|post| - 1]);
    }
  }

  /** The first position of c, or the length. */
  function Find(s: string, c: char): nat {
    if s == [] || s[0] == c then 0 else 1 + Find(s[1..], c)
  }

  lemma {:induction false} FindFacts(s: string, c: char)
    ensures var i := Find(s, c);
            i <= |s| && (i < |s| ==> s[i] == c) && forall j | 0 <= j < i :: s[j] != c
  {
    if s != [] && s[0] != c {
      FindFacts(s[1..], c);
    }
  }

  /** Only the text up to the first c decides where it is. */
  lemma {:induction false} FindPrefix(s: string, t: string, c: char)
    requires c in s
    ensures Find(s, c) < |s|
    ensures s[..Find(s, c) + 1] <= t ==> Find(t, c) == Find(s, c)
  {
    if s[0] != c {
      FindPrefix(s[1..], if t == [] then [] else t[1..], c);
      var i := Find(s[1..], c);
      if s[..i + 2] <= t {
        assert s[1..][..i + 1] == s[..i + 2][1..];
        assert t[1..][..i + 1] == t[..i + 2][1..];
      }
    }
  }

  // ---------------------------------------------------------------------------
  // Lines
  // ---------------------------------------------------------------------------

  /** The length of the first line with its terminator: \n, \r\n or \r. */
  function LineLength(s: string): (n: nat)
    requires s != []
    ensures 0 < n <= |s|
  {
    if s[0] == '\n' then 1
    else if s[0] == '\r' then if |s| > 1 && s[1] == '\n' then 2 else 1
    else if |s| == 1 then 1
    else 1 + LineLength(s[1..])
  }

  /** One line: no break before its end, except that \r\n may end it. */
  predicate IsLine(l: string) {
    && l != []
    && forall j | 0 <= j < |l| - 1 ::
         l[j] != '\n' && (l[j] == '\r' ==> j == |l| - 2 && l[|l| - 1] == '\n')
  }

  predicate EndsLine(l: string) {
    l != [] && (l[|l| - 1] == '\r' || l[|l| - 1] == '\n')
  }

  /** A line may be followed by this text without growing into it. */
  predicate EndsBefore(l: string, rest: string) {
    rest == [] || (EndsLine(l) && !(l[|l| - 1] == '\r' && rest[0] == '\n'))
  }

  /** The text may be cut here without changing how it splits into lines. */
  predicate Clean(pre: string, rest: string) {
    pre == [] || EndsBefore(pre, rest)
  }

  lemma {:induction false} LineLengthIs(l: string, rest: string)
    requires IsLine(l) && EndsBefore(l, rest)
    ensures LineLength(l + rest) == |l|
  {
    if |l| > 1 && l[0] != '\r' {
      assert (l + rest)[1..] == l[1..] + rest;
      LineLengthIs(l[1..], rest);
    }
  }

  lemma {:induction false} FirstLine(s: string)
    requires s != []
    ensures IsLine(s[..LineLength(s)]) && EndsBefore(s[..LineLength(s)], s[LineLength(s)..])
  {
    var n := LineLength(s);
    if s[0] != '\n' && s[0] != '\r' && |s| > 1 {
      FirstLine(s[1..]);
      var l := s[..n];
      assert l[1..] == s[1..][..n - 1];
      assert forall j | 1 <= j < |l| :: l[j] == l[1..][j - 1];
    }
  }

  lemma Assoc(a: string, b: string, c: string)
    ensures a + b + c == a + (b + c)
    ensures (a + b + c)[..|a|] == a && (a + b + c)[|a|..] == b + c
  {
  }

  lemma TailEnds(l: string, tail: string, rest: string)
    requires l != [] && EndsBefore(l, tail) && Clean(l + tail, rest)
    ensures EndsBefore(l, tail + rest) && Clean(tail, rest)
  {
    if tail == [] {
      assert l + tail == l && tail + rest == rest;
    } else {
      assert (l + tail)[|l + tail| - 1] == tail[|tail| - 1];
    }
  }

  /** What follows a clean cut does not change the first line before it. */
  lemma FirstLineOf(l: string, tail: string, rest: string)
    requires l + tail != [] && Clean(l + tail, rest) && |l| == LineLength(l + tail)
    ensures LineLength(l + tail + rest) == |l| && Clean(tail, rest)
    ensures (l + tail + rest)[..|l|] == l && (l + tail + rest)[|l|..] == tail + rest
    ensures (l + tail)[..|l|] == l && (l + tail)[|l|..] == tail
  {
    FirstLine(l + tail);
    Assoc([], l, tail);
    Assoc(l, tail, rest);
    assert (l + tail)[..|l|] == l && (l + tail)[|l|..] == tail;
    TailEnds(l, tail, rest);
    LineLengthIs(l, tail + rest);
  }

  // ---------------------------------------------------------------------------
  // UTF-8 (RFC 3629, section 4)
  // ---------------------------------------------------------------------------

  predicate Tail(s: string, k: nat, low: int, high: int) {
    k < |s| && low <= s[k] as int <= high
  }

  /** The length of the first encoded character, or 0 when there is none. */
  function Unit(s: string): (n: nat)
    ensures n <= |s|
  {
    if s == [] then 0
    else
      var b := s[0] as int;
      if b < 0x80 then 1
      else if 0xC2 <= b <= 0xDF then if Tail(s, 1, 0x80, 0xBF) then 2 else 0
      else if 0xE0 <= b <= 0xEF then
        if Tail(s, 1, if b == 0xE0 then 0xA0 else 0x80, if b == 0xED then 0x9F else 0xBF)
           && Tail(s, 2, 0x80, 0xBF) then 3 else 0
      else if 0xF0 <= b <= 0xF4 then
        if Tail(s, 1, if b == 0xF0 then 0x90 else 0x80, if b == 0xF4 then 0x8F else 0xBF)
           && Tail(s, 2, 0x80, 0xBF) && Tail(s, 3, 0x80, 0xBF) then 4 else 0
      else 0
  }

  predicate Utf8(s: string) {
    s == [] || (Unit(s) > 0 && Utf8(s[Unit(s)..]))
  }

  lemma {:induction false} Utf8Concat(a: string, b: string)
    requires Utf8(a) && Utf8(b)
    ensures Utf8(a + b)
  {
    if a == [] {
      assert a + b == b;
    } else {
      var n := Unit(a);
      assert Unit(a + b) == n;
      assert (a + b)[n..] == a[n..] + b;
      Utf8Concat(a[n..], b);
    }
  }

  /** A text may be cut before any ASCII character. */
  lemma {:induction false} Utf8Cut(s: string, i: nat)
    requires Utf8(s) && i <= |s| && (i < |s| ==> s[i] as int < 0x80)
    ensures Utf8(s[..i]) && Utf8(s[i..])
    decreases |s|
  {
    if i == 0 {
      assert s[0..] == s;
    } else {
      var n := Unit(s);
      assert forall k | 1 <= k < n :: 0x80 <= s[k] as int;
      Utf8Cut(s[n..], i - n);
      assert s[n..][i - n..] == s[i..];
      assert s[n..][..i - n] == s[..i][n..];
      assert Unit(s[..i]) == n;
    }
  }

  lemma Utf8Ascii(s: string)
    requires forall k | 0 <= k < |s| :: s[k] as int < 0x80
    ensures Utf8(s)
  {
  }
}
