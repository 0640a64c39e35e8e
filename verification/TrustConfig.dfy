/** The byte edit of packaging/package_activation.py that adds the file source to a debdb-only
    trust selection. The configuration is a list of lines separated by newline characters. */
module TrustConfig {
  import opened ByteText
  import opened Common

  // ---------------------------------------------------------------------------
  // Separated texts
  // ---------------------------------------------------------------------------

  function Split(s: string, c: char): (r: seq<string>)
    ensures r != []
  {
    var i := Find(s, c);
    FindFacts(s, c);
    if i == |s| then [s] else [s[..i]] + Split(s[i + 1..], c)
  }

  function Join(parts: seq<string>, c: char): string
    requires parts != []
  {
    if |parts| == 1 then parts[0] else parts[0] + [c] + Join(parts[1..], c)
  }

  lemma {:induction false} SplitJoin(s: string, c: char)
    ensures Join(Split(s, c), c) == s
    ensures forall i | 0 <= i < |Split(s, c)| :: c !in Split(s, c)[i]
  {
    var i := Find(s, c);
    FindFacts(s, c);
    if i < |s| {
      SplitJoin(s[i + 1..], c);
      assert Split(s, c)[1..] == Split(s[i + 1..], c);
      assert s == s[..i] + [c] + s[i + 1..];
    }
  }

  lemma {:induction false} FindFirst(a: string, b: string, c: char)
    requires c !in a
    ensures Find(a + [c] + b, c) == |a|
  {
    if a != [] {
      assert (a + [c] + b)[1..] == a[1..] + [c] + b;
      FindFirst(a[1..], b, c);
    }
  }

  lemma SplitFirst(a: string, b: string, c: char)
    requires c !in a
    ensures Split(a + [c] + b, c) == [a] + Split(b, c)
  {
    FindFirst(a, b, c);
    var s := a + [c] + b;
    assert s[..|a|] == a && s[|a| + 1..] == b;
  }

  lemma {:induction false} SplitNone(a: string, c: char)
    requires c !in a
    ensures Split(a, c) == [a]
  {
    FindFacts(a, c);
  }

  lemma {:induction false} JoinSplit(parts: seq<string>, c: char)
    requires parts != [] && forall i | 0 <= i < |parts| :: c !in parts[i]
    ensures Split(Join(parts, c), c) == parts
  {
    if |parts| == 1 {
      SplitNone(parts[0], c);
    } else {
      JoinSplit(parts[1..], c);
      SplitFirst(parts[0], Join(parts[1..], c), c);
    }
  }

  /** The text before and after part i. */
  function Before(parts: seq<string>, i: nat, c: char): string
    requires i < |parts|
  {
    if i == 0 then [] else parts[0] + [c] + Before(parts[1..], i - 1, c)
  }

  function After(parts: seq<string>, i: nat, c: char): string
    requires i < |parts|
  {
    if i == |parts| - 1 then [] else [c] + Join(parts[i + 1..], c)
  }

  lemma {:induction false} JoinAround(parts: seq<string>, i: nat, c: char)
    requires i < |parts|
    ensures Join(parts, c) == Before(parts, i, c) + parts[i] + After(parts, i, c)
  {
    if i == 0 {
      assert [] + parts[0] == parts[0];
      if |parts| > 1 {
        Join3(parts[0], [c], Join(parts[1..], c));
      }
    } else {
      JoinAround(parts[1..], i - 1, c);
      assert parts[1..][i..] == parts[i + 1..];
      var b := Before(parts[1..], i - 1, c);
      Join3(parts[0] + [c], b, parts[i]);
      Join3(parts[0] + [c], b + parts[i], After(parts, i, c));
    }
  }

  /** Replacing one part leaves the text before and after it alone. */
  lemma {:induction false} AroundReplaced(parts: seq<string>, i: nat, part: string, c: char)
    requires i < |parts|
    ensures Before(parts[i := part], i, c) == Before(parts, i, c) && After(parts[i := part], i, c) == After(parts, i, c)
  {
    assert parts[i := part][i + 1..] == parts[i + 1..];
    if i > 0 {
      assert parts[i := part][1..] == parts[1..][i - 1 := part];
      AroundReplaced(parts[1..], i - 1, part, c);
    }
  }

  lemma Join3(a: string, b: string, c: string)
    ensures a + b + c == a + (b + c)
  {
  }

  // ---------------------------------------------------------------------------
  // The trust line
  // ---------------------------------------------------------------------------

  predicate IsStop(c: char) {
    c == '\r' || c == '#'
  }

  predicate AllBlank(s: string) {
    forall i | 0 <= i < |s| :: IsBlank(s[i])
  }

  /** The leading blanks. */
  function Margin(s: string): (m: string)
    ensures m <= s && AllBlank(m) && (|m| < |s| ==> !IsBlank(s[|m|]))
  {
    if s == [] || !IsBlank(s[0]) then [] else [s[0]] + Margin(s[1..])
  }

  /** The length up to the first comment or carriage return. */
  function Reach(s: string): (n: nat)
    ensures n <= |s| && (n < |s| ==> IsStop(s[n])) && forall i | 0 <= i < n :: !IsStop(s[i])
  {
    if s == [] || IsStop(s[0]) then 0 else 1 + Reach(s[1..])
  }

  const TRUST: string := "trust"

  /** A trust line: everything up to its value, the value, and what follows the value. */
  datatype Trust = Trust(head: string, value: string, tail: string)

  function Head(p: string, q: string, r: string): string {
    p + TRUST + q + ['='] + r
  }

  datatype Cut = Cut(before: string, after: string)

  /** Blanks and the keyword. */
  function Keyword(line: string): Option<Cut> {
    var p := Margin(line);
    var x := line[|p|..];
    if TRUST <= x then Some(Cut(p, x[5..])) else None
  }

  /** Blanks and an equals sign. */
  function Equals(s: string): Option<Cut> {
    var q := Margin(s);
    var y := s[|q|..];
    if y != [] && y[0] == '=' then Some(Cut(q, y[1..])) else None
  }

  function Parse(line: string): Option<Trust> {
    var word := Keyword(line);
    if word.None? then None
    else
      var equals := Equals(word.value.after);
      if equals.None? then None
      else
        var r := Margin(equals.value.after);
        var v := equals.value.after[|r|..];
        Some(Trust(Head(word.value.before, equals.value.before, r), v[..Reach(v)], v[Reach(v)..]))
  }

  predicate IsTrust(line: string) {
    Parse(line).Some?
  }

  function Stripped(fields: seq<string>): seq<string> {
    if fields == [] then [] else [Strip(fields[0])] + Stripped(fields[1..])
  }

  function Sources(value: string): seq<string> {
    Stripped(Split(value, ','))
  }

  const FILE: string := "file"
  const DEBDB: string := "debdb"
  const BOTH: string := "debdb,file"

  /** The first position where the word occurs, or the length. */
  function FindWord(s: string, word: string): (n: nat)
    ensures n <= |s|
  {
    if s == [] || word <= s then 0 else 1 + FindWord(s[1..], word)
  }

  function ReplaceFirst(s: string, word: string, other: string): string {
    var i := FindWord(s, word);
    if word <= s[i..] then s[..i] + other + s[i + |word|..] else s
  }

  datatype Edit = Unchanged | Changed(line: string) | Unsupported

  function EditLine(line: string): Edit
    requires IsTrust(line)
  {
    var t := Parse(line).value;
    if FILE in Sources(t.value) then Unchanged
    else if Sources(t.value) != [DEBDB] then Unsupported
    else Changed(t.head + (ReplaceFirst(t.value, DEBDB, BOTH) + t.tail))
  }

  /** The lines that match, by position. */
  function Matches(lines: seq<string>): (r: seq<nat>)
    ensures forall k | 0 <= k < |r| :: r[k] < |lines| && IsTrust(lines[r[k]])
  {
    if lines == [] then []
    else
      var last := |lines| - 1;
      Matches(lines[..last]) + (if IsTrust(lines[last]) then [last] else [])
  }

  datatype Result = Ok(contents: string) | Ambiguous | Refused

  function Enabled(contents: string): Result {
    var lines := Split(contents, '\n');
    var matches := Matches(lines);
    if |matches| != 1 then Ambiguous
    else
      match EditLine(lines[matches[0]])
      case Unchanged => Ok(contents)
      case Unsupported => Refused
      case Changed(line) => Ok(Join(lines[matches[0] := line], '\n'))
  }

  // ---------------------------------------------------------------------------
  // The edited line
  // ---------------------------------------------------------------------------

  lemma {:induction false} MarginExactly(s: string, t: string)
    requires AllBlank(s) && (t != [] ==> !IsBlank(t[0]))
    ensures Margin(s + t) == s && (s + t)[|s|..] == t
  {
    if s == [] {
      assert s + t == t;
    } else {
      assert (s + t)[1..] == s[1..] + t;
      MarginExactly(s[1..], t);
    }
  }

  lemma {:induction false} ReachExactly(s: string, t: string)
    requires forall i | 0 <= i < |s| :: !IsStop(s[i])
    requires t != [] ==> IsStop(t[0])
    ensures Reach(s + t) == |s|
  {
    if s == [] {
      assert s + t == t;
    } else {
      assert (s + t)[1..] == s[1..] + t;
      ReachExactly(s[1..], t);
    }
  }

  predicate Proper(value: string, tail: string) {
    && (value + tail != [] ==> !IsBlank((value + tail)[0]))
    && (forall i | 0 <= i < |value| :: !IsStop(value[i]))
    && (tail != [] ==> IsStop(tail[0]))
  }

  lemma HeadRegroups(p: string, q: string, r: string, v: string)
    ensures Head(p, q, r) + v == p + (TRUST + (q + (['='] + (r + v))))
  {
  }

  lemma KeywordExactly(p: string, rest: string)
    requires AllBlank(p)
    ensures Keyword(p + (TRUST + rest)) == Some(Cut(p, rest))
  {
    MarginExactly(p, TRUST + rest);
    assert (TRUST + rest)[5..] == rest;
  }

  lemma EqualsExactly(q: string, rest: string)
    requires AllBlank(q)
    ensures Equals(q + (['='] + rest)) == Some(Cut(q, rest))
  {
    MarginExactly(q, ['='] + rest);
    assert (['='] + rest)[1..] == rest;
  }

  lemma ParseExactly(p: string, q: string, r: string, value: string, tail: string)
    requires AllBlank(p) && AllBlank(q) && AllBlank(r) && Proper(value, tail)
    ensures Parse(Head(p, q, r) + (value + tail)) == Some(Trust(Head(p, q, r), value, tail))
  {
    var v := value + tail;
    HeadRegroups(p, q, r, v);
    KeywordExactly(p, q + (['='] + (r + v)));
    EqualsExactly(q, r + v);
    MarginExactly(r, v);
    ReachExactly(value, tail);
    assert v[..|value|] == value && v[|value|..] == tail;
  }

  lemma KeywordParts(line: string)
    requires Keyword(line).Some?
    ensures AllBlank(Keyword(line).value.before)
    ensures line == Keyword(line).value.before + (TRUST + Keyword(line).value.after)
  {
    var p := Margin(line);
    var x := line[|p|..];
    assert x == TRUST + x[5..];
    assert line == p + x;
  }

  lemma EqualsParts(s: string)
    requires Equals(s).Some?
    ensures AllBlank(Equals(s).value.before)
    ensures s == Equals(s).value.before + (['='] + Equals(s).value.after)
  {
    var q := Margin(s);
    var y := s[|q|..];
    assert y == ['='] + y[1..];
    assert s == q + y;
  }

  lemma MarginCut(z: string)
    ensures z == Margin(z) + z[|Margin(z)|..]
    ensures z[|Margin(z)|..] != [] ==> !IsBlank(z[|Margin(z)|..][0])
  {
  }

  lemma ReachCut(v: string)
    requires v != [] ==> !IsBlank(v[0])
    ensures v == v[..Reach(v)] + v[Reach(v)..] && Proper(v[..Reach(v)], v[Reach(v)..])
  {
    assert v == v[..Reach(v)] + v[Reach(v)..];
  }

  lemma ParseParts(line: string) returns (p: string, q: string, r: string)
    requires IsTrust(line)
    ensures AllBlank(p) && AllBlank(q) && AllBlank(r) && Parse(line).value.head == Head(p, q, r)
    ensures Proper(Parse(line).value.value, Parse(line).value.tail)
    ensures line == Parse(line).value.head + (Parse(line).value.value + Parse(line).value.tail)
  {
    KeywordParts(line);
    var x := Keyword(line).value.after;
    EqualsParts(x);
    var z := Equals(x).value.after;
    p, q, r := Keyword(line).value.before, Equals(x).value.before, Margin(z);
    MarginCut(z);
    ReachCut(z[|r|..]);
    HeadRegroups(p, q, r, z[|r|..]);
  }

  /** Putting another value in a trust line yields a trust line with that value. */
  lemma ParseReplaced(line: string, value: string)
    requires IsTrust(line) && Proper(value, Parse(line).value.tail)
    ensures Parse(Parse(line).value.head + (value + Parse(line).value.tail))
            == Some(Parse(line).value.(value := value))
  {
    var p, q, r := ParseParts(line);
    ParseExactly(p, q, r, value, Parse(line).value.tail);
  }

  // ---------------------------------------------------------------------------
  // The edited value
  // ---------------------------------------------------------------------------

  lemma {:induction false} FindWordAfter(margin: string, word: string, rest: string)
    requires word != [] && AllSpace(margin) && !IsSpace(word[0])
    ensures FindWord(margin + word + rest, word) == |margin|
  {
    var s := margin + word + rest;
    if margin == [] {
      assert s == word + rest;
    } else {
      assert s[1..] == margin[1..] + word + rest;
      FindWordAfter(margin[1..], word, rest);
      assert s[0] == margin[0] && !(word <= s);
    }
  }

  lemma OneField(value: string)
    requires Sources(value) == [DEBDB]
    ensures ',' !in value && Strip(value) == DEBDB
  {
    FindFacts(value, ',');
    var i := Find(value, ',');
    if i < |value| {
      StrippedLength(Split(value[i + 1..], ','));
    } else {
      assert Stripped([value])[0] == Strip(value);
    }
  }

  /** A value whose one source is debdb is that word between blank margins. */
  lemma OnlyDebdb(value: string) returns (pre: string, post: string)
    requires Sources(value) == [DEBDB]
    ensures AllSpace(pre) && AllSpace(post)
    ensures value == pre + DEBDB + post
  {
    OneField(value);
    var l := LStrip(value);
    LStripFacts(value);
    RStripFacts(l);
    pre, post := value[..|value| - |l|], l[5..];
    assert l == l[..5] + l[5..];
  }

  lemma {:induction false} StrippedLength(fields: seq<string>)
    ensures |Stripped(fields)| == |fields|
  {
    if fields != [] {
      StrippedLength(fields[1..]);
    }
  }

  lemma ReplacedWord(pre: string, post: string)
    requires AllSpace(pre)
    ensures ReplaceFirst(pre + DEBDB + post, DEBDB, BOTH) == pre + BOTH + post
  {
    var value := pre + DEBDB + post;
    FindWordAfter(pre, DEBDB, post);
    assert value[|pre|..] == DEBDB + post && value[|pre| + 5..] == post;
  }

  lemma StrippedPair(a: string, b: string)
    ensures Stripped([a, b]) == [Strip(a), Strip(b)]
  {
    assert [a, b][1..] == [b];
    assert Stripped([b]) == [Strip(b)] + Stripped([]);
  }

  lemma AfterComma(pre: string, post: string)
    ensures pre + BOTH + post == (pre + DEBDB) + [','] + (FILE + post)
  {
    assert BOTH == DEBDB + [','] + FILE;
  }

  /** Both sources, with the margins of the old value. */
  lemma BothSources(pre: string, post: string)
    requires AllSpace(pre) && AllSpace(post)
    ensures Sources(pre + BOTH + post) == [DEBDB, FILE]
  {
    AfterComma(pre, post);
    SplitFirst(pre + DEBDB, FILE + post, ',');
    SplitNone(FILE + post, ',');
    StrippedPair(pre + DEBDB, FILE + post);
    StripMargins(pre, DEBDB, []);
    StripMargins([], FILE, post);
    assert pre + DEBDB + [] == pre + DEBDB && [] + FILE + post == FILE + post;
  }

  /** The value of a trust line starts unblank and has no comment or carriage return. */
  lemma ValueClean(value: string, tail: string, pre: string, post: string)
    requires Proper(value, tail) && value == pre + DEBDB + post
    ensures Proper(pre + BOTH + post, tail)
  {
    var edited := pre + BOTH + post;
    assert (value + tail)[0] == value[0] && (edited + tail)[0] == edited[0] == value[0];
    forall i | 0 <= i < |edited|
      ensures !IsStop(edited[i])
    {
      if i < |pre| {
        assert edited[i] == value[i];
      } else if i >= |pre| + 10 {
        assert edited[i] == value[i - 5];
      } else {
        assert edited[i] == BOTH[i - |pre|];
      }
    }
  }

  /** What an edited trust line is: the same head and tail around a value naming both sources. */
  lemma EditedLine(line: string) returns (value: string)
    requires IsTrust(line) && EditLine(line).Changed?
    ensures Sources(value) == [DEBDB, FILE]
    ensures EditLine(line).line == Parse(line).value.head + (value + Parse(line).value.tail)
    ensures Parse(EditLine(line).line) == Some(Parse(line).value.(value := value))
  {
    var t := Parse(line).value;
    var pre, post := OnlyDebdb(t.value);
    value := pre + BOTH + post;
    var p, q, r := ParseParts(line);
    ReplacedWord(pre, post);
    BothSources(pre, post);
    ValueClean(t.value, t.tail, pre, post);
    ParseReplaced(line, value);
  }

  // ---------------------------------------------------------------------------
  // The whole configuration
  // ---------------------------------------------------------------------------

  /** Another trust line in place of a trust line matches in the same place. */
  lemma {:induction false} MatchesReplaced(lines: seq<string>, i: nat, line: string)
    requires i < |lines| && IsTrust(lines[i]) && IsTrust(line)
    ensures Matches(lines[i := line]) == Matches(lines)
  {
    var last := |lines| - 1;
    var edited := lines[i := line];
    if i == last {
      assert edited[..last] == lines[..last];
    } else {
      assert edited[..last] == lines[..last][i := line];
      MatchesReplaced(lines[..last], i, line);
    }
  }

  lemma Absent(a: string, b: string, c: char)
    ensures c !in a + b <==> c !in a && c !in b
  {
    assert forall i | 0 <= i < |a| :: (a + b)[i] == a[i];
    assert forall i | 0 <= i < |b| :: (a + b)[|a| + i] == b[i];
  }

  /** The value of the one trust line. */
  function TrustValue(contents: string): Option<string> {
    var lines := Split(contents, '\n');
    var matches := Matches(lines);
    if |matches| != 1 then None else Some(Parse(lines[matches[0]]).value.value)
  }

  predicate Edited(contents: string) {
    var lines := Split(contents, '\n');
    |Matches(lines)| == 1 && EditLine(lines[Matches(lines)[0]]).Changed?
  }

  /** What the edit does to the lines. */
  lemma EditedLines(contents: string) returns (value: string, line: string)
    requires Edited(contents)
    ensures
      var lines, i := Split(contents, '\n'), Matches(Split(contents, '\n'))[0];
      var t := Parse(lines[i]).value;
      && Enabled(contents).Ok? && Sources(t.value) == [DEBDB] && Sources(value) == [DEBDB, FILE]
      && line == t.head + (value + t.tail) && Parse(line) == Some(t.(value := value))
      && Split(Enabled(contents).contents, '\n') == lines[i := line]
      && Matches(lines[i := line]) == [i]
      && Enabled(contents).contents == Join(lines[i := line], '\n')
  {
    var lines, i := Split(contents, '\n'), Matches(Split(contents, '\n'))[0];
    SplitJoin(contents, '\n');
    value := EditedLine(lines[i]);
    line := EditLine(lines[i]).line;
    var pre, post := OnlyDebdb(Parse(lines[i]).value.value);
    EditKeepsLine(lines[i]);
    MatchesReplaced(lines, i, line);
    JoinSplit(lines[i := line], '\n');
  }

  lemma EditKeepsLine(line: string)
    requires IsTrust(line) && EditLine(line).Changed? && '\n' !in line
    ensures '\n' !in EditLine(line).line
  {
    var t := Parse(line).value;
    var p, q, r := ParseParts(line);
    var pre, post := OnlyDebdb(t.value);
    ReplacedWord(pre, post);
    Absent(t.head, t.value + t.tail, '\n');
    Absent(t.value, t.tail, '\n');
    Absent(pre + DEBDB, post, '\n');
    Absent(pre, DEBDB, '\n');
    Absent(pre, BOTH, '\n');
    Absent(pre + BOTH, post, '\n');
    Absent(pre + BOTH + post, t.tail, '\n');
    Absent(t.head, pre + BOTH + post + t.tail, '\n');
  }

  /** The edited configuration already enables the file source: a second run changes nothing. */
  lemma EnabledIsIdempotent(contents: string)
    requires Enabled(contents).Ok?
    ensures Enabled(Enabled(contents).contents) == Enabled(contents)
  {
    if Edited(contents) {
      var value, line := EditedLines(contents);
      assert [DEBDB, FILE][1] == FILE;
    }
  }

  /** The text before and after the value of the trust line. */
  function Frame(contents: string): (string, string)
    requires TrustValue(contents).Some?
  {
    var lines, i := Split(contents, '\n'), Matches(Split(contents, '\n'))[0];
    var t := Parse(lines[i]).value;
    (Before(lines, i, '\n') + t.head, t.tail + After(lines, i, '\n'))
  }

  lemma Framed(contents: string)
    requires TrustValue(contents).Some?
    ensures contents == Frame(contents).0 + TrustValue(contents).value + Frame(contents).1
  {
    var lines, i := Split(contents, '\n'), Matches(Split(contents, '\n'))[0];
    var t := Parse(lines[i]).value;
    var p, q, r := ParseParts(lines[i]);
    SplitJoin(contents, '\n');
    JoinAround(lines, i, '\n');
    Around(Before(lines, i, '\n'), t.head, t.value, t.tail, After(lines, i, '\n'));
  }

  lemma SameFrame(contents: string)
    requires Edited(contents)
    ensures TrustValue(contents).Some? && Enabled(contents).Ok? && TrustValue(Enabled(contents).contents).Some?
    ensures Frame(Enabled(contents).contents) == Frame(contents)
    ensures Sources(TrustValue(contents).value) == [DEBDB]
    ensures Sources(TrustValue(Enabled(contents).contents).value) == [DEBDB, FILE]
  {
    var lines, i := Split(contents, '\n'), Matches(Split(contents, '\n'))[0];
    var value, line := EditedLines(contents);
    AroundReplaced(lines, i, line, '\n');
  }

  /** Only the value of the one trust line changes, from debdb to debdb and file. */
  lemma OnlyTheValueChanges(contents: string) returns (before: string, after: string)
    requires Enabled(contents).Ok?
    ensures
      var edited := Enabled(contents).contents;
      && TrustValue(contents).Some? && TrustValue(edited).Some?
      && contents == before + TrustValue(contents).value + after
      && edited == before + TrustValue(edited).value + after
      && (Edited(contents) <==> edited != contents)
      && (if edited == contents then FILE in Sources(TrustValue(contents).value)
          else Sources(TrustValue(contents).value) == [DEBDB] && Sources(TrustValue(edited).value) == [DEBDB, FILE])
  {
    before, after := Frame(contents).0, Frame(contents).1;
    Framed(contents);
    if Edited(contents) {
      SameFrame(contents);
      Framed(Enabled(contents).contents);
      SplitNot(Sources(TrustValue(contents).value), DEBDB, FILE);
    }
  }

  lemma SplitNot(sources: seq<string>, a: string, b: string)
    ensures sources == [a] ==> sources != [a, b]
  {
    assert |[a]| != |[a, b]|;
  }

  lemma Around(b: string, head: string, value: string, tail: string, a: string)
    ensures b + (head + (value + tail)) + a == b + head + value + (tail + a)
  {
  }
}
