/** The minimal key-file edit of packaging/lifecycle_migration.py: visibility_position finds
    the one boolean to replace, or the one place to insert it, in an account cache. */
module KeyFile {
  import opened Common
  import opened ByteText

  const GROUP: string := "User"
  const KEY: string := "SystemAccount"

  // ---------------------------------------------------------------------------
  // What one line means
  // ---------------------------------------------------------------------------

  /** A line read alone. An assignment's stripped value begins at offset `at` of its line. */
  datatype Token =
    | Ignored(length: nat)
    | Header(name: string, length: nat)
    | Assign(key: string, value: string, at: nat, length: nat)

  predicate IsHeader(t: string) {
    && |t| >= 3 && t[0] == '[' && t[|t| - 1] == ']'
    && forall i | 1 <= i < |t| - 1 :: t[i] != ']' && t[i] != '\r' && t[i] != '\n'
  }

  /** Where the value after the '=' at position i begins. */
  function ValueStart(line: string, i: nat): int
    requires i < |line|
  {
    i + 1 + |line[i + 1..]| - |LStrip(line[i + 1..])|
  }

  /** Key, value and where the value begins, of a line with '='. */
  function Parts(line: string): Option<(string, string, nat)> {
    var i := Find(line, '=');
    if i >= |line| || ValueStart(line, i) < 0 then None
    else Some((Strip(line[..i]), Strip(line[i + 1..]), ValueStart(line, i)))
  }

  function Build(stripped: string, parts: Option<(string, string, nat)>, length: nat): Token {
    if stripped == [] || stripped[0] == '#' then Ignored(length)
    else if IsHeader(stripped) then Header(stripped[1..|stripped| - 1], length)
    else if parts.None? then Ignored(length)
    else Assign(parts.value.0, parts.value.1, parts.value.2, length)
  }

  function Lex(line: string): Token {
    Build(Strip(line), Parts(line), |line|)
  }

  /** The file line by line. */
  function Tokens(s: string): seq<Token> {
    if s == [] then [] else [Lex(s[..LineLength(s)])] + Tokens(s[LineLength(s)..])
  }

  function Length(tokens: seq<Token>): nat {
    if tokens == [] then 0 else tokens[0].length + Length(tokens[1..])
  }

  // ---------------------------------------------------------------------------
  // The scan
  // ---------------------------------------------------------------------------

  datatype Match = Match(start: nat, end: nat, visible: bool)

  datatype Scanned = Scanned(
    section: Option<string>, groups: nat, matches: seq<Match>, offset: nat, insertion: Option<nat>)

  const START: Scanned := Scanned(None, 0, [], 0, None)

  function Section(section: Option<string>, token: Token): Option<string> {
    if token.Header? then Some(token.name) else section
  }

  predicate IsKey(section: Option<string>, token: Token) {
    token.Assign? && section == Some(GROUP) && token.key == KEY
  }

  function ScanToken(st: Scanned, token: Token): Option<Scanned> {
    var st' := st.(section := Section(st.section, token), offset := st.offset + token.length);
    if token.Header? then
      Some(st'.(groups := st.groups + if token.name == GROUP then 1 else 0,
                insertion := if st.section == Some(GROUP) && st.insertion.None? then Some(st.offset)
                             else st.insertion))
    else if !IsKey(st.section, token) then Some(st')
    else if token.value != "true" && token.value != "false" then None
    else
      var a := st.offset + token.at;
      Some(st'.(matches := st.matches + [Match(a, a + |token.value|, token.value == "false")]))
  }

  function Scan(st: Scanned, tokens: seq<Token>): Option<Scanned>
    decreases |tokens|
  {
    if tokens == [] then Some(st)
    else
      var next := ScanToken(st, tokens[0]);
      if next.None? then None else Scan(next.value, tokens[1..])
  }

  /** Where to edit: replace [start, end), or insert at start when end is None. */
  datatype Position = Rejected | At(start: nat, end: Option<nat>, visible: bool)

  function Decide(st: Scanned, length: nat): Position {
    if st.groups != 1 || |st.matches| > 1 then Rejected
    else if st.matches != [] then At(st.matches[0].start, Some(st.matches[0].end), st.matches[0].visible)
    else At(if st.insertion.Some? then st.insertion.value else length, None, false)
  }

  predicate Decodable(contents: string) {
    Utf8(contents) && '\0' !in contents
  }

  function PositionIn(contents: string): Position {
    var r := Scan(START, Tokens(contents));
    if r.None? then Rejected else Decide(r.value, |contents|)
  }

  function VisibilityPosition(contents: string): Position {
    if Decodable(contents) then PositionIn(contents) else Rejected
  }

  /** The loop of the source, proved against the fold it performs. */
  method FindPosition(contents: string) returns (r: Position)
    ensures r == VisibilityPosition(contents)
  {
    if !Decodable(contents) {
      return Rejected;
    }
    var st := START;
    var rest := contents;
    while rest != []
      invariant Scan(START, Tokens(contents)) == Scan(st, Tokens(rest))
      decreases |rest|
    {
      var n := LineLength(rest);
      var next := ScanToken(st, Lex(rest[..n]));
      if next.None? {
        return Rejected;
      }
      st, rest := next.value, rest[n..];
    }
    r := Decide(st, |contents|);
  }

  /** The text visibility() publishes for an accepted, not yet visible cache. */
  function Edited(contents: string, at: Position): string
    requires at.At? && at.start <= |contents|
    requires at.end.Some? ==> at.start <= at.end.value <= |contents|
  {
    if at.end.Some? then contents[..at.start] + "false" + contents[at.end.value..]
    else contents[..at.start] + Separator(contents, at.start) + INSERTED + contents[at.start..]
  }

  const INSERTED: string := KEY + "=false\n"

  function Separator(contents: string, start: nat): string
    requires start <= |contents|
  {
    if start == 0 || contents[start - 1] == '\n' then "" else "\n"
  }

  // ---------------------------------------------------------------------------
  // The meaning of a key file: its groups and the values each key is given
  // ---------------------------------------------------------------------------

  function SectionAfter(section: Option<string>, tokens: seq<Token>): Option<string>
    decreases |tokens|
  {
    if tokens == [] then section else SectionAfter(Section(section, tokens[0]), tokens[1..])
  }

  function Groups(tokens: seq<Token>): seq<string> {
    if tokens == [] then []
    else (if tokens[0].Header? then [tokens[0].name] else []) + Groups(tokens[1..])
  }

  /** Every value assigned to the key inside the group, in order. */
  function Values(section: Option<string>, tokens: seq<Token>, group: string, key: string): seq<string>
    decreases |tokens|
  {
    if tokens == [] then []
    else
      (if tokens[0].Assign? && section == Some(group) && tokens[0].key == key then [tokens[0].value] else [])
      + Values(Section(section, tokens[0]), tokens[1..], group, key)
  }

  function Count(groups: seq<string>, name: string): nat {
    if groups == [] then 0 else (if groups[0] == name then 1 else 0) + Count(groups[1..], name)
  }

  /** What the account daemon reads for the one key at stake. */
  function Setting(contents: string): seq<string> {
    Values(None, Tokens(contents), GROUP, KEY)
  }

  lemma {:induction false} SectionConcat(section: Option<string>, a: seq<Token>, b: seq<Token>)
    ensures SectionAfter(section, a + b) == SectionAfter(SectionAfter(section, a), b)
    decreases |a|
  {
    if a == [] {
      assert a + b == b;
    } else {
      assert (a + b)[1..] == a[1..] + b;
      SectionConcat(Section(section, a[0]), a[1..], b);
    }
  }

  lemma {:induction false} GroupsConcat(a: seq<Token>, b: seq<Token>)
    ensures Groups(a + b) == Groups(a) + Groups(b)
  {
    if a == [] {
      assert a + b == b;
    } else {
      assert (a + b)[1..] == a[1..] + b;
      GroupsConcat(a[1..], b);
    }
  }

  lemma {:induction false} ValuesConcat(section: Option<string>, a: seq<Token>, b: seq<Token>, group: string, key: string)
    ensures Values(section, a + b, group, key)
            == Values(section, a, group, key) + Values(SectionAfter(section, a), b, group, key)
    decreases |a|
  {
    if a == [] {
      assert a + b == b;
    } else {
      assert (a + b)[1..] == a[1..] + b;
      ValuesConcat(Section(section, a[0]), a[1..], b, group, key);
    }
  }

  // ---------------------------------------------------------------------------
  // The scan computes the meaning
  // ---------------------------------------------------------------------------

  predicate IsBoolean(value: string) {
    value == "true" || value == "false"
  }

  predicate Booleans(values: seq<string>) {
    forall i | 0 <= i < |values| :: IsBoolean(values[i])
  }

  function Flags(matches: seq<Match>): seq<string> {
    seq(|matches|, i requires 0 <= i < |matches| => if matches[i].visible then "false" else "true")
  }

  lemma {:induction false} ScanMeaning(st: Scanned, tokens: seq<Token>)
    ensures var values := Values(st.section, tokens, GROUP, KEY);
            var r := Scan(st, tokens);
            && (r.Some? <==> Booleans(values))
            && (r.Some? ==>
                  && r.value.groups == st.groups + Count(Groups(tokens), GROUP)
                  && Flags(r.value.matches) == Flags(st.matches) + values)
    decreases |tokens|
  {
    if tokens != [] {
      var next := ScanToken(st, tokens[0]);
      var rest := Values(Section(st.section, tokens[0]), tokens[1..], GROUP, KEY);
      if next.Some? {
        ScanMeaning(next.value, tokens[1..]);
        if IsKey(st.section, tokens[0]) {
          assert Flags(next.value.matches) == Flags(st.matches) + [tokens[0].value];
          BooleansConcat([tokens[0].value], rest);
        } else {
          assert [] + rest == rest;
        }
        CountConcat(if tokens[0].Header? then [tokens[0].name] else [], Groups(tokens[1..]), GROUP);
      } else {
        assert Values(st.section, tokens, GROUP, KEY)[0] == tokens[0].value;
      }
    }
  }

  lemma BooleansConcat(a: seq<string>, b: seq<string>)
    ensures Booleans(a + b) <==> Booleans(a) && Booleans(b)
  {
    if Booleans(a + b) {
      forall i | 0 <= i < |a| ensures a[i] == (a + b)[i] {}
      forall i | 0 <= i < |b| ensures b[i] == (a + b)[|a| + i] {}
    }
  }

  lemma {:induction false} CountConcat(a: seq<string>, b: seq<string>, name: string)
    ensures Count(a + b, name) == Count(a, name) + Count(b, name)
  {
    if a == [] {
      assert a + b == b;
    } else {
      assert (a + b)[1..] == a[1..] + b;
      CountConcat(a[1..], b, name);
    }
  }

  /** Acceptance in terms of the meaning alone. */
  lemma AcceptedMeans(contents: string)
    ensures var r := VisibilityPosition(contents);
            && (r.At? <==>
                  && Decodable(contents) && Count(Groups(Tokens(contents)), GROUP) == 1
                  && Booleans(Setting(contents)) && |Setting(contents)| <= 1)
            && (r.At? ==> (r.visible <==> Setting(contents) == ["false"])
                          && (r.end.Some? <==> Setting(contents) != []))
  {
    ScanMeaning(START, Tokens(contents));
    var r := Scan(START, Tokens(contents));
    if r.Some? {
      var values := Setting(contents);
      assert Flags(r.value.matches) == values;
      assert |r.value.matches| == |values|;
      if |values| == 1 {
        assert values == [values[0]];
      }
    }
  }

  lemma {:induction false} MatchesKept(st: Scanned, tokens: seq<Token>)
    requires Scan(st, tokens).Some?
    ensures |Scan(st, tokens).value.matches| >= |st.matches|
    ensures Scan(st, tokens).value.matches[..|st.matches|] == st.matches
    decreases |tokens|
  {
    if tokens != [] {
      var next := ScanToken(st, tokens[0]).value;
      MatchesKept(next, tokens[1..]);
      assert next.matches[..|st.matches|] == st.matches;
      var r := Scan(st, tokens).value;
      assert r.matches[..|st.matches|] == r.matches[..|next.matches|][..|st.matches|];
    }
  }

  predicate MatchIn(m: Match, offset: nat, token: Token) {
    && token.Assign? && token.key == KEY
    && (token.value == "true" || token.value == "false")
    && m == Match(offset + token.at, offset + token.at + |token.value|, token.value == "false")
  }

  /** The line holding the one match, and where in it. */
  lemma {:induction false} MatchLine(st: Scanned, tokens: seq<Token>) returns (k: nat)
    requires Scan(st, tokens).Some? && |Scan(st, tokens).value.matches| == |st.matches| + 1
    ensures k < |tokens| && SectionAfter(st.section, tokens[..k]) == Some(GROUP)
    ensures MatchIn(Scan(st, tokens).value.matches[|st.matches|], st.offset + Length(tokens[..k]), tokens[k])
    decreases |tokens|
  {
    var next := ScanToken(st, tokens[0]).value;
    MatchesKept(next, tokens[1..]);
    if |next.matches| == |st.matches| {
      k := MatchLine(next, tokens[1..]);
      k := k + 1;
      assert tokens[..k][1..] == tokens[1..][..k - 1];
    } else {
      k := 0;
      var r := Scan(st, tokens).value;
      assert r.matches[..|next.matches|][|st.matches|] == r.matches[|st.matches|];
    }
  }

  /** The header at which the insertion point was set, or the end of the text. */
  lemma {:induction false} InsertionLine(st: Scanned, tokens: seq<Token>) returns (k: nat)
    requires Scan(st, tokens).Some? && st.insertion.None?
    requires Scan(st, tokens).value.groups > 0 && (st.groups > 0 ==> st.section == Some(GROUP))
    ensures k <= |tokens| && SectionAfter(st.section, tokens[..k]) == Some(GROUP)
    ensures var i := Scan(st, tokens).value.insertion;
            if k < |tokens| then i == Some(st.offset + Length(tokens[..k])) && tokens[k].Header?
            else i.None?
    decreases |tokens|
  {
    if tokens == [] {
      k := 0;
    } else {
      var next := ScanToken(st, tokens[0]).value;
      if next.insertion.Some? {
        k := 0;
        InsertionKept(next, tokens[1..]);
      } else {
        k := InsertionLine(next, tokens[1..]);
        k := k + 1;
        assert tokens[..k][1..] == tokens[1..][..k - 1];
      }
    }
  }

  lemma {:induction false} InsertionKept(st: Scanned, tokens: seq<Token>)
    requires st.insertion.Some? && Scan(st, tokens).Some?
    ensures Scan(st, tokens).value.insertion == st.insertion
    decreases |tokens|
  {
    if tokens != [] {
      InsertionKept(ScanToken(st, tokens[0]).value, tokens[1..]);
    }
  }

  // ---------------------------------------------------------------------------
  // Texts and their lines
  // ---------------------------------------------------------------------------

  lemma {:induction false} TokensConcat(pre: string, rest: string)
    requires Clean(pre, rest)
    ensures Tokens(pre + rest) == Tokens(pre) + Tokens(rest)
    decreases |pre|
  {
    if pre == [] {
      assert pre + rest == rest;
    } else {
      var n := LineLength(pre);
      assert pre == pre[..n] + pre[n..];
      FirstLineOf(pre[..n], pre[n..], rest);
      TokensConcat(pre[n..], rest);
    }
  }

  lemma TokensOfLine(line: string)
    requires IsLine(line)
    ensures Tokens(line) == [Lex(line)]
  {
    LineLengthIs(line, []);
    assert line + [] == line;
    assert line[..|line|] == line;
    assert Tokens(line[|line|..]) == [];
  }

  /** A text cut around one of its lines. */
  predicate Around(s: string, pre: string, line: string, post: string) {
    && s == pre + line + post
    && IsLine(line) && Clean(pre, line) && EndsBefore(line, post)
  }

  /** The text before token k, its line, and the text after it. */
  lemma {:induction false} CutAt(s: string, k: nat) returns (pre: string, line: string, post: string)
    requires k < |Tokens(s)|
    ensures Around(s, pre, line, post)
    ensures |Tokens(pre)| == k && |pre| == Length(Tokens(pre))
    decreases k
  {
    var first, more := s[..LineLength(s)], s[LineLength(s)..];
    FirstLine(s);
    assert s == first + more;
    if k == 0 {
      pre, line, post := [], first, more;
      assert [] + first + more == first + more;
    } else {
      var p, l, q := CutAt(more, k - 1);
      pre, line, post := first + p, l, q;
      CutStep(first, p, l, q);
    }
  }

  lemma CutStep(first: string, p: string, l: string, q: string)
    requires IsLine(first) && EndsBefore(first, p + l + q) && Around(p + l + q, p, l, q)
    requires |p| == Length(Tokens(p))
    ensures Around(first + (p + l + q), first + p, l, q)
    ensures |Tokens(first + p)| == |Tokens(p)| + 1 && |first + p| == Length(Tokens(first + p))
  {
    Assoc(first, p, l);
    Assoc(first, p + l, q);
    assert (p + l + q)[0] == (p + l)[0];
    Prepend(first, p, l);
    LexLength(first);
  }

  lemma LexLength(line: string)
    ensures Lex(line).length == |line|
  {
  }

  lemma Prepend(first: string, pre: string, rest: string)
    requires IsLine(first) && Clean(pre, rest) && rest != [] && EndsBefore(first, pre + rest)
    ensures Clean(first + pre, rest) && Tokens(first + pre) == [Lex(first)] + Tokens(pre)
  {
    assert pre != [] ==> (first + pre)[|first + pre| - 1] == pre[|pre| - 1] && (pre + rest)[0] == pre[0];
    if pre == [] {
      assert first + pre == first && pre + rest == rest;
    }
    TokensOfLine(first);
    TokensConcat(first, pre);
  }

  // ---------------------------------------------------------------------------
  // Editing one line
  // ---------------------------------------------------------------------------

  lemma KeyInitial(key: string)
    requires Strip(key) == KEY
    ensures LStrip(key) != [] && LStrip(key)[0] == 'S'
  {
    var l := LStrip(key);
    RStripFacts(l);
    assert l[..|RStrip(l)|][0] == KEY[0];
  }

  lemma StripInitial(pre: string, rest: string)
    requires AllSpace(pre) && rest != [] && !IsSpace(rest[0])
    ensures Strip(pre + rest) != [] && Strip(pre + rest)[0] == rest[0]
  {
    LStripMargin(pre, rest);
    RStripFacts(rest);
    var t := RStrip(rest);
    assert rest[|t|..] == [] || rest[|t|..][0] == rest[|t|];
    assert t == [] || t[0] == rest[..|t|][0];
  }

  /** A line whose first visible character opens no comment or header, with '=', is an assignment. */
  lemma AssignmentLine(line: string, i: nat)
    requires i == Find(line, '=') < |line|
    requires LStrip(line[..i]) != [] && LStrip(line[..i])[0] != '[' && LStrip(line[..i])[0] != '#'
    ensures ValueStart(line, i) >= 0
    ensures Lex(line) == Assign(Strip(line[..i]), Strip(line[i + 1..]), ValueStart(line, i), |line|)
  {
    LStripFacts(line[i + 1..]);
    StripStarts(line, i);
    assert !IsHeader(Strip(line));
  }

  lemma StripStarts(line: string, i: nat)
    requires i <= |line| && LStrip(line[..i]) != []
    ensures Strip(line) != [] && Strip(line)[0] == LStrip(line[..i])[0]
  {
    var key := line[..i];
    LStripFacts(key);
    var pre := key[..|key| - |LStrip(key)|];
    var rest := LStrip(key) + line[i..];
    assert line == pre + rest;
    StripInitial(pre, rest);
  }

  /** The stripped text lies between its blank margins. */
  lemma ValuePlace(v: string)
    ensures var a := |v| - |LStrip(v)|;
            var b := a + |Strip(v)|;
            && 0 <= a && b <= |v| && v[a..b] == Strip(v) && AllSpace(v[..a]) && AllSpace(v[b..])
  {
    LStripFacts(v);
    var l := LStrip(v);
    var a := |v| - |l|;
    RStripFacts(l);
    var t := RStrip(l);
    assert l[..|t|] == v[a..a + |t|];
    assert l[|t|..] == v[a + |t|..];
  }

  function Replaced(line: string, a: nat, b: nat): string
    requires a <= b <= |line|
  {
    line[..a] + "false" + line[b..]
  }

  lemma ReplacedValue(line: string, i: nat, a: nat, b: nat)
    requires i < a <= b <= |line| && AllSpace(line[i + 1..a]) && AllSpace(line[b..])
    ensures Strip(Replaced(line, a, b)[i + 1..]) == "false"
  {
    assert Replaced(line, a, b)[i + 1..] == line[i + 1..a] + "false" + line[b..];
    StripMargins(line[i + 1..a], "false", line[b..]);
  }

  lemma SameKey(line: string, line': string, i: nat, a: nat)
    requires i == Find(line, '=') < a <= |line| && '=' in line
    requires line[..a] <= line'
    ensures Find(line', '=') == i && line'[..i] == line[..i]
  {
    assert line[..i + 1] == line[..a][..i + 1];
    assert line'[..i + 1] == line'[..a][..i + 1];
    FindPrefix(line, line', '=');
    assert line'[..i] == line'[..i + 1][..i];
  }

  /** Where the value of an assignment lies. */
  lemma ValueFacts(line: string, i: nat)
    requires Lex(line).Assign? && i == Find(line, '=')
    ensures var a := Lex(line).at;
            var b := a + |Lex(line).value|;
            && i < a <= b <= |line| && '=' in line && line[a..b] == Lex(line).value
            && AllSpace(line[i + 1..a]) && AllSpace(line[b..]) && Strip(line[..i]) == Lex(line).key
  {
    FindFacts(line, '=');
    assert line[i] == '=';
    ValueBounds(line, i);
  }

  lemma ValueBounds(line: string, i: nat)
    requires i < |line|
    ensures var a := ValueStart(line, i);
            var b := a + |Strip(line[i + 1..])|;
            && i < a <= b <= |line| && line[a..b] == Strip(line[i + 1..])
            && AllSpace(line[i + 1..a]) && AllSpace(line[b..])
  {
    var v := line[i + 1..];
    ValuePlace(v);
    var a := ValueStart(line, i);
    var b := a + |Strip(v)|;
    assert v[a - (i + 1)..b - (i + 1)] == line[a..b];
    assert v[b - (i + 1)..] == line[b..];
    assert v[..a - (i + 1)] == line[i + 1..a];
  }

  /** Replacing the value of an assignment leaves its key alone. */
  lemma ReplacedLine(line: string, a: nat, b: nat)
    requires Lex(line).Assign? && Lex(line).key == KEY && a == Lex(line).at && b == a + |Lex(line).value|
    ensures a <= b <= |line|
    ensures Lex(Replaced(line, a, b)).Assign?
    ensures Lex(Replaced(line, a, b)).key == KEY && Lex(Replaced(line, a, b)).value == "false"
  {
    var i := Find(line, '=');
    ValueFacts(line, i);
    SameKey(line, Replaced(line, a, b), i, a);
    ReplacedValue(line, i, a, b);
    KeyInitial(line[..i]);
    AssignmentLine(Replaced(line, a, b), i);
  }

  /** A new value leaves a line a line, ended where it was. */
  lemma StillALine(line: string, a: nat, b: nat, text: string)
    requires IsLine(line) && a < b <= |line| && line[b - 1] != '\r' && line[b - 1] != '\n'
    requires text != [] && forall j | 0 <= j < |text| :: text[j] != '\r' && text[j] != '\n'
    ensures IsLine(line[..a] + text + line[b..])
    ensures b == |line| ==> !EndsLine(line)
    ensures EndsLine(line) ==> EndsLine(line[..a] + text + line[b..])
                               && line[|line| - 1] == (line[..a] + text + line[b..])[a + |text| + |line| - b - 1]
  {
    var line' := line[..a] + text + line[b..];
    assert |line| > 1 && line[|line| - 2] == '\r' ==> b <= |line| - 2 || b == |line|;
    forall j | 0 <= j < |line'| - 1
      ensures line'[j] != '\n' && (line'[j] == '\r' ==> j == |line'| - 2 && line'[|line'| - 1] == '\n')
    {
      if j < a {
        assert line'[j] == line[j];
      } else if j < a + |text| {
        assert line'[j] == text[j - a];
      } else {
        assert line'[j] == line[b + j - a - |text|];
      }
    }
  }

  // ---------------------------------------------------------------------------
  // Editing the file
  // ---------------------------------------------------------------------------

  lemma TokensThree(s: string, pre: string, line: string, post: string)
    requires Around(s, pre, line, post)
    ensures Tokens(s) == Tokens(pre) + [Lex(line)] + Tokens(post)
  {
    Assoc(pre, line, post);
    assert (line + post)[0] == line[0];
    TokensConcat(pre, line + post);
    TokensConcat(line, post);
    TokensOfLine(line);
    assert Tokens(pre) + ([Lex(line)] + Tokens(post)) == Tokens(pre) + [Lex(line)] + Tokens(post);
  }

  lemma CutInside(pre: string, line: string, post: string, a: nat, b: nat)
    requires a <= b <= |line|
    ensures var s := pre + line + post;
            && s[|pre| + a..|pre| + b] == line[a..b]
            && s[..|pre| + a] + "false" + s[|pre| + b..] == pre + Replaced(line, a, b) + post
            && (b < |line| ==> s[|pre| + b] == line[b])
  {
    var s := pre + line + post;
    assert s[..|pre| + a] == pre + line[..a];
    assert s[|pre| + b..] == line[b..] + post;
  }

  lemma DecodableConcat(a: string, b: string)
    requires Decodable(a) && Decodable(b)
    ensures Decodable(a + b)
  {
    Utf8Concat(a, b);
  }

  lemma DecodableCut(s: string, i: nat)
    requires Decodable(s) && i <= |s| && (i < |s| ==> s[i] as int < 0x80)
    ensures Decodable(s[..i]) && Decodable(s[i..])
  {
    Utf8Cut(s, i);
  }

  lemma DecodableText(s: string)
    requires forall k | 0 <= k < |s| :: s[k] != '\0' && s[k] as int < 0x80
    ensures Decodable(s)
  {
    Utf8Ascii(s);
  }

  /** Exchanging the value of one line exchanges one token. */
  lemma ReplacedPiece(pre: string, line: string, post: string, a: nat, b: nat)
    requires IsLine(line) && Clean(pre, line) && EndsBefore(line, post)
    requires 0 < a < b <= |line| && IsBoolean(line[a..b])
    ensures Tokens(pre + Replaced(line, a, b) + post) == Tokens(pre) + [Lex(Replaced(line, a, b))] + Tokens(post)
  {
    assert line[b - 1] == line[a..b][b - a - 1];
    StillALine(line, a, b, "false");
    TokensThree(pre + Replaced(line, a, b) + post, pre, Replaced(line, a, b), post);
  }

  lemma ReplacedWhole(pre: string, line: string, post: string, a: nat, b: nat) returns (token: Token)
    requires IsLine(line) && Clean(pre, line) && EndsBefore(line, post)
    requires Lex(line).Assign? && Lex(line).key == KEY && IsBoolean(Lex(line).value)
    requires a == Lex(line).at && b == a + |Lex(line).value|
    ensures a < b <= |line| && line[a..b] == Lex(line).value && AllSpace(line[b..])
    ensures Tokens(pre + Replaced(line, a, b) + post) == Tokens(pre) + [token] + Tokens(post)
    ensures token.Assign? && token.key == KEY && token.value == "false"
  {
    ValueFacts(line, Find(line, '='));
    ReplacedLine(line, a, b);
    token := Lex(Replaced(line, a, b));
    ReplacedPiece(pre, line, post, a, b);
  }

  /** The one match as a piece of the text. */
  lemma ReplacementCut(s: string) returns (pre: string, line: string, post: string)
    requires PositionIn(s).At? && PositionIn(s).end.Some?
    ensures Around(s, pre, line, post) && Tokens(s) == Tokens(pre) + [Lex(line)] + Tokens(post)
    ensures SectionAfter(None, Tokens(pre)) == Some(GROUP)
    ensures IsKey(Some(GROUP), Lex(line)) && IsBoolean(Lex(line).value)
    ensures PositionIn(s).start == |pre| + Lex(line).at
    ensures PositionIn(s).end.value == |pre| + Lex(line).at + |Lex(line).value|
  {
    var k := MatchLine(START, Tokens(s));
    pre, line, post := CutAt(s, k);
    TokensThree(s, pre, line, post);
    assert Tokens(s)[..k] == Tokens(pre);
  }

  /** The edit at this place exchanges one value for "false" and yields this text. */
  predicate ReplacedAt(s: string, at: Position, value: string, result: string) {
    && at.At? && at.end.Some? && at.start < at.end.value <= |s|
    && s[at.start..at.end.value] == value && IsBoolean(value)
    && Edited(s, at) == result
    && (at.end.value < |s| ==> s[at.end.value] as int < 0x80)
  }

  lemma ReplacedText(s: string, pre: string, line: string, post: string, a: nat, b: nat, at: Position)
    requires s == pre + line + post && EndsBefore(line, post)
    requires a < b <= |line| && AllSpace(line[b..]) && IsBoolean(line[a..b])
    requires at.At? && at.start == |pre| + a && at.end == Some(|pre| + b)
    ensures ReplacedAt(s, at, line[a..b], pre + Replaced(line, a, b) + post)
  {
    CutInside(pre, line, post, a, b);
    assert line[b - 1] == line[a..b][b - a - 1];
    if b < |line| {
      assert line[b] == line[b..][0];
    }
  }

  /** Exactly one line's value is exchanged for "false". */
  lemma ReplacedFile(s: string) returns (before: seq<Token>, was: Token, token: Token, after: seq<Token>, result: string)
    requires PositionIn(s).At? && PositionIn(s).end.Some?
    ensures Tokens(s) == before + [was] + after && SectionAfter(None, before) == Some(GROUP)
    ensures was.Assign? && was.key == KEY
    ensures ReplacedAt(s, PositionIn(s), was.value, result) && Tokens(result) == before + [token] + after
    ensures token.Assign? && token.key == KEY && token.value == "false"
  {
    var pre, line, post := ReplacementCut(s);
    before, was, after := Tokens(pre), Lex(line), Tokens(post);
    token, result := ReplacedFrom(s, pre, line, post, PositionIn(s));
  }

  lemma ReplacedFrom(s: string, pre: string, line: string, post: string, at: Position) returns (token: Token, result: string)
    requires Around(s, pre, line, post)
    requires Lex(line).Assign? && Lex(line).key == KEY && IsBoolean(Lex(line).value)
    requires at.At? && at.start == |pre| + Lex(line).at && at.end == Some(at.start + |Lex(line).value|)
    ensures ReplacedAt(s, at, Lex(line).value, result) && Tokens(result) == Tokens(pre) + [token] + Tokens(post)
    ensures token.Assign? && token.key == KEY && token.value == "false"
  {
    var a := Lex(line).at;
    var b := a + |Lex(line).value|;
    token := ReplacedWhole(pre, line, post, a, b);
    result := pre + Replaced(line, a, b) + post;
    ReplacedText(s, pre, line, post, a, b, at);
  }

  lemma ReplacedDecodable(s: string, start: nat, end: nat)
    requires Decodable(s) && start < end <= |s|
    requires s[start] as int < 0x80 && (end < |s| ==> s[end] as int < 0x80)
    ensures Decodable(s[..start] + "false" + s[end..])
  {
    DecodableCut(s, start);
    DecodableCut(s, end);
    DecodableText("false");
    DecodableConcat(s[..start], "false");
    DecodableConcat(s[..start] + "false", s[end..]);
  }

  // Insertion

  lemma StripBlankEnd(s: string)
    ensures Strip(s + "\n") == Strip(s)
    ensures LStrip(s) != [] ==> LStrip(s + "\n") == LStrip(s) + "\n"
  {
    LStripFacts(s);
    var l := LStrip(s);
    var pre := s[..|s| - |l|];
    if l == [] {
      assert s == pre;
      AllBlank(s + "\n");
    } else {
      assert s + "\n" == pre + (l + "\n");
      LStripMargin(pre, l + "\n");
      RStripMargin'(l);
    }
  }

  lemma RStripMargin'(l: string)
    ensures RStrip(l + "\n") == RStrip(l)
  {
    assert (l + "\n")[..|l + "\n"| - 1] == l;
  }

  /** A token without the byte offsets. */
  function Meaning(t: Token): Token {
    match t
    case Ignored(_) => Ignored(0)
    case Header(name, _) => Header(name, 0)
    case Assign(key, value, _, _) => Assign(key, value, 0, 0)
  }

  lemma FindEnd(s: string, c: char, d: char)
    requires c != d
    ensures Find(s + [d], c) == if c in s then Find(s, c) else |s| + 1
    ensures c in s <==> Find(s, c) < |s|
  {
    FindFacts(s, c);
    FindFacts(s + [d], c);
    if c in s {
      FindPrefix(s, s + [d], c);
      var i := Find(s, c);
      assert s[..i + 1] <= s + [d];
    }
  }

  lemma EndedParts(line: string)
    ensures var p, q := Parts(line), Parts(line + "\n");
            (p.None? <==> q.None?) && (p.Some? ==> p.value.0 == q.value.0 && p.value.1 == q.value.1)
  {
    FindEnd(line, '=', '\n');
    var i := Find(line, '=');
    if i < |line| {
      assert (line + "\n")[..i] == line[..i];
      assert (line + "\n")[i + 1..] == line[i + 1..] + "\n";
      StripBlankEnd(line[i + 1..]);
      LStripFacts(line[i + 1..]);
      LStripFacts(line[i + 1..] + "\n");
    }
  }

  /** Ending a line does not change what it means. */
  lemma EndedLine(line: string)
    ensures Meaning(Lex(line + "\n")) == Meaning(Lex(line))
  {
    StripBlankEnd(line);
    EndedParts(line);
  }

  lemma InsertedParts()
    ensures Find(INSERTED, '=') == |KEY| && INSERTED[..|KEY|] == KEY && INSERTED[|KEY| + 1..] == "false\n"
  {
    FindKey(KEY, "false\n");
    assert INSERTED == KEY + "=" + "false\n";
  }

  lemma InsertedToken()
    ensures IsLine(INSERTED) && Lex(INSERTED).Assign? && Lex(INSERTED).key == KEY && Lex(INSERTED).value == "false"
  {
    InsertedParts();
    StripMargins([], KEY, []);
    assert [] + KEY + [] == KEY;
    StripMargins([], "false", "\n");
    assert [] + "false" + "\n" == "false\n";
    KeyInitial(KEY);
    AssignmentLine(INSERTED, |KEY|);
  }

  lemma {:induction false} FindKey(key: string, rest: string)
    requires '=' !in key
    ensures Find(key + "=" + rest, '=') == |key|
  {
    var s := key + "=" + rest;
    if key != [] {
      assert s[1..] == key[1..] + "=" + rest;
      FindKey(key[1..], rest);
    }
  }

  /** Token by token the same meaning. */
  predicate SameMeaning(a: seq<Token>, b: seq<Token>) {
    |a| == |b| && forall k | 0 <= k < |a| :: Meaning(a[k]) == Meaning(b[k])
  }

  /** The text before the insertion, ended if need be, means what it meant. */
  lemma EndedPrefix(pre: string)
    requires pre != []
    ensures var ended := pre + Separator(pre, |pre|);
            ended[|ended| - 1] == '\n' && SameMeaning(Tokens(ended), Tokens(pre))
  {
    if Separator(pre, |pre|) == "" {
      assert pre + "" == pre;
    } else {
      var p, l := LastLine(pre);
      EndedLine(l);
      LineEnded(p, l);
    }
  }

  lemma LastLine(s: string) returns (pre: string, line: string)
    requires s != []
    ensures Around(s, pre, line, [])
    ensures Tokens(s) == Tokens(pre) + [Lex(line)]
  {
    var post;
    pre, line, post := CutAt(s, |Tokens(s)| - 1);
    TokensThree(s, pre, line, post);
  }

  lemma LineEnded(p: string, l: string)
    requires Around(p + l, p, l, []) && l[|l| - 1] != '\n'
    ensures Tokens(p + l + "\n") == Tokens(p) + [Lex(l + "\n")]
  {
    assert (l + "\n")[0] == l[0];
    Assoc(p, l, "\n");
    assert p + (l + "\n") + [] == p + l + "\n";
    TokensThree(p + l + "\n", p, l + "\n", []);
  }

  lemma HeaderStart(line: string)
    requires Lex(line).Header?
    ensures line != [] && line[0] as int < 0x80
  {
    LStripFacts(line);
    var l := LStrip(line);
    RStripFacts(l);
    assert l[..|Strip(line)|][0] == '[';
    if |l| < |line| {
      assert IsSpace(line[..|line| - |l|][0]);
    } else {
      assert l == line;
    }
  }

  /** The place of the insertion cuts the file between two lines. */
  lemma InsertionSite(s: string) returns (pre: string, rest: string)
    requires PositionIn(s).At? && PositionIn(s).end.None?
    ensures PositionIn(s).start == |pre| && s == pre + rest && pre != []
    ensures Tokens(s) == Tokens(pre) + Tokens(rest) && SectionAfter(None, Tokens(pre)) == Some(GROUP)
    ensures rest != [] ==> rest[0] as int < 0x80
  {
    var k := InsertionLine(START, Tokens(s));
    if k < |Tokens(s)| {
      var line, post;
      pre, line, post := CutAt(s, k);
      rest := line + post;
      TokensThree(s, pre, line, post);
      assert Tokens(s)[..k] == Tokens(pre);
      HeaderStart(line);
      Assoc(pre, line, post);
      assert rest[0] == line[0];
      TokensConcat(pre, rest);
    } else {
      pre, rest := s, [];
      assert Tokens(s)[..k] == Tokens(s);
    }
  }

  /** One assignment is inserted, and lines before it keep their meaning. */
  lemma InsertedBetween(pre: string, rest: string) returns (ended: seq<Token>, token: Token, result: string)
    requires pre != []
    ensures SameMeaning(ended, Tokens(pre))
    ensures result == pre + Separator(pre, |pre|) + INSERTED + rest
    ensures Tokens(result) == ended + [token] + Tokens(rest)
    ensures token.Assign? && token.key == KEY && token.value == "false"
  {
    var cut := pre + Separator(pre, |pre|);
    EndedPrefix(pre);
    InsertedToken();
    ended, token, result := Tokens(cut), Lex(INSERTED), cut + INSERTED + rest;
    TokensThree(result, cut, INSERTED, rest);
  }

  lemma InsertedDecodable(pre: string, rest: string)
    requires Decodable(pre) && Decodable(rest)
    ensures Decodable(pre + Separator(pre, |pre|) + INSERTED + rest)
  {
    DecodableText(Separator(pre, |pre|));
    DecodableText(INSERTED);
    DecodableConcat(pre, Separator(pre, |pre|));
    DecodableConcat(pre + Separator(pre, |pre|), INSERTED);
    DecodableConcat(pre + Separator(pre, |pre|) + INSERTED, rest);
  }

  // ---------------------------------------------------------------------------
  // Main results
  // ---------------------------------------------------------------------------

  lemma {:induction false} SameMeaningSame(section: Option<string>, a: seq<Token>, b: seq<Token>, group: string, key: string)
    requires SameMeaning(a, b)
    ensures SectionAfter(section, a) == SectionAfter(section, b)
    ensures Groups(a) == Groups(b) && Values(section, a, group, key) == Values(section, b, group, key)
    decreases |a|
  {
    if a != [] {
      assert Meaning(a[0]) == Meaning(b[0]);
      assert forall k | 0 <= k < |a| - 1 :: a[1..][k] == a[k + 1] && b[1..][k] == b[k + 1];
      SameMeaningSame(Section(section, a[0]), a[1..], b[1..], group, key);
    }
  }

  /** What a sequence of lines means around one assignment inside the group. */
  lemma MeaningAround(before: seq<Token>, token: Token, after: seq<Token>, group: string, key: string)
    requires token.Assign? && token.key == KEY && SectionAfter(None, before) == Some(GROUP)
    ensures var all := before + [token] + after;
            && Groups(all) == Groups(before) + Groups(after)
            && Values(None, all, group, key)
               == Values(None, before, group, key)
                  + (if group == GROUP && key == KEY then [token.value] else [])
                  + Values(Some(GROUP), after, group, key)
  {
    assert before + [token] + after == before + ([token] + after);
    GroupsAround(before, token, after);
    ValuesConcat(None, before, [token] + after, group, key);
    OneValue(token, after, group, key);
  }

  lemma GroupsAround(before: seq<Token>, token: Token, after: seq<Token>)
    requires token.Assign?
    ensures Groups(before + ([token] + after)) == Groups(before) + Groups(after)
  {
    GroupsConcat(before, [token] + after);
    NoGroup(token, after);
  }

  lemma NoGroup(token: Token, after: seq<Token>)
    requires token.Assign?
    ensures Groups([token] + after) == Groups(after)
  {
    assert ([token] + after)[1..] == after;
  }

  lemma OneValue(token: Token, after: seq<Token>, group: string, key: string)
    requires token.Assign? && token.key == KEY
    ensures Values(Some(GROUP), [token] + after, group, key)
            == (if group == GROUP && key == KEY then [token.value] else []) + Values(Some(GROUP), after, group, key)
  {
    assert ([token] + after)[1..] == after;
  }

  ghost predicate OtherSettingsKept(a: seq<Token>, b: seq<Token>) {
    && Groups(a) == Groups(b)
    && forall group: string, key: string | group != GROUP || key != KEY ::
         Values(None, a, group, key) == Values(None, b, group, key)
  }

  lemma ReplacedMeaning(before: seq<Token>, was: Token, token: Token, after: seq<Token>)
    requires was.Assign? && token.Assign? && was.key == token.key == KEY && token.value == "false"
    requires SectionAfter(None, before) == Some(GROUP)
    requires |Values(None, before + [was] + after, GROUP, KEY)| <= 1
    ensures Values(None, before + [token] + after, GROUP, KEY) == ["false"]
    ensures OtherSettingsKept(before + [token] + after, before + [was] + after)
  {
    forall group: string, key: string
      ensures group != GROUP || key != KEY ==>
                Values(None, before + [token] + after, group, key) == Values(None, before + [was] + after, group, key)
    {
      MeaningAround(before, was, after, group, key);
      MeaningAround(before, token, after, group, key);
    }
    MeaningAround(before, was, after, GROUP, KEY);
    MeaningAround(before, token, after, GROUP, KEY);
  }

  lemma InsertedMeaning(before: seq<Token>, ended: seq<Token>, token: Token, after: seq<Token>)
    requires token.Assign? && token.key == KEY && token.value == "false" && SameMeaning(ended, before)
    requires SectionAfter(None, before) == Some(GROUP) && Values(None, before + after, GROUP, KEY) == []
    ensures Values(None, ended + [token] + after, GROUP, KEY) == ["false"]
    ensures OtherSettingsKept(ended + [token] + after, before + after)
  {
    forall group: string, key: string
      ensures group != GROUP || key != KEY ==>
                Values(None, ended + [token] + after, group, key) == Values(None, before + after, group, key)
    {
      SameMeaningSame(None, ended, before, group, key);
      MeaningAround(ended, token, after, group, key);
      ValuesConcat(None, before, after, group, key);
    }
    SameMeaningSame(None, ended, before, GROUP, KEY);
    MeaningAround(ended, token, after, GROUP, KEY);
    ValuesConcat(None, before, after, GROUP, KEY);
    GroupsConcat(before, after);
  }

  lemma ReplacedResult(s: string) returns (was: string, result: string)
    requires PositionIn(s).At? && PositionIn(s).end.Some? && |Setting(s)| <= 1
    ensures ReplacedAt(s, PositionIn(s), was, result) && Setting(s) == [was]
    ensures Setting(result) == ["false"] && OtherSettingsKept(Tokens(result), Tokens(s))
  {
    var before, earlier, token, after;
    before, earlier, token, after, result := ReplacedFile(s);
    was := earlier.value;
    ReplacedMeaning(before, earlier, token, after);
    MeaningAround(before, earlier, after, GROUP, KEY);
  }

  /** The edit at this place inserts the line between these two texts. */
  predicate InsertedAt(s: string, at: Position, pre: string, post: string, result: string) {
    && at == At(|pre|, None, false) && s == pre + post && pre != []
    && result == pre + Separator(pre, |pre|) + INSERTED + post
    && (post != [] ==> post[0] as int < 0x80)
  }

  lemma InsertedResult(s: string) returns (pre: string, post: string, result: string)
    requires PositionIn(s).At? && PositionIn(s).end.None? && Setting(s) == []
    ensures InsertedAt(s, PositionIn(s), pre, post, result)
    ensures Setting(result) == ["false"] && OtherSettingsKept(Tokens(result), Tokens(s))
  {
    pre, post := InsertionSite(s);
    var ended, token;
    ended, token, result := InsertedBetween(pre, post);
    InsertedMeaning(Tokens(pre), ended, token, Tokens(post));
  }

  // The edit of a whole cache

  /** The cache visibility() leaves: the edited text, or the text itself when nothing is to do. */
  function Edits(s: string): string
    requires VisibilityPosition(s).At?
  {
    var at := VisibilityPosition(s);
    if at.visible || at.start > |s| || (at.end.Some? && !(at.start <= at.end.value <= |s|)) then s
    else Edited(s, at)
  }

  lemma EditedInserted(s: string, at: Position, pre: string, post: string, result: string)
    requires InsertedAt(s, at, pre, post, result)
    ensures at.start <= |s| && Edited(s, at) == result
    ensures Decodable(s) ==> Decodable(result)
  {
    assert s[..|pre|] == pre && s[|pre|..] == post && s[|pre| - 1] == pre[|pre| - 1];
    if Decodable(s) {
      assert post != [] ==> s[|pre|] == post[0];
      DecodableCut(s, |pre|);
      InsertedDecodable(pre, post);
    }
  }

  lemma EditedReplaced(s: string, at: Position, was: string, result: string)
    requires ReplacedAt(s, at, was, result)
    ensures Decodable(s) ==> Decodable(result)
    ensures s == s[..at.start] + was + s[at.end.value..]
  {
    assert s[at.start] == s[at.start..at.end.value][0];
    if Decodable(s) {
      ReplacedDecodable(s, at.start, at.end.value);
    }
  }

  lemma EditResult(s: string) returns (result: string)
    requires VisibilityPosition(s).At? && !VisibilityPosition(s).visible
    ensures result == Edits(s) && Decodable(result)
    ensures Setting(result) == ["false"] && OtherSettingsKept(Tokens(result), Tokens(s))
  {
    AcceptedMeans(s);
    var at := PositionIn(s);
    if at.end.Some? {
      var was;
      was, result := ReplacedResult(s);
      EditedReplaced(s, at, was, result);
    } else {
      var pre, post;
      pre, post, result := InsertedResult(s);
      EditedInserted(s, at, pre, post, result);
    }
  }

  /** The edit yields an accepted, visible cache with every other group and key unchanged. */
  lemma EditPreservesMeaning(s: string, after: string)
    requires VisibilityPosition(s).At? && !VisibilityPosition(s).visible && after == Edits(s)
    ensures VisibilityPosition(after).At? && VisibilityPosition(after).visible
    ensures Setting(after) == ["false"]
    ensures Groups(Tokens(after)) == Groups(Tokens(s))
    ensures forall group: string, key: string | group != GROUP || key != KEY ::
              Values(None, Tokens(after), group, key) == Values(None, Tokens(s), group, key)
  {
    var result := EditResult(s);
    AcceptedMeans(s);
    VisibleIfMeaning(result);
  }

  lemma VisibleIfMeaning(s: string)
    requires Decodable(s) && Setting(s) == ["false"] && Count(Groups(Tokens(s)), GROUP) == 1
    ensures VisibilityPosition(s).At? && VisibilityPosition(s).visible
  {
    AcceptedMeans(s);
  }

  /** Only one boolean is exchanged, or one line inserted; every other byte stays. */
  lemma EditIsMinimal(s: string, after: string)
    requires VisibilityPosition(s).At? && !VisibilityPosition(s).visible && after == Edits(s)
    ensures exists pre, post ::
              || (s == pre + "true" + post && after == pre + "false" + post)
              || (s == pre + post && pre != [] && after == pre + Separator(pre, |pre|) + INSERTED + post)
  {
    AcceptedMeans(s);
    var at := PositionIn(s);
    if at.end.Some? {
      var was, result := ReplacedResult(s);
      EditedReplaced(s, at, was, result);
      assert was == "true" by {
        assert Setting(s)[0] == was;
        SettingBoolean(s);
      }
      assert after == s[..at.start] + "false" + s[at.end.value..];
    } else {
      var pre, post, result := InsertedResult(s);
      EditedInserted(s, at, pre, post, result);
    }
  }

  lemma SettingBoolean(s: string)
    requires VisibilityPosition(s).At?
    ensures Booleans(Setting(s))
  {
    AcceptedMeans(s);
  }

  /** A second edit changes nothing. */
  lemma EditIsIdempotent(s: string)
    requires VisibilityPosition(s).At?
    ensures VisibilityPosition(Edits(s)).At? && Edits(Edits(s)) == Edits(s)
  {
    if !VisibilityPosition(s).visible {
      EditPreservesMeaning(s, Edits(s));
    }
  }
}
