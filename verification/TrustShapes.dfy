/** Which configurations packaging/package_activation.py edits, said of their lines apart from the
    scans. */
module TrustShapes {
  import opened ByteText
  import opened TrustConfig

  /** A trust line: blanks, the keyword, blanks, an equals sign, blanks, and the value up to a
      comment or carriage return. */
  ghost predicate TrustLine(line: string, value: string) {
    exists p: string, q: string, r: string, tail: string :: TrustParts(line, value, p, q, r, tail)
  }

  predicate TrustParts(line: string, value: string, p: string, q: string, r: string, tail: string) {
    && line == p + "trust" + q + ['='] + r + (value + tail)
    && TrustConfig.AllBlank(p) && TrustConfig.AllBlank(q) && TrustConfig.AllBlank(r)
    && (value + tail != [] ==> (value + tail)[0] != ' ' && (value + tail)[0] != '\t')
    && '\r' !in value && '#' !in value && (tail != [] ==> tail[0] == '\r' || tail[0] == '#')
  }

  lemma LineIsExact(line: string, value: string)
    ensures IsTrust(line) && Parse(line).value.value == value <==> TrustLine(line, value)
  {
    if IsTrust(line) && Parse(line).value.value == value {
      var p, q, r := ParseParts(line);
      assert TrustParts(line, value, p, q, r, Parse(line).value.tail);
    }
    if p: string, q: string, r: string, tail: string :| TrustParts(line, value, p, q, r, tail) {
      assert Proper(value, tail);
      assert Head(p, q, r) == p + "trust" + q + ['='] + r;
      ParseExactly(p, q, r, value, tail);
    }
  }

  /** Line i is a trust line with this value, and no other line is one. */
  ghost predicate OnlyTrustLine(lines: seq<string>, i: nat, value: string) {
    && i < |lines| && TrustLine(lines[i], value)
    && forall j: nat, other: string | j < |lines| && TrustLine(lines[j], other) :: j == i
  }

  lemma {:induction false} MatchesAreExact(lines: seq<string>, i: nat)
    ensures i in Matches(lines) <==> i < |lines| && IsTrust(lines[i])
    decreases |lines|
  {
    if lines != [] {
      var last := |lines| - 1;
      MatchesAreExact(lines[..last], i);
    }
  }

  lemma {:induction false} MatchesIncrease(lines: seq<string>)
    ensures forall j, k | 0 <= j < k < |Matches(lines)| :: Matches(lines)[j] < Matches(lines)[k]
    decreases |lines|
  {
    if lines != [] {
      MatchesIncrease(lines[..|lines| - 1]);
    }
  }

  lemma OneMatch(lines: seq<string>, i: nat)
    ensures Matches(lines) == [i] <==> i < |lines| && IsTrust(lines[i]) && forall j: nat | j < |lines| && IsTrust(lines[j]) :: j == i
  {
    forall j: nat
      ensures j in Matches(lines) <==> j < |lines| && IsTrust(lines[j])
    {
      MatchesAreExact(lines, j);
    }
    MatchesIncrease(lines);
    if i < |lines| && IsTrust(lines[i]) && forall j: nat | j < |lines| && IsTrust(lines[j]) :: j == i {
      var m := Matches(lines);
      assert i in m;
      assert forall k | 0 <= k < |m| :: m[k] in m;
      assert |m| > 1 ==> m[0] < m[1];
    }
  }

  lemma OnlyIsExact(lines: seq<string>, i: nat, value: string)
    ensures OnlyTrustLine(lines, i, value) <==>
              Matches(lines) == [i] && i < |lines| && IsTrust(lines[i]) && Parse(lines[i]).value.value == value
  {
    OneMatch(lines, i);
    forall j: nat, other: string | j < |lines|
      ensures IsTrust(lines[j]) && Parse(lines[j]).value.value == other <==> TrustLine(lines[j], other)
    {
      LineIsExact(lines[j], other);
    }
    forall j: nat | j < |lines| && IsTrust(lines[j])
      ensures TrustLine(lines[j], Parse(lines[j]).value.value)
    {
    }
  }

  /** One of the parts between the commas is the source, but for white space around it. */
  ghost predicate Names(value: string, source: string) {
    exists parts: seq<string>, k: nat :: NamesAt(value, source, parts, k)
  }

  predicate NamesAt(value: string, source: string, parts: seq<string>, k: nat) {
    && k < |parts| && value == Join(parts, ',') && (forall i | 0 <= i < |parts| :: ',' !in parts[i])
    && Strip(parts[k]) == source
  }

  /** The value is nothing but the source and white space around it. */
  predicate NamesOnly(value: string, source: string) {
    ',' !in value && Strip(value) == source
  }

  lemma {:induction false} StrippedAt(fields: seq<string>, k: nat)
    requires k < |fields|
    ensures |Stripped(fields)| == |fields| && Stripped(fields)[k] == Strip(fields[k])
  {
    StrippedLength(fields);
    if k > 0 {
      StrippedAt(fields[1..], k - 1);
    }
  }

  lemma SourcesAreExact(value: string, source: string)
    ensures source in Sources(value) <==> Names(value, source)
    ensures Sources(value) == [source] <==> NamesOnly(value, source)
  {
    var fields := Split(value, ',');
    SplitJoin(value, ',');
    StrippedLength(fields);
    if source in Sources(value) {
      var k :| 0 <= k < |Sources(value)| && Sources(value)[k] == source;
      StrippedAt(fields, k);
      assert NamesAt(value, source, fields, k);
    }
    if parts: seq<string>, k: nat :| NamesAt(value, source, parts, k) {
      JoinSplit(parts, ',');
      StrippedAt(parts, k);
    }
    if NamesOnly(value, source) {
      SplitNone(value, ',');
      StrippedAt([value], 0);
    }
    if Sources(value) == [source] {
      StrippedAt(fields, 0);
      assert fields == [fields[0]];
      assert Join(fields, ',') == fields[0];
    }
  }

  /** A configuration is accepted exactly if one line sets trust, and to something that names file
      or is debdb alone; it is ambiguous exactly if not one line does; and it is changed exactly if
      it was debdb alone. */
  lemma EnabledIsExact(contents: string)
    ensures
      var lines := Split(contents, '\n');
      && Join(lines, '\n') == contents && (forall i | 0 <= i < |lines| :: '\n' !in lines[i])
      && (Enabled(contents).Ambiguous? <==> !exists i: nat, value: string :: OnlyTrustLine(lines, i, value))
      && (forall i: nat, value: string | OnlyTrustLine(lines, i, value) ::
            && (Enabled(contents).Ok? <==> Names(value, "file") || NamesOnly(value, "debdb"))
            && (Enabled(contents) == Ok(contents) <==> Names(value, "file")))
  {
    var lines := Split(contents, '\n');
    var matches := Matches(lines);
    SplitJoin(contents, '\n');
    if |matches| == 1 {
      OnlyIsExact(lines, matches[0], Parse(lines[matches[0]]).value.value);
      assert matches == [matches[0]];
    }
    forall i: nat, value: string | OnlyTrustLine(lines, i, value)
      ensures matches == [i]
      ensures Enabled(contents).Ok? <==> Names(value, "file") || NamesOnly(value, "debdb")
      ensures Enabled(contents) == Ok(contents) <==> Names(value, "file")
    {
      OnlyIsExact(lines, i, value);
      SourcesAreExact(value, FILE);
      SourcesAreExact(value, DEBDB);
      if Enabled(contents).Ok? {
        var before, after := OnlyTheValueChanges(contents);
      }
    }
  }
}
