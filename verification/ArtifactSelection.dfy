/** The build inputs of tools/artifact_inputs.py told from the package records themselves: which
    records count, what they offer and need, and how the roots reach them. */
module ArtifactSelection {
  import opened Common
  import opened PythonText
  import opened ArtifactInputs

  // ---------------------------------------------------------------------------
  // Dependency fields
  // ---------------------------------------------------------------------------

  /** One alternative of a field: from a to b, no comma or bar inside, one or the field's ends around. */
  predicate Alternative(value: string, a: nat, b: nat) {
    && a <= b <= |value| && (forall i | a <= i < b :: !IsSeparator(value[i]))
    && (a > 0 ==> IsSeparator(value[a - 1])) && (b < |value| ==> IsSeparator(value[b]))
  }

  /** After white space a name stands from s to e of the part: it starts with a letter or digit and
      is as long as it can be. */
  predicate NamedIn(part: string, s: nat, e: nat) {
    && s < e <= |part| && (forall i | 0 <= i < s :: IsSpace(part[i])) && StartsName(part[s])
    && (forall i | s <= i < e :: InName(part[i])) && (e < |part| ==> !InName(part[e]))
  }

  /** Some alternative of the field starts with the name. */
  ghost predicate Mentions(value: string, name: string) {
    exists a: nat, b: nat, s: nat, e: nat :: MentionsAt(value, name, a, b, s, e)
  }

  predicate MentionsAt(value: string, name: string, a: nat, b: nat, s: nat, e: nat) {
    Alternative(value, a, b) && NamedIn(value[a..b], s, e) && value[a..b][s..e] == name
  }

  ghost predicate IsPart(value: string, part: string) {
    exists a: nat, b: nat :: Alternative(value, a, b) && value[a..b] == part
  }

  lemma AlternativeTail(value: string, a: nat, b: nat)
    requires value != [] && a <= b < |value|
    ensures Alternative(value, a + 1, b + 1) <==> Alternative(value[1..], a, b) && (a == 0 ==> IsSeparator(value[0]))
    ensures value[a + 1..b + 1] == value[1..][a..b]
    ensures Alternative(value, 0, b + 1) <==> Alternative(value[1..], 0, b) && !IsSeparator(value[0])
    ensures value[0..b + 1] == [value[0]] + value[1..][0..b]
  {
    var rest := value[1..];
    assert forall i | 0 <= i < |rest| :: rest[i] == value[i + 1];
    if Alternative(value, a + 1, b + 1) {
      assert forall i | a <= i < b :: rest[i] == value[i + 1];
    }
    if Alternative(rest, a, b) {
      assert forall i | a + 1 <= i < b + 1 :: value[i] == rest[i - 1];
    }
    if Alternative(rest, 0, b) && !IsSeparator(value[0]) {
      assert forall i | 1 <= i < b + 1 :: value[i] == rest[i - 1];
    }
    if Alternative(value, 0, b + 1) {
      assert !IsSeparator(value[0]);
      assert forall i | 0 <= i < b :: rest[i] == value[i + 1];
    }
  }

  /** The first part is the one that starts the field. */
  lemma {:induction false} FirstPart(value: string)
    ensures Alternatives(value) != []
    ensures exists b: nat :: Alternative(value, 0, b) && value[0..b] == Alternatives(value)[0]
  {
    if value == [] {
      assert Alternative(value, 0, 0) && value[0..0] == [];
    } else {
      FirstPart(value[1..]);
      if IsSeparator(value[0]) {
        assert Alternative(value, 0, 0) && value[0..0] == [];
      } else {
        var b: nat :| Alternative(value[1..], 0, b) && value[1..][0..b] == Alternatives(value[1..])[0];
        AlternativeTail(value, 0, b);
        assert Alternative(value, 0, b + 1);
      }
    }
  }

  lemma FirstIsUnique(value: string, b: nat, c: nat)
    requires Alternative(value, 0, b) && Alternative(value, 0, c)
    ensures b == c
  {
  }

  ghost predicate IsFirstPart(value: string, part: string) {
    exists b: nat :: Alternative(value, 0, b) && value[0..b] == part
  }

  ghost predicate IsLaterPart(value: string, part: string) {
    exists a: nat, b: nat :: 0 < a && Alternative(value, a, b) && value[a..b] == part
  }

  lemma LaterTail(value: string, part: string)
    requires value != []
    ensures IsLaterPart(value, part) <==>
              IsLaterPart(value[1..], part) || (IsSeparator(value[0]) && IsFirstPart(value[1..], part))
  {
    var rest := value[1..];
    if IsLaterPart(value, part) {
      var a: nat, b: nat :| 0 < a && Alternative(value, a, b) && value[a..b] == part;
      AlternativeTail(value, a - 1, b - 1);
      assert Alternative(rest, a - 1, b - 1) && rest[a - 1..b - 1] == part;
    }
    if IsLaterPart(rest, part) {
      var a: nat, b: nat :| 0 < a && Alternative(rest, a, b) && rest[a..b] == part;
      AlternativeTail(value, a, b);
      assert Alternative(value, a + 1, b + 1);
    }
    if IsSeparator(value[0]) && IsFirstPart(rest, part) {
      var b: nat :| Alternative(rest, 0, b) && rest[0..b] == part;
      AlternativeTail(value, 0, b);
      assert Alternative(value, 1, b + 1);
    }
  }

  lemma FirstIsFirst(value: string, part: string)
    ensures Alternatives(value) != [] && (part == Alternatives(value)[0] <==> IsFirstPart(value, part))
  {
    FirstPart(value);
    var b: nat :| Alternative(value, 0, b) && value[0..b] == Alternatives(value)[0];
    if c: nat :| Alternative(value, 0, c) && value[0..c] == part {
      FirstIsUnique(value, b, c);
    }
  }

  lemma {:induction false} LaterAreLater(value: string, part: string)
    ensures Alternatives(value) != [] && (part in Alternatives(value)[1..] <==> IsLaterPart(value, part))
  {
    if value != [] {
      var rest := Alternatives(value[1..]);
      LaterAreLater(value[1..], part);
      FirstIsFirst(value[1..], part);
      LaterTail(value, part);
      assert rest == [rest[0]] + rest[1..];
      if IsSeparator(value[0]) {
        assert Alternatives(value)[1..] == rest;
      } else {
        assert Alternatives(value)[1..] == rest[1..];
      }
    }
  }

  lemma PartsAreExact(value: string, part: string)
    ensures part in Alternatives(value) <==> IsPart(value, part)
  {
    var parts := Alternatives(value);
    FirstIsFirst(value, part);
    LaterAreLater(value, part);
    assert parts == [parts[0]] + parts[1..];
    if a: nat, b: nat :| Alternative(value, a, b) && value[a..b] == part {
      assert a == 0 ==> IsFirstPart(value, part);
    }
  }

  lemma StartsNoSpace(c: char)
    ensures StartsName(c) ==> !IsSpace(c) && InName(c)
  {
  }

  lemma {:induction false} PrefixIsLongest(s: string, n: nat)
    ensures |Prefix(s)| == n <==> n <= |s| && (forall i | 0 <= i < n :: InName(s[i])) && (n < |s| ==> !InName(s[n]))
    ensures Prefix(s) <= s
  {
    if s != [] && InName(s[0]) {
      if n > 0 {
        PrefixIsLongest(s[1..], n - 1);
        assert forall i | 1 <= i < |s| :: s[i] == s[1..][i - 1];
      } else {
        PrefixIsLongest(s[1..], 0);
      }
    }
  }

  ghost predicate HasName(part: string, name: string) {
    exists s: nat, e: nat :: NamedIn(part, s, e) && part[s..e] == name
  }

  lemma NameShift(part: string, s: nat, e: nat)
    requires part != [] && IsSpace(part[0]) && s <= e < |part|
    ensures NamedIn(part[1..], s, e) <==> NamedIn(part, s + 1, e + 1)
    ensures part[1..][s..e] == part[s + 1..e + 1]
  {
    var rest := part[1..];
    assert forall i | 0 <= i < |rest| :: rest[i] == part[i + 1];
    if NamedIn(rest, s, e) {
      assert forall i | 1 <= i < |part| :: part[i] == rest[i - 1];
    }
  }

  lemma SpaceBeforeName(part: string, name: string)
    requires part != [] && IsSpace(part[0])
    ensures HasName(part, name) <==> HasName(part[1..], name)
  {
    if s: nat, e: nat :| NamedIn(part, s, e) && part[s..e] == name {
      StartsNoSpace(part[0]);
      NameShift(part, s - 1, e - 1);
    }
    if s: nat, e: nat :| NamedIn(part[1..], s, e) && part[1..][s..e] == name {
      NameShift(part, s, e);
    }
  }

  lemma {:induction false} NameIsExact(part: string, name: string)
    ensures NameOf(part) == Some(name) <==> HasName(part, name)
  {
    if part == [] {
    } else if IsSpace(part[0]) {
      NameIsExact(part[1..], name);
      SpaceBeforeName(part, name);
    } else {
      var n := |Prefix(part)|;
      PrefixIsLongest(part, n);
      StartsNoSpace(part[0]);
      if StartsName(part[0]) {
        assert NamedIn(part, 0, n) && part[0..n] == Prefix(part);
      }
      if s: nat, e: nat :| NamedIn(part, s, e) && part[s..e] == name {
        assert s == 0;
        PrefixIsLongest(part, e);
      }
    }
  }

  /** A field names exactly the packages that its alternatives start with. */
  lemma NamesAreExact(value: string, name: string)
    ensures name in DependencyNames(value) <==> Mentions(value, name)
  {
    if name in DependencyNames(value) {
      var part :| part in Alternatives(value) && NameOf(part) == Some(name);
      PartsAreExact(value, part);
      NameIsExact(part, name);
      var a: nat, b: nat :| Alternative(value, a, b) && value[a..b] == part;
      var s: nat, e: nat :| NamedIn(part, s, e) && part[s..e] == name;
      assert MentionsAt(value, name, a, b, s, e);
    }
    if a: nat, b: nat, s: nat, e: nat :| MentionsAt(value, name, a, b, s, e) {
      PartsAreExact(value, value[a..b]);
      NameIsExact(value[a..b], name);
    }
  }

  // ---------------------------------------------------------------------------
  // The records that count
  // ---------------------------------------------------------------------------

  function KeyOf(p: Package): string {
    p.name + ":" + p.architecture
  }

  /** An installed record that no later installed record replaces. */
  predicate Counts(records: seq<Package>, i: nat) {
    && i < |records| && records[i].installed
    && forall j | i < j < |records| && records[j].installed :: KeyOf(records[j]) != KeyOf(records[i])
  }

  lemma CountsBefore(records: seq<Package>, i: nat)
    requires records != []
    ensures
      var last := |records| - 1;
      Counts(records, i) <==>
        if i == last then records[last].installed
        else Counts(records[..last], i) && !(records[last].installed && KeyOf(records[last]) == KeyOf(records[i]))
  {
    var last := |records| - 1;
    if Counts(records, i) && i < last {
      assert forall j | i < j < last :: records[..last][j] == records[j];
    }
    if i < last && Counts(records[..last], i) {
      assert forall j | i < j < last :: records[..last][j] == records[j];
    }
  }

  lemma {:induction false} InstalledIsExact(records: seq<Package>, key: string)
    ensures key in Installed(records) <==> exists i: nat :: Counts(records, i) && KeyOf(records[i]) == key
    ensures forall i: nat | Counts(records, i) && KeyOf(records[i]) == key ::
              key in Installed(records) && Installed(records)[key] == records[i]
    decreases |records|
  {
    if records != [] {
      var last := |records| - 1;
      var before := records[..last];
      InstalledIsExact(before, key);
      forall i: nat
        ensures Counts(records, i) <==>
                  if i == last then records[last].installed
                  else Counts(before, i) && !(records[last].installed && KeyOf(records[last]) == KeyOf(records[i]))
      {
        CountsBefore(records, i);
      }
      if key in Installed(records) {
        if records[last].installed && KeyOf(records[last]) == key {
          assert Counts(records, last);
        } else {
          var i: nat :| Counts(before, i) && KeyOf(before[i]) == key;
          assert Counts(records, i);
        }
      }
    }
  }

  // ---------------------------------------------------------------------------
  // What the roots reach
  // ---------------------------------------------------------------------------

  ghost predicate Offers(p: Package, name: string) {
    name == p.name || Mentions(p.offers, name)
  }

  ghost predicate Needs(p: Package, name: string) {
    Mentions(p.depends, name) || Mentions(p.preDepends, name)
  }

  /** A root by name, or the name of an essential package where those are wanted. */
  ghost predicate Rooted(records: seq<Package>, roots: set<string>, essential: bool, name: string) {
    || name in roots
    || (essential && exists i: nat :: Counts(records, i) && records[i].essential && records[i].name == name)
  }

  /** Records that count, the first offering a root and each other one a need of the one before. */
  ghost predicate Path(records: seq<Package>, roots: set<string>, essential: bool, path: seq<nat>)
    decreases |path|
  {
    && path != []
    && var rest, i := path[..|path| - 1], path[|path| - 1];
       && Counts(records, i)
       && if rest == [] then exists name :: Rooted(records, roots, essential, name) && Offers(records[i], name)
          else
            && Path(records, roots, essential, rest)
            && exists name :: Needs(records[rest[|rest| - 1]], name) && Offers(records[i], name)
  }

  lemma ProvidersAre(records: seq<Package>, i: nat, name: string)
    requires Counts(records, i)
    ensures KeyOf(records[i]) in Providers(Installed(records), name) <==> Offers(records[i], name)
  {
    InstalledIsExact(records, KeyOf(records[i]));
    NamesAreExact(records[i].offers, name);
  }

  lemma NeededAre(p: Package, name: string)
    ensures name in Needed(p) <==> Needs(p, name)
  {
    NamesAreExact(p.depends, name);
    NamesAreExact(p.preDepends, name);
  }

  lemma RootsAre(records: seq<Package>, roots: set<string>, essential: bool, name: string)
    ensures name in Roots(Installed(records), roots, essential) <==> Rooted(records, roots, essential, name)
  {
    var status := Installed(records);
    if essential {
      if key :| key in status && status[key].essential && status[key].name == name {
        InstalledIsExact(records, key);
        var i: nat :| Counts(records, i) && KeyOf(records[i]) == key;
      }
      if i: nat :| Counts(records, i) && records[i].essential && records[i].name == name {
        InstalledIsExact(records, KeyOf(records[i]));
        assert status[KeyOf(records[i])].name == name;
      }
    }
  }

  /** The names a path may go on with: the roots first, then what its last record needs. */
  function Open(records: seq<Package>, roots: set<string>, essential: bool, rest: seq<nat>): set<string>
    requires rest != [] ==> rest[|rest| - 1] < |records|
  {
    if rest == [] then Roots(Installed(records), roots, essential) else Needed(records[rest[|rest| - 1]])
  }

  lemma WantedAre(records: seq<Package>, roots: set<string>, essential: bool, rest: seq<nat>, i: nat)
    requires Counts(records, i) && (rest != [] ==> rest[|rest| - 1] < |records|)
    ensures
      Wanted(Installed(records), Open(records, roots, essential, rest), KeyOf(records[i])) <==>
      if rest == [] then exists name :: Rooted(records, roots, essential, name) && Offers(records[i], name)
      else exists name :: Needs(records[rest[|rest| - 1]], name) && Offers(records[i], name)
  {
    forall name
      ensures KeyOf(records[i]) in Providers(Installed(records), name) <==> Offers(records[i], name)
      ensures rest == [] ==> (name in Open(records, roots, essential, rest) <==> Rooted(records, roots, essential, name))
      ensures rest != [] ==> (name in Open(records, roots, essential, rest) <==> Needs(records[rest[|rest| - 1]], name))
    {
      ProvidersAre(records, i, name);
      if rest == [] {
        RootsAre(records, roots, essential, name);
      } else {
        NeededAre(records[rest[|rest| - 1]], name);
      }
    }
  }

  lemma PathExtends(records: seq<Package>, roots: set<string>, essential: bool, before: seq<nat>, i: nat)
    requires Counts(records, i) && (before != [] ==> Path(records, roots, essential, before))
    requires before != [] ==> before[|before| - 1] < |records|
    requires Wanted(Installed(records), Open(records, roots, essential, before), KeyOf(records[i]))
    ensures Path(records, roots, essential, before + [i])
  {
    WantedAre(records, roots, essential, before, i);
    assert (before + [i])[..|before + [i]| - 1] == before;
  }

  lemma RecordOf(records: seq<Package>, key: string) returns (i: nat)
    requires key in Installed(records)
    ensures Counts(records, i) && KeyOf(records[i]) == key && Installed(records)[key] == records[i]
  {
    InstalledIsExact(records, key);
    i :| Counts(records, i) && KeyOf(records[i]) == key;
  }

  /** What the last key of a chain is wanted for. */
  lemma ChainEnd(status: Status, roots: set<string>, chain: seq<string>)
    requires Chain(status, roots, chain)
    ensures chain[|chain| - 1] in status
    ensures |chain| == 1 ==> Wanted(status, roots, chain[|chain| - 1])
    ensures |chain| > 1 ==> Chain(status, roots, chain[..|chain| - 1]) && chain[|chain| - 2] in status
                            && Wanted(status, Needed(status[chain[|chain| - 2]]), chain[|chain| - 1])
  {
    if |chain| > 1 {
      assert chain[..|chain| - 1][|chain| - 2] == chain[|chain| - 2];
    }
  }

  lemma {:induction false} ChainIsPath(records: seq<Package>, roots: set<string>, essential: bool, chain: seq<string>)
    returns (path: seq<nat>)
    requires Chain(Installed(records), Roots(Installed(records), roots, essential), chain)
    ensures Path(records, roots, essential, path) && KeyOf(records[path[|path| - 1]]) == chain[|chain| - 1]
    ensures |path| == |chain|
    decreases |chain|
  {
    ChainEnd(Installed(records), Roots(Installed(records), roots, essential), chain);
    var i := RecordOf(records, chain[|chain| - 1]);
    var before := [];
    if |chain| > 1 {
      before := ChainIsPath(records, roots, essential, chain[..|chain| - 1]);
      InstalledIsExact(records, chain[|chain| - 2]);
    }
    PathExtends(records, roots, essential, before, i);
    path := before + [i];
  }

  lemma {:induction false} PathIsChain(records: seq<Package>, roots: set<string>, essential: bool, path: seq<nat>)
    returns (chain: seq<string>)
    requires Path(records, roots, essential, path)
    ensures Chain(Installed(records), Roots(Installed(records), roots, essential), chain)
    ensures chain[|chain| - 1] == KeyOf(records[path[|path| - 1]]) && |path| == |chain|
    decreases |path|
  {
    var rest, i := path[..|path| - 1], path[|path| - 1];
    InstalledIsExact(records, KeyOf(records[i]));
    var before := [];
    if rest != [] {
      before := PathIsChain(records, roots, essential, rest);
      InstalledIsExact(records, before[|before| - 1]);
    }
    WantedAre(records, roots, essential, rest, i);
    chain := before + [KeyOf(records[i])];
    assert chain[..|chain| - 1] == before;
  }

  /** What the selection is, in terms of the records alone: exactly the installed packages that a
      root or an essential package leads to, by any alternatives of Depends and Pre-Depends and any
      names or Provides; each with the identity of its last record. */
  lemma SelectionIsExact(records: seq<Package>, roots: set<string>, essential: bool, selected: map<string, Identity>, key: string)
    requires Least(Installed(records), Roots(Installed(records), roots, essential), selected.Keys)
    requires Identified(Installed(records), selected)
    ensures key in selected <==>
              exists path :: Path(records, roots, essential, path) && KeyOf(records[path[|path| - 1]]) == key
    ensures forall i: nat | Counts(records, i) && KeyOf(records[i]) == key && key in selected ::
              var p := records[i];
              selected[key] == Identity(p.version, p.architecture, p.depends, p.preDepends, p.offers, p.conffiles)
  {
    var status := Installed(records);
    var all := Roots(status, roots, essential);
    LeastIsReachable(status, all, selected.Keys);
    InstalledIsExact(records, key);
    if key in selected {
      var chain :| Chain(status, all, chain) && chain[|chain| - 1] == key;
      var path := ChainIsPath(records, roots, essential, chain);
    }
    if path :| Path(records, roots, essential, path) && KeyOf(records[path[|path| - 1]]) == key {
      var chain := PathIsChain(records, roots, essential, path);
      assert Reachable(status, all, key);
    }
  }
}
