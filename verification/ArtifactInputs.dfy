/** The build-input closure of tools/artifact_inputs.py: the installed packages that the roots
    reach through Depends, Pre-Depends and Provides. */
module ArtifactInputs {
  import opened PythonText
  import opened Common

  // ---------------------------------------------------------------------------
  // Dependency fields
  // ---------------------------------------------------------------------------

  predicate IsSeparator(c: char) {
    c == ',' || c == '|'
  }

  predicate StartsName(c: char) {
    'a' <= c <= 'z' || '0' <= c <= '9'
  }

  predicate InName(c: char) {
    StartsName(c) || c == '+' || c == '.' || c == '-'
  }

  /** The longest prefix of name characters. */
  function Prefix(s: string): string {
    if s != [] && InName(s[0]) then [s[0]] + Prefix(s[1..]) else []
  }

  /** The package name one alternative starts with. */
  function NameOf(part: string): Option<string> {
    if part == [] then None
    else if IsSpace(part[0]) then NameOf(part[1..])
    else if StartsName(part[0]) then Some(Prefix(part))
    else None
  }

  function Alternatives(value: string): seq<string> {
    if value == [] then [[]]
    else
      var rest := Alternatives(value[1..]);
      if IsSeparator(value[0]) then [[]] + rest else [[value[0]] + rest[0]] + rest[1..]
  }

  function DependencyNames(value: string): set<string> {
    set part | part in Alternatives(value) && NameOf(part).Some? :: NameOf(part).value
  }

  lemma {:induction false} AlternativesConcat(a: string, separator: char, b: string)
    requires IsSeparator(separator)
    ensures Alternatives(a + [separator] + b) == Alternatives(a) + Alternatives(b)
  {
    if a == [] {
      assert a + [separator] + b == [separator] + b;
      assert ([separator] + b)[1..] == b;
    } else {
      assert (a + [separator] + b)[1..] == a[1..] + [separator] + b;
      AlternativesConcat(a[1..], separator, b);
    }
  }

  /** No alternative hides another: each side of a comma or bar contributes its own names. */
  lemma NamesUnite(a: string, separator: char, b: string)
    requires IsSeparator(separator)
    ensures DependencyNames(a + [separator] + b) == DependencyNames(a) + DependencyNames(b)
  {
    AlternativesConcat(a, separator, b);
  }

  lemma {:induction false} PrefixExactly(name: string, rest: string)
    requires forall i | 0 <= i < |name| :: InName(name[i])
    requires rest != [] ==> !InName(rest[0])
    ensures Prefix(name + rest) == name
  {
    if name == [] {
      assert name + rest == rest;
    } else {
      assert (name + rest)[1..] == name[1..] + rest;
      PrefixExactly(name[1..], rest);
    }
  }

  lemma {:induction false} OneAlternative(value: string)
    requires forall i | 0 <= i < |value| :: !IsSeparator(value[i])
    ensures Alternatives(value) == [value]
  {
    if value != [] {
      OneAlternative(value[1..]);
      assert value == [value[0]] + value[1..];
    }
  }

  lemma {:induction false} NameAfterSpace(margin: string, rest: string)
    requires forall i | 0 <= i < |margin| :: IsSpace(margin[i])
    ensures NameOf(margin + rest) == NameOf(rest)
  {
    if margin == [] {
      assert margin + rest == rest;
    } else {
      assert (margin + rest)[1..] == margin[1..] + rest;
      NameAfterSpace(margin[1..], rest);
    }
  }

  /** One dependency is its package name, whatever version or architecture clause follows. */
  lemma OneDependency(margin: string, name: string, clause: string)
    requires forall i | 0 <= i < |margin| :: IsSpace(margin[i])
    requires name != [] && StartsName(name[0]) && forall i | 0 <= i < |name| :: InName(name[i])
    requires clause != [] ==> !InName(clause[0])
    requires forall i | 0 <= i < |clause| :: !IsSeparator(clause[i])
    ensures DependencyNames(margin + (name + clause)) == {name}
  {
    var value := margin + (name + clause);
    forall i | 0 <= i < |value|
      ensures !IsSeparator(value[i])
    {
    }
    OneAlternative(value);
    NameAfterSpace(margin, name + clause);
    PrefixExactly(name, clause);
    assert Alternatives(value)[0] == value;
  }

  // ---------------------------------------------------------------------------
  // The installed packages
  // ---------------------------------------------------------------------------

  datatype Package = Package(
    name: string, architecture: string, version: string, installed: bool, essential: bool,
    offers: string, depends: string, preDepends: string, conffiles: string)

  /** What identifies a package in a build. */
  datatype Identity = Identity(
    version: string, architecture: string, depends: string, preDepends: string, offers: string, conffiles: string)

  function IdentityOf(p: Package): Identity {
    Identity(p.version, p.architecture, p.depends, p.preDepends, p.offers, p.conffiles)
  }

  type Status = map<string, Package>

  /** The installed records by name and architecture; a later record replaces an earlier one. */
  function Installed(records: seq<Package>): Status {
    if records == [] then map[]
    else
      var p := records[|records| - 1];
      var rest := Installed(records[..|records| - 1]);
      if p.installed then rest[p.name + ":" + p.architecture := p] else rest
  }

  function Provided(p: Package): set<string> {
    {p.name} + DependencyNames(p.offers)
  }

  function Needed(p: Package): set<string> {
    DependencyNames(p.depends) + DependencyNames(p.preDepends)
  }

  function Providers(status: Status, name: string): set<string> {
    set key | key in status && name in Provided(status[key])
  }

  function Roots(status: Status, roots: set<string>, essential: bool): set<string> {
    roots + if essential then (set key | key in status && status[key].essential :: status[key].name) else {}
  }

  /** The set holds every provider of a root and of a dependency of a member. */
  ghost predicate Closed(status: Status, roots: set<string>, keys: set<string>) {
    && keys <= status.Keys
    && (forall name | name in roots :: Providers(status, name) <= keys)
    && (forall key, name | key in keys && name in Needed(status[key]) :: Providers(status, name) <= keys)
  }

  ghost predicate Least(status: Status, roots: set<string>, keys: set<string>) {
    Closed(status, roots, keys) && forall other: set<string> | Closed(status, roots, other) :: keys <= other
  }

  /** The package offers one of the names. */
  predicate Wanted(status: Status, names: set<string>, key: string) {
    exists name | name in names :: key in Providers(status, name)
  }

  /** Packages from a root on, each offering a name that the one before it needs. */
  predicate Chain(status: Status, roots: set<string>, chain: seq<string>)
    decreases |chain|
  {
    && chain != []
    && var rest, key := chain[..|chain| - 1], chain[|chain| - 1];
       && key in status
       && if rest == [] then Wanted(status, roots, key)
          else Chain(status, roots, rest) && Wanted(status, Needed(status[rest[|rest| - 1]]), key)
  }

  ghost predicate Reachable(status: Status, roots: set<string>, key: string) {
    exists chain :: Chain(status, roots, chain) && chain[|chain| - 1] == key
  }

  lemma {:induction false} ChainsEndInside(status: Status, roots: set<string>, keys: set<string>, chain: seq<string>)
    requires Closed(status, roots, keys) && Chain(status, roots, chain)
    ensures chain[|chain| - 1] in keys
    decreases |chain|
  {
    if |chain| == 1 {
    } else {
      ChainsEndInside(status, roots, keys, chain[..|chain| - 1]);
    }
  }

  lemma ReachableIsClosed(status: Status, roots: set<string>, keys: set<string>)
    requires forall key | key in status :: key in keys <==> Reachable(status, roots, key)
    requires keys <= status.Keys
    ensures Closed(status, roots, keys)
  {
    forall name, next | name in roots && next in Providers(status, name)
      ensures next in keys
    {
      assert Chain(status, roots, [next]);
    }
    forall key, name, next | key in keys && name in Needed(status[key]) && next in Providers(status, name)
      ensures next in keys
    {
      var chain :| Chain(status, roots, chain) && chain[|chain| - 1] == key;
      var longer := chain + [next];
      assert longer[..|longer| - 1] == chain;
      assert Chain(status, roots, longer);
    }
  }

  /** The least closed set is exactly what chains of dependencies reach from the roots: no package
      is missing, none is superfluous, and the order of the work cannot matter. */
  lemma LeastIsReachable(status: Status, roots: set<string>, keys: set<string>)
    requires Least(status, roots, keys)
    ensures forall key :: key in keys <==> Reachable(status, roots, key)
  {
    var reachable := set key | key in status && Reachable(status, roots, key);
    ReachableIsClosed(status, roots, reachable);
    forall key | Reachable(status, roots, key)
      ensures key in keys
    {
      var chain :| Chain(status, roots, chain) && chain[|chain| - 1] == key;
      ChainsEndInside(status, roots, keys, chain);
    }
  }

  // ---------------------------------------------------------------------------
  // The worklist
  // ---------------------------------------------------------------------------

  type Index = map<string, set<string>>

  function At(index: Index, name: string): set<string> {
    if name in index then index[name] else {}
  }

  method BuildIndex(status: Status) returns (index: Index)
    ensures forall name: string :: At(index, name) == Providers(status, name)
  {
    index := map[];
    var left := status.Keys;
    while left != {}
      invariant left <= status.Keys
      invariant forall name: string :: At(index, name) == Providers(status, name) - left
    {
      var key :| key in left;
      ghost var before := index;
      var names := Provided(status[key]);
      while names != {}
        invariant names <= Provided(status[key])
        invariant forall name: string ::
          At(index, name) == At(before, name) + if name in Provided(status[key]) - names then {key} else {}
      {
        var name :| name in names;
        index := index[name := At(index, name) + {key}];
        names := names - {name};
      }
      left := left - {key};
    }
  }

  /** What the worklist knows: everything selected or pending is demanded by every closed set,
      and what is not closed yet is still pending. */
  ghost predicate Demanded(status: Status, roots: set<string>, keys: set<string>, pending: set<string>) {
    forall other: set<string> | Closed(status, roots, other) ::
      keys <= other && forall name | name in pending :: Providers(status, name) <= other
  }

  ghost predicate Served(status: Status, keys: set<string>, pending: set<string>, names: set<string>) {
    forall name | name in names :: name in pending || Providers(status, name) <= keys
  }

  ghost predicate AllServed(status: Status, keys: set<string>, pending: set<string>)
    requires keys <= status.Keys
  {
    forall key | key in keys :: Served(status, keys, pending, Needed(status[key]))
  }

  /** The three facts the worklist keeps. */
  ghost predicate Progress(status: Status, all: set<string>, keys: set<string>, pending: set<string>) {
    keys <= status.Keys && Demanded(status, all, keys, pending) && Served(status, keys, pending, all)
    && AllServed(status, keys, pending)
  }

  lemma Begins(status: Status, all: set<string>)
    ensures Progress(status, all, {}, all)
  {
  }

  lemma SelectKeeps(status: Status, all: set<string>, keys: set<string>, pending: set<string>, name: string, key: string)
    requires Progress(status, all, keys, pending) && name in pending && key in Providers(status, name)
    ensures Progress(status, all, keys + {key}, pending + Needed(status[key]))
  {
    var more := pending + Needed(status[key]);
    forall other: set<string> | Closed(status, all, other)
      ensures keys + {key} <= other && forall n | n in more :: Providers(status, n) <= other
    {
      assert Providers(status, name) <= other;
    }
  }

  lemma DropKeeps(status: Status, all: set<string>, keys: set<string>, pending: set<string>, name: string)
    requires Progress(status, all, keys, pending + {name}) && Providers(status, name) <= keys
    ensures Progress(status, all, keys, pending)
  {
    assert forall n | n in pending + {name} :: n in pending || Providers(status, n) <= keys;
  }

  lemma FinishedIsLeast(status: Status, all: set<string>, keys: set<string>)
    requires Progress(status, all, keys, {})
    ensures Least(status, all, keys)
  {
  }

  predicate Identified(status: Status, selected: map<string, Identity>) {
    forall key | key in selected :: key in status && selected[key] == IdentityOf(status[key])
  }

  /** Selects the providers of one name; the name itself stays demanded until they all are. */
  method SelectProviders(status: Status, keys: set<string>, selected: map<string, Identity>, pending: set<string>,
                         ghost all: set<string>, ghost name: string)
    returns (selected': map<string, Identity>, pending': set<string>)
    requires keys == Providers(status, name) && Identified(status, selected)
    requires Progress(status, all, selected.Keys, pending + {name})
    ensures Progress(status, all, selected'.Keys, pending')
    ensures Identified(status, selected')
    ensures selected.Keys <= selected'.Keys && (selected'.Keys == selected.Keys ==> pending' == pending)
  {
    selected', pending' := selected, pending;
    var left := keys;
    while left != {}
      invariant left <= keys <= selected'.Keys + left
      invariant Identified(status, selected') && selected.Keys <= selected'.Keys
      invariant selected'.Keys == selected.Keys ==> pending' == pending
      invariant Progress(status, all, selected'.Keys, pending' + {name})
    {
      var key :| key in left;
      left := left - {key};
      if key !in selected' {
        SelectKeeps(status, all, selected'.Keys, pending' + {name}, name, key);
        assert pending' + {name} + Needed(status[key]) == pending' + Needed(status[key]) + {name};
        assert selected'[key := IdentityOf(status[key])].Keys == selected'.Keys + {key};
        selected' := selected'[key := IdentityOf(status[key])];
        pending' := pending' + Needed(status[key]);
      }
    }
    DropKeeps(status, all, selected'.Keys, pending', name);
  }

  /** Selects the least closed set, in whatever order the pending names are taken. */
  method PackageRecords(records: seq<Package>, roots: set<string>, essential: bool)
    returns (selected: map<string, Identity>)
    ensures Least(Installed(records), Roots(Installed(records), roots, essential), selected.Keys)
    ensures Identified(Installed(records), selected)
  {
    var status := Installed(records);
    var index := BuildIndex(status);
    var pending := Roots(status, roots, essential);
    ghost var all := pending;
    selected := map[];
    Begins(status, all);
    while pending != {}
      invariant Identified(status, selected)
      invariant Progress(status, all, selected.Keys, pending)
      decreases status.Keys - selected.Keys, |pending|
    {
      var name :| name in pending;
      assert pending - {name} + {name} == pending;
      ghost var before := selected.Keys;
      selected, pending := SelectProviders(status, At(index, name), selected, pending - {name}, all, name);
      assert selected.Keys != before ==> status.Keys - selected.Keys < status.Keys - before;
    }
    FinishedIsLeast(status, all, selected.Keys);
  }
}
