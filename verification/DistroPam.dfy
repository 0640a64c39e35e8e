/** The PAM time policy of packaging/distro_pam.py: the owned blocks with their relative jumps,
    the logical lines they are looked for in, and what an accepted stack does. */
module DistroPam {
  import opened Common
  import opened PythonText

  // ---------------------------------------------------------------------------
  // Logical lines
  // ---------------------------------------------------------------------------

  /** rstrip(' \t\n') */
  function TrimEnd(s: string): string {
    if s != [] && (IsBlank(s[|s| - 1]) || s[|s| - 1] == '\n') then TrimEnd(s[..|s| - 1]) else s
  }

  /** lstrip(' \t') */
  function TrimStart(s: string): string {
    if s != [] && IsBlank(s[0]) then TrimStart(s[1..]) else s
  }

  predicate Continued(physical: string) {
    TrimEnd(physical) != [] && TrimEnd(physical)[|TrimEnd(physical)| - 1] == '\\'
  }

  /** The line with its continuation mark replaced by a space. */
  function Unmarked(physical: string): string {
    if Continued(physical) then TrimEnd(physical)[..|TrimEnd(physical)| - 1] + [' '] else physical
  }

  function Piece(physical: string): string {
    TrimStart(Until(Unmarked(physical), '#'))
  }

  predicate Joins(physical: string) {
    Continued(physical) && '#' !in Unmarked(physical)
  }

  function Normalize(s: string): string {
    Spaced(Words(s))
  }

  /** The logical lines of the remaining physical ones; None: a continuation does not end. */
  function Logical(lines: seq<string>, pending: string): Option<seq<string>>
    decreases |lines|
  {
    if lines == [] then if pending == [] then Some([]) else None
    else if Joins(lines[0]) then Logical(lines[1..], pending + Piece(lines[0]))
    else
      var line := Normalize(pending + Piece(lines[0]));
      var rest := Logical(lines[1..], []);
      if line == [] || rest.None? then rest else Some([line] + rest.value)
  }

  function LogicalLines(text: string): Option<seq<string>> {
    Logical(Lines(text), [])
  }

  function Prefixed(result: seq<string>, rest: Option<seq<string>>): Option<seq<string>> {
    if rest.None? then None else Some(result + rest.value)
  }

  lemma PrefixedOne(result: seq<string>, line: string, rest: Option<seq<string>>)
    ensures Prefixed(result + [line], rest) == Prefixed(result, Prefixed([line], rest))
    ensures Prefixed([], rest) == rest
  {
    if rest.Some? {
      assert result + [line] + rest.value == result + ([line] + rest.value);
      assert [] + rest.value == rest.value;
    }
  }

  lemma LogicalStep(lines: seq<string>, pending: string)
    requires lines != [] && !Joins(lines[0])
    ensures
      var line := Normalize(pending + Piece(lines[0]));
      Logical(lines, pending) == Prefixed(if line == [] then [] else [line], Logical(lines[1..], []))
  {
    PrefixedOne([], [], Logical(lines[1..], []));
  }

  method ReadLogicalLines(text: string) returns (r: Option<seq<string>>)
    ensures r == LogicalLines(text)
  {
    var lines := Lines(text);
    var result, pending := [], [];
    PrefixedOne([], [], LogicalLines(text));
    while lines != []
      invariant LogicalLines(text) == Prefixed(result, Logical(lines, pending))
      decreases |lines|
    {
      var physical := lines[0];
      var tail := TrimEnd(physical);
      var continued := tail != [] && tail[|tail| - 1] == '\\';
      if continued {
        physical := tail[..|tail| - 1] + [' '];
      }
      var whole := pending + TrimStart(Until(physical, '#'));
      if continued && '#' !in physical {
        lines, pending := lines[1..], whole;
        continue;
      }
      var normalized := Normalize(whole);
      LogicalStep(lines, pending);
      PrefixedOne(result, normalized, Logical(lines[1..], []));
      if normalized != [] {
        result := result + [normalized];
      }
      PrefixedOne(result, [], Logical(lines[1..], []));
      lines, pending := lines[1..], [];
    }
    if pending != [] {
      return None;
    }
    assert result + [] == result;
    r := Some(result);
  }

  /** A line as logical_lines returns it: words with single spaces, without a comment. */
  predicate Normal(line: string) {
    line != [] && '#' !in line && Normalize(line) == line
  }

  lemma NormalizedIsNormal(s: string)
    requires '#' !in s && Normalize(s) != []
    ensures Normal(Normalize(s))
  {
    WordsAvoid(s, '#');
    WordsOfSpaced(Words(s), []);
    assert Spaced(Words(s)) + [] == Spaced(Words(s));
  }

  lemma {:induction false} TrimStartAvoids(s: string)
    requires '#' !in s
    ensures '#' !in TrimStart(s)
  {
    if s != [] && IsBlank(s[0]) {
      TrimStartAvoids(s[1..]);
    }
  }

  /** Every logical line is normal, whatever the text. */
  lemma {:induction false} LogicalLinesAreNormal(lines: seq<string>, pending: string)
    requires '#' !in pending && Logical(lines, pending).Some?
    ensures forall i | 0 <= i < |Logical(lines, pending).value| :: Normal(Logical(lines, pending).value[i])
    decreases |lines|
  {
    if lines != [] {
      TrimStartAvoids(Until(Unmarked(lines[0]), '#'));
      var whole := pending + Piece(lines[0]);
      if Joins(lines[0]) {
        LogicalLinesAreNormal(lines[1..], whole);
      } else {
        LogicalLinesAreNormal(lines[1..], []);
        if Normalize(whole) != [] {
          NormalizedIsNormal(whole);
        }
      }
    }
  }

  function Render(lines: seq<string>): string {
    if lines == [] then [] else lines[0] + ['\n'] + Render(lines[1..])
  }

  /** A normal line that does not end in a continuation mark is read back as itself. */
  lemma NormalLineAlone(line: string)
    requires Normal(line) && line[|line| - 1] != '\\'
    ensures !Joins(line + ['\n']) && Normalize(Piece(line + ['\n'])) == line
    ensures forall i | 0 <= i < |line| :: !IsBreak(line[i])
  {
    var physical := line + ['\n'];
    SpacedChars(Words(line));
    assert physical[..|physical| - 1] == line;
    assert TrimEnd(physical) == line;
    assert '#' !in physical;
    assert Until(physical, '#') == physical;
    assert TrimStart(physical) == physical;
    WordsOfSpaced(Words(line), ['\n']);
  }

  lemma LogicalCons(physical: string, rest: seq<string>)
    requires !Joins(physical) && Normalize(Piece(physical)) != []
    ensures Logical([physical] + rest, []) == Prefixed([Normalize(Piece(physical))], Logical(rest, []))
  {
    var all := [physical] + rest;
    assert all[1..] == rest && [] + Piece(physical) == Piece(physical);
    LogicalStep(all, []);
  }

  lemma FirstIsRead(line: string, rest: string)
    requires Normal(line) && line[|line| - 1] != '\\'
    ensures LogicalLines(line + ['\n'] + rest) == Prefixed([line], LogicalLines(rest))
  {
    NormalLineAlone(line);
    FirstLine(line, rest);
    LogicalCons(line + ['\n'], Lines(rest));
  }

  /** Rendered normal lines are read back exactly. */
  lemma {:induction false} RenderRoundTrip(lines: seq<string>)
    requires forall i | 0 <= i < |lines| :: Normal(lines[i]) && lines[i][|lines[i]| - 1] != '\\'
    ensures LogicalLines(Render(lines)) == Some(lines)
  {
    if lines != [] {
      FirstIsRead(lines[0], Render(lines[1..]));
      RenderRoundTrip(lines[1..]);
      assert lines == [lines[0]] + lines[1..];
    }
  }

  // ---------------------------------------------------------------------------
  // The owned policy
  // ---------------------------------------------------------------------------

  /** An owned entry: a check that jumps over the next ones when it succeeds, or a module. */
  datatype Rule = Exempt(jump: Jump, test: string) | Enforce(module_: string)

  type Jump = n: nat | n < 10

  datatype Distribution = Ubuntu | Fedora

  datatype Kind = Auth | Account

  function Name(kind: Kind): string {
    if kind.Auth? then "auth" else "account"
  }

  function Administrators(d: Distribution): string {
    if d.Ubuntu? then "sudo" else "wheel"
  }

  const SUCCESS: string := "[success="

  function Control(rule: Rule): string
  {
    match rule
    case Exempt(jump, test) => SUCCESS + ([Digit(jump)] + (" default=ignore] " + test))
    case Enforce(m) => "required " + m
  }

  function Text(kind: Kind, rule: Rule): string
  {
    Name(kind) + [' '] + Control(rule)
  }

  function Policy(d: Distribution, kind: Kind): seq<Rule> {
    match kind
    case Auth =>
      [Exempt(2, "pam_succeed_if.so quiet user = oh-no-parent-control"),
       Exempt(1, "pam_succeed_if.so quiet user ingroup " + Administrators(d)),
       Enforce("pam_oh_no_parent_control.so")]
    case Account =>
      [Exempt(5, "pam_succeed_if.so quiet service = systemd-user"),
       Exempt(4, "pam_succeed_if.so quiet user = oh-no-parent-control"),
       Exempt(3, "pam_succeed_if.so quiet user ingroup " + Administrators(d)),
       Exempt(2, "pam_exec.so quiet quiet_log /usr/libexec/oh-no-parent-control-session-limit-check"),
       Enforce("pam_malcontent.so"),
       Enforce("pam_oh_no_parent_control.so")]
  }

  /** Checks first, each jumping exactly past the block. */
  predicate Targeted(rules: seq<Rule>) {
    && (forall i | 0 <= i < |rules| && rules[i].Exempt? :: i + 1 + rules[i].jump == |rules|)
    && (forall i, j | 0 <= i < j < |rules| && rules[j].Exempt? :: rules[i].Exempt?)
  }

  lemma PolicyIsTargeted(d: Distribution, kind: Kind)
    ensures Targeted(Policy(d, kind))
  {
  }

  function Texts(kind: Kind, rules: seq<Rule>): seq<string> {
    seq(|rules|, i requires 0 <= i < |rules| => Text(kind, rules[i]))
  }

  // ---------------------------------------------------------------------------
  // Verification
  // ---------------------------------------------------------------------------

  const INCLUDE: string := "@include"

  predicate Counts(kind: Kind, line: string) {
    var first := Until(line, ' ');
    first == Name(kind) || first == "-" + Name(kind) || first == INCLUDE
  }

  function Entries(kind: Kind, stack: seq<string>): seq<string> {
    if stack == [] then []
    else (if Counts(kind, stack[0]) then [stack[0]] else []) + Entries(kind, stack[1..])
  }

  predicate BlockAt(entries: seq<string>, p: int, block: seq<string>) {
    0 <= p && p + |block| <= |entries| && entries[p..p + |block|] == block
  }

  predicate HasBlock(entries: seq<string>, block: seq<string>) {
    exists p | 0 <= p < |entries| :: BlockAt(entries, p, block)
  }

  function Block(d: Distribution, kind: Kind): seq<string> {
    Texts(kind, Policy(d, kind))
  }

  /** A stack that holds the owned entries in one piece. */
  predicate Accepts(kind: Kind, stack: seq<string>, block: seq<string>) {
    HasBlock(Entries(kind, stack), block)
  }

  type Files = map<string, seq<string>>

  /** The stacks that must hold the block: one named file, or every file. */
  function Stacks(d: Distribution, kind: Kind, files: Files): set<string> {
    if d.Ubuntu? then {"common-" + Name(kind)} else files.Keys
  }

  predicate AllAccept(kind: Kind, block: seq<string>, names: set<string>, files: Files) {
    forall name | name in names :: name in files && Accepts(kind, files[name], block)
  }

  method CheckStacks(kind: Kind, block: seq<string>, names: set<string>, files: Files) returns (ok: bool)
    ensures ok <==> AllAccept(kind, block, names, files)
  {
    var left := names;
    while left != {}
      invariant left <= names
      invariant AllAccept(kind, block, names - left, files)
    {
      var name :| name in left;
      if name !in files || !Accepts(kind, files[name], block) {
        return false;
      }
      left := left - {name};
    }
    assert names - left == names;
    ok := true;
  }

  /** On Ubuntu the common stack of each type must hold its block, on Fedora every stack both. */
  predicate Required(d: Distribution, kind: Kind, name: string, files: Files) {
    match d
    case Ubuntu => name == if kind.Auth? then "common-auth" else "common-account"
    case Fedora => name in files
  }

  /** Every required stack of the type is there and holds the block. */
  ghost predicate Holds(d: Distribution, kind: Kind, block: seq<string>, files: Files) {
    forall name | Required(d, kind, name, files) :: name in files && Accepts(kind, files[name], block)
  }

  ghost predicate Active(d: Distribution, files: Files) {
    Holds(d, Auth, Block(d, Auth), files) && Holds(d, Account, Block(d, Account), files)
  }

  lemma StacksAreRequired(d: Distribution, kind: Kind, name: string, files: Files)
    ensures name in Stacks(d, kind, files) <==> Required(d, kind, name, files)
  {
    assert "common-" + "auth" == "common-auth" && "common-" + "account" == "common-account";
  }

  lemma HoldsIsAccepted(d: Distribution, kind: Kind, block: seq<string>, files: Files)
    ensures Holds(d, kind, block, files) <==> AllAccept(kind, block, Stacks(d, kind, files), files)
  {
    forall name
      ensures name in Stacks(d, kind, files) <==> Required(d, kind, name, files)
    {
      StacksAreRequired(d, kind, name, files);
    }
  }

  method VerifyTimePolicy(d: Distribution, files: Files) returns (ok: bool)
    ensures ok <==> Active(d, files)
  {
    HoldsIsAccepted(d, Auth, Block(d, Auth), files);
    HoldsIsAccepted(d, Account, Block(d, Account), files);
    ok := CheckStacks(Auth, Block(d, Auth), Stacks(d, Auth, files), files);
    if ok {
      ok := CheckStacks(Account, Block(d, Account), Stacks(d, Account, files), files);
    }
  }

  /** The entries of a type are those whose first word is the type, its quiet form or an include. */
  lemma CountsMeans(kind: Kind, line: string, word: string, rest: string)
    requires ' ' !in word && (line == word || line == word + [' '] + rest)
    ensures Counts(kind, line) <==> word in {Name(kind), "-" + Name(kind), "@include"}
  {
    if line == word {
      FindAbsent(word, ' ');
      assert word[..|word|] == word;
    } else {
      FindExactly(word, ' ', rest);
      assert line[..|word|] == word;
    }
  }

  lemma {:induction false} FindAbsent(s: string, c: char)
    requires c !in s
    ensures Find(s, c) == |s|
  {
    if s != [] {
      FindAbsent(s[1..], c);
    }
  }

  // ---------------------------------------------------------------------------
  // The stack that runs
  // ---------------------------------------------------------------------------

  /** The entries of one type as PAM loads them: entries of other types do not count, and every
      entry but the owned ones may stand for any entries at all (includes, vendor modules). */
  function Chain(kind: Kind, stack: seq<string>, block: seq<string>, expand: string -> seq<string>): seq<string> {
    if stack == [] then []
    else (if Counts(kind, stack[0]) then Part(stack[0], block, expand) else []) + Chain(kind, stack[1..], block, expand)
  }

  function Part(line: string, block: seq<string>, expand: string -> seq<string>): seq<string> {
    if line in block then [line] else expand(line)
  }

  function Flat(entries: seq<string>, block: seq<string>, expand: string -> seq<string>): seq<string> {
    if entries == [] then [] else Part(entries[0], block, expand) + Flat(entries[1..], block, expand)
  }

  lemma {:induction false} ChainIsFlat(kind: Kind, stack: seq<string>, block: seq<string>, expand: string -> seq<string>)
    ensures Chain(kind, stack, block, expand) == Flat(Entries(kind, stack), block, expand)
  {
    if stack != [] {
      ChainIsFlat(kind, stack[1..], block, expand);
      if Counts(kind, stack[0]) {
        var entries := Entries(kind, stack);
        assert entries[0] == stack[0] && entries[1..] == Entries(kind, stack[1..]);
      } else {
        assert Entries(kind, stack) == Entries(kind, stack[1..]);
      }
    }
  }

  lemma {:induction false} FlatConcat(a: seq<string>, b: seq<string>, block: seq<string>, expand: string -> seq<string>)
    ensures Flat(a + b, block, expand) == Flat(a, block, expand) + Flat(b, block, expand)
  {
    if a == [] {
      assert a + b == b;
    } else {
      assert (a + b)[1..] == a[1..] + b;
      FlatConcat(a[1..], b, block, expand);
    }
  }

  lemma {:induction false} OwnedStay(owned: seq<string>, block: seq<string>, expand: string -> seq<string>)
    requires forall i | 0 <= i < |owned| :: owned[i] in block
    ensures Flat(owned, block, expand) == owned
  {
    if owned != [] {
      OwnedStay(owned[1..], block, expand);
      assert owned == [owned[0]] + owned[1..];
    }
  }

  lemma Middle(a: seq<string>, block: seq<string>, b: seq<string>)
    ensures BlockAt(a + (block + b), |a|, block)
  {
  }

  lemma Around(entries: seq<string>, k: nat, block: seq<string>)
    requires BlockAt(entries, k, block)
    ensures entries == entries[..k] + (block + entries[k + |block|..])
  {
  }

  /** An accepted stack runs the block in one piece, whatever surrounds it. */
  lemma BlockStaysTogether(kind: Kind, stack: seq<string>, block: seq<string>, expand: string -> seq<string>)
    returns (p: nat)
    requires Accepts(kind, stack, block)
    ensures BlockAt(Chain(kind, stack, block, expand), p, block)
  {
    var entries := Entries(kind, stack);
    var k :| 0 <= k < |entries| && BlockAt(entries, k, block);
    var a, b := entries[..k], entries[k + |block|..];
    Around(entries, k, block);
    ChainIsFlat(kind, stack, block, expand);
    FlatConcat(a, block + b, block, expand);
    FlatConcat(block, b, block, expand);
    OwnedStay(block, block, expand);
    Middle(Flat(a, block, expand), block, Flat(b, block, expand));
    p := |Flat(a, block, expand)|;
  }

  // ---------------------------------------------------------------------------
  // Jumps
  // ---------------------------------------------------------------------------

  function Value(c: char): Option<nat> {
    if '0' <= c <= '9' then Some(c as int - '0' as int) else None
  }

  function After(s: string, head: string): Option<nat> {
    if head <= s && |s| > |head| then Value(s[|head|]) else None
  }

  /** The jump that an entry's control takes on success, read from its text. */
  function JumpOf(entry: string): Option<nat> {
    if Find(entry, ' ') == |entry| then None else After(entry[Find(entry, ' ') + 1..], SUCCESS)
  }

  lemma AfterHead(head: string, c: char, rest: string)
    ensures After(head + ([c] + rest), head) == Value(c)
  {
  }

  lemma JumpIsRead(name: string, control: string)
    requires ' ' !in name
    ensures JumpOf(name + [' '] + control) == After(control, SUCCESS)
  {
    var text := name + [' '] + control;
    FindExactly(name, ' ', control);
    assert text[|name| + 1..] == control;
  }

  lemma ControlIsRead(rule: Rule)
    ensures After(Control(rule), SUCCESS) == if rule.Exempt? then Some(rule.jump) else None
  {
    match rule
    case Exempt(jump, test) => AfterHead(SUCCESS, Digit(jump), " default=ignore] " + test);
    case Enforce(m) => assert ("required " + m)[0] == 'r' && SUCCESS[0] == '[';
  }

  lemma NameHasNoSpace(kind: Kind)
    ensures ' ' !in Name(kind)
  {
  }

  /** What a rule says is what its text is read as. */
  lemma TextIsRead(kind: Kind, rule: Rule)
    ensures JumpOf(Text(kind, rule)) == if rule.Exempt? then Some(rule.jump) else None
  {
    NameHasNoSpace(kind);
    JumpIsRead(Name(kind), Control(rule));
    ControlIsRead(rule);
  }

  /** The entries executed from position i, in order, until control leaves [.., end): a succeeding
      check jumps, everything else falls through. */
  function Executed(chain: seq<string>, i: nat, end: nat, succeeds: string -> bool): seq<nat>
    requires end <= |chain|
    decreases end - i
  {
    if i >= end then [] else [i] + Executed(chain, Next(chain[i], i, succeeds), end, succeeds)
  }

  function Next(entry: string, i: nat, succeeds: string -> bool): nat {
    var jump := JumpOf(entry);
    if jump.Some? && succeeds(entry) then i + 1 + jump.value else i + 1
  }

  /** Where control goes on once it leaves. */
  function Exit(chain: seq<string>, i: nat, end: nat, succeeds: string -> bool): nat
    requires end <= |chain|
    decreases end - i
  {
    if i >= end then i else Exit(chain, Next(chain[i], i, succeeds), end, succeeds)
  }

  /** The entries read as a block whose checks come first and jump exactly past its end. */
  predicate Guarded(block: seq<string>) {
    && (forall i | 0 <= i < |block| && JumpOf(block[i]).Some? :: i + 1 + JumpOf(block[i]).value == |block|)
    && (forall i, j | 0 <= i < j < |block| && JumpOf(block[j]).Some? :: JumpOf(block[i]).Some?)
  }

  /** Some check from position i on succeeds. */
  predicate Exempted(block: seq<string>, i: nat, succeeds: string -> bool) {
    exists j | i <= j < |block| :: JumpOf(block[j]).Some? && succeeds(block[j])
  }

  lemma {:induction false} BlockRuns(chain: seq<string>, p: nat, block: seq<string>, i: nat, succeeds: string -> bool)
    requires Guarded(block) && BlockAt(chain, p, block) && i <= |block|
    ensures Exit(chain, p + i, p + |block|, succeeds) == p + |block|
    ensures forall j | i <= j < |block| && JumpOf(block[j]).None? ::
              p + j in Executed(chain, p + i, p + |block|, succeeds) <==> !Exempted(block, i, succeeds)
    decreases |block| - i
  {
    if i < |block| {
      assert chain[p + i] == block[i] by {
        assert chain[p..p + |block|][i] == chain[p + i];
      }
      var rest := Executed(chain, Next(block[i], p + i, succeeds), p + |block|, succeeds);
      if JumpOf(block[i]).Some? && succeeds(block[i]) {
        assert rest == [];
      } else {
        BlockRuns(chain, p, block, i + 1, succeeds);
      }
    }
  }

  lemma TextsAreGuarded(kind: Kind, rules: seq<Rule>)
    requires Targeted(rules)
    ensures Guarded(Texts(kind, rules))
    ensures forall i | 0 <= i < |rules| :: JumpOf(Texts(kind, rules)[i]).Some? <==> rules[i].Exempt?
  {
    forall i | 0 <= i < |rules|
      ensures JumpOf(Texts(kind, rules)[i]) == if rules[i].Exempt? then Some(rules[i].jump) else None
    {
      TextIsRead(kind, rules[i]);
    }
  }

  /** The owned blocks: their checks come first, and each jumps exactly one past the block. */
  lemma OwnedBlocksAreGuarded(d: Distribution, kind: Kind)
    ensures Guarded(Block(d, kind)) && Block(d, kind) != []
    ensures forall i | 0 <= i < |Block(d, kind)| :: JumpOf(Block(d, kind)[i]).Some? <==> Policy(d, kind)[i].Exempt?
  {
    PolicyIsTargeted(d, kind);
    TextsAreGuarded(kind, Policy(d, kind));
  }

  /** In an accepted stack, whatever the other entries stand for: the owned entries run as one
      block; control always leaves it exactly one past its end; and each owned module runs
      exactly when none of the block's checks exempted the user. */
  lemma AcceptedStackEnforces(kind: Kind, stack: seq<string>, block: seq<string>,
                              expand: string -> seq<string>, succeeds: string -> bool) returns (p: nat)
    requires Guarded(block) && Accepts(kind, stack, block)
    ensures
      var chain := Chain(kind, stack, block, expand);
      && BlockAt(chain, p, block)
      && Exit(chain, p, p + |block|, succeeds) == p + |block|
      && (forall j | 0 <= j < |block| && JumpOf(block[j]).Some? :: p + j + 1 + JumpOf(block[j]).value == p + |block|)
      && (forall j | 0 <= j < |block| && JumpOf(block[j]).None? ::
            p + j in Executed(chain, p, p + |block|, succeeds) <==> !Exempted(block, 0, succeeds))
  {
    p := BlockStaysTogether(kind, stack, block, expand);
    BlockRuns(Chain(kind, stack, block, expand), p, block, 0, succeeds);
  }

  /** Some check among the rules lets the user pass. */
  predicate Spared(kind: Kind, rules: seq<Rule>, succeeds: string -> bool) {
    exists i | 0 <= i < |rules| :: rules[i].Exempt? && succeeds(Text(kind, rules[i]))
  }

  /** From position p the chain runs the rules as one block, left one past its end, and each
      module of the block runs exactly when no check spares the user. */
  predicate Enforced(chain: seq<string>, p: nat, kind: Kind, rules: seq<Rule>, succeeds: string -> bool) {
    && BlockAt(chain, p, Texts(kind, rules))
    && Exit(chain, p, p + |rules|, succeeds) == p + |rules|
    && forall j | 0 <= j < |rules| && rules[j].Enforce? ::
         p + j in Executed(chain, p, p + |rules|, succeeds) <==> !Spared(kind, rules, succeeds)
  }

  lemma AcceptedRulesEnforce(kind: Kind, rules: seq<Rule>, stack: seq<string>,
                             expand: string -> seq<string>, succeeds: string -> bool) returns (p: nat)
    requires Targeted(rules) && Accepts(kind, stack, Texts(kind, rules))
    ensures Enforced(Chain(kind, stack, Texts(kind, rules), expand), p, kind, rules, succeeds)
  {
    var block := Texts(kind, rules);
    TextsAreGuarded(kind, rules);
    p := AcceptedStackEnforces(kind, stack, block, expand, succeeds);
    assert Exempted(block, 0, succeeds) <==> Spared(kind, rules, succeeds) by {
      assert forall i | 0 <= i < |rules| :: block[i] == Text(kind, rules[i]);
    }
  }

  /** What the verifier's answer is for: once it accepts the files, every stack it requires runs the
      distribution's own rules, in every user's and service's case and whatever the vendor's entries
      around them stand for. */
  lemma ActivePolicyEnforces(d: Distribution, files: Files, kind: Kind, name: string,
                             expand: string -> seq<string>, succeeds: string -> bool) returns (p: nat)
    requires Active(d, files) && Required(d, kind, name, files)
    ensures name in files
    ensures Enforced(Chain(kind, files[name], Block(d, kind), expand), p, kind, Policy(d, kind), succeeds)
  {
    PolicyIsTargeted(d, kind);
    p := AcceptedRulesEnforce(kind, Policy(d, kind), files[name], expand, succeeds);
  }
}
