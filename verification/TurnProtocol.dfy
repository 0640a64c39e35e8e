/** The turn protocol between ClaudeProtocol (tools/agent_claude.py) and the interactive bridge
    (tools/agent_claude_bridge.py): two processes joined by two FIFO channels. Every
    interleaving of the caller, the SDK and the two processes is a run of the system. */
module TurnProtocol {
  import opened Common

  datatype Command = Query(turn: nat, text: string) | Interrupt(turn: nat)

  datatype Packet = Ack(turn: nat) | Result(turn: nat, success: bool) | Text(turn: nat)

  /** What the protocol object yields, and what its caller did, in order. */
  datatype Entry =
    | Started(turn: nat)
    | Refused
    | Steered(text: string)
    | Interrupted(turn: nat, live: bool)
    | Usage(turn: nat)
    | Accepted(turn: nat)
    | Failed(turn: nat)
    | Completed(turn: nat, interrupted: bool)
    | Retry(texts: seq<string>)
    | Notice(turn: nat)

  datatype Client = Client(
    active: bool, requestsPending: bool, turn: nat, interrupted: bool, queued: seq<string>)

  /** `calling` is the command whose SDK call the command loop is awaiting. */
  datatype Bridge = Bridge(
    turn: Option<nat>, lastTurn: nat, interrupted: bool, calling: Option<Command>, mismatched: bool)

  datatype System = System(client: Client, bridge: Bridge, up: seq<Command>, down: seq<Packet>, log: seq<Entry>)

  const INITIAL: System :=
    System(Client(false, false, 0, false, []), Bridge(None, 0, false, None, false), [], [], [])

  datatype Move =
    | StartTurn(text: string)
    | Steer(text: string)
    | RequestInterrupt
    | ClientReceives
    | BridgeReceives
    | BridgeResumes
    | SdkResult(coordinator: bool, success: bool)
    | SdkText(main: bool)

  // ---------------------------------------------------------------------------
  // The client
  // ---------------------------------------------------------------------------

  datatype ClientEffect = ClientEffect(client: Client, sent: seq<Command>, log: seq<Entry>)

  function DoStartTurn(c: Client, text: string): ClientEffect {
    if c.active || c.requestsPending then ClientEffect(c, [], [Refused])
    else ClientEffect(c.(turn := c.turn + 1, active := true, interrupted := false),
                      [Query(c.turn + 1, text)], [Started(c.turn + 1)])
  }

  function DoSteer(c: Client, text: string): ClientEffect {
    ClientEffect(c.(queued := c.queued + [text]), [], [Steered(text)])
  }

  function DoInterrupt(c: Client): ClientEffect {
    ClientEffect(c.(interrupted := true, requestsPending := true), [Interrupt(c.turn)], [Interrupted(c.turn, c.active)])
  }

  /** The events after the accepted or discarded result of the live turn. */
  function Conclude(c: Client): ClientEffect {
    ClientEffect(c.(queued := []), [],
                 [Completed(c.turn, c.interrupted)] + if c.queued == [] then [] else [Retry(c.queued)])
  }

  function DoPacket(c: Client, p: Packet): ClientEffect {
    if p.Ack? && p.turn == c.turn then ClientEffect(c.(requestsPending := false), [], [])
    else if p.turn != c.turn || !c.active then ClientEffect(c, [], [])
    else
      match p
      case Ack(_) => ClientEffect(c, [], [])
      case Text(turn) => ClientEffect(c, [], [Notice(turn)])
      case Result(turn, success) =>
        var done := c.(active := false);
        if c.interrupted then Conclude(done).(log := [Usage(turn)] + Conclude(done).log)
        else if success then Conclude(done).(log := [Usage(turn), Accepted(turn)] + Conclude(done).log)
        else ClientEffect(done, [], [Usage(turn), Failed(turn)])
  }

  // ---------------------------------------------------------------------------
  // The bridge
  // ---------------------------------------------------------------------------

  datatype BridgeEffect = BridgeEffect(bridge: Bridge, sent: seq<Packet>)

  function DoCommand(b: Bridge, command: Command): BridgeEffect {
    if command.Query? && b.turn.None? && command.turn == b.lastTurn + 1 then
      BridgeEffect(b.(turn := Some(command.turn), lastTurn := command.turn, interrupted := false,
                      calling := Some(command)), [])
    else if command.Interrupt? && command.turn == b.lastTurn then
      if b.turn.Some? then BridgeEffect(b.(interrupted := true, calling := Some(command)), [])
      else BridgeEffect(b.(interrupted := true), [Ack(command.turn)])
    else BridgeEffect(b.(mismatched := true), [])
  }

  function DoResume(b: Bridge): BridgeEffect {
    match b.calling
    case None => BridgeEffect(b, [])
    case Some(command) =>
      BridgeEffect(b.(calling := None), if command.Interrupt? then [Ack(command.turn)] else [])
  }

  function DoResult(b: Bridge, coordinator: bool, success: bool): BridgeEffect {
    if b.turn.None? || !coordinator then BridgeEffect(b, [])
    else BridgeEffect(b.(turn := None), [Result(b.turn.value, success)])
  }

  function DoText(b: Bridge, main: bool): BridgeEffect {
    BridgeEffect(b, if b.turn.Some? && main && !b.interrupted then [Text(b.turn.value)] else [])
  }

  // ---------------------------------------------------------------------------
  // The system
  // ---------------------------------------------------------------------------

  function WithClient(s: System, f: ClientEffect): System {
    s.(client := f.client, up := s.up + f.sent, log := s.log + f.log)
  }

  function WithBridge(s: System, f: BridgeEffect): System {
    s.(bridge := f.bridge, down := s.down + f.sent)
  }

  /** A move that cannot happen now leaves the system as it is. */
  function Step(s: System, move: Move): System {
    match move
    case StartTurn(text) => WithClient(s, DoStartTurn(s.client, text))
    case Steer(text) => WithClient(s, DoSteer(s.client, text))
    case RequestInterrupt => WithClient(s, DoInterrupt(s.client))
    case ClientReceives =>
      if s.down == [] then s else WithClient(s.(down := s.down[1..]), DoPacket(s.client, s.down[0]))
    case BridgeReceives =>
      if s.up == [] || s.bridge.calling.Some? || s.bridge.mismatched then s
      else WithBridge(s.(up := s.up[1..]), DoCommand(s.bridge, s.up[0]))
    case BridgeResumes => WithBridge(s, DoResume(s.bridge))
    case SdkResult(coordinator, success) => WithBridge(s, DoResult(s.bridge, coordinator, success))
    case SdkText(main) => WithBridge(s, DoText(s.bridge, main))
  }

  function Run(moves: seq<Move>): System {
    if moves == [] then INITIAL else Step(Run(moves[..|moves| - 1]), moves[|moves| - 1])
  }

  // ---------------------------------------------------------------------------
  // The invariant
  // ---------------------------------------------------------------------------

  /** The commands in flight take the bridge from its last turn to the client's. */
  predicate Follows(up: seq<Command>, last: nat, turn: nat)
    decreases |up|
  {
    if up == [] then last == turn
    else if up[0].Query? then up[0].turn == last + 1 && Follows(up[1..], last + 1, turn)
    else up[0].turn == last && Follows(up[1..], last, turn)
  }

  function Queries(up: seq<Command>): nat {
    if up == [] then 0 else (if up[0].Query? then 1 else 0) + Queries(up[1..])
  }

  function Results(down: seq<Packet>): nat {
    if down == [] then 0 else (if down[0].Result? then 1 else 0) + Results(down[1..])
  }

  /** Every result or text on its way belongs to the live turn; acks are not newer than it. */
  predicate Current(down: seq<Packet>, turn: nat) {
    forall i | 0 <= i < |down| ::
      down[i].turn <= turn && (down[i].Result? ==> down[i].turn == turn)
  }

  /** A turn lives in exactly one place: the query, the bridge, or the result. */
  function Live(s: System): nat {
    Queries(s.up) + (if s.bridge.turn.Some? then 1 else 0) + Results(s.down)
  }

  predicate Awaited(s: System) {
    || Interrupt(s.client.turn) in s.up
    || s.bridge.calling == Some(Interrupt(s.client.turn))
    || Ack(s.client.turn) in s.down
  }

  predicate Inv(s: System) {
    && !s.bridge.mismatched
    && Follows(s.up, s.bridge.lastTurn, s.client.turn)
    && Live(s) == (if s.client.active then 1 else 0)
    && Current(s.down, s.client.turn)
    && (s.bridge.turn.Some? ==> s.bridge.turn.value == s.bridge.lastTurn == s.client.turn)
    && (s.bridge.calling.Some? && s.bridge.calling.value.Interrupt? ==> s.bridge.calling.value.turn == s.bridge.lastTurn)
    && (s.client.requestsPending ==> Awaited(s))
  }

  lemma {:induction false} FollowsAppend(up: seq<Command>, last: nat, turn: nat, c: Command)
    requires Follows(up, last, turn)
    requires if c.Query? then c.turn == turn + 1 else c.turn == turn
    ensures Follows(up + [c], last, c.turn)
    ensures Queries(up + [c]) == Queries(up) + (if c.Query? then 1 else 0)
    decreases |up|
  {
    if up != [] {
      assert (up + [c])[1..] == up[1..] + [c];
      FollowsAppend(up[1..], if up[0].Query? then last + 1 else last, turn, c);
    }
  }

  lemma {:induction false} FollowsCount(up: seq<Command>, last: nat, turn: nat)
    requires Follows(up, last, turn)
    ensures turn == last + Queries(up)
    decreases |up|
  {
    if up != [] {
      FollowsCount(up[1..], if up[0].Query? then last + 1 else last, turn);
    }
  }

  lemma {:induction false} ResultsAppend(down: seq<Packet>, sent: seq<Packet>)
    requires |sent| <= 1
    ensures Results(down + sent) == Results(down) + Results(sent)
  {
    if sent == [] {
      assert down + sent == down;
    } else if down != [] {
      assert (down + sent)[1..] == down[1..] + sent;
      ResultsAppend(down[1..], sent);
    } else {
      assert down + sent == sent;
    }
  }

  lemma {:induction false} NoResultNone(down: seq<Packet>, i: nat)
    requires i < |down| && down[i].Result?
    ensures Results(down) >= 1
  {
    if i > 0 {
      NoResultNone(down[1..], i - 1);
    }
  }

  lemma StartKeeps(s: System, text: string)
    requires Inv(s)
    ensures Inv(Step(s, StartTurn(text)))
  {
    var c := s.client;
    if !c.active && !c.requestsPending {
      FollowsCount(s.up, s.bridge.lastTurn, c.turn);
      FollowsAppend(s.up, s.bridge.lastTurn, c.turn, Query(c.turn + 1, text));
      forall i | 0 <= i < |s.down|
        ensures !s.down[i].Result?
      {
        if s.down[i].Result? {
          NoResultNone(s.down, i);
        }
      }
    } else {
      assert s.up + [] == s.up;
    }
  }

  lemma CallerKeeps(s: System, move: Move)
    requires Inv(s) && (move.Steer? || move.RequestInterrupt?)
    ensures Inv(Step(s, move))
  {
    if move.Steer? {
      assert s.up + [] == s.up;
    } else {
      var c := Interrupt(s.client.turn);
      FollowsAppend(s.up, s.bridge.lastTurn, s.client.turn, c);
      assert (s.up + [c])[|s.up|] == c;
    }
  }

  lemma ClientKeeps(s: System)
    requires Inv(s)
    ensures Inv(Step(s, ClientReceives))
  {
    if s.down != [] {
      var p, rest := s.down[0], s.down[1..];
      assert s.up + [] == s.up;
      assert s.down == [p] + rest;
      var s' := Step(s, ClientReceives);
      assert s'.down == rest;
      assert Current(rest, s.client.turn) by {
        assert forall i | 0 <= i < |rest| :: rest[i] == s.down[i + 1];
      }
      assert p.Result? ==> s.client.active;
    }
  }

  lemma BridgeKeeps(s: System)
    requires Inv(s)
    ensures Inv(Step(s, BridgeReceives))
  {
    if s.up != [] && s.bridge.calling.None? {
      var c, rest := s.up[0], s.up[1..];
      var f := DoCommand(s.bridge, c);
      assert s.up == [c] + rest;
      FollowsCount(s.up, s.bridge.lastTurn, s.client.turn);
      ResultsAppend(s.down, f.sent);
      assert f.sent != [] ==> (s.down + f.sent)[|s.down|] == f.sent[0];
      assert Step(s, BridgeReceives).down == s.down + f.sent;
    }
  }

  lemma SdkKeeps(s: System, move: Move)
    requires Inv(s) && (move.BridgeResumes? || move.SdkResult? || move.SdkText?)
    ensures Inv(Step(s, move))
  {
    var f := match move
             case SdkResult(coordinator, success) => DoResult(s.bridge, coordinator, success)
             case SdkText(main) => DoText(s.bridge, main)
             case _ => DoResume(s.bridge);
    FollowsCount(s.up, s.bridge.lastTurn, s.client.turn);
    ResultsAppend(s.down, f.sent);
    assert f.sent != [] ==> (s.down + f.sent)[|s.down|] == f.sent[0];
    assert forall p | p in s.down :: p in s.down + f.sent;
  }

  lemma StepKeeps(s: System, move: Move)
    requires Inv(s)
    ensures Inv(Step(s, move))
  {
    match move
    case StartTurn(text) => StartKeeps(s, text);
    case Steer(_) => CallerKeeps(s, move);
    case RequestInterrupt => CallerKeeps(s, move);
    case ClientReceives => ClientKeeps(s);
    case BridgeReceives => BridgeKeeps(s);
    case _ => SdkKeeps(s, move);
  }

  lemma {:induction false} EveryRunKeeps(moves: seq<Move>)
    ensures Inv(Run(moves))
  {
    if moves != [] {
      EveryRunKeeps(moves[..|moves| - 1]);
      StepKeeps(Run(moves[..|moves| - 1]), moves[|moves| - 1]);
    }
  }

  /** The bridge never takes its "does not match the current turn" branch, at most one turn is
      live, and what is live is what the client believes to be live. */
  lemma {:induction false} BridgeNeverMismatches(moves: seq<Move>)
    ensures !Run(moves).bridge.mismatched
    ensures Live(Run(moves)) == if Run(moves).client.active then 1 else 0
    ensures Run(moves).client.requestsPending ==> Awaited(Run(moves))
  {
    EveryRunKeeps(moves);
  }

  // ---------------------------------------------------------------------------
  // Draining
  // ---------------------------------------------------------------------------

  predicate Environment(move: Move) {
    move.ClientReceives? || move.BridgeReceives? || move.BridgeResumes? || move.SdkResult?
  }

  function Outstanding(s: System): nat {
    5 * |s.up| + |s.down| + (if s.bridge.calling.Some? then 2 else 0) + (if s.bridge.turn.Some? then 2 else 0)
  }

  /** The next thing that is bound to happen while something is outstanding. */
  function Due(s: System): Move {
    if s.bridge.calling.Some? then BridgeResumes
    else if s.down != [] then ClientReceives
    else if s.up != [] then BridgeReceives
    else SdkResult(true, true)
  }

  lemma ReceiptProgresses(s: System)
    requires Inv(s) && Step(s, BridgeReceives) != s
    ensures Outstanding(Step(s, BridgeReceives)) < Outstanding(s)
  {
    var f := DoCommand(s.bridge, s.up[0]);
    assert |f.sent| <= 1 && |s.down + f.sent| == |s.down| + |f.sent|;
  }

  /** Whatever happens without the caller leaves less to do; only texts of the SDK add to it. */
  lemma EffectiveProgresses(s: System, move: Move)
    requires Inv(s)
    ensures Environment(move) && Step(s, move) != s ==> Outstanding(Step(s, move)) < Outstanding(s)
    ensures move.SdkText? ==> Outstanding(Step(s, move)) <= Outstanding(s) + 1
  {
    assert s.down + [] == s.down && s.up + [] == s.up;
    if move.BridgeReceives? && Step(s, move) != s {
      ReceiptProgresses(s);
    }
  }

  lemma DueIsEffective(s: System)
    requires Inv(s) && Outstanding(s) > 0
    ensures Environment(Due(s)) && Step(s, Due(s)) != s
  {
    FollowsCount(s.up, s.bridge.lastTurn, s.client.turn);
    if s.bridge.calling.None? && s.down != [] {
      assert |Step(s, ClientReceives).down| < |s.down|;
    } else if s.bridge.calling.None? && s.up != [] {
      assert |Step(s, BridgeReceives).up| < |s.up|;
    }
  }

  lemma RunAppend(moves: seq<Move>, move: Move)
    ensures Run(moves + [move]) == Step(Run(moves), move)
  {
    assert (moves + [move])[..|moves + [move]| - 1] == moves;
  }

  lemma MovesRegroup(moves: seq<Move>, move: Move, rest: seq<Move>)
    ensures moves + ([move] + rest) == moves + [move] + rest
  {
  }

  lemma NothingOutstanding(s: System)
    requires Inv(s) && Outstanding(s) == 0
    ensures !s.client.active && !s.client.requestsPending
  {
  }

  /** No process and no result of the SDK can change anything. */
  ghost predicate Stuck(s: System) {
    forall move | Environment(move) :: Step(s, move) == s
  }

  lemma StuckIsDrained(s: System)
    requires Inv(s)
    ensures Stuck(s) <==> Outstanding(s) == 0
    ensures Stuck(s) ==> !s.client.active && !s.client.requestsPending
  {
    if Outstanding(s) > 0 {
      DueIsEffective(s);
    } else {
      NothingOutstanding(s);
      assert s.down + [] == s.down;
    }
  }

  predicate CallerFree(moves: seq<Move>) {
    forall m | m in moves :: Environment(m) || m.SdkText?
  }

  function Texts(moves: seq<Move>): nat {
    if moves == [] then 0
    else Texts(moves[..|moves| - 1]) + (if moves[|moves| - 1].SdkText? then 1 else 0)
  }

  /** How many moves of the environment in `more` changed something, after `moves`. */
  function Effective(moves: seq<Move>, more: seq<Move>): nat
    decreases |more|
  {
    if more == [] then 0
    else
      var before, move := more[..|more| - 1], more[|more| - 1];
      var s := Run(moves + before);
      Effective(moves, before) + (if Environment(move) && Step(s, move) != s then 1 else 0)
  }

  /** Whatever the schedule, a run that the caller leaves alone changes only finitely often: each
      move that has an effect uses up outstanding work, and only texts of the SDK add any. Where it
      can change no more, the live turn and every interrupt are settled and the next turn is
      accepted; it never stops before. */
  lemma {:induction false} EveryScheduleDrains(moves: seq<Move>, more: seq<Move>)
    requires CallerFree(more)
    ensures Outstanding(Run(moves + more)) + Effective(moves, more) <= Outstanding(Run(moves)) + Texts(more)
    ensures Stuck(Run(moves + more)) <==> Outstanding(Run(moves + more)) == 0
    ensures Stuck(Run(moves + more)) ==>
              !Run(moves + more).client.active && !Run(moves + more).client.requestsPending
    decreases |more|
  {
    if more == [] {
      assert moves + more == moves;
    } else {
      var before, move := more[..|more| - 1], more[|more| - 1];
      assert moves + more == moves + before + [move];
      RunAppend(moves + before, move);
      EveryScheduleDrains(moves, before);
      EveryRunKeeps(moves + before);
      EffectiveProgresses(Run(moves + before), move);
    }
    EveryRunKeeps(moves + more);
    StuckIsDrained(Run(moves + more));
  }

  /** From every reachable state the processes and the SDK alone, without the caller, settle the
      live turn and every interrupt, after which the next turn is accepted. */
  lemma {:induction false} EveryRunDrains(moves: seq<Move>) returns (more: seq<Move>)
    ensures forall m | m in more :: Environment(m)
    ensures !Run(moves + more).client.active && !Run(moves + more).client.requestsPending
    decreases Outstanding(Run(moves))
  {
    var s := Run(moves);
    EveryRunKeeps(moves);
    if Outstanding(s) == 0 {
      NothingOutstanding(s);
      more := [];
      assert moves + more == moves;
    } else {
      var due := Due(s);
      DueIsEffective(s);
      EffectiveProgresses(s, due);
      RunAppend(moves, due);
      var rest := EveryRunDrains(moves + [due]);
      more := [due] + rest;
      MovesRegroup(moves, due, rest);
    }
  }

  // ---------------------------------------------------------------------------
  // What the caller sees
  // ---------------------------------------------------------------------------

  function Steers(log: seq<Entry>): seq<string> {
    if log == [] then []
    else Steers(log[..|log| - 1]) + (if log[|log| - 1].Steered? then [log[|log| - 1].text] else [])
  }

  function Retries(log: seq<Entry>): seq<string> {
    if log == [] then []
    else Retries(log[..|log| - 1]) + (if log[|log| - 1].Retry? then log[|log| - 1].texts else [])
  }

  lemma {:induction false} TextsAppend(log: seq<Entry>, more: seq<Entry>)
    ensures Steers(log + more) == Steers(log) + Steers(more)
    ensures Retries(log + more) == Retries(log) + Retries(more)
  {
    if more == [] {
      assert log + more == log;
    } else {
      var last := |more| - 1;
      TextsAppend(log, more[..last]);
      assert (log + more)[..|log + more| - 1] == log + more[..last];
      assert (log + more)[|log + more| - 1] == more[last];
    }
  }

  predicate Consumed(c: Client, n: nat) {
    1 <= n && (n < c.turn || (n == c.turn && !c.active))
  }

  predicate WasInterrupted(log: seq<Entry>, n: nat) {
    Interrupted(n, true) in log || Interrupted(n, false) in log
  }

  function Count(log: seq<Entry>, e: Entry): nat {
    if log == [] then 0 else Count(log[..|log| - 1], e) + (if log[|log| - 1] == e then 1 else 0)
  }

  /** How often the four entries about turn n occur. */
  function Tally(log: seq<Entry>, n: nat): (nat, nat, nat, nat) {
    (Count(log, Usage(n)), Count(log, Accepted(n)),
     Count(log, Failed(n)) + Count(log, Completed(n, true)), Count(log, Completed(n, false)))
  }

  /** A started turn is consumed once, with one verdict: accepted, failed or interrupted. */
  predicate OneVerdict(c: Client, log: seq<Entry>, n: nat) {
    var (usage, accepted, ended, completed) := Tally(log, n);
    && (c.active ==> 1 <= c.turn)
    && usage == accepted + ended == (if Consumed(c, n) then 1 else 0)
    && completed == accepted
  }

  /** The client's flag says whether the turn it numbers was interrupted. */
  predicate Flagged(c: Client, log: seq<Entry>) {
    && (forall e | e in log && e.Interrupted? :: e.turn <= c.turn)
    && (c.interrupted <==> WasInterrupted(log, c.turn))
  }

  /** The verdict at position k agrees with the interrupts before it. */
  predicate Obeys(log: seq<Entry>, k: nat)
    requires k < |log|
  {
    && (log[k].Accepted? || log[k].Failed? ==> !WasInterrupted(log[..k], log[k].turn))
    && (log[k].Completed? ==> (log[k].interrupted <==> WasInterrupted(log[..k], log[k].turn)))
  }

  predicate VerdictsObey(log: seq<Entry>) {
    forall k | 0 <= k < |log| :: Obeys(log, k)
  }

  function ClientStep(s: System, move: Move): ClientEffect {
    match move
    case StartTurn(text) => DoStartTurn(s.client, text)
    case Steer(text) => DoSteer(s.client, text)
    case RequestInterrupt => DoInterrupt(s.client)
    case ClientReceives => if s.down == [] then ClientEffect(s.client, [], []) else DoPacket(s.client, s.down[0])
    case _ => ClientEffect(s.client, [], [])
  }

  lemma StepIsClientStep(s: System, move: Move)
    ensures Step(s, move).client == ClientStep(s, move).client
    ensures Step(s, move).log == s.log + ClientStep(s, move).log
  {
    assert s.log + [] == s.log;
  }

  lemma TallyAppend(log: seq<Entry>, e: Entry, n: nat)
    ensures Tally(log + [e], n) ==
            (Tally(log, n).0 + (if e == Usage(n) then 1 else 0),
             Tally(log, n).1 + (if e == Accepted(n) then 1 else 0),
             Tally(log, n).2 + (if e == Failed(n) || e == Completed(n, true) then 1 else 0),
             Tally(log, n).3 + (if e == Completed(n, false) then 1 else 0))
  {
    assert (log + [e])[..|log + [e]| - 1] == log;
  }

  lemma ResultLog(c: Client, log: seq<Entry>, success: bool)
    requires c.active
    ensures
      var all := log + DoPacket(c, Result(c.turn, success)).log;
      var done := log + [Usage(c.turn)] + (if c.interrupted then [] else [Accepted(c.turn)])
                  + [Completed(c.turn, c.interrupted)];
      if !c.interrupted && !success then all == log + [Usage(c.turn)] + [Failed(c.turn)]
      else all == if c.queued == [] then done else done + [Retry(c.queued)]
  {
  }

  lemma JudgedTally(log: seq<Entry>, turn: nat, interrupted: bool, n: nat)
    ensures
      var (usage, accepted, ended, completed) := Tally(log, n);
      Tally(log + [Usage(turn)] + (if interrupted then [] else [Accepted(turn)]), n) ==
      if turn != n then Tally(log, n)
      else (usage + 1, if interrupted then accepted else accepted + 1, ended, completed)
  {
    var used := log + [Usage(turn)];
    TallyAppend(log, Usage(turn), n);
    if interrupted {
      NoEntries(used);
    } else {
      TallyAppend(used, Accepted(turn), n);
    }
  }

  lemma CompletedTally(judged: seq<Entry>, turn: nat, interrupted: bool, queued: seq<string>, n: nat)
    ensures
      var done := judged + [Completed(turn, interrupted)];
      var (usage, accepted, ended, completed) := Tally(judged, n);
      Tally(if queued == [] then done else done + [Retry(queued)], n) ==
      if turn != n then Tally(judged, n)
      else if interrupted then (usage, accepted, ended + 1, completed)
      else (usage, accepted, ended, completed + 1)
  {
    TallyAppend(judged, Completed(turn, interrupted), n);
    TallyAppend(judged + [Completed(turn, interrupted)], Retry(queued), n);
  }

  /** The entries of a concluded turn add one usage, one verdict and its completion. */
  lemma ConcludedTally(log: seq<Entry>, turn: nat, interrupted: bool, queued: seq<string>, n: nat)
    ensures
      var done := log + [Usage(turn)] + (if interrupted then [] else [Accepted(turn)]) + [Completed(turn, interrupted)];
      var (usage, accepted, ended, completed) := Tally(log, n);
      Tally(if queued == [] then done else done + [Retry(queued)], n) ==
      if turn != n then Tally(log, n)
      else if interrupted then (usage + 1, accepted, ended + 1, completed)
      else (usage + 1, accepted + 1, ended, completed + 1)
  {
    JudgedTally(log, turn, interrupted, n);
    CompletedTally(log + [Usage(turn)] + (if interrupted then [] else [Accepted(turn)]), turn, interrupted, queued, n);
  }

  lemma ResultTally(c: Client, log: seq<Entry>, n: nat, success: bool, all: seq<Entry>)
    requires c.active && all == log + DoPacket(c, Result(c.turn, success)).log
    ensures
      var (usage, accepted, ended, completed) := Tally(log, n);
      Tally(all, n) ==
      if c.turn != n then Tally(log, n)
      else if c.interrupted || !success then (usage + 1, accepted, ended + 1, completed)
      else (usage + 1, accepted + 1, ended, completed + 1)
  {
    ResultLog(c, log, success);
    if !c.interrupted && !success {
      TallyAppend(log, Usage(c.turn), n);
      TallyAppend(log + [Usage(c.turn)], Failed(c.turn), n);
    } else {
      ConcludedTally(log, c.turn, c.interrupted, c.queued, n);
    }
  }

  lemma ResultVerdict(c: Client, log: seq<Entry>, n: nat, success: bool)
    requires c.active && OneVerdict(c, log, n)
    ensures OneVerdict(DoPacket(c, Result(c.turn, success)).client,
                       log + DoPacket(c, Result(c.turn, success)).log, n)
  {
    ResultTally(c, log, n, success, log + DoPacket(c, Result(c.turn, success)).log);
  }

  lemma PacketVerdict(c: Client, log: seq<Entry>, n: nat, p: Packet)
    requires OneVerdict(c, log, n)
    ensures OneVerdict(DoPacket(c, p).client, log + DoPacket(c, p).log, n)
  {
    if p.Result? && p.turn == c.turn && c.active {
      ResultVerdict(c, log, n, p.success);
    } else {
      assert log + [] == log;
      TallyAppend(log, Notice(p.turn), n);
    }
  }

  lemma CallerVerdict(c: Client, log: seq<Entry>, n: nat, f: ClientEffect, text: string)
    requires OneVerdict(c, log, n)
    requires f == DoStartTurn(c, text) || f == DoSteer(c, text) || f == DoInterrupt(c)
    ensures OneVerdict(f.client, log + f.log, n)
  {
    TallyAppend(log, f.log[0], n);
    assert f.log == [f.log[0]];
  }

  lemma VerdictKeeps(s: System, n: nat, move: Move)
    requires OneVerdict(s.client, s.log, n)
    ensures OneVerdict(Step(s, move).client, Step(s, move).log, n)
  {
    StepIsClientStep(s, move);
    match move
    case StartTurn(text) => CallerVerdict(s.client, s.log, n, DoStartTurn(s.client, text), text);
    case Steer(text) => CallerVerdict(s.client, s.log, n, DoSteer(s.client, text), text);
    case RequestInterrupt => CallerVerdict(s.client, s.log, n, DoInterrupt(s.client), "");
    case ClientReceives => if s.down != [] { PacketVerdict(s.client, s.log, n, s.down[0]); } else { NoEntries(s.log); }
    case _ => NoEntries(s.log);
  }

  lemma NoEntries(log: seq<Entry>)
    ensures log + [] == log
  {
  }

  lemma FlagKeeps(s: System, move: Move)
    requires Flagged(s.client, s.log)
    ensures Flagged(Step(s, move).client, Step(s, move).log)
  {
    StepIsClientStep(s, move);
    var f := ClientStep(s, move);
    assert forall e :: e in s.log + f.log <==> e in s.log || e in f.log;
  }

  lemma PacketEntries(c: Client, p: Packet)
    ensures forall e | e in DoPacket(c, p).log :: !e.Interrupted?
    ensures forall e | e in DoPacket(c, p).log && (e.Accepted? || e.Failed?) :: e.turn == c.turn && !c.interrupted
    ensures forall e | e in DoPacket(c, p).log && e.Completed? :: e.turn == c.turn && e.interrupted == c.interrupted
  {
  }

  lemma InterruptsBefore(log: seq<Entry>, more: seq<Entry>, k: nat, n: nat)
    requires k <= |more| && forall e | e in more :: !e.Interrupted?
    ensures WasInterrupted((log + more)[..|log| + k], n) == WasInterrupted(log, n)
  {
    assert (log + more)[..|log| + k] == log + more[..k];
    assert forall e | e in more[..k] :: e in more;
  }

  lemma PacketObeys(c: Client, log: seq<Entry>, p: Packet, k: nat)
    requires Flagged(c, log) && |log| <= k < |log + DoPacket(c, p).log|
    ensures Obeys(log + DoPacket(c, p).log, k)
  {
    var f := DoPacket(c, p);
    var e := f.log[k - |log|];
    assert e in f.log && (log + f.log)[k] == e;
    PacketEntries(c, p);
    InterruptsBefore(log, f.log, k - |log|, c.turn);
  }

  /** No entry of a step's log is both an interrupt and followed by a verdict. */
  lemma ObeyKeeps(s: System, move: Move)
    requires Flagged(s.client, s.log) && VerdictsObey(s.log)
    ensures VerdictsObey(Step(s, move).log)
  {
    StepIsClientStep(s, move);
    var f := ClientStep(s, move);
    var log := s.log + f.log;
    forall k: nat | k < |log|
      ensures Obeys(log, k)
    {
      if k < |s.log| {
        assert log[..k] == s.log[..k];
        assert Obeys(s.log, k);
      } else if move.ClientReceives? && s.down != [] {
        PacketObeys(s.client, s.log, s.down[0], k);
      }
    }
  }

  /** Every started turn is consumed exactly once with exactly one verdict; no verdict accepts or
      fails a turn the caller had interrupted, and a completion says exactly whether it had. */
  lemma {:induction false} EveryTurnHasOneVerdict(moves: seq<Move>)
    ensures forall n: nat :: OneVerdict(Run(moves).client, Run(moves).log, n)
    ensures Flagged(Run(moves).client, Run(moves).log)
    ensures VerdictsObey(Run(moves).log)
  {
    if moves != [] {
      var s := Run(moves[..|moves| - 1]);
      EveryTurnHasOneVerdict(moves[..|moves| - 1]);
      forall n: nat
        ensures OneVerdict(Run(moves).client, Run(moves).log, n)
      {
        VerdictKeeps(s, n, moves[|moves| - 1]);
      }
      FlagKeeps(s, moves[|moves| - 1]);
      ObeyKeeps(s, moves[|moves| - 1]);
    }
  }

  lemma SteersShort(e: Entry)
    ensures Steers([e]) == if e.Steered? then [e.text] else []
    ensures Retries([e]) == if e.Retry? then e.texts else []
  {
    assert [e][..0] == [];
  }

  lemma ConcludeTexts(c: Client)
    ensures Steers(Conclude(c).log) == [] && Retries(Conclude(c).log) == c.queued
  {
    TextsAppend([Completed(c.turn, c.interrupted)], if c.queued == [] then [] else [Retry(c.queued)]);
    SteersShort(Completed(c.turn, c.interrupted));
    SteersShort(Retry(c.queued));
  }

  lemma TextlessPair(a: Entry, b: Entry)
    requires !a.Steered? && !a.Retry? && !b.Steered? && !b.Retry?
    ensures Steers([a, b]) == [] && Retries([a, b]) == []
  {
    SteersShort(a);
    assert [a, b][..1] == [a];
  }

  lemma PacketTexts(c: Client, p: Packet)
    ensures Steers(DoPacket(c, p).log) == []
    ensures Retries(DoPacket(c, p).log) + DoPacket(c, p).client.queued == c.queued
  {
    var f := DoPacket(c, p);
    if p.Result? && p.turn == c.turn && c.active {
      if c.interrupted || p.success {
        var first := if c.interrupted then [Usage(p.turn)] else [Usage(p.turn), Accepted(p.turn)];
        var last := Conclude(c.(active := false)).log;
        ConcludeTexts(c.(active := false));
        SteersShort(Usage(p.turn));
        TextlessPair(Usage(p.turn), Accepted(p.turn));
        assert f.log == first + last;
        TextsAppend(first, last);
      } else {
        TextlessPair(Usage(p.turn), Failed(p.turn));
      }
    } else {
      SteersShort(Notice(p.turn));
    }
  }

  lemma CallerTexts(c: Client, text: string)
    ensures Steers(DoStartTurn(c, text).log) == [] && Retries(DoStartTurn(c, text).log) == []
    ensures Steers(DoSteer(c, text).log) == [text] && Retries(DoSteer(c, text).log) == []
    ensures Steers(DoInterrupt(c).log) == [] && Retries(DoInterrupt(c).log) == []
  {
    SteersShort(Refused);
    SteersShort(Started(c.turn + 1));
    SteersShort(Steered(text));
    SteersShort(Interrupted(c.turn, c.active));
  }

  lemma Regroup(a: seq<string>, b: seq<string>, c: seq<string>)
    ensures (a + b) + c == a + (b + c)
  {
  }

  lemma TextsKept(s: System, move: Move)
    requires Retries(s.log) + s.client.queued == Steers(s.log)
    ensures Retries(Step(s, move).log) + Step(s, move).client.queued == Steers(Step(s, move).log)
  {
    StepIsClientStep(s, move);
    var f := ClientStep(s, move);
    TextsAppend(s.log, f.log);
    if move.ClientReceives? && s.down != [] {
      PacketTexts(s.client, s.down[0]);
    } else if move.StartTurn? || move.Steer? {
      CallerTexts(s.client, move.text);
    } else {
      CallerTexts(s.client, "");
    }
    Regroup(Retries(s.log), Retries(f.log), f.client.queued);
    Regroup(Retries(s.log), s.client.queued, Steers(f.log));
  }

  /** What was steered, in order, is what was handed back for retry followed by what is still
      queued: each text is emitted in exactly one retry, none is lost, reordered or doubled. */
  lemma {:induction false} SteeredTextsAreConserved(moves: seq<Move>)
    ensures Retries(Run(moves).log) + Run(moves).client.queued == Steers(Run(moves).log)
  {
    if moves != [] {
      SteeredTextsAreConserved(moves[..|moves| - 1]);
      TextsKept(Run(moves[..|moves| - 1]), moves[|moves| - 1]);
    }
  }

  // ---------------------------------------------------------------------------
  // The two objects
  // ---------------------------------------------------------------------------

  class ClaudeProtocol {
    var activeTurn: bool
    var turnRequestsPending: bool
    var turn: nat
    var interrupted: bool
    var queued: seq<string>
    var outgoing: seq<Command>

    function Now(): Client
      reads this
    {
      Client(activeTurn, turnRequestsPending, turn, interrupted, queued)
    }

    constructor ()
      ensures Now() == INITIAL.client && outgoing == []
    {
      activeTurn, turnRequestsPending, turn, interrupted := false, false, 0, false;
      queued, outgoing := [], [];
    }

    method Send(command: Command)
      modifies this`outgoing
      ensures outgoing == old(outgoing) + [command]
    {
      outgoing := outgoing + [command];
    }

    method StartTurn(text: string) returns (accepted: bool)
      modifies this
      ensures accepted <==> old(!activeTurn && !turnRequestsPending)
      ensures Now() == DoStartTurn(old(Now()), text).client
      ensures outgoing == old(outgoing) + DoStartTurn(old(Now()), text).sent
    {
      if activeTurn || turnRequestsPending {
        return false;
      }
      turn := turn + 1;
      activeTurn := true;
      interrupted := false;
      Send(Query(turn, text));
      accepted := true;
    }

    method Steer(text: string)
      modifies this`queued
      ensures Now() == DoSteer(old(Now()), text).client
    {
      queued := queued + [text];
    }

    method RequestInterrupt()
      modifies this
      ensures Now() == DoInterrupt(old(Now())).client
      ensures outgoing == old(outgoing) + DoInterrupt(old(Now())).sent
    {
      interrupted := true;
      turnRequestsPending := true;
      Send(Interrupt(turn));
    }

    method Event(packet: Packet) returns (events: seq<Entry>)
      modifies this
      ensures Now() == DoPacket(old(Now()), packet).client && outgoing == old(outgoing)
      ensures events == DoPacket(old(Now()), packet).log
    {
      events := [];
      if packet.Ack? && packet.turn == turn {
        turnRequestsPending := false;
      } else if packet.turn == turn && activeTurn {
        if packet.Result? {
          activeTurn := false;
          events := [Usage(turn)];
          if !interrupted {
            events := events + [if packet.success then Accepted(turn) else Failed(turn)];
            if !packet.success {
              return;
            }
          }
          events := events + [Completed(turn, interrupted)];
          if queued != [] {
            events := events + [Retry(queued)];
            queued := [];
          }
        } else if packet.Text? {
          events := [Notice(turn)];
        }
      }
    }
  }

  class InteractiveBridge {
    var turn: Option<nat>
    var lastTurn: nat
    var interrupted: bool
    var calling: Option<Command>
    var mismatched: bool
    var emitted: seq<Packet>

    function Now(): Bridge
      reads this
    {
      Bridge(turn, lastTurn, interrupted, calling, mismatched)
    }

    constructor ()
      ensures Now() == INITIAL.bridge && emitted == []
    {
      turn, lastTurn, interrupted, calling, mismatched := None, 0, false, None, false;
      emitted := [];
    }

    method Emit(packet: Packet)
      modifies this`emitted
      ensures emitted == old(emitted) + [packet]
    {
      emitted := emitted + [packet];
    }

    /** The command loop up to its first wait. */
    method Receive(command: Command)
      modifies this
      ensures Now() == DoCommand(old(Now()), command).bridge
      ensures emitted == old(emitted) + DoCommand(old(Now()), command).sent
    {
      if command.Query? && turn.None? && command.turn == lastTurn + 1 {
        lastTurn := command.turn;
        turn := Some(lastTurn);
        interrupted := false;
        calling := Some(command);
      } else if command.Interrupt? && command.turn == lastTurn {
        interrupted := true;
        if turn.Some? {
          calling := Some(command);
        } else {
          Emit(Ack(command.turn));
        }
      } else {
        mismatched := true;
      }
    }

    /** The rest of the command once the SDK call returned. */
    method Resume()
      modifies this
      ensures Now() == DoResume(old(Now())).bridge
      ensures emitted == old(emitted) + DoResume(old(Now())).sent
    {
      if calling.Some? {
        var command := calling.value;
        calling := None;
        if command.Interrupt? {
          Emit(Ack(command.turn));
        }
      }
    }

    method ReceiveResult(coordinator: bool, success: bool)
      modifies this
      ensures Now() == DoResult(old(Now()), coordinator, success).bridge
      ensures emitted == old(emitted) + DoResult(old(Now()), coordinator, success).sent
    {
      if turn.Some? && coordinator {
        Emit(Result(turn.value, success));
        turn := None;
      }
    }

    method ReceiveText(main: bool)
      modifies this`emitted
      ensures Now() == DoText(old(Now()), main).bridge
      ensures emitted == old(emitted) + DoText(old(Now()), main).sent
    {
      if turn.Some? && main && !interrupted {
        Emit(Text(turn.value));
      }
    }
  }
}
