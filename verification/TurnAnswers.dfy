/** What passes through the turn protocol: every verdict is the SDK's own answer, every prompt
    reaches the SDK, and every text it speaks reaches the caller. The histories below are read
    off the moves; the protocol's own state and log are compared with them. */
module TurnAnswers {
  import opened Common
  import opened TurnProtocol

  // ---------------------------------------------------------------------------
  // Answers
  // ---------------------------------------------------------------------------

  /** At move k the coordinator's result ends turn n. */
  predicate Answers(moves: seq<Move>, k: nat, n: nat, success: bool) {
    k < |moves| && moves[k] == SdkResult(true, success) && Run(moves[..k]).bridge.turn == Some(n)
  }

  ghost predicate Answered(moves: seq<Move>, n: nat, success: bool) {
    exists k: nat :: Answers(moves, k, n, success)
  }

  /** Results on their way and verdicts in the log are answers; an answer is on its way or consumed. */
  ghost predicate Backed(moves: seq<Move>) {
    var s := Run(moves);
    && (forall p | p in s.down && p.Result? :: Answered(moves, p.turn, p.success))
    && (forall n: nat | Accepted(n) in s.log :: Answered(moves, n, true))
    && (forall n: nat | Failed(n) in s.log :: Answered(moves, n, false))
    && (forall n: nat | Usage(n) in s.log :: Answered(moves, n, true) || Answered(moves, n, false))
    && (forall n: nat, success: bool | Answered(moves, n, success) ::
          Result(n, success) in s.down || Consumed(s.client, n))
  }

  lemma AnsweredStep(before: seq<Move>, move: Move, n: nat, success: bool)
    ensures Answered(before + [move], n, success) <==>
              || Answered(before, n, success)
              || (move == SdkResult(true, success) && Run(before).bridge.turn == Some(n))
  {
    var moves := before + [move];
    assert moves[..|before|] == before;
    if Answered(before, n, success) {
      var k: nat :| Answers(before, k, n, success);
      assert moves[..k] == before[..k];
      assert Answers(moves, k, n, success);
    }
    if Answered(moves, n, success) {
      var k: nat :| Answers(moves, k, n, success);
      if k < |before| {
        assert moves[..k] == before[..k];
        assert Answers(before, k, n, success);
      }
    }
    if move == SdkResult(true, success) && Run(before).bridge.turn == Some(n) {
      assert Answers(moves, |before|, n, success);
    }
  }

  lemma PacketBacked(c: Client, p: Packet, e: Entry)
    requires e in DoPacket(c, p).log
    ensures e.Accepted? ==> p == Result(e.turn, true)
    ensures e.Failed? ==> p == Result(e.turn, false)
    ensures e.Usage? ==> p.Result? && p.turn == e.turn
  {
  }

  lemma EntriesStep(s: System, move: Move, e: Entry)
    requires e in Step(s, move).log && e !in s.log && (e.Accepted? || e.Failed? || e.Usage?)
    ensures move.ClientReceives? && s.down != [] && e in DoPacket(s.client, s.down[0]).log
  {
    StepIsClientStep(s, move);
  }

  lemma BackedStep(before: seq<Move>, move: Move)
    requires Backed(before)
    ensures var s := Step(Run(before), move);
            && (forall p | p in s.down && p.Result? :: Answered(before + [move], p.turn, p.success))
            && (forall n: nat | Accepted(n) in s.log :: Answered(before + [move], n, true))
            && (forall n: nat | Failed(n) in s.log :: Answered(before + [move], n, false))
            && (forall n: nat | Usage(n) in s.log ::
                  Answered(before + [move], n, true) || Answered(before + [move], n, false))
  {
    var s := Run(before);
    var s' := Step(s, move);
    forall n: nat, success: bool
      ensures Answered(before, n, success) ==> Answered(before + [move], n, success)
    {
      AnsweredStep(before, move, n, success);
    }
    forall p | p in s'.down && p.Result?
      ensures Answered(before + [move], p.turn, p.success)
    {
      if p !in s.down {
        assert move.SdkResult?;
        AnsweredStep(before, move, p.turn, p.success);
      }
    }
    forall e: Entry | e in s'.log && e !in s.log && (e.Accepted? || e.Failed? || e.Usage?)
      ensures s.down != [] && s.down[0].Result? && s.down[0].turn == e.turn
      ensures e.Accepted? ==> s.down[0].success
      ensures e.Failed? ==> !s.down[0].success
    {
      EntriesStep(s, move, e);
      PacketBacked(s.client, s.down[0], e);
    }
    forall n: nat | Usage(n) in s'.log
      ensures Answered(before + [move], n, true) || Answered(before + [move], n, false)
    {
      if Usage(n) !in s.log {
        assert s.down[0] in s.down;
        assert Answered(before, n, s.down[0].success);
      }
    }
    forall n: nat | Accepted(n) in s'.log
      ensures Answered(before + [move], n, true)
    {
      if Accepted(n) !in s.log {
        assert s.down[0] in s.down;
      }
    }
    forall n: nat | Failed(n) in s'.log
      ensures Answered(before + [move], n, false)
    {
      if Failed(n) !in s.log {
        assert s.down[0] in s.down;
      }
    }
  }

  /** A result on its way is consumed when it arrives: it belongs to the live turn. */
  lemma ArrivalStep(s: System, move: Move, n: nat, success: bool)
    requires Inv(s) && 1 <= n
    requires Result(n, success) in s.down || Consumed(s.client, n)
    ensures Result(n, success) in Step(s, move).down || Consumed(Step(s, move).client, n)
  {
    if Result(n, success) in s.down {
      var i :| 0 <= i < |s.down| && s.down[i] == Result(n, success);
      NoResultNone(s.down, i);
      if move.ClientReceives? && i > 0 {
        assert s.down[1..][i - 1] == Result(n, success);
      }
    }
  }

  lemma AnswerLeaves(s: System, success: bool, n: nat)
    requires Inv(s) && s.bridge.turn == Some(n)
    ensures Result(n, success) in Step(s, SdkResult(true, success)).down
  {
    assert (s.down + [Result(n, success)])[|s.down|] == Result(n, success);
  }

  /** The bridge's turn is a started one. */
  lemma TurnsArePositive(moves: seq<Move>)
    ensures Run(moves).bridge.turn.Some? ==> 1 <= Run(moves).bridge.turn.value
    ensures Run(moves).client.active ==> 1 <= Run(moves).client.turn
  {
    EveryTurnHasOneVerdict(moves);
    assert OneVerdict(Run(moves).client, Run(moves).log, 0);
    EveryRunKeeps(moves);
  }

  lemma AnswersArePositive(moves: seq<Move>, n: nat, success: bool)
    requires Answered(moves, n, success)
    ensures 1 <= n
  {
    var k: nat :| Answers(moves, k, n, success);
    TurnsArePositive(moves[..k]);
  }

  lemma {:induction false} EveryRunIsBacked(moves: seq<Move>)
    ensures Backed(moves)
  {
    if moves == [] {
      forall n: nat, success: bool
        ensures !Answered(moves, n, success)
      {
      }
    } else {
      var before, move := moves[..|moves| - 1], moves[|moves| - 1];
      assert moves == before + [move];
      EveryRunIsBacked(before);
      RunAppend(before, move);
      BackedStep(before, move);
      EveryRunKeeps(before);
      forall n: nat, success: bool | Answered(moves, n, success)
        ensures Result(n, success) in Run(moves).down || Consumed(Run(moves).client, n)
      {
        AnsweredStep(before, move, n, success);
        if Answered(before, n, success) {
          AnswersArePositive(before, n, success);
          ArrivalStep(Run(before), move, n, success);
        } else {
          AnswerLeaves(Run(before), success, n);
        }
      }
    }
  }

  predicate Ended(s: System, n: nat) {
    n <= s.bridge.lastTurn && s.bridge.turn != Some(n)
  }

  lemma EndedStep(s: System, move: Move, n: nat)
    requires Inv(s) && Ended(s, n)
    ensures Ended(Step(s, move), n)
  {
  }

  lemma AnswerEndsTurn(s: System, n: nat, success: bool)
    requires Inv(s) && s.bridge.turn == Some(n)
    ensures Ended(Step(s, SdkResult(true, success)), n)
  {
  }

  /** After its answer a turn never comes back to the bridge. */
  lemma {:induction false} AnswerEnds(moves: seq<Move>, k: nat, n: nat, success: bool, j: nat)
    requires Answers(moves, k, n, success) && k < j <= |moves|
    ensures Ended(Run(moves[..j]), n)
    decreases j
  {
    var before := moves[..j - 1];
    assert moves[..j] == before + [moves[j - 1]];
    RunAppend(before, moves[j - 1]);
    EveryRunKeeps(before);
    if k < j - 1 {
      AnswerEnds(moves, k, n, success, j - 1);
      EndedStep(Run(before), moves[j - 1], n);
    } else {
      AnswerEndsTurn(Run(before), n, success);
    }
  }

  lemma AnswerIsUnique(moves: seq<Move>, k: nat, n: nat, success: bool, k': nat, success': bool)
    requires Answers(moves, k, n, success) && Answers(moves, k', n, success')
    ensures k == k' && success == success'
  {
    if k < k' {
      AnswerEnds(moves, k, n, success, k');
    } else if k' < k {
      AnswerEnds(moves, k', n, success', k);
    }
  }

  lemma {:induction false} CountIn(log: seq<Entry>, e: Entry)
    ensures Count(log, e) > 0 <==> e in log
  {
    if log != [] {
      CountIn(log[..|log| - 1], e);
      assert log == log[..|log| - 1] + [log[|log| - 1]];
    }
  }

  /** The verdict the log holds for a consumed turn. */
  predicate Judged(log: seq<Entry>, n: nat, success: bool) {
    && (Accepted(n) in log <==> success && Completed(n, true) !in log)
    && (Failed(n) in log <==> !success && Completed(n, true) !in log)
  }

  /** Every consumed turn was answered by exactly one result of the SDK's coordinator, and unless it
      was interrupted its verdict is that answer: accepted for a success, failed for a failure. */
  lemma VerdictIsTheAnswer(moves: seq<Move>, n: nat) returns (k: nat, success: bool)
    requires Consumed(Run(moves).client, n)
    ensures Answers(moves, k, n, success)
    ensures forall k': nat, success': bool | Answers(moves, k', n, success') :: k' == k && success' == success
    ensures Judged(Run(moves).log, n, success)
    ensures !WasInterrupted(Run(moves).log, n) ==> Completed(n, true) !in Run(moves).log
  {
    var s := Run(moves);
    EveryTurnHasOneVerdict(moves);
    EveryRunIsBacked(moves);
    assert OneVerdict(s.client, s.log, n);
    CountIn(s.log, Usage(n));
    CountIn(s.log, Accepted(n));
    CountIn(s.log, Failed(n));
    CountIn(s.log, Completed(n, true));
    success := Completed(n, true) !in s.log && Failed(n) !in s.log;
    if !Answered(moves, n, success) {
      success := !success;
    }
    k :| Answers(moves, k, n, success);
    forall k': nat, success': bool | Answers(moves, k', n, success')
      ensures k' == k && success' == success
    {
      AnswerIsUnique(moves, k, n, success, k', success');
    }
    if Completed(n, true) in s.log {
      var i :| 0 <= i < |s.log| && s.log[i] == Completed(n, true);
      assert Obeys(s.log, i);
      assert forall e | e in s.log[..i] :: e in s.log;
    }
  }

  /** And every answer is given: it is consumed or still on its way. */
  lemma AnswersArrive(moves: seq<Move>, k: nat, n: nat, success: bool)
    requires Answers(moves, k, n, success)
    ensures Result(n, success) in Run(moves).down || Consumed(Run(moves).client, n)
  {
    EveryRunIsBacked(moves);
  }

  // ---------------------------------------------------------------------------
  // Commands
  // ---------------------------------------------------------------------------

  /** What the caller asked for, as its own log tells it. */
  function Sent(moves: seq<Move>): seq<Command> {
    if moves == [] then []
    else
      var before, move, log := moves[..|moves| - 1], moves[|moves| - 1], Run(moves).log;
      Sent(before) +
      if log == [] then []
      else if move.StartTurn? && log[|log| - 1].Started? then [Query(log[|log| - 1].turn, move.text)]
      else if move.RequestInterrupt? && log[|log| - 1].Interrupted? then [Interrupt(log[|log| - 1].turn)]
      else []
  }

  /** The commands the bridge has taken from its channel. */
  function Taken(moves: seq<Move>): seq<Command> {
    if moves == [] then []
    else
      var before := moves[..|moves| - 1];
      var s := Run(before);
      Taken(before) + if |Run(moves).up| < |s.up| then [s.up[0]] else []
  }

  /** The SDK calls that were begun. */
  function Calls(moves: seq<Move>): seq<Command> {
    if moves == [] then []
    else
      var before, s := moves[..|moves| - 1], Run(moves);
      Calls(before) +
      if Run(before).bridge.calling.None? && s.bridge.calling.Some? then [s.bridge.calling.value] else []
  }

  /** What ought to be called: each taken query, and each taken interrupt of the live turn. */
  function CallsDue(moves: seq<Move>): seq<Command> {
    if moves == [] then []
    else
      var before := moves[..|moves| - 1];
      var s := Run(before);
      CallsDue(before) +
      if |Run(moves).up| < |s.up| && (s.up[0].Query? || s.bridge.turn == Some(s.up[0].turn)) then [s.up[0]] else []
  }

  /** The packets the client has taken from its channel. */
  function Received(moves: seq<Move>): seq<Packet> {
    if moves == [] then []
    else
      var before := moves[..|moves| - 1];
      var s := Run(before);
      Received(before) + if |Run(moves).down| < |s.down| then [s.down[0]] else []
  }

  lemma UpStep(s: System, move: Move)
    ensures
      var s' := Step(s, move);
      if move.StartTurn? || move.RequestInterrupt? then
        |s.up| <= |s'.up| && s.up == s'.up[..|s.up|]
      else if |s'.up| < |s.up| then move.BridgeReceives? && s'.up == s.up[1..]
      else s'.up == s.up
  {
    assert s.up + [] == s.up;
  }

  lemma SentStep(s: System, move: Move)
    requires move.StartTurn? || move.RequestInterrupt?
    ensures
      var s' := Step(s, move);
      var last := s'.log[|s'.log| - 1];
      && s'.log != []
      && s'.up == s.up +
           if move.StartTurn? && last.Started? then [Query(last.turn, move.text)]
           else if move.RequestInterrupt? && last.Interrupted? then [Interrupt(last.turn)]
           else []
  {
  }

  /** The bridge takes exactly what the caller asked for, in order, with its texts and numbers. */
  lemma {:induction false} CommandsArriveInOrder(moves: seq<Move>)
    ensures Taken(moves) + Run(moves).up == Sent(moves)
  {
    if moves != [] {
      var before, move := moves[..|moves| - 1], moves[|moves| - 1];
      CommandsArriveInOrder(before);
      UpStep(Run(before), move);
      if move.StartTurn? || move.RequestInterrupt? {
        SentStep(Run(before), move);
      }
    }
  }

  lemma CallStep(s: System, move: Move)
    requires Inv(s)
    ensures
      var s' := Step(s, move);
      var due := |s'.up| < |s.up| && (s.up[0].Query? || s.bridge.turn == Some(s.up[0].turn));
      (s.bridge.calling.None? && s'.bridge.calling.Some? <==> due) && (due ==> s'.bridge.calling == Some(s.up[0]))
  {
    UpStep(s, move);
  }

  /** The SDK is called for each query and for each interrupt that finds its turn live, in order,
      and for nothing else. */
  lemma {:induction false} CallsAreExact(moves: seq<Move>)
    ensures Calls(moves) == CallsDue(moves)
  {
    if moves != [] {
      var before := moves[..|moves| - 1];
      CallsAreExact(before);
      EveryRunKeeps(before);
      CallStep(Run(before), moves[|moves| - 1]);
    }
  }

  function Pending(b: Bridge, n: nat): nat {
    if b.calling == Some(Interrupt(n)) then 1 else 0
  }

  /** How a move changes the bridge and the packets it sends. */
  function Sends(s: System, move: Move): BridgeEffect {
    match move
    case BridgeReceives =>
      if s.up == [] || s.bridge.calling.Some? || s.bridge.mismatched then BridgeEffect(s.bridge, [])
      else DoCommand(s.bridge, s.up[0])
    case BridgeResumes => DoResume(s.bridge)
    case SdkResult(coordinator, success) => DoResult(s.bridge, coordinator, success)
    case SdkText(main) => DoText(s.bridge, main)
    case _ => BridgeEffect(s.bridge, [])
  }

  lemma DownStep(s: System, move: Move, p: Packet)
    ensures
      var s' := Step(s, move);
      && s'.bridge == Sends(s, move).bridge
      && (if move.ClientReceives? && s.down != [] then
            && |s'.down| < |s.down|
            && multiset(s.down)[p] == multiset(s'.down)[p] + multiset([s.down[0]])[p]
          else
            && |s.down| <= |s'.down|
            && multiset(s'.down)[p] == multiset(s.down)[p] + multiset(Sends(s, move).sent)[p])
  {
    assert s.down + [] == s.down;
    if move.ClientReceives? && s.down != [] {
      assert s.down == [s.down[0]] + s.down[1..];
    } else {
      assert Step(s, move).down == s.down + Sends(s, move).sent;
    }
  }

  lemma AckSent(s: System, move: Move, n: nat)
    requires Inv(s)
    ensures
      var f := Sends(s, move);
      var taken := if |Step(s, move).up| < |s.up| then [s.up[0]] else [];
      multiset(f.sent)[Ack(n)] + Pending(f.bridge, n) == Pending(s.bridge, n) + multiset(taken)[Interrupt(n)]
  {
    UpStep(s, move);
  }

  lemma AckStep(s: System, move: Move, n: nat)
    requires Inv(s)
    ensures
      var s' := Step(s, move);
      var taken := if |s'.up| < |s.up| then [s.up[0]] else [];
      var received := if |s'.down| < |s.down| then [s.down[0]] else [];
      multiset(received)[Ack(n)] + multiset(s'.down)[Ack(n)] + Pending(s'.bridge, n) ==
      multiset(s.down)[Ack(n)] + Pending(s.bridge, n) + multiset(taken)[Interrupt(n)]
  {
    DownStep(s, move, Ack(n));
    AckSent(s, move, n);
  }

  /** Every interrupt is acknowledged exactly once, and not before its SDK call has returned. */
  lemma {:induction false} AcksAreConserved(moves: seq<Move>, n: nat)
    ensures
      multiset(Received(moves))[Ack(n)] + multiset(Run(moves).down)[Ack(n)] + Pending(Run(moves).bridge, n) ==
      multiset(Taken(moves))[Interrupt(n)]
  {
    if moves != [] {
      var before := moves[..|moves| - 1];
      AcksAreConserved(before, n);
      EveryRunKeeps(before);
      AckStep(Run(before), moves[|moves| - 1], n);
    }
  }

  lemma WaitStep(s: System, move: Move)
    requires Flagged(s.client, s.log)
    ensures
      var s' := Step(s, move);
      !s'.client.requestsPending && WasInterrupted(s'.log, s'.client.turn) ==>
        || (!s.client.requestsPending && WasInterrupted(s.log, s.client.turn) && s'.client.turn == s.client.turn)
        || (|s'.down| < |s.down| && s.down[0] == Ack(s'.client.turn))
  {
    FlagKeeps(s, move);
  }

  /** A turn starts only after the interrupted one before it was acknowledged. */
  lemma {:induction false} AcknowledgedBeforeTheNext(moves: seq<Move>)
    requires !Run(moves).client.requestsPending && WasInterrupted(Run(moves).log, Run(moves).client.turn)
    ensures Ack(Run(moves).client.turn) in Received(moves)
  {
    if moves != [] {
      var before := moves[..|moves| - 1];
      EveryTurnHasOneVerdict(before);
      WaitStep(Run(before), moves[|moves| - 1]);
      if !Run(before).client.requestsPending && WasInterrupted(Run(before).log, Run(before).client.turn)
         && Run(moves).client.turn == Run(before).client.turn {
        AcknowledgedBeforeTheNext(before);
      }
    }
  }

  // ---------------------------------------------------------------------------
  // Texts
  // ---------------------------------------------------------------------------

  /** The bridge's flag says whether its last turn's interrupt was taken. */
  lemma {:induction false} FlagIsTaken(moves: seq<Move>)
    ensures Run(moves).bridge.interrupted <==> Interrupt(Run(moves).bridge.lastTurn) in Taken(moves)
    ensures forall c | c in Taken(moves) :: c.turn <= Run(moves).bridge.lastTurn
  {
    if moves != [] {
      var before := moves[..|moves| - 1];
      var s, move := Run(before), moves[|moves| - 1];
      FlagIsTaken(before);
      EveryRunKeeps(before);
      UpStep(s, move);
      FollowsCount(s.up, s.bridge.lastTurn, s.client.turn);
    }
  }

  /** How often the SDK spoke in turn n while the turn was live and its interrupt not taken. */
  function Spoken(moves: seq<Move>, n: nat): nat {
    if moves == [] then 0
    else
      var before, move := moves[..|moves| - 1], moves[|moves| - 1];
      Spoken(before, n) +
      if move == SdkText(true) && Run(before).bridge.turn == Some(n) && Interrupt(n) !in Taken(before) then 1 else 0
  }

  /** A text on its way belongs to the client's live turn, and no result is before it. */
  predicate TextsLive(s: System) {
    && (forall p | p in s.down && p.Text? :: p.turn == s.client.turn && s.client.active)
    && (forall i, j | 0 <= i < j < |s.down| :: s.down[i].Result? ==> !s.down[j].Text?)
  }

  lemma TextsLiveSend(s: System, move: Move)
    requires Inv(s) && TextsLive(s) && !move.ClientReceives?
    ensures TextsLive(Step(s, move))
  {
    assert s.down + [] == s.down;
    if move.SdkText? && s.bridge.turn.Some? {
      forall i | 0 <= i < |s.down|
        ensures !s.down[i].Result?
      {
        if s.down[i].Result? {
          NoResultNone(s.down, i);
        }
      }
    }
    var s' := Step(s, move);
    assert s'.down == s.down || (s'.down == s.down + [s'.down[|s.down|]]);
  }

  lemma TextsLiveReceive(s: System)
    requires Inv(s) && TextsLive(s)
    ensures TextsLive(Step(s, ClientReceives))
  {
    if s.down != [] {
      var rest := s.down[1..];
      assert s.down == [s.down[0]] + rest;
      if s.down[0].Result? {
        assert forall j | 0 <= j < |rest| :: rest[j] == s.down[j + 1];
      }
    }
  }

  lemma {:induction false} EveryRunSpeaks(moves: seq<Move>)
    ensures TextsLive(Run(moves))
  {
    if moves != [] {
      var before, move := moves[..|moves| - 1], moves[|moves| - 1];
      EveryRunSpeaks(before);
      EveryRunKeeps(before);
      if move.ClientReceives? {
        TextsLiveReceive(Run(before));
      } else {
        TextsLiveSend(Run(before), move);
      }
    }
  }

  lemma PacketNotices(c: Client, p: Packet, n: nat)
    ensures multiset(DoPacket(c, p).log)[Notice(n)] == if p == Text(n) && n == c.turn && c.active then 1 else 0
  {
  }

  lemma TextSent(s: System, move: Move, n: nat)
    ensures
      multiset(Sends(s, move).sent)[Text(n)] ==
      if move == SdkText(true) && s.bridge.turn == Some(n) && !s.bridge.interrupted then 1 else 0
  {
  }

  lemma NoticeStep(s: System, move: Move, n: nat)
    ensures
      multiset(Step(s, move).log)[Notice(n)] == multiset(s.log)[Notice(n)] +
      if move.ClientReceives? && s.down != [] && s.down[0] == Text(n) && n == s.client.turn && s.client.active
      then 1 else 0
  {
    StepIsClientStep(s, move);
    if move.ClientReceives? && s.down != [] {
      PacketNotices(s.client, s.down[0], n);
    }
  }

  lemma SpeechStep(s: System, move: Move, n: nat)
    requires TextsLive(s)
    ensures
      var s' := Step(s, move);
      multiset(s'.log)[Notice(n)] + multiset(s'.down)[Text(n)] ==
      multiset(s.log)[Notice(n)] + multiset(s.down)[Text(n)] +
      if move == SdkText(true) && s.bridge.turn == Some(n) && !s.bridge.interrupted then 1 else 0
  {
    DownStep(s, move, Text(n));
    NoticeStep(s, move, n);
    TextSent(s, move, n);
    assert s.down != [] ==> s.down[0] in s.down;
  }

  /** Every main text the SDK speaks in a live turn before its interrupt is taken reaches the caller
      exactly once; nothing else does. */
  lemma {:induction false} TextsAreConserved(moves: seq<Move>, n: nat)
    ensures multiset(Run(moves).log)[Notice(n)] + multiset(Run(moves).down)[Text(n)] == Spoken(moves, n)
  {
    if moves != [] {
      var before := moves[..|moves| - 1];
      TextsAreConserved(before, n);
      EveryRunKeeps(before);
      EveryRunSpeaks(before);
      FlagIsTaken(before);
      SpeechStep(Run(before), moves[|moves| - 1], n);
    }
  }
}
