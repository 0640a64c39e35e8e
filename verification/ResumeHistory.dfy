/** The usage replay told without the object's fields: what is enabled, running, cancelled, queued
    and armed is read off the events and the entries they left, and every entry follows from that. */
module ResumeHistory {
  import opened Common
  import opened ResumeEstimateRefresh

  // ---------------------------------------------------------------------------
  // Delays
  // ---------------------------------------------------------------------------

  function Within(low: int, n: int, high: int): int {
    if n < low then low else if n > high then high else n
  }

  /** Half of a positive balance in whole milliseconds, rounded up, from 100 ms to a minute. */
  function Half(balance: int): int {
    Within(100, (balance + 1999) / 2000, 60000)
  }

  /** Unless a bound decides, it is the least delay that is not shorter than half the balance. */
  lemma HalfMeans(balance: int, delay: int)
    ensures delay == Half(balance) <==>
              && 100 <= delay <= 60000
              && (2000 * delay >= balance || delay == 60000)
              && (2000 * (delay - 1) < balance || delay == 100)
  {
  }

  function Doubled(n: nat): nat {
    if n == 0 then 1000 else 2 * Doubled(n - 1)
  }

  /** The delay after the n-th failure in a row: a second, doubled each time, at most a minute. */
  function Backoff(n: nat): int
    requires n > 0
  {
    Within(1000, Doubled(if n <= 7 then n - 1 else 6), 60000)
  }

  lemma BackoffIsFailureDelay(n: nat)
    requires n > 0
    ensures FailureDelay(n) == Backoff(n)
  {
    assert Doubled(0) == 1000 && Doubled(1) == 2000 && Doubled(2) == 4000;
    assert Doubled(3) == 8000 && Doubled(4) == 16000 && Doubled(5) == 32000 && Doubled(6) == 64000;
  }

  // ---------------------------------------------------------------------------
  // Histories
  // ---------------------------------------------------------------------------

  predicate Closed(events: seq<Event>) {
    exists i | 0 <= i < |events| :: events[i].Close?
  }

  /** What the last update before close saw: enabled, active. */
  function Seen(events: seq<Event>): Option<(bool, bool)> {
    if events == [] then None
    else
      var before, e := events[..|events| - 1], events[|events| - 1];
      if e.Update? && !Closed(before) then Some((e.enabled, e.active)) else Seen(before)
  }

  /** The update starts over: it saw something new, or rechecks an idle policy. */
  predicate Resets(before: seq<Event>, e: Event) {
    && e.Update? && !Closed(before)
    && (Seen(before) != Some((e.enabled, e.active)) || (e.recheck && e.enabled && !e.active))
  }

  /** It wants a replay: the policy is idle, or was idle until now. */
  predicate Wants(before: seq<Event>, e: Event) {
    Resets(before, e) && e.enabled && (!e.active || Seen(before) == Some((true, false)))
  }

  predicate Running(log: seq<Entry>) {
    log != [] &&
    var e := log[|log| - 1];
    e.Started? || (!e.Ended? && Running(log[..|log| - 1]))
  }

  predicate EndsWith(log: seq<Entry>, before: seq<Entry>, e: Entry) {
    |log| > |before| && log[|log| - 1] == e
  }

  /** Since the running replay started the policy started over or was closed. */
  predicate Dropped(events: seq<Event>)
    decreases |events|, 1
  {
    events != [] &&
    var before, e := events[..|events| - 1], events[|events| - 1];
    !EndsWith(Entries(events), Entries(before), Started) && (Dropped(before) || Resets(before, e) || e.Close?)
  }

  /** The running replay has replayed some usage and waits for the estimate. */
  predicate Estimating(events: seq<Event>)
    decreases |events|, 1
  {
    events != [] &&
    var before, e := events[..|events| - 1], events[|events| - 1];
    && !EndsWith(Entries(events), Entries(before), Started)
    && (Estimating(before) || (e == ReplayReturns(true) && Running(Entries(before)) && !Dropped(before)))
  }

  /** The event ends the running replay. */
  predicate Ends(before: seq<Event>, e: Event)
    decreases |before|, 2
  {
    Running(Entries(before)) &&
    match e
    case ReplayReturns(replayed) => !Estimating(before) && (Dropped(before) || !replayed)
    case EstimateReturns(_) => Estimating(before)
    case ReplayFails(_) => true
    case _ => false
  }

  function OutcomeOf(before: seq<Event>, e: Event): Outcome
    decreases |before|, 2
  {
    if Dropped(before) then Cancelled
    else
      match e
      case EstimateReturns(remaining) => if remaining.Some? && remaining.value <= 0 then Exhausted else Replayed
      case ReplayFails(transient) => if transient then Transient else Fatal
      case _ => NothingToReplay
  }

  /** A replay was asked for while one was running, and the policy has not started over since. */
  predicate Queued(events: seq<Event>)
    decreases |events|, 1
  {
    events != [] &&
    var before, e := events[..|events| - 1], events[|events| - 1];
    if Resets(before, e) then Wants(before, e) && Running(Entries(before))
    else Queued(before) && !Ends(before, e)
  }

  /** A timer was scheduled, and neither fired nor was cancelled since. */
  predicate Armed(events: seq<Event>)
    decreases |events|, 1
  {
    events != [] &&
    var before, e := events[..|events| - 1], events[|events| - 1];
    var log := Entries(events);
    || (|log| > |Entries(before)| && log[|log| - 1].Scheduled?)
    || (Armed(before) && !Resets(before, e) && !e.Close? && !e.TimerFires?)
  }

  /** The failures in a row since the policy started over. */
  function Failures(events: seq<Event>): nat
    decreases |events|, 1
  {
    if events == [] then 0
    else
      var before, e := events[..|events| - 1], events[|events| - 1];
      if Resets(before, e) then 0
      else if !Ends(before, e) || Dropped(before) then Failures(before)
      else if e.ReplayFails? then Failures(before) + 1
      else 0
  }

  /** When an idle policy replays again after this end, if at all. */
  function NextDelay(before: seq<Event>, e: Event): Option<int>
    decreases |before|, 2
  {
    if Dropped(before) || (Seen(before).Some? && Seen(before).value.1) then None
    else
      match e
      case EstimateReturns(remaining) =>
        if remaining.None? then Some(1000) else if remaining.value > 0 then Some(Half(remaining.value)) else None
      case ReplayFails(transient) => if transient then Some(Backoff(Failures(before) + 1)) else None
      case _ => Some(1000)
  }

  /** The entries that ought to be left. */
  function Entries(events: seq<Event>): seq<Entry>
    decreases |events|, 0
  {
    if events == [] then []
    else
      var before, e := events[..|events| - 1], events[|events| - 1];
      var log := Entries(before);
      if e.Update? && !Closed(before) then
        log + [Observed(e.enabled, e.active)] + if Wants(before, e) && !Running(log) then [Started] else []
      else if Ends(before, e) then
        log + [Ended(OutcomeOf(before, e))] +
        if Closed(before) || Seen(before).None? || !Seen(before).value.0 then []
        else if Queued(before) then [Started]
        else if NextDelay(before, e).Some? then [Scheduled(NextDelay(before, e).value)]
        else []
      else if e.TimerFires? && Armed(before) then log + [Started]
      else log
  }

  // ---------------------------------------------------------------------------
  // The object does exactly this
  // ---------------------------------------------------------------------------

  predicate Agrees(events: seq<Event>, s: State) {
    && s.log == Entries(events)
    && (s.closed <==> Closed(events))
    && (match Seen(events)
        case None => s.enabled.None? && s.active.None?
        case Some((enabled, active)) => s.enabled == Some(enabled) && s.active == Some(active))
    && (s.pending.Some? <==> Running(s.log))
    && (s.pending.Some? ==>
          && (s.pending.value.cancelled <==> Dropped(events))
          && (s.pending.value.stage.TimerEstimate? <==> Estimating(events)))
    && (s.closed && s.pending.Some? ==> s.pending.value.cancelled)
    && (!s.closed ==> (s.again <==> Queued(events)))
    && (s.timer <==> Armed(events))
    && s.failures == Failures(events)
  }

  /** The histories after one event more, when it leaves these entries. */
  lemma HistoryStep(before: seq<Event>, e: Event, more: seq<Entry>)
    requires Entries(before + [e]) == Entries(before) + more
    ensures
      var events := before + [e];
      && (Closed(events) <==> Closed(before) || e.Close?)
      && Seen(events) == (if e.Update? && !Closed(before) then Some((e.enabled, e.active)) else Seen(before))
      && (Dropped(events) <==>
            !(more != [] && more[|more| - 1] == Started) && (Dropped(before) || Resets(before, e) || e.Close?))
      && (Estimating(events) <==>
            && !(more != [] && more[|more| - 1] == Started)
            && (Estimating(before) || (e == ReplayReturns(true) && Running(Entries(before)) && !Dropped(before))))
      && (Queued(events) <==>
            if Resets(before, e) then Wants(before, e) && Running(Entries(before)) else Queued(before) && !Ends(before, e))
      && (Armed(events) <==>
            || (more != [] && more[|more| - 1].Scheduled?)
            || (Armed(before) && !Resets(before, e) && !e.Close? && !e.TimerFires?))
      && Failures(events) ==
           (if Resets(before, e) then 0
            else if !Ends(before, e) || Dropped(before) then Failures(before)
            else if e.ReplayFails? then Failures(before) + 1 else 0)
  {
    var events := before + [e];
    assert events[..|events| - 1] == before && events[|before|] == e;
    assert more != [] ==> (Entries(before) + more)[|Entries(before) + more| - 1] == more[|more| - 1];
    if Closed(before) {
      var i :| 0 <= i < |before| && before[i].Close?;
      assert events[i].Close?;
    }
  }

  /** The entries one event ought to leave. */
  function Left(before: seq<Event>, e: Event): seq<Entry> {
    if e.Update? && !Closed(before) then
      [Observed(e.enabled, e.active)] + if Wants(before, e) && !Running(Entries(before)) then [Started] else []
    else if Ends(before, e) then
      [Ended(OutcomeOf(before, e))] +
      if Closed(before) || Seen(before).None? || !Seen(before).value.0 then []
      else if Queued(before) then [Started]
      else if NextDelay(before, e).Some? then [Scheduled(NextDelay(before, e).value)]
      else []
    else if e.TimerFires? && Armed(before) then [Started]
    else []
  }

  lemma EntriesStep(before: seq<Event>, e: Event)
    ensures Entries(before + [e]) == Entries(before) + Left(before, e)
  {
    var events := before + [e];
    assert events[..|events| - 1] == before && events[|before|] == e;
  }

  lemma RunningAfter(log: seq<Entry>, more: seq<Entry>)
    requires more != []
    requires more[|more| - 1].Observed? || more[|more| - 1].Scheduled? ==> |more| <= 2
    ensures
      var last := more[|more| - 1];
      Running(log + more) <==>
        || last.Started?
        || (!last.Ended? && if |more| == 1 then Running(log) else more[0].Started? || (!more[0].Ended? && Running(log)))
  {
    var all := log + more;
    assert all[..|all| - 1] == log + more[..|more| - 1];
    if |more| == 1 {
      assert log + more[..0] == log;
    } else if |more| == 2 {
      var most := log + more[..1];
      assert most[..|most| - 1] == log;
    }
  }

  /** What an update makes of the open object. */
  lemma UpdateState(s: State, e: Event)
    requires e.Update? && !s.closed
    ensures
      var t := Step(s, e);
      var observed := s.log + [Observed(e.enabled, e.active)];
      var starts := e.enabled && (!e.active || (Enabled(s) && s.active == Some(false)));
      && t.enabled == Some(e.enabled) && t.active == Some(e.active) && !t.closed
      && (if !Changes(s, e) then
            t == s.(enabled := t.enabled, active := t.active, log := observed)
          else
            && !t.timer && t.failures == 0 && (t.again <==> starts && s.pending.Some?)
            && t.log == (if starts && s.pending.None? then observed + [Started] else observed)
            && t.pending ==
                 if s.pending.Some? then Some(s.pending.value.(cancelled := true))
                 else if starts then Some(Replay(UsageQueue, false)) else None)
  {
  }

  lemma UpdateAgrees(before: seq<Event>, s: State, e: Event)
    requires Agrees(before, s) && Inv(s) && e.Update? && !s.closed
    ensures Agrees(before + [e], Step(s, e))
  {
    var more := Left(before, e);
    EntriesStep(before, e);
    HistoryStep(before, e, more);
    RunningAfter(s.log, more);
    UpdateState(s, e);
    assert Changes(s, e) <==> Resets(before, e);
    UpdateFits(before, s, e, Step(s, e), more);
  }

  lemma UpdateFits(before: seq<Event>, s: State, e: Event, t: State, more: seq<Entry>)
    requires Agrees(before, s) && e.Update? && !s.closed && more == Left(before, e)
    requires Changes(s, e) <==> Resets(before, e)
    ensures
      var observed := s.log + [Observed(e.enabled, e.active)];
      s.log + more == if Wants(before, e) && s.pending.None? then observed + [Started] else observed
    ensures
      var starts := e.enabled && (!e.active || (Enabled(s) && s.active == Some(false)));
      Wants(before, e) <==> Changes(s, e) && starts
  {
    var o := Observed(e.enabled, e.active);
    assert s.log + ([o] + [Started]) == s.log + [o] + [Started];
    assert [o] + [] == [o];
  }

  lemma EndAgrees(before: seq<Event>, s: State, e: Event, t: State, delay: Option<int>)
    requires Agrees(before, s) && Inv(s) && s.pending.Some? && Ends(before, e) && !e.Update? && !e.Close?
    requires t == s.(failures := t.failures)
    requires t.failures == if Dropped(before) then s.failures else if e.ReplayFails? then s.failures + 1 else 0
    requires !Dropped(before) ==> delay == NextDelay(before, e)
    requires Step(s, e) == Settle(t, OutcomeOf(before, e), delay)
    ensures Agrees(before + [e], Step(s, e))
  {
    var more := Left(before, e);
    EntriesStep(before, e);
    HistoryStep(before, e, more);
    RunningAfter(s.log, more);
    assert s.log + more == if |more| == 1 then s.log + [more[0]] else s.log + [more[0]] + [more[1]];
  }

  lemma DelayAgrees(balance: int)
    requires balance > 0
    ensures BalanceDelay(Some(balance)) == Half(balance)
  {
  }

  lemma ReplyAgrees(before: seq<Event>, s: State, e: Event)
    requires Agrees(before, s) && Inv(s) && (e.ReplayReturns? || e.EstimateReturns? || e.ReplayFails?)
    ensures Agrees(before + [e], Step(s, e))
  {
    if s.pending.Some? && Ends(before, e) {
      if Dropped(before) {
        EndAgrees(before, s, e, s, None);
      } else {
        match e
        case ReplayReturns(_) => EndAgrees(before, s, e, s.(failures := 0), if !Active(s) then Some(1000) else None);
        case EstimateReturns(remaining) =>
          var delay := BalanceDelay(remaining);
          if remaining.Some? && remaining.value > 0 {
            DelayAgrees(remaining.value);
          }
          EndAgrees(before, s, e, s.(failures := 0), if !Active(s) && delay > 0 then Some(delay) else None);
        case ReplayFails(transient) =>
          BackoffIsFailureDelay(s.failures + 1);
          EndAgrees(before, s, e, s.(failures := s.failures + 1),
                    if transient && !Active(s) then Some(FailureDelay(s.failures + 1)) else None);
      }
    } else {
      EntriesStep(before, e);
      HistoryStep(before, e, []);
      assert s.log + [] == s.log;
    }
  }

  lemma OtherAgrees(before: seq<Event>, s: State, e: Event)
    requires Agrees(before, s) && Inv(s) && (e.TimerFires? || e.Close? || (e.Update? && s.closed))
    ensures Agrees(before + [e], Step(s, e))
  {
    var more := Left(before, e);
    EntriesStep(before, e);
    HistoryStep(before, e, more);
    assert s.log + [] == s.log;
    if more != [] {
      RunningAfter(s.log, more);
    }
  }

  lemma {:induction false} EveryRunAgrees(events: seq<Event>)
    ensures Inv(Run(events)) && Agrees(events, Run(events))
  {
    if events != [] {
      var before, e := events[..|events| - 1], events[|events| - 1];
      assert events == before + [e];
      EveryRunAgrees(before);
      StepKeeps(Run(before), e);
      if e.Update? && !Run(before).closed {
        UpdateAgrees(before, Run(before), e);
      } else if e.ReplayReturns? || e.EstimateReturns? || e.ReplayFails? {
        ReplyAgrees(before, Run(before), e);
      } else {
        OtherAgrees(before, Run(before), e);
      }
    }
  }

  /** In every run the entries are exactly those that follow from the events: when a replay starts,
      how it ends, and after which delay the next one comes. */
  lemma {:induction false} EntriesAreExact(events: seq<Event>)
    ensures Run(events).log == Entries(events)
    ensures Run(events).timer <==> Armed(events)
  {
    EveryRunAgrees(events);
  }
}
