/** The usage replay of child/resumeEstimateRefresh.js: replays keep an idle allowance fresh, but
    continuous use must not be replayed, since the daemon does not know the ongoing interval. */
module ResumeEstimateRefresh {
  import opened Common

  datatype Stage = UsageQueue | TimerEstimate

  /** A suspended refresh; `cancelled` is its cancellable. */
  datatype Replay = Replay(stage: Stage, cancelled: bool)

  datatype Outcome = Cancelled | Replayed | NothingToReplay | Exhausted | Transient | Fatal

  datatype Entry =
    | Observed(enabled: bool, active: bool)
    | Started
    | Ended(outcome: Outcome)
    | Scheduled(delay: int)

  /** `enabled` and `active` are None before the first update. */
  datatype State = State(
    closed: bool, enabled: Option<bool>, active: Option<bool>, pending: Option<Replay>,
    again: bool, timer: bool, failures: nat, log: seq<Entry>)

  const INITIAL: State := State(false, None, None, None, false, false, 0, [])

  datatype Event =
    | Update(enabled: bool, active: bool, recheck: bool)
    | ReplayReturns(replayed: bool)
    | EstimateReturns(remaining: Option<int>)
    | ReplayFails(transient: bool)
    | TimerFires
    | Close

  function Log(s: State, e: Entry): State {
    s.(log := s.log + [e])
  }

  predicate Enabled(s: State) {
    s.enabled == Some(true)
  }

  predicate Active(s: State) {
    s.active == Some(true)
  }

  function Refresh(s: State): State {
    if s.closed || !Enabled(s) then s
    else if s.pending.Some? then s.(again := true)
    else Log(s.(pending := Some(Replay(UsageQueue, false))), Started)
  }

  function Cancel(s: State): State {
    s.(timer := false,
       pending := if s.pending.Some? then Some(s.pending.value.(cancelled := true)) else None)
  }

  predicate Changes(s: State, e: Event)
    requires e.Update?
  {
    s.enabled != Some(e.enabled) || s.active != Some(e.active) || (e.recheck && e.enabled && !e.active)
  }

  function DoUpdate(s: State, e: Event): State
    requires e.Update?
  {
    if s.closed then s
    else
      var seen := Log(s.(enabled := Some(e.enabled), active := Some(e.active)), Observed(e.enabled, e.active));
      if !Changes(s, e) then seen
      else
        var reset := Cancel(seen).(again := false, failures := 0);
        if e.enabled && (!e.active || (Enabled(s) && s.active == Some(false))) then Refresh(reset) else reset
  }

  /** Milliseconds to the next replay: half of a known balance, given in microseconds. */
  function BalanceDelay(remaining: Option<int>): nat {
    match remaining
    case None => 1000
    case Some(balance) =>
      if balance <= 0 then 0
      else if balance <= 200000 then 100
      else if balance > 120000000 then 60000
      else (balance + 1999) / 2000
  }

  /** A second doubled for each further failure, at most six times, and at most a minute. */
  const BACKOFF: seq<nat> := [1000, 2000, 4000, 8000, 16000, 32000, 60000]

  function FailureDelay(failures: nat): nat
    requires failures > 0
  {
    BACKOFF[if failures - 1 < 6 then failures - 1 else 6]
  }

  /** The refresh's finally block: `delay` is the retry it asks for. */
  function Settle(s: State, outcome: Outcome, delay: Option<int>): State
    requires s.pending.Some?
  {
    var ended := Log(s.(pending := None), Ended(outcome));
    if s.closed || !Enabled(s) then ended
    else if s.again then Refresh(ended.(again := false))
    else if delay.Some? && !s.pending.value.cancelled then
      Log(ended.(timer := true), Scheduled(delay.value))
    else ended
  }

  function Succeed(s: State, outcome: Outcome, delay: int): State
    requires s.pending.Some?
  {
    Settle(s.(failures := 0), outcome, if !Active(s) && delay > 0 then Some(delay) else None)
  }

  function Fail(s: State, transient: bool): State
    requires s.pending.Some?
  {
    Settle(s.(failures := s.failures + 1), if transient then Transient else Fatal,
           if transient && !Active(s) then Some(FailureDelay(s.failures + 1)) else None)
  }

  function Step(s: State, e: Event): State {
    match e
    case Update(_, _, _) => DoUpdate(s, e)
    case ReplayReturns(replayed) =>
      if s.pending.None? || s.pending.value.stage != UsageQueue then s
      else if s.pending.value.cancelled then Settle(s, Cancelled, None)
      else if replayed then s.(pending := Some(Replay(TimerEstimate, false)))
      else Succeed(s, NothingToReplay, 1000)
    case EstimateReturns(remaining) =>
      if s.pending.None? || s.pending.value.stage != TimerEstimate then s
      else if s.pending.value.cancelled then Settle(s, Cancelled, None)
      else
        var delay := BalanceDelay(remaining);
        Succeed(s, if delay == 0 then Exhausted else Replayed, delay)
    case ReplayFails(transient) =>
      if s.pending.None? then s
      else if s.pending.value.cancelled then Settle(s, Cancelled, None)
      else Fail(s, transient)
    case TimerFires => if s.timer then Refresh(s.(timer := false)) else s
    case Close => if s.closed then s else Cancel(s.(closed := true))
  }

  function Run(events: seq<Event>): State {
    if events == [] then INITIAL else Step(Run(events[..|events| - 1]), events[|events| - 1])
  }

  // ---------------------------------------------------------------------------
  // What the log says
  // ---------------------------------------------------------------------------

  /** The last observation was active. */
  predicate InUse(log: seq<Entry>) {
    log != [] && if log[|log| - 1].Observed? then log[|log| - 1].active else InUse(log[..|log| - 1])
  }

  predicate Inactive(log: seq<Entry>, i: int, j: int)
    requires 0 <= i <= j <= |log|
  {
    exists m | i < m < j :: log[m].Observed? && !log[m].active
  }

  predicate EndedBetween(log: seq<Entry>, i: int, j: int)
    requires 0 <= i <= j <= |log|
  {
    exists m | i < m < j :: log[m].Ended?
  }

  predicate OneReplay(log: seq<Entry>) {
    forall i, j | 0 <= i < j < |log| && log[i].Started? && log[j].Started? :: EndedBetween(log, i, j)
  }

  predicate AllEnded(log: seq<Entry>) {
    forall i | 0 <= i < |log| && log[i].Started? :: EndedBetween(log, i, |log|)
  }

  /** After a replay started during an active period, the next starts after that period. */
  predicate OncePerPeriod(log: seq<Entry>) {
    forall i, j | 0 <= i < j < |log| && log[i].Started? && log[j].Started? && InUse(log[..i]) :: Inactive(log, i, j)
  }

  /** No replay started in the active period that is going on. */
  predicate NoneThisPeriod(log: seq<Entry>) {
    forall i | 0 <= i < |log| && log[i].Started? && InUse(log[..i]) :: Inactive(log, i, |log|)
  }

  predicate Delayed(log: seq<Entry>) {
    forall i | 0 <= i < |log| && log[i].Scheduled? :: 100 <= log[i].delay <= 60000
  }

  /** The last replay that ended gave up: the balance is used up, or the failure is permanent. */
  predicate GaveUp(log: seq<Entry>) {
    |log| > 0 &&
    if log[|log| - 1].Ended? then log[|log| - 1].outcome == Exhausted || log[|log| - 1].outcome == Fatal
    else log[|log| - 1].Observed? && GaveUp(log[..|log| - 1])
  }

  predicate Inv(s: State) {
    && (s.enabled.Some? <==> s.active.Some?)
    && Active(s) == InUse(s.log)
    && (s.timer ==> Enabled(s) && !Active(s) && !s.closed && s.pending.None?)
    && (s.again && !s.closed ==> Enabled(s) && s.pending.Some?)
    && (s.pending.None? ==> AllEnded(s.log))
    && (Active(s) && s.again ==> NoneThisPeriod(s.log))
    && OneReplay(s.log) && OncePerPeriod(s.log) && Delayed(s.log)
  }

  /** An idle policy that waits for nothing gave up for a reason. */
  predicate Rests(s: State) {
    !s.closed && Enabled(s) && !Active(s) ==>
      && (s.pending.None? && !s.timer ==> GaveUp(s.log))
      && (s.pending.Some? && s.pending.value.cancelled ==> s.again)
  }

  // ---------------------------------------------------------------------------
  // One entry more
  // ---------------------------------------------------------------------------

  lemma InUseAppend(log: seq<Entry>, e: Entry)
    ensures InUse(log + [e]) == if e.Observed? then e.active else InUse(log)
    ensures forall i | 0 <= i <= |log| :: (log + [e])[..i] == log[..i]
  {
    assert (log + [e])[..|log + [e]| - 1] == log;
  }

  lemma BetweenAppend(log: seq<Entry>, e: Entry, i: int, j: int)
    requires 0 <= i <= j <= |log|
    ensures EndedBetween(log + [e], i, j) == EndedBetween(log, i, j)
    ensures Inactive(log + [e], i, j) == Inactive(log, i, j)
  {
    assert forall m | i < m < j :: (log + [e])[m] == log[m];
  }

  lemma UpToAppend(log: seq<Entry>, e: Entry, i: int)
    requires 0 <= i < |log|
    ensures EndedBetween(log + [e], i, |log| + 1) == (EndedBetween(log, i, |log|) || e.Ended?)
    ensures Inactive(log + [e], i, |log| + 1) == (Inactive(log, i, |log|) || (e.Observed? && !e.active))
  {
    BetweenAppend(log, e, i, |log|);
    assert (log + [e])[|log|] == e;
  }

  lemma HistoryAppend(log: seq<Entry>, e: Entry)
    requires OneReplay(log) && OncePerPeriod(log) && Delayed(log)
    requires e.Started? ==> AllEnded(log) && NoneThisPeriod(log)
    requires e.Scheduled? ==> 100 <= e.delay <= 60000
    ensures OneReplay(log + [e]) && OncePerPeriod(log + [e]) && Delayed(log + [e])
  {
    var more := log + [e];
    InUseAppend(log, e);
    forall i, j | 0 <= i < j < |more| && more[i].Started? && more[j].Started?
      ensures EndedBetween(more, i, j) && (InUse(more[..i]) ==> Inactive(more, i, j))
    {
      BetweenAppend(log, e, i, j);
    }
  }

  lemma OpenAppend(log: seq<Entry>, e: Entry)
    requires !e.Started?
    ensures AllEnded(log) || e.Ended? ==> AllEnded(log + [e])
    ensures NoneThisPeriod(log) ==> NoneThisPeriod(log + [e])
  {
    InUseAppend(log, e);
    forall i | 0 <= i < |log|
      ensures EndedBetween(log + [e], i, |log| + 1) == (EndedBetween(log, i, |log|) || e.Ended?)
      ensures Inactive(log, i, |log|) ==> Inactive(log + [e], i, |log| + 1)
    {
      UpToAppend(log, e, i);
    }
  }

  /** A period that has ended was ended by an inactive observation. */
  lemma {:induction false} PeriodOver(log: seq<Entry>, i: int)
    requires 0 <= i < |log| && !log[i].Observed? && InUse(log[..i]) && !InUse(log)
    ensures Inactive(log, i, |log|)
  {
    var last := |log| - 1;
    var before := log[..last];
    assert log == before + [log[last]];
    if i == last {
    } else if log[last].Observed? {
    } else {
      assert before[..i] == log[..i];
      PeriodOver(before, i);
      UpToAppend(before, log[last], i);
    }
  }

  lemma IdleMeansNone(log: seq<Entry>)
    requires !InUse(log)
    ensures NoneThisPeriod(log)
  {
    forall i | 0 <= i < |log| && log[i].Started? && InUse(log[..i])
      ensures Inactive(log, i, |log|)
    {
      PeriodOver(log, i);
    }
  }

  // ---------------------------------------------------------------------------
  // The handlers keep the invariant
  // ---------------------------------------------------------------------------

  lemma RefreshKeeps(s: State)
    requires Inv(s) && !s.timer && NoneThisPeriod(s.log)
    ensures Inv(Refresh(s))
  {
    if !s.closed && Enabled(s) && s.pending.None? {
      HistoryAppend(s.log, Started);
      InUseAppend(s.log, Started);
    }
  }

  lemma EndedKeeps(s: State, outcome: Outcome)
    requires Inv(s) && s.pending.Some?
    ensures Inv(Log(s.(pending := None, again := false), Ended(outcome)))
    ensures s.again ==> NoneThisPeriod(s.log + [Ended(outcome)])
  {
    var e := Ended(outcome);
    HistoryAppend(s.log, e);
    InUseAppend(s.log, e);
    OpenAppend(s.log, e);
    if !Active(s) {
      IdleMeansNone(s.log + [e]);
    }
  }

  lemma ScheduledKeeps(s: State, delay: int)
    requires Inv(s) && s.pending.None? && !s.closed && Enabled(s) && !Active(s) && 100 <= delay <= 60000
    ensures Inv(Log(s.(timer := true), Scheduled(delay)))
  {
    HistoryAppend(s.log, Scheduled(delay));
    InUseAppend(s.log, Scheduled(delay));
    OpenAppend(s.log, Scheduled(delay));
  }

  lemma SettleKeeps(s: State, outcome: Outcome, delay: Option<int>)
    requires Inv(s) && s.pending.Some?
    requires delay.Some? ==> !Active(s) && 100 <= delay.value <= 60000
    ensures Inv(Settle(s, outcome, delay))
  {
    EndedKeeps(s, outcome);
    var calm := Log(s.(pending := None, again := false), Ended(outcome));
    if !s.closed && Enabled(s) {
      if s.again {
        RefreshKeeps(calm);
      } else if delay.Some? && !s.pending.value.cancelled {
        ScheduledKeeps(calm, delay.value);
      }
    }
  }

  lemma UpdateKeeps(s: State, e: Event)
    requires Inv(s) && e.Update?
    ensures Inv(DoUpdate(s, e))
  {
    if !s.closed {
      var o := Observed(e.enabled, e.active);
      HistoryAppend(s.log, o);
      InUseAppend(s.log, o);
      OpenAppend(s.log, o);
      if Changes(s, e) && e.enabled && (!e.active || (Enabled(s) && s.active == Some(false))) {
        if !e.active {
          IdleMeansNone(s.log + [o]);
        } else {
          IdleMeansNone(s.log);
        }
        var seen := Log(s.(enabled := Some(e.enabled), active := Some(e.active)), o);
        RefreshKeeps(Cancel(seen).(again := false, failures := 0));
      }
    }
  }

  lemma DelayBounds(remaining: Option<int>, failures: nat)
    requires failures > 0
    ensures BalanceDelay(remaining) == 0 || 100 <= BalanceDelay(remaining) <= 60000
    ensures 1000 <= FailureDelay(failures) <= 60000
  {
  }

  lemma StepKeeps(s: State, e: Event)
    requires Inv(s)
    ensures Inv(Step(s, e))
  {
    match e
    case Update(_, _, _) => UpdateKeeps(s, e);
    case ReplayReturns(replayed) =>
      if s.pending.Some? && s.pending.value.stage == UsageQueue {
        if s.pending.value.cancelled {
          SettleKeeps(s, Cancelled, None);
        } else if !replayed {
          SettleKeeps(s.(failures := 0), NothingToReplay, if !Active(s) then Some(1000) else None);
        }
      }
    case EstimateReturns(remaining) =>
      if s.pending.Some? && s.pending.value.stage == TimerEstimate {
        var delay := BalanceDelay(remaining);
        DelayBounds(remaining, 1);
        if s.pending.value.cancelled {
          SettleKeeps(s, Cancelled, None);
        } else {
          SettleKeeps(s.(failures := 0), if delay == 0 then Exhausted else Replayed,
                      if !Active(s) && delay > 0 then Some(delay) else None);
        }
      }
    case ReplayFails(transient) =>
      if s.pending.Some? {
        DelayBounds(None, s.failures + 1);
        if s.pending.value.cancelled {
          SettleKeeps(s, Cancelled, None);
        } else {
          SettleKeeps(s.(failures := s.failures + 1), if transient then Transient else Fatal,
                      if transient && !Active(s) then Some(FailureDelay(s.failures + 1)) else None);
        }
      }
    case TimerFires =>
      if s.timer {
        IdleMeansNone(s.log);
        RefreshKeeps(s.(timer := false));
      }
    case Close =>
  }

  lemma StepRests(s: State, e: Event)
    requires Inv(s) && Rests(s)
    ensures Rests(Step(s, e))
  {
    match e
    case Update(_, _, _) =>
      if !s.closed && !Changes(s, e) {
        var o := Observed(e.enabled, e.active);
        assert (s.log + [o])[..|s.log|] == s.log;
      }
    case _ =>
  }

  lemma {:induction false} EveryRunKeeps(events: seq<Event>)
    ensures Inv(Run(events)) && Rests(Run(events))
  {
    if events != [] {
      EveryRunKeeps(events[..|events| - 1]);
      StepKeeps(Run(events[..|events| - 1]), events[|events| - 1]);
      StepRests(Run(events[..|events| - 1]), events[|events| - 1]);
    }
  }

  // ---------------------------------------------------------------------------
  // Main results
  // ---------------------------------------------------------------------------

  /** An uninterrupted active period starts at most one replay: if one starts while in use, the
      next starts only after an inactive observation. */
  lemma {:induction false} OneReplayPerActivePeriod(events: seq<Event>, i: nat, j: nat)
    requires i < j < |Run(events).log| && Run(events).log[i].Started? && Run(events).log[j].Started?
    requires InUse(Run(events).log[..i])
    ensures Inactive(Run(events).log, i, j)
  {
    EveryRunKeeps(events);
  }

  /** Replays never overlap, and an armed timer means an enabled, inactive, open policy with no
      replay in flight; its delay is between a tenth of a second and a minute. */
  lemma {:induction false} TimersOnlyWhileIdle(events: seq<Event>)
    ensures OneReplay(Run(events).log) && Delayed(Run(events).log)
    ensures Run(events).timer ==>
              Enabled(Run(events)) && !Active(Run(events)) && !Run(events).closed
              && Run(events).pending.None? && AllEnded(Run(events).log)
  {
    EveryRunKeeps(events);
  }

  /** An enabled, inactive policy that waits for nothing ended its last replay with an exhausted
      balance or a permanent failure; a cancelled replay is always followed by another. */
  lemma {:induction false} NothingIdleIsForgotten(events: seq<Event>)
    requires !Run(events).closed && Enabled(Run(events)) && !Active(Run(events))
    ensures Run(events).pending.None? && !Run(events).timer ==> GaveUp(Run(events).log)
    ensures Run(events).pending.Some? && Run(events).pending.value.cancelled ==> Run(events).again
  {
    EveryRunKeeps(events);
  }

  // ---------------------------------------------------------------------------
  // The object
  // ---------------------------------------------------------------------------

  class EstimateRefresh {
    var closed: bool
    var enabled: Option<bool>
    var active: Option<bool>
    var pending: Option<Replay>
    var again: bool
    var timer: bool
    var failures: nat
    ghost var log: seq<Entry>

    ghost function Now(): State
      reads this
    {
      State(closed, enabled, active, pending, again, timer, failures, log)
    }

    constructor ()
      ensures Now() == INITIAL
    {
      closed, enabled, active, pending, again, timer, failures := false, None, None, None, false, false, 0;
      log := [];
    }

    ghost method Note(e: Entry)
      modifies this`log
      ensures Now() == Log(old(Now()), e)
    {
      log := log + [e];
    }

    method RefreshUsage()
      modifies this
      ensures Now() == Refresh(old(Now()))
    {
      if closed || enabled != Some(true) {
        return;
      }
      if pending.Some? {
        again := true;
        return;
      }
      pending := Some(Replay(UsageQueue, false));
      Note(Started);
    }

    method CancelAll()
      modifies this`timer, this`pending
      ensures Now() == Cancel(old(Now()))
    {
      timer := false;
      if pending.Some? {
        pending := Some(pending.value.(cancelled := true));
      }
    }

    method UpdatePolicy(limitsEnabled: bool, inUse: bool, recheckInactive: bool)
      modifies this
      ensures Now() == Step(old(Now()), Update(limitsEnabled, inUse, recheckInactive))
    {
      if closed {
        return;
      }
      var wasEnabled, wasActive := enabled, active;
      enabled, active := Some(limitsEnabled), Some(inUse);
      Note(Observed(limitsEnabled, inUse));
      if enabled != wasEnabled || active != wasActive || (recheckInactive && limitsEnabled && !inUse) {
        CancelAll();
        again := false;
        failures := 0;
        if limitsEnabled && (!inUse || (wasEnabled == Some(true) && wasActive == Some(false))) {
          RefreshUsage();
        }
      }
    }

    method SettleReplay(ghost outcome: Outcome, delay: Option<int>)
      requires pending.Some?
      modifies this
      ensures Now() == Settle(old(Now()), outcome, delay)
    {
      var cancelled := pending.value.cancelled;
      pending := None;
      Note(Ended(outcome));
      if !closed && enabled == Some(true) {
        if again {
          again := false;
          RefreshUsage();
        } else if delay.Some? && !cancelled {
          timer := true;
          Note(Scheduled(delay.value));
        }
      }
    }

    method ReplayReturned(replayed: bool)
      modifies this
      ensures Now() == Step(old(Now()), ReplayReturns(replayed))
    {
      if pending.Some? && pending.value.stage == UsageQueue {
        if pending.value.cancelled {
          SettleReplay(Cancelled, None);
        } else if replayed {
          pending := Some(Replay(TimerEstimate, false));
        } else {
          failures := 0;
          SettleReplay(NothingToReplay, if active == Some(true) then None else Some(1000));
        }
      }
    }

    method EstimateReturned(remaining: Option<int>)
      modifies this
      ensures Now() == Step(old(Now()), EstimateReturns(remaining))
    {
      if pending.Some? && pending.value.stage == TimerEstimate {
        if pending.value.cancelled {
          SettleReplay(Cancelled, None);
        } else {
          failures := 0;
          var delay := BalanceDelay(remaining);
          SettleReplay(if delay == 0 then Exhausted else Replayed,
                       if active != Some(true) && delay > 0 then Some(delay) else None);
        }
      }
    }

    method ReplayFailed(transient: bool)
      modifies this
      ensures Now() == Step(old(Now()), ReplayFails(transient))
    {
      if pending.Some? {
        if pending.value.cancelled {
          SettleReplay(Cancelled, None);
        } else {
          failures := failures + 1;
          SettleReplay(if transient then Transient else Fatal,
                       if transient && active != Some(true) then Some(FailureDelay(failures)) else None);
        }
      }
    }

    method TimerFired()
      modifies this
      ensures Now() == Step(old(Now()), TimerFires)
    {
      if timer {
        timer := false;
        RefreshUsage();
      }
    }

    method CloseRefresh()
      modifies this
      ensures Now() == Step(old(Now()), Close)
    {
      if closed {
        return;
      }
      closed := true;
      CancelAll();
    }
  }
}
