/** The countdown's estimate reads, retries, lock branch and tick of
    child/remainingTimeIndicator.js: a state machine over the main loop's events. */
module CountdownRefresh {
  import opened Common

  const DELAYS: seq<nat> := [1000, 3000, 10000]

  datatype Stage = Estimates | Broker

  /** The serial a suspended read captured, and what it waits for. */
  datatype Read = Read(serial: nat, stage: Stage)

  datatype Entry =
    | Requested
    | Bumped(serial: nat)
    | Began(serial: nat)
    | Ended(serial: nat)
    | Deadline(serial: nat, value: int)
    | Armed(delay: nat)
    | Lock(deadline: int, now: int)

  /** `tick` is the due time of the armed display timer. */
  datatype State = State(
    preview: bool, destroyed: bool, serial: nat, deadline: int, deadlineSerial: Option<nat>, loaded: bool,
    reading: Option<Read>, again: bool, retries: nat, retryArmed: bool, lockPending: bool,
    tick: Option<int>, log: seq<Entry>)

  function Initial(preview: bool, deadline: int): State {
    State(preview, false, 0, deadline, None, false, None, false, 0, false, false, None, [])
  }

  /** What a handler reads while it runs; `delay` is the notifications' next update in seconds. */
  datatype World = World(locked: bool, greeter: bool, limits: bool, now: int, delay: nat)

  datatype Event =
    | Request
    | EstimateArrives(w: World)
    | DeadlineArrives(deadline: int, w: World)
    | ReadFails(reenters: bool, w: World)
    | RetryFires
    | TickFires(w: World)
    | Notified(w: World)
    | LockReturns
    | Dispose

  // ---------------------------------------------------------------------------
  // The handlers
  // ---------------------------------------------------------------------------

  function Log(s: State, e: Entry): State {
    s.(log := s.log + [e])
  }

  function Bump(s: State): State {
    Log(s.(serial := s.serial + 1), Bumped(s.serial + 1))
  }

  function Begin(s: State): State {
    Log(s.(reading := Some(Read(s.serial, Estimates))), Began(s.serial))
  }

  function Start(s: State): State {
    if s.destroyed then s
    else if s.reading.Some? then Bump(s).(again := true)
    else Begin(Bump(s))
  }

  function Refresh(s: State): State {
    if s.preview || s.destroyed then s
    else Start(Log(s.(retryArmed := false, retries := 0), Requested))
  }

  function LockSession(s: State, w: World): State {
    if s.destroyed || s.lockPending then s else Log(s.(lockPending := true), Lock(s.deadline, w.now))
  }

  function Schedule(s: State, w: World): State {
    var due := w.now + w.delay * 1000000;
    if s.tick.Some? && s.tick.value <= due then s else s.(tick := Some(due))
  }

  predicate Visible(s: State, w: World) {
    !w.locked && !w.greeter && s.deadline > w.now
  }

  predicate MayLock(s: State, w: World) {
    && !s.preview && s.loaded && s.deadlineSerial == Some(s.serial) && w.limits
    && !w.locked && !w.greeter && s.deadline <= w.now
  }

  function Sync(s: State, w: World): State {
    if s.destroyed then s
    else if Visible(s, w) then Schedule(s, w)
    else if MayLock(s, w) then LockSession(s.(tick := None), w)
    else s.(tick := None)
  }

  /** The read's finally block. */
  function End(s: State, w: World): State
    requires s.reading.Some?
  {
    var ended := Log(s.(reading := None), Ended(s.reading.value.serial));
    if s.destroyed then ended
    else
      var synced := Sync(ended, w);
      if synced.again then Start(synced.(again := false)) else synced
  }

  predicate Superseded(s: State)
    requires s.reading.Some?
  {
    s.destroyed || s.reading.value.serial != s.serial
  }

  function Take(s: State, deadline: int): State {
    Log(s.(deadline := deadline, deadlineSerial := Some(s.serial), loaded := true, retries := 0),
        Deadline(s.serial, deadline))
  }

  function Retry(s: State): State {
    if s.retries < |DELAYS| then Log(s.(retries := s.retries + 1, retryArmed := true), Armed(DELAYS[s.retries]))
    else s
  }

  /** `reenters`: the error callback asks for a refresh. */
  function Recover(s: State, reenters: bool): State {
    if reenters then Refresh(Retry(s)) else Retry(s)
  }

  function Disposed(s: State): State {
    if s.destroyed then s else s.(destroyed := true, retryArmed := false, tick := None)
  }

  function Step(s: State, e: Event): State {
    match e
    case Request => Refresh(s)
    case EstimateArrives(w) =>
      if s.reading.None? || s.reading.value.stage != Estimates then s
      else if Superseded(s) then End(s, w)
      else s.(reading := Some(s.reading.value.(stage := Broker)))
    case DeadlineArrives(deadline, w) =>
      if s.reading.None? || s.reading.value.stage != Broker then s
      else if Superseded(s) then End(s, w)
      else End(Take(s, deadline), w)
    case ReadFails(reenters, w) =>
      if s.reading.None? then s
      else if Superseded(s) then End(s, w)
      else End(Recover(s, reenters), w)
    case RetryFires => if s.retryArmed then Start(s.(retryArmed := false)) else s
    case TickFires(w) => if s.tick.None? then s else Sync(s.(tick := None), w)
    case Notified(w) => Sync(s, w)
    case LockReturns => s.(lockPending := false)
    case Dispose => Disposed(s)
  }

  function Run(start: State, events: seq<Event>): State {
    if events == [] then start else Step(Run(start, events[..|events| - 1]), events[|events| - 1])
  }

  // ---------------------------------------------------------------------------
  // What the log says
  // ---------------------------------------------------------------------------

  /** Read n began after the last time anything asked for a refresh. */
  predicate Begun(log: seq<Entry>, n: nat) {
    exists r | 0 <= r < |log| :: log[r] == Began(n) && NoBump(log, r)
  }

  predicate NoBump(log: seq<Entry>, from: int)
    requires 0 <= from < |log|
  {
    forall m | from < m < |log| :: !log[m].Bumped?
  }

  /** ... and it returned this deadline. */
  predicate Fresh(log: seq<Entry>, n: nat, deadline: int) {
    exists r, d | 0 <= r < d < |log| :: log[r] == Began(n) && log[d] == Deadline(n, deadline) && NoBump(log, r)
  }

  /** Every lock answers an expired deadline that came from a read begun after the last request;
      every deadline came from such a read. */
  ghost predicate Justified(log: seq<Entry>) {
    forall k | 0 <= k < |log| ::
      && (log[k].Lock? ==> log[k].deadline <= log[k].now && exists n: nat :: Fresh(log[..k], n, log[k].deadline))
      && (log[k].Deadline? ==> Begun(log[..k], log[k].serial))
  }

  /** Between two reads the first has ended. */
  predicate OneRead(log: seq<Entry>) {
    forall i, j | 0 <= i < j < |log| && log[i].Began? && log[j].Began? :: EndedBetween(log, i, j)
  }

  predicate EndedBetween(log: seq<Entry>, i: int, j: int)
    requires 0 <= i <= j <= |log|
  {
    exists m | i < m < j :: log[m].Ended?
  }

  function LastDeadline(log: seq<Entry>, start: int): int {
    if log == [] then start
    else if log[|log| - 1].Deadline? then log[|log| - 1].value
    else LastDeadline(log[..|log| - 1], start)
  }

  /** The retry timers armed since the last request or success. */
  function Tries(log: seq<Entry>): seq<nat> {
    if log == [] then []
    else
      var last := log[|log| - 1];
      if last.Requested? || last.Deadline? then []
      else Tries(log[..|log| - 1]) + (if last.Armed? then [last.delay] else [])
  }

  predicate AllEnded(log: seq<Entry>) {
    forall i | 0 <= i < |log| && log[i].Began? :: EndedBetween(log, i, |log|)
  }

  /** The fields agree with the log. */
  ghost predicate Core(s: State, start: int) {
    && (s.deadlineSerial == Some(s.serial) ==> Fresh(s.log, s.serial, s.deadline))
    && (s.reading.Some? && s.reading.value.serial == s.serial ==> Begun(s.log, s.serial))
    && (s.reading.Some? ==> s.reading.value.serial <= s.serial)
    && (s.deadlineSerial.Some? ==> s.deadlineSerial.value <= s.serial)
    && (s.reading.None? ==> AllEnded(s.log))
    && s.retries <= |DELAYS| && Tries(s.log) == DELAYS[..s.retries]
    && s.deadline == LastDeadline(s.log, start)
    && Justified(s.log) && OneRead(s.log)
  }

  /** No refresh is forgotten: a superseded read is followed by another, and at rest the deadline
      answers the last request unless its retries are used up. */
  predicate Pursued(s: State) {
    && s.retries <= |DELAYS|
    && (s.again && !s.destroyed ==> s.reading.Some?)
    && (s.reading.Some? ==> s.reading.value.serial <= s.serial)
    && (s.reading.Some? && !s.destroyed ==> (s.again <==> s.reading.value.serial != s.serial))
    && (s.retryArmed ==> s.reading.None? && !s.destroyed)
    && (s.reading.None? && !s.retryArmed && !s.destroyed && s.serial > 0 ==>
          s.deadlineSerial == Some(s.serial) || s.retries == |DELAYS|)
  }

  // ---------------------------------------------------------------------------
  // One entry more
  // ---------------------------------------------------------------------------

  lemma ReadAppend(log: seq<Entry>, e: Entry, n: nat, v: int)
    ensures Begun(log, n) && !e.Bumped? ==> Begun(log + [e], n)
    ensures e == Began(n) ==> Begun(log + [e], n)
    ensures Fresh(log, n, v) && !e.Bumped? ==> Fresh(log + [e], n, v)
    ensures Begun(log, n) && e == Deadline(n, v) ==> Fresh(log + [e], n, v)
  {
    var more := log + [e];
    if Begun(log, n) && !e.Bumped? {
      var r :| 0 <= r < |log| && log[r] == Began(n) && NoBump(log, r);
      assert more[r] == Began(n) && NoBump(more, r);
      if e == Deadline(n, v) {
        assert more[|log|] == e;
      }
    }
    if e == Began(n) {
      assert more[|log|] == e && NoBump(more, |log|);
    }
    if Fresh(log, n, v) && !e.Bumped? {
      var r, d :| 0 <= r < d < |log| && log[r] == Began(n) && log[d] == Deadline(n, v) && NoBump(log, r);
      assert more[r] == Began(n) && more[d] == Deadline(n, v) && NoBump(more, r);
    }
  }

  lemma JustifiedAppend(log: seq<Entry>, e: Entry, n: nat)
    requires Justified(log)
    requires e.Lock? ==> e.deadline <= e.now && Fresh(log, n, e.deadline)
    requires e.Deadline? ==> Begun(log, e.serial)
    ensures Justified(log + [e])
  {
    var more := log + [e];
    forall k | 0 <= k < |more|
      ensures more[k].Lock? ==> more[k].deadline <= more[k].now && exists n: nat :: Fresh(more[..k], n, more[k].deadline)
      ensures more[k].Deadline? ==> Begun(more[..k], more[k].serial)
    {
      assert more[..k] == log[..k];
      assert log[..|log|] == log;
    }
  }

  lemma OneReadAppend(log: seq<Entry>, e: Entry)
    requires OneRead(log) && (e.Began? ==> AllEnded(log))
    ensures OneRead(log + [e])
    ensures e.Ended? || (AllEnded(log) && !e.Began?) ==> AllEnded(log + [e])
  {
    var more := log + [e];
    forall i, j | 0 <= i < j < |more| && more[i].Began? && more[j].Began?
      ensures EndedBetween(more, i, j)
    {
      assert EndedBetween(log, i, j);
      var m :| i < m < j && log[m].Ended?;
      assert more[m].Ended?;
    }
    if e.Ended? || (AllEnded(log) && !e.Began?) {
      forall i | 0 <= i < |more| && more[i].Began?
        ensures EndedBetween(more, i, |more|)
      {
        if e.Ended? {
          assert more[|log|].Ended?;
        } else {
          var m :| i < m < |log| && log[m].Ended?;
          assert more[m].Ended?;
        }
      }
    }
  }

  lemma FoldsAppend(log: seq<Entry>, e: Entry, start: int)
    ensures LastDeadline(log + [e], start) == if e.Deadline? then e.value else LastDeadline(log, start)
    ensures Tries(log + [e]) ==
            if e.Requested? || e.Deadline? then [] else Tries(log) + (if e.Armed? then [e.delay] else [])
  {
    assert (log + [e])[..|log + [e]| - 1] == log;
  }

  // ---------------------------------------------------------------------------
  // The handlers keep the fields and the log in agreement
  // ---------------------------------------------------------------------------

  /** An entry that is neither a bump, a read, a deadline nor a retry. */
  lemma PlainKeeps(s: State, e: Entry, n: nat, start: int)
    requires Core(s, start) && !e.Bumped? && !e.Began? && !e.Deadline? && !e.Armed? && !e.Requested?
    requires e.Lock? ==> e.deadline <= e.now && Fresh(s.log, n, e.deadline)
    ensures Core(Log(s, e), start)
    ensures e.Ended? ==> AllEnded(Log(s, e).log)
  {
    ReadAppend(s.log, e, s.serial, s.deadline);
    JustifiedAppend(s.log, e, n);
    OneReadAppend(s.log, e);
    FoldsAppend(s.log, e, start);
  }

  lemma BumpKeeps(s: State, start: int)
    requires Core(s, start)
    ensures Core(Bump(s), start)
  {
    var e := Bumped(s.serial + 1);
    JustifiedAppend(s.log, e, 0);
    OneReadAppend(s.log, e);
    FoldsAppend(s.log, e, start);
  }

  lemma BeginKeeps(s: State, start: int)
    requires Core(s, start) && s.reading.None?
    ensures Core(Begin(s), start)
  {
    var e := Began(s.serial);
    ReadAppend(s.log, e, s.serial, s.deadline);
    JustifiedAppend(s.log, e, 0);
    OneReadAppend(s.log, e);
    FoldsAppend(s.log, e, start);
  }

  lemma StartKeeps(s: State, start: int)
    requires Core(s, start)
    ensures Core(Start(s), start)
  {
    if !s.destroyed {
      BumpKeeps(s, start);
      if s.reading.None? {
        BeginKeeps(Bump(s), start);
      }
    }
  }

  lemma RefreshKeeps(s: State, start: int)
    requires Core(s, start)
    ensures Core(Refresh(s), start)
  {
    if !s.preview && !s.destroyed {
      ReadAppend(s.log, Requested, s.serial, s.deadline);
      JustifiedAppend(s.log, Requested, 0);
      OneReadAppend(s.log, Requested);
      FoldsAppend(s.log, Requested, start);
      StartKeeps(Log(s.(retryArmed := false, retries := 0), Requested), start);
    }
  }

  lemma SameCore(s: State, t: State, start: int)
    requires Core(s, start) && s.log == t.log && s.serial == t.serial && s.deadline == t.deadline
    requires s.deadlineSerial == t.deadlineSerial && s.reading == t.reading && s.retries == t.retries
    ensures Core(t, start)
  {
  }

  /** The tick after a display update. */
  function TickAfter(s: State, w: World): Option<int> {
    if s.destroyed then s.tick else if Visible(s, w) then Schedule(s, w).tick else None
  }

  lemma SyncFrame(s: State, w: World)
    ensures
      var t := Sync(s, w);
      && t == s.(tick := t.tick, lockPending := t.lockPending, log := t.log)
      && t.tick == TickAfter(s, w)
  {
  }

  lemma SyncLog(s: State, w: World)
    requires s.destroyed || Visible(s, w) || !MayLock(s, w) || s.lockPending
    ensures Sync(s, w) == s.(tick := Sync(s, w).tick)
  {
  }

  lemma SyncKeeps(s: State, w: World, start: int)
    requires Core(s, start)
    ensures Core(Sync(s, w), start)
  {
    if s.destroyed || Visible(s, w) || !MayLock(s, w) || s.lockPending {
      SyncLog(s, w);
      SameCore(s, Sync(s, w), start);
    } else {
      PlainKeeps(s, Lock(s.deadline, w.now), s.serial, start);
      SameCore(Log(s, Lock(s.deadline, w.now)), Log(s.(tick := None, lockPending := true), Lock(s.deadline, w.now)), start);
    }
  }

  lemma EndKeeps(s: State, w: World, start: int)
    requires Core(s, start) && s.reading.Some?
    ensures Core(End(s, w), start)
  {
    var e := Ended(s.reading.value.serial);
    PlainKeeps(s, e, 0, start);
    var ended := Log(s.(reading := None), e);
    if !s.destroyed {
      SyncKeeps(ended, w, start);
      if Sync(ended, w).again {
        StartKeeps(Sync(ended, w).(again := false), start);
      }
    }
  }

  lemma TakeKeeps(s: State, deadline: int, start: int)
    requires Core(s, start) && s.reading.Some? && !Superseded(s)
    ensures Core(Take(s, deadline), start)
  {
    var e := Deadline(s.serial, deadline);
    ReadAppend(s.log, e, s.serial, deadline);
    JustifiedAppend(s.log, e, 0);
    OneReadAppend(s.log, e);
    FoldsAppend(s.log, e, start);
  }

  lemma RetryKeeps(s: State, start: int)
    requires Core(s, start) && s.reading.Some?
    ensures Core(Retry(s), start)
  {
    if s.retries < |DELAYS| {
      var e := Armed(DELAYS[s.retries]);
      ReadAppend(s.log, e, s.serial, s.deadline);
      JustifiedAppend(s.log, e, 0);
      OneReadAppend(s.log, e);
      FoldsAppend(s.log, e, start);
      assert DELAYS[..s.retries + 1] == DELAYS[..s.retries] + [DELAYS[s.retries]];
    }
  }

  lemma RecoverReading(s: State, reenters: bool)
    ensures Recover(s, reenters).reading == s.reading || s.reading.None?
  {
    var t := Log(Retry(s).(retryArmed := false, retries := 0), Requested);
    assert Start(t).reading == t.reading || t.reading.None?;
  }

  lemma FailureKeeps(s: State, reenters: bool, w: World, start: int)
    requires Core(s, start) && s.reading.Some?
    ensures Core(Step(s, ReadFails(reenters, w)), start)
  {
    if Superseded(s) {
      EndKeeps(s, w, start);
    } else {
      RetryKeeps(s, start);
      if reenters {
        RefreshKeeps(Retry(s), start);
      }
      RecoverReading(s, reenters);
      EndKeeps(Recover(s, reenters), w, start);
    }
  }

  lemma ArrivalKeeps(s: State, deadline: int, w: World, start: int)
    requires Core(s, start) && s.reading.Some? && s.reading.value.stage == Broker
    ensures Core(Step(s, DeadlineArrives(deadline, w)), start)
  {
    if Superseded(s) {
      EndKeeps(s, w, start);
    } else {
      TakeKeeps(s, deadline, start);
      EndKeeps(Take(s, deadline), w, start);
    }
  }

  lemma EstimateKeeps(s: State, w: World, start: int)
    requires Core(s, start)
    ensures Core(Step(s, EstimateArrives(w)), start)
  {
    if s.reading.Some? && Superseded(s) {
      EndKeeps(s, w, start);
    }
  }

  lemma StepKeepsCore(s: State, e: Event, start: int)
    requires Core(s, start)
    ensures Core(Step(s, e), start)
  {
    match e
    case Request => RefreshKeeps(s, start);
    case EstimateArrives(w) => EstimateKeeps(s, w, start);
    case DeadlineArrives(deadline, w) =>
      if s.reading.Some? && s.reading.value.stage == Broker {
        ArrivalKeeps(s, deadline, w, start);
      }
    case ReadFails(reenters, w) =>
      if s.reading.Some? {
        FailureKeeps(s, reenters, w, start);
      }
    case RetryFires => StartKeeps(s.(retryArmed := false), start);
    case TickFires(w) => SyncKeeps(s.(tick := None), w, start);
    case Notified(w) => SyncKeeps(s, w, start);
    case LockReturns => SameCore(s, s.(lockPending := false), start);
    case Dispose => SameCore(s, Disposed(s), start);
  }

  /** What a refresh may start from. */
  predicate Ready(s: State) {
    && !s.retryArmed && s.retries <= |DELAYS|
    && (s.again && !s.destroyed ==> s.reading.Some?)
    && (s.reading.Some? ==> s.reading.value.serial <= s.serial)
  }

  lemma StartPursues(s: State)
    requires Ready(s)
    ensures Pursued(Start(s))
    ensures !s.destroyed && s.reading.Some? ==> Start(s).again
  {
  }

  lemma EndPursues(s: State, w: World)
    requires s.reading.Some? && s.reading.value.serial <= s.serial && s.retries <= |DELAYS|
    requires !s.destroyed ==> (s.again <==> s.reading.value.serial != s.serial)
    requires s.retryArmed ==> !s.destroyed && !s.again
    requires !s.retryArmed && !s.destroyed ==> s.deadlineSerial == Some(s.serial) || s.retries == |DELAYS| || s.again
    ensures Pursued(End(s, w))
  {
    var ended := Log(s.(reading := None), Ended(s.reading.value.serial));
    SyncFrame(ended, w);
    if !s.destroyed && s.again {
      StartPursues(Sync(ended, w).(again := false));
    }
  }

  lemma FailurePursues(s: State, reenters: bool, w: World)
    requires Pursued(s) && s.reading.Some? && !Superseded(s)
    ensures Pursued(End(Recover(s, reenters), w))
  {
    if reenters && !s.preview {
      StartPursues(Log(Retry(s).(retryArmed := false, retries := 0), Requested));
    }
    EndPursues(Recover(s, reenters), w);
  }

  lemma StepKeepsPursuit(s: State, e: Event)
    requires Pursued(s)
    ensures Pursued(Step(s, e))
  {
    match e
    case Request => if !s.preview && !s.destroyed { StartPursues(Log(s.(retryArmed := false, retries := 0), Requested)); }
    case EstimateArrives(w) => if s.reading.Some? && Superseded(s) { EndPursues(s, w); }
    case DeadlineArrives(deadline, w) =>
      if s.reading.Some? && Superseded(s) {
        EndPursues(s, w);
      } else if s.reading.Some? {
        EndPursues(Take(s, deadline), w);
      }
    case ReadFails(reenters, w) =>
      if s.reading.Some? && Superseded(s) {
        EndPursues(s, w);
      } else if s.reading.Some? {
        FailurePursues(s, reenters, w);
      }
    case RetryFires => if s.retryArmed { StartPursues(s.(retryArmed := false)); }
    case TickFires(w) => SyncFrame(s.(tick := None), w);
    case Notified(w) => SyncFrame(s, w);
    case LockReturns =>
    case Dispose =>
  }

  lemma {:induction false} EveryRunKeeps(preview: bool, start: int, events: seq<Event>)
    ensures Core(Run(Initial(preview, start), events), start)
    ensures Pursued(Run(Initial(preview, start), events))
  {
    if events != [] {
      EveryRunKeeps(preview, start, events[..|events| - 1]);
      StepKeepsCore(Run(Initial(preview, start), events[..|events| - 1]), events[|events| - 1], start);
      StepKeepsPursuit(Run(Initial(preview, start), events[..|events| - 1]), events[|events| - 1]);
    }
  }

  // ---------------------------------------------------------------------------
  // Main results
  // ---------------------------------------------------------------------------

  /** The session is locked only for an expired deadline that a read begun after the last refresh
      request returned; no deadline ever comes from a superseded or failed read. */
  lemma {:induction false} LocksAreFresh(preview: bool, start: int, events: seq<Event>, k: nat)
    requires k < |Run(Initial(preview, start), events).log|
    ensures
      var log := Run(Initial(preview, start), events).log;
      && (log[k].Lock? ==> log[k].deadline <= log[k].now && exists n: nat :: Fresh(log[..k], n, log[k].deadline))
      && (log[k].Deadline? ==> Begun(log[..k], log[k].serial))
  {
    EveryRunKeeps(preview, start, events);
  }

  /** The cached deadline is the last one taken, whatever was superseded or failed since. */
  lemma {:induction false} DeadlineIsLastTaken(preview: bool, start: int, events: seq<Event>)
    ensures Run(Initial(preview, start), events).deadline == LastDeadline(Run(Initial(preview, start), events).log, start)
  {
    EveryRunKeeps(preview, start, events);
  }

  /** One read and at most one retry timer at a time, never both. */
  lemma {:induction false} OneReadOrOneRetry(preview: bool, start: int, events: seq<Event>)
    ensures OneRead(Run(Initial(preview, start), events).log)
    ensures Run(Initial(preview, start), events).retryArmed ==>
              Run(Initial(preview, start), events).reading.None? && AllEnded(Run(Initial(preview, start), events).log)
  {
    EveryRunKeeps(preview, start, events);
  }

  /** No refresh is lost: with nothing pending or armed, the deadline answers the last request,
      or the three retries were armed, with their delays in order, since the last trigger. */
  lemma {:induction false} RestMeansFresh(preview: bool, start: int, events: seq<Event>)
    ensures
      var s := Run(Initial(preview, start), events);
      s.reading.None? && !s.retryArmed && !s.destroyed && s.serial > 0 ==>
      Fresh(s.log, s.serial, s.deadline) || Tries(s.log) == DELAYS
  {
    EveryRunKeeps(preview, start, events);
    assert DELAYS[..|DELAYS|] == DELAYS;
  }

  lemma StartTick(s: State)
    ensures Start(s).tick == s.tick
  {
  }

  lemma RecoverTick(s: State, reenters: bool)
    ensures Recover(s, reenters).tick == s.tick
  {
    StartTick(Log(Retry(s).(retryArmed := false, retries := 0), Requested));
  }

  lemma EndTick(s: State, w: World)
    requires s.reading.Some?
    ensures End(s, w).tick == TickAfter(s, w)
  {
    var ended := Log(s.(reading := None), Ended(s.reading.value.serial));
    SyncFrame(ended, w);
    StartTick(Sync(ended, w).(again := false));
  }

  lemma EndDoesNotPostpone(s: State, w: World)
    requires s.reading.Some? && s.tick.Some? && End(s, w).tick.Some?
    ensures End(s, w).tick.value <= s.tick.value
  {
    EndTick(s, w);
  }

  /** Layout notifications and finished reads never postpone a pending tick. */
  lemma TicksAreNotPostponed(s: State, e: Event)
    requires !e.TickFires? && s.tick.Some? && Step(s, e).tick.Some?
    ensures Step(s, e).tick.value <= s.tick.value
  {
    match e
    case Request => StartTick(Log(s.(retryArmed := false, retries := 0), Requested));
    case RetryFires => StartTick(s.(retryArmed := false));
    case Notified(w) => SyncFrame(s, w);
    case EstimateArrives(w) =>
      if s.reading.Some? && s.reading.value.stage == Estimates && Superseded(s) {
        EndDoesNotPostpone(s, w);
      }
    case DeadlineArrives(deadline, w) =>
      if s.reading.Some? && s.reading.value.stage == Broker {
        EndDoesNotPostpone(if Superseded(s) then s else Take(s, deadline), w);
      }
    case ReadFails(reenters, w) =>
      if s.reading.Some? {
        RecoverTick(s, reenters);
        RecoverReading(s, reenters);
        EndDoesNotPostpone(if Superseded(s) then s else Recover(s, reenters), w);
      }
    case _ =>
  }

  // ---------------------------------------------------------------------------
  // The object
  // ---------------------------------------------------------------------------

  /** `reading` is the suspended read, which `_refreshPending` flags. */
  class Indicator {
    const preview: bool
    var destroyed: bool
    var refreshSerial: nat
    var deadlineUsec: int
    var deadlineSerial: Option<nat>
    var statusLoaded: bool
    var reading: Option<Read>
    var refreshAgain: bool
    var refreshRetries: nat
    var retryArmed: bool
    var lockPending: bool
    var tick: Option<int>
    ghost var log: seq<Entry>

    ghost function Now(): State
      reads this
    {
      State(preview, destroyed, refreshSerial, deadlineUsec, deadlineSerial, statusLoaded, reading, refreshAgain,
            refreshRetries, retryArmed, lockPending, tick, log)
    }

    constructor (preview: bool, deadline: int)
      ensures Now() == Initial(preview, deadline)
    {
      this.preview := preview;
      destroyed, refreshSerial, deadlineUsec, deadlineSerial, statusLoaded := false, 0, deadline, None, false;
      reading, refreshAgain, refreshRetries, retryArmed := None, false, 0, false;
      lockPending, tick, log := false, None, [];
    }

    ghost method Note(e: Entry)
      modifies this`log
      ensures Now() == Log(old(Now()), e)
    {
      log := log + [e];
    }

    method StartRead()
      modifies this
      ensures Now() == Start(old(Now()))
    {
      if destroyed {
        return;
      }
      refreshSerial := refreshSerial + 1;
      Note(Bumped(refreshSerial));
      if reading.Some? {
        refreshAgain := true;
        return;
      }
      reading := Some(Read(refreshSerial, Estimates));
      Note(Began(refreshSerial));
    }

    method RefreshEstimate()
      modifies this
      ensures Now() == Refresh(old(Now()))
    {
      if preview || destroyed {
        return;
      }
      retryArmed := false;
      refreshRetries := 0;
      Note(Requested);
      StartRead();
    }

    method Lock(w: World)
      modifies this
      ensures Now() == LockSession(old(Now()), w)
    {
      if destroyed || lockPending {
        return;
      }
      lockPending := true;
      Note(Entry.Lock(deadlineUsec, w.now));
    }

    method ScheduleTick(w: World)
      modifies this`tick
      ensures Now() == Schedule(old(Now()), w)
    {
      var deadline := w.now + w.delay * 1000000;
      if tick.Some? && tick.value <= deadline {
        return;
      }
      tick := Some(deadline);
    }

    method Synchronize(w: World)
      modifies this
      ensures Now() == Sync(old(Now()), w)
    {
      if destroyed {
        return;
      }
      if w.locked || w.greeter || deadlineUsec <= w.now {
        tick := None;
        if !preview && statusLoaded && deadlineSerial == Some(refreshSerial) && w.limits
           && !w.locked && !w.greeter && deadlineUsec <= w.now {
          Lock(w);
        }
        return;
      }
      ScheduleTick(w);
    }

    method EndRead(w: World)
      requires reading.Some?
      modifies this
      ensures Now() == End(old(Now()), w)
    {
      ghost var serial := reading.value.serial;
      reading := None;
      Note(Ended(serial));
      if !destroyed {
        Synchronize(w);
        if refreshAgain {
          refreshAgain := false;
          StartRead();
        }
      }
    }

    method EstimateReturned(w: World)
      modifies this
      ensures Now() == Step(old(Now()), EstimateArrives(w))
    {
      if reading.Some? && reading.value.stage == Estimates {
        if destroyed || reading.value.serial != refreshSerial {
          EndRead(w);
        } else {
          reading := Some(reading.value.(stage := Broker));
        }
      }
    }

    method TakeDeadline(deadline: int)
      modifies this
      ensures Now() == Take(old(Now()), deadline)
    {
      deadlineUsec := deadline;
      deadlineSerial := Some(refreshSerial);
      statusLoaded := true;
      refreshRetries := 0;
      Note(Entry.Deadline(refreshSerial, deadline));
    }

    method DeadlineReturned(deadline: int, w: World)
      modifies this
      ensures Now() == Step(old(Now()), DeadlineArrives(deadline, w))
    {
      if reading.Some? && reading.value.stage == Broker {
        if !destroyed && reading.value.serial == refreshSerial {
          TakeDeadline(deadline);
        }
        EndRead(w);
      }
    }

    method RetryLater()
      modifies this
      ensures Now() == Retry(old(Now()))
    {
      if refreshRetries < |DELAYS| {
        ghost var delay := DELAYS[refreshRetries];
        refreshRetries := refreshRetries + 1;
        retryArmed := true;
        Note(Armed(delay));
      }
    }

    method ReadFailed(reenters: bool, w: World)
      modifies this
      ensures Now() == Step(old(Now()), ReadFails(reenters, w))
    {
      if reading.Some? {
        if !destroyed && reading.value.serial == refreshSerial {
          RetryLater();
          if reenters {
            RefreshEstimate();
          }
          assert Now() == Recover(old(Now()), reenters);
          RecoverReading(old(Now()), reenters);
        }
        EndRead(w);
      }
    }

    method RetryFired()
      modifies this
      ensures Now() == Step(old(Now()), RetryFires)
    {
      if retryArmed {
        retryArmed := false;
        StartRead();
      }
    }

    method TickFired(w: World)
      modifies this
      ensures Now() == Step(old(Now()), TickFires(w))
    {
      if tick.Some? {
        tick := None;
        Synchronize(w);
      }
    }

    method LockReturned()
      modifies this`lockPending
      ensures Now() == Step(old(Now()), LockReturns)
    {
      lockPending := false;
    }

    method DisposeResources()
      modifies this
      ensures Now() == Step(old(Now()), Dispose)
    {
      if destroyed {
        return;
      }
      destroyed := true;
      retryArmed := false;
      tick := None;
    }
  }
}
