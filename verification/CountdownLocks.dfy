/** When exactly the countdown locks the session and when its display ticks, in terms of the
    events, what their handlers read, and the log; apart from the handlers' own conditions. */
module CountdownLocks {
  import opened Common
  import opened CountdownRefresh

  // ---------------------------------------------------------------------------
  // A fresh deadline in the log is the cached one
  // ---------------------------------------------------------------------------

  ghost predicate NothingFresh(log: seq<Entry>) {
    forall n: nat, v: int :: !Fresh(log, n, v)
  }

  /** What the log says is fresh is what the object holds. */
  ghost predicate Held(s: State) {
    forall n: nat, v: int | Fresh(s.log, n, v) ::
      s.serial == n && s.deadlineSerial == Some(n) && s.deadline == v && s.loaded
  }

  /** The read of the current serial has not returned a deadline yet. */
  ghost predicate Open(s: State) {
    s.reading.Some? && s.reading.value.serial == s.serial ==> NothingFresh(s.log)
  }

  lemma FreshBefore(log: seq<Entry>, e: Entry, n: nat, v: int)
    requires Fresh(log + [e], n, v)
    ensures !e.Bumped?
    ensures e == Deadline(n, v) || Fresh(log, n, v)
  {
    var more := log + [e];
    var r, d :| 0 <= r < d < |more| && more[r] == Began(n) && more[d] == Deadline(n, v) && NoBump(more, r);
    assert !more[|log|].Bumped?;
    if d < |log| {
      assert log[r] == Began(n) && log[d] == Deadline(n, v);
      assert NoBump(log, r) by {
        assert forall m | r < m < |log| :: more[m] == log[m];
      }
    }
  }

  lemma EntryHeld(s: State, t: State, e: Entry)
    requires Held(s) && !e.Deadline? && t.log == s.log + [e]
    requires e.Bumped? || (t.serial == s.serial && t.deadlineSerial == s.deadlineSerial
                           && t.deadline == s.deadline && (s.loaded ==> t.loaded))
    ensures Held(t) && (e.Bumped? || NothingFresh(s.log) ==> NothingFresh(t.log))
  {
    forall n: nat, v: int | Fresh(t.log, n, v)
      ensures !e.Bumped? && Fresh(s.log, n, v)
    {
      FreshBefore(s.log, e, n, v);
    }
  }

  lemma StartHeld(s: State)
    requires Held(s) && (s.destroyed ==> Open(s))
    ensures Held(Start(s)) && Open(Start(s))
  {
    if !s.destroyed {
      EntryHeld(s, Bump(s), Bumped(s.serial + 1));
      if s.reading.None? {
        EntryHeld(Bump(s), Begin(Bump(s)), Began(s.serial + 1));
      }
    }
  }

  lemma RefreshHeld(s: State)
    requires Held(s) && Open(s)
    ensures Held(Refresh(s)) && Open(Refresh(s))
  {
    if !s.preview && !s.destroyed {
      var t := Log(s.(retryArmed := false, retries := 0), Requested);
      EntryHeld(s, t, Requested);
      StartHeld(t);
    }
  }

  lemma SyncHeld(s: State, w: World)
    requires Held(s)
    ensures Held(Sync(s, w)) && (Open(s) ==> Open(Sync(s, w)))
  {
    SyncFrame(s, w);
    SyncAdds(s, w);
    if Sync(s, w).log != s.log {
      EntryHeld(s, Sync(s, w), Lock(s.deadline, w.now));
    }
  }

  lemma SyncAdds(s: State, w: World)
    ensures Sync(s, w).log == s.log || Sync(s, w).log == s.log + [Lock(s.deadline, w.now)]
  {
  }

  function Ending(s: State): State
    requires s.reading.Some?
  {
    Log(s.(reading := None), Ended(s.reading.value.serial))
  }

  lemma EndHeld(s: State, w: World)
    requires Held(s) && s.reading.Some?
    ensures Held(End(s, w)) && Open(End(s, w)) && Held(Ending(s))
  {
    EntryHeld(s, Ending(s), Ended(s.reading.value.serial));
    if !s.destroyed {
      SyncHeld(Ending(s), w);
      StartHeld(Sync(Ending(s), w).(again := false));
    }
  }

  lemma TakeHeld(s: State, deadline: int)
    requires Held(s) && Open(s) && s.reading.Some? && s.reading.value.serial == s.serial
    ensures Held(Take(s, deadline))
  {
    forall n: nat, v: int | Fresh(Take(s, deadline).log, n, v)
      ensures n == s.serial && v == deadline
    {
      FreshBefore(s.log, Deadline(s.serial, deadline), n, v);
    }
  }

  lemma RecoverHeld(s: State, reenters: bool)
    requires Held(s) && Open(s)
    ensures Held(Recover(s, reenters)) && Open(Recover(s, reenters))
  {
    if s.retries < |DELAYS| {
      EntryHeld(s, Retry(s), Armed(DELAYS[s.retries]));
    }
    RefreshHeld(Retry(s));
  }

  /** The object as it is when the read that this event ends has only its end left. */
  function Concluding(s: State, e: Event): State
    requires s.reading.Some?
  {
    if Superseded(s) then s
    else
      match e
      case DeadlineArrives(deadline, _) => Take(s, deadline)
      case ReadFails(reenters, _) => Recover(s, reenters)
      case _ => s
  }

  /** This event ends the read. */
  predicate Ends(s: State, e: Event) {
    s.reading.Some? &&
    match e
    case EstimateArrives(_) => s.reading.value.stage.Estimates? && Superseded(s)
    case DeadlineArrives(_, _) => s.reading.value.stage.Broker?
    case ReadFails(_, _) => true
    case _ => false
  }

  lemma StartUnlocked(s: State)
    ensures Unlocked(s.log, Start(s).log)
    ensures Start(s).lockPending == s.lockPending && Start(s).tick == s.tick
  {
  }

  lemma RecoverStep(s: State, reenters: bool)
    requires s.reading.Some?
    ensures
      var r := Recover(s, reenters);
      && r.reading == s.reading && r.destroyed == s.destroyed && r.lockPending == s.lockPending
      && r.preview == s.preview && r.tick == s.tick && r.deadline == s.deadline
      && r.deadlineSerial == s.deadlineSerial && r.loaded == s.loaded && Unlocked(s.log, r.log)
  {
    var r := Retry(s);
    assert Unlocked(s.log, r.log);
    if reenters && !r.preview && !r.destroyed {
      var t := Log(r.(retryArmed := false, retries := 0), Requested);
      assert Start(t) == Bump(t).(again := true);
      assert Unlocked(r.log, t.log) && Unlocked(t.log, Start(t).log);
    }
  }

  lemma EndsStep(s: State, e: Event)
    requires Ends(s, e)
    ensures Concluding(s, e).reading == s.reading && Step(s, e) == End(Concluding(s, e), e.w)
    ensures Concluding(s, e).destroyed == s.destroyed && Concluding(s, e).lockPending == s.lockPending
    ensures Concluding(s, e).preview == s.preview && Concluding(s, e).tick == s.tick
    ensures Unlocked(s.log, Concluding(s, e).log)
  {
    if e.ReadFails? {
      RecoverStep(s, e.reenters);
    }
  }

  /** The later log only adds entries, none of them a lock. */
  predicate Unlocked(log: seq<Entry>, more: seq<Entry>) {
    |log| <= |more| && more[..|log|] == log && forall k | |log| <= k < |more| :: !more[k].Lock?
  }

  lemma ConcludingHeld(s: State, e: Event)
    requires Held(s) && Open(s) && s.reading.Some?
    ensures Held(Concluding(s, e))
  {
    if !Superseded(s) {
      match e
      case DeadlineArrives(deadline, _) => TakeHeld(s, deadline);
      case ReadFails(reenters, _) => RecoverHeld(s, reenters);
      case _ =>
    }
  }

  lemma StepHeld(s: State, e: Event)
    requires Held(s) && Open(s)
    ensures Held(Step(s, e)) && Open(Step(s, e))
  {
    if Ends(s, e) {
      ConcludingHeld(s, e);
      EndsStep(s, e);
      EndHeld(Concluding(s, e), e.w);
    } else {
      match e
      case Request => RefreshHeld(s);
      case RetryFires => StartHeld(s.(retryArmed := false));
      case TickFires(w) => SyncHeld(s.(tick := None), w);
      case Notified(w) => SyncHeld(s, w);
      case _ =>
    }
  }

  lemma {:induction false} EveryRunHolds(preview: bool, start: int, events: seq<Event>)
    ensures Held(Run(Initial(preview, start), events)) && Open(Run(Initial(preview, start), events))
  {
    if events != [] {
      EveryRunHolds(preview, start, events[..|events| - 1]);
      StepHeld(Run(Initial(preview, start), events[..|events| - 1]), events[|events| - 1]);
    }
  }

  // ---------------------------------------------------------------------------
  // One display update
  // ---------------------------------------------------------------------------

  /** Some read begun after the last request returned a deadline that has passed. */
  ghost predicate Expired(log: seq<Entry>, now: int) {
    exists n: nat, v: int :: Fresh(log, n, v) && v <= now
  }

  /** The world of an unlocked session with limits. */
  predicate Lockable(w: World) {
    w.limits && !w.locked && !w.greeter
  }

  lemma SyncIsExact(s: State, w: World, start: int)
    requires Held(s) && Core(s, start) && (s.deadlineSerial.Some? ==> s.loaded)
    ensures
      var due := !s.destroyed && !s.preview && !s.lockPending && Lockable(w) && Expired(s.log, w.now);
      && Sync(s, w).log == (if due then s.log + [Lock(s.deadline, w.now)] else s.log)
      && (Sync(s, w).lockPending <==> due || s.lockPending)
  {
    if s.deadlineSerial == Some(s.serial) && s.deadline <= w.now {
      assert Fresh(s.log, s.serial, s.deadline);
    }
    if Expired(s.log, w.now) {
      var n: nat, v: int :| Fresh(s.log, n, v) && v <= w.now;
    }
  }

  /** The tick that an update leaves: the earlier of the armed and the next one while time is left. */
  function NextTick(armed: Option<int>, deadline: int, w: World): Option<int> {
    if w.locked || w.greeter || deadline <= w.now then None
    else
      var due := w.now + w.delay * 1000000;
      if armed.Some? && armed.value <= due then armed else Some(due)
  }

  lemma SyncTick(s: State, w: World)
    requires !s.destroyed
    ensures Sync(s, w).tick == NextTick(s.tick, s.deadline, w)
  {
  }

  // ---------------------------------------------------------------------------
  // Histories
  // ---------------------------------------------------------------------------

  function Locks(log: seq<Entry>): nat {
    if log == [] then 0 else Locks(log[..|log| - 1]) + (if log[|log| - 1].Lock? then 1 else 0)
  }

  lemma {:induction false} LocksAppend(log: seq<Entry>, more: seq<Entry>)
    requires |log| <= |more| && more[..|log|] == log
    ensures Locks(log) <= Locks(more)
    ensures Locks(more) == Locks(log) <==> Unlocked(log, more)
    decreases |more|
  {
    if |log| < |more| {
      var before := more[..|more| - 1];
      assert before[..|log|] == log;
      LocksAppend(log, before);
    } else {
      assert more == log;
    }
  }

  /** A lock was asked for since the last lock call returned. */
  function Calling(preview: bool, start: int, events: seq<Event>): bool {
    if events == [] then false
    else
      var before := events[..|events| - 1];
      && !events[|events| - 1].LockReturns?
      && (Calling(preview, start, before)
          || Locks(Run(Initial(preview, start), events).log) > Locks(Run(Initial(preview, start), before).log))
  }

  /** The display update an event brings, if any, and what it reads: every notification, every tick
      that was armed, and the end of every read. */
  function Update(s: State, e: Event, more: seq<Entry>): Option<World> {
    match e
    case Notified(w) => Some(w)
    case TickFires(w) => if s.tick.Some? then Some(w) else None
    case EstimateArrives(w) => if HasEnd(s.log, more) then Some(w) else None
    case DeadlineArrives(_, w) => if HasEnd(s.log, more) then Some(w) else None
    case ReadFails(_, w) => if HasEnd(s.log, more) then Some(w) else None
    case _ => None
  }

  predicate HasEnd(log: seq<Entry>, more: seq<Entry>) {
    exists k | |log| <= k < |more| :: more[k].Ended?
  }

  /** The update of an event comes at position k of the log: at once, or right after the read's end. */
  predicate UpdatesAt(s: State, e: Event, more: seq<Entry>, k: nat) {
    && |s.log| <= k <= |more| && more[..|s.log|] == s.log
    && (if e.EstimateArrives? || e.DeadlineArrives? || e.ReadFails? then
          HasEnd(s.log, more) ==> |s.log| < k && more[k - 1].Ended?
        else k == |s.log|)
  }

  ghost predicate Sound(s: State, start: int) {
    Held(s) && Open(s) && Core(s, start) && (s.deadlineSerial.Some? ==> s.loaded)
  }

  lemma LoadedStep(s: State, e: Event)
    requires s.deadlineSerial.Some? ==> s.loaded
    ensures Step(s, e).deadlineSerial.Some? ==> Step(s, e).loaded
    ensures Step(s, e).preview == s.preview && (Step(s, e).destroyed <==> s.destroyed || e.Dispose?)
    ensures (s.destroyed ==> s.tick.None?) ==> Step(s, e).destroyed ==> Step(s, e).tick.None?
  {
    if Ends(s, e) {
      EndsStep(s, e);
      if e.ReadFails? {
        RecoverStep(s, e.reenters);
      }
      SyncFrame(Ending(Concluding(s, e)), e.w);
    } else if e.Notified? {
      SyncFrame(s, e.w);
    } else if e.TickFires? {
      SyncFrame(s.(tick := None), e.w);
    }
  }

  lemma RecoverCore(s: State, reenters: bool, start: int)
    requires Core(s, start) && s.reading.Some?
    ensures Core(Recover(s, reenters), start)
  {
    RetryKeeps(s, start);
    RefreshKeeps(Retry(s), start);
  }

  lemma ConcludingKeeps(s: State, e: Event, start: int)
    requires Core(s, start) && Ends(s, e)
    ensures Core(Concluding(s, e), start)
  {
    if !Superseded(s) {
      match e
      case DeadlineArrives(deadline, _) => TakeKeeps(s, deadline, start);
      case ReadFails(reenters, _) => RecoverCore(s, reenters, start);
      case _ =>
    }
  }

  lemma ConcludingCore(s: State, e: Event, start: int)
    requires Core(s, start) && Ends(s, e)
    ensures Concluding(s, e).reading.Some? && Core(Ending(Concluding(s, e)), start)
  {
    EndsStep(s, e);
    ConcludingKeeps(s, e, start);
    PlainKeeps(Concluding(s, e), Ended(Concluding(s, e).reading.value.serial), 0, start);
  }

  /** The conditions under which an update locks the session. */
  ghost predicate MustLock(destroyed: bool, preview: bool, calling: bool, update: Option<World>, log: seq<Entry>) {
    update.Some? && !destroyed && !preview && !calling && Lockable(update.value) && Expired(log, update.value.now)
  }

  /** At most one lock, at position k, made exactly when it must be, for a fresh deadline. */
  ghost predicate LocksAt(log: seq<Entry>, more: seq<Entry>, k: nat, must: bool, now: int)
    requires |log| <= k <= |more|
  {
    && (forall i | |log| <= i < |more| && i != k :: !more[i].Lock?)
    && (k < |more| && more[k].Lock? <==> must)
    && (must && k < |more| && more[k].Lock? ==>
          more[k].now == now && exists n: nat :: Fresh(more[..k], n, more[k].deadline))
  }

  lemma SyncLocksAt(s: State, w: World, start: int)
    requires Held(s) && Core(s, start) && (s.deadlineSerial.Some? ==> s.loaded)
    ensures
      var must := MustLock(s.destroyed, s.preview, s.lockPending, Some(w), s.log);
      && LocksAt(s.log, Sync(s, w).log, |s.log|, must, w.now)
      && (Sync(s, w).lockPending <==> s.lockPending || must)
  {
    SyncIsExact(s, w, start);
    if Expired(s.log, w.now) {
      var n: nat, v: int :| Fresh(s.log, n, v) && v <= w.now;
      assert Fresh(s.log, n, s.deadline);
    }
    if Sync(s, w).log != s.log {
      assert Sync(s, w).log[..|s.log|] == s.log;
    }
  }

  /** A log that grows by the end of a read, then by an update, then by the start of the next read. */
  lemma LogsCompose(log: seq<Entry>, ended: seq<Entry>, synced: seq<Entry>, more: seq<Entry>, must: bool, now: int)
    requires Unlocked(log, ended) && |log| < |ended| && ended[|ended| - 1].Ended?
    requires |ended| <= |synced| <= |ended| + 1 && synced[..|ended|] == ended
    requires LocksAt(ended, synced, |ended|, must, now) && Unlocked(synced, more)
    ensures |log| < |ended| <= |more| && more[..|log|] == log && more[..|ended|] == ended
    ensures more[|ended| - 1].Ended? && LocksAt(log, more, |ended|, must, now)
  {
    assert more[..|ended|] == more[..|synced|][..|ended|];
    assert more[..|log|] == more[..|ended|][..|log|];
    assert more[|ended| - 1] == more[..|ended|][|ended| - 1];
    forall i | |log| <= i < |more| && i != |ended|
      ensures !more[i].Lock?
    {
      if i < |ended| {
        assert more[i] == more[..|ended|][i];
      }
    }
    if |ended| < |synced| {
      assert more[|ended|] == more[..|synced|][|ended|];
    }
  }

  lemma EndingUnlocked(s: State, e: Event, ended: State)
    requires Ends(s, e) && ended == Ending(Concluding(s, e))
    ensures Unlocked(s.log, ended.log) && |s.log| < |ended.log| && ended.log[|ended.log| - 1].Ended?
    ensures ended.destroyed == s.destroyed && ended.preview == s.preview && ended.lockPending == s.lockPending
    ensures ended.tick == s.tick
  {
    EndsStep(s, e);
  }

  lemma ConcludingLoaded(s: State, e: Event)
    requires Ends(s, e) && (s.deadlineSerial.Some? ==> s.loaded)
    ensures Concluding(s, e).deadlineSerial.Some? ==> Concluding(s, e).loaded
  {
    if e.ReadFails? {
      RecoverStep(s, e.reenters);
    }
  }

  /** What the end of a read does once it is recorded. */
  function Rest(s: State, w: World): State {
    if s.destroyed then s
    else
      var synced := Sync(s, w);
      if synced.again then Start(synced.(again := false)) else synced
  }

  lemma RestLocks(log: seq<Entry>, s: State, w: World, start: int)
    requires Unlocked(log, s.log) && |log| < |s.log| && s.log[|s.log| - 1].Ended?
    requires Held(s) && Core(s, start) && (s.deadlineSerial.Some? ==> s.loaded)
    ensures
      var k, more := |s.log|, Rest(s, w).log;
      var must := MustLock(s.destroyed, s.preview, s.lockPending, Some(w), s.log);
      && |log| < k <= |more| && more[..|log|] == log && more[..k] == s.log && more[k - 1].Ended?
      && LocksAt(log, more, k, must, w.now)
      && (Rest(s, w).lockPending <==> s.lockPending || must)
  {
    var must := MustLock(s.destroyed, s.preview, s.lockPending, Some(w), s.log);
    if s.destroyed {
      LogsCompose(log, s.log, s.log, s.log, must, w.now);
    } else {
      SyncLocksAt(s, w, start);
      SyncAdds(s, w);
      StartUnlocked(Sync(s, w).(again := false));
      LogsCompose(log, s.log, Sync(s, w).log, Rest(s, w).log, must, w.now);
    }
  }

  lemma EndIsRest(s: State, e: Event, ended: State)
    requires Ends(s, e) && ended == Ending(Concluding(s, e))
    ensures Step(s, e) == Rest(ended, e.w)
  {
    EndsStep(s, e);
  }

  lemma EndingSound(s: State, e: Event, start: int, ended: State)
    requires Sound(s, start) && Ends(s, e) && ended == Ending(Concluding(s, e))
    ensures Held(ended) && Core(ended, start) && (ended.deadlineSerial.Some? ==> ended.loaded)
  {
    EndsStep(s, e);
    ConcludingHeld(s, e);
    ConcludingLoaded(s, e);
    EndHeld(Concluding(s, e), e.w);
    ConcludingCore(s, e, start);
  }

  /** The object whose read is recorded as ended, whatever was done before. */
  lemma EndParts(s: State, e: Event, start: int) returns (ended: State)
    requires Sound(s, start) && Ends(s, e)
    ensures Step(s, e) == Rest(ended, e.w)
    ensures Unlocked(s.log, ended.log) && |s.log| < |ended.log| && ended.log[|ended.log| - 1].Ended?
    ensures ended.destroyed == s.destroyed && ended.preview == s.preview && ended.lockPending == s.lockPending
    ensures ended.tick == s.tick
    ensures Held(ended) && Core(ended, start) && (ended.deadlineSerial.Some? ==> ended.loaded)
  {
    ended := Ending(Concluding(s, e));
    EndingSound(s, e, start, ended);
    EndIsRest(s, e, ended);
    EndingUnlocked(s, e, ended);
  }

  lemma EndLocks(s: State, e: Event, start: int) returns (k: nat)
    requires Sound(s, start) && Ends(s, e)
    ensures var s' := Step(s, e);
            && UpdatesAt(s, e, s'.log, k) && HasEnd(s.log, s'.log)
            && var must := MustLock(s.destroyed, s.preview, s.lockPending, Some(e.w), s'.log[..k]);
               && LocksAt(s.log, s'.log, k, must, e.w.now)
               && (s'.lockPending <==> s.lockPending || must)
  {
    var ended := EndParts(s, e, start);
    k := EndLocksAt(s, e, ended, start);
  }

  lemma EndLocksAt(s: State, e: Event, ended: State, start: int) returns (k: nat)
    requires e.EstimateArrives? || e.DeadlineArrives? || e.ReadFails?
    requires Unlocked(s.log, ended.log) && |s.log| < |ended.log| && ended.log[|ended.log| - 1].Ended?
    requires ended.destroyed == s.destroyed && ended.preview == s.preview && ended.lockPending == s.lockPending
    requires Held(ended) && Core(ended, start) && (ended.deadlineSerial.Some? ==> ended.loaded)
    ensures var s' := Rest(ended, e.w);
            && UpdatesAt(s, e, s'.log, k) && HasEnd(s.log, s'.log)
            && var must := MustLock(s.destroyed, s.preview, s.lockPending, Some(e.w), s'.log[..k]);
               && LocksAt(s.log, s'.log, k, must, e.w.now)
               && (s'.lockPending <==> s.lockPending || must)
  {
    RestLocks(s.log, ended, e.w, start);
    k := |ended.log|;
  }

  lemma UpdateLocks(s: State, e: Event, start: int)
    requires Sound(s, start) && (e.Notified? || (e.TickFires? && s.tick.Some?))
    ensures var s' := Step(s, e);
            var must := MustLock(s.destroyed, s.preview, s.lockPending, Some(e.w), s.log);
            && |s.log| <= |s'.log| && s'.log[..|s.log|] == s.log
            && LocksAt(s.log, s'.log, |s.log|, must, e.w.now)
            && (s'.lockPending <==> s.lockPending || must)
  {
    var t := if e.TickFires? then s.(tick := None) else s;
    SameCore(s, t, start);
    SyncLocksAt(t, e.w, start);
    SyncAdds(t, e.w);
  }

  lemma QuietStep(s: State, e: Event)
    requires !Ends(s, e) && !e.Notified? && !(e.TickFires? && s.tick.Some?)
    ensures Unlocked(s.log, Step(s, e).log)
    ensures Step(s, e).lockPending <==> s.lockPending && !e.LockReturns?
    ensures e.EstimateArrives? || e.DeadlineArrives? || e.ReadFails? ==> Step(s, e).log == s.log
  {
    match e
    case Request => RequestUnlocked(s);
    case RetryFires => StartUnlocked(s.(retryArmed := false));
    case _ =>
  }

  lemma StepLocks(s: State, e: Event, start: int) returns (k: nat)
    requires Sound(s, start)
    ensures var s' := Step(s, e);
            var update := Update(s, e, s'.log);
            && UpdatesAt(s, e, s'.log, k)
            && var must := MustLock(s.destroyed, s.preview, s.lockPending, update, s'.log[..k]);
               && LocksAt(s.log, s'.log, k, must, if update.Some? then update.value.now else 0)
               && (s'.lockPending <==> !e.LockReturns? && (s.lockPending || must))
  {
    k := |s.log|;
    if Ends(s, e) {
      k := EndLocks(s, e, start);
    } else if e.Notified? || (e.TickFires? && s.tick.Some?) {
      UpdateLocks(s, e, start);
    } else {
      QuietStep(s, e);
    }
  }

  lemma RequestUnlocked(s: State)
    ensures Unlocked(s.log, Refresh(s).log) && Refresh(s).lockPending == s.lockPending
  {
    if !s.preview && !s.destroyed {
      StartUnlocked(Log(s.(retryArmed := false, retries := 0), Requested));
    }
  }

  // ---------------------------------------------------------------------------
  // Main results
  // ---------------------------------------------------------------------------

  lemma {:induction false} EveryRunIsSound(preview: bool, start: int, events: seq<Event>)
    ensures Sound(Run(Initial(preview, start), events), start)
    ensures Run(Initial(preview, start), events).preview == preview
    ensures Run(Initial(preview, start), events).destroyed <==> Dispose in events
    ensures Dispose in events ==> Run(Initial(preview, start), events).tick.None?
  {
    EveryRunHolds(preview, start, events);
    EveryRunKeeps(preview, start, events);
    if events != [] {
      var before, e := events[..|events| - 1], events[|events| - 1];
      assert events == before + [e];
      EveryRunIsSound(preview, start, before);
      LoadedStep(Run(Initial(preview, start), before), e);
    }
  }

  lemma {:induction false} CallingIsPending(preview: bool, start: int, events: seq<Event>)
    ensures Run(Initial(preview, start), events).lockPending <==> Calling(preview, start, events)
  {
    if events != [] {
      var before, e := events[..|events| - 1], events[|events| - 1];
      var s := Run(Initial(preview, start), before);
      CallingIsPending(preview, start, before);
      EveryRunIsSound(preview, start, before);
      var k := StepLocks(s, e, start);
      LocksAppend(s.log, Step(s, e).log);
    }
  }

  /** In every run an event locks the session at most once, at its display update, and exactly when
      the object is neither destroyed nor a preview, no lock call is pending, the session is unlocked
      with limits, and some read begun after the last request returned a deadline that has passed;
      and then it is that deadline. */
  lemma LocksAreExact(preview: bool, start: int, events: seq<Event>, e: Event) returns (k: nat)
    ensures
      var s, more := Run(Initial(preview, start), events), Run(Initial(preview, start), events + [e]).log;
      var update := Update(s, e, more);
      && UpdatesAt(s, e, more, k)
      && LocksAt(s.log, more, k,
                 MustLock(Dispose in events, preview, Calling(preview, start, events), update, more[..k]),
                 if update.Some? then update.value.now else 0)
  {
    assert (events + [e])[..|events + [e]| - 1] == events;
    EveryRunIsSound(preview, start, events);
    CallingIsPending(preview, start, events);
    k := StepLocks(Run(Initial(preview, start), events), e, start);
  }

  lemma EndDeadline(s: State, e: Event, start: int) returns (k: nat)
    requires Sound(s, start) && Ends(s, e) && !s.destroyed
    ensures UpdatesAt(s, e, Step(s, e).log, k)
    ensures Step(s, e).tick == NextTick(s.tick, LastDeadline(Step(s, e).log[..k], start), e.w)
  {
    var ended := EndParts(s, e, start);
    k := EndDeadlineAt(s, e, ended, start);
  }

  lemma EndDeadlineAt(s: State, e: Event, ended: State, start: int) returns (k: nat)
    requires e.EstimateArrives? || e.DeadlineArrives? || e.ReadFails?
    requires Unlocked(s.log, ended.log) && |s.log| < |ended.log| && ended.log[|ended.log| - 1].Ended?
    requires !ended.destroyed && ended.tick == s.tick
    requires Held(ended) && Core(ended, start) && (ended.deadlineSerial.Some? ==> ended.loaded)
    ensures UpdatesAt(s, e, Rest(ended, e.w).log, k)
    ensures Rest(ended, e.w).tick == NextTick(s.tick, LastDeadline(Rest(ended, e.w).log[..k], start), e.w)
  {
    RestLocks(s.log, ended, e.w, start);
    RestTick(ended, e.w);
    k := |ended.log|;
  }

  lemma SyncDeadline(s: State, w: World, start: int)
    requires Core(s, start) && !s.destroyed
    ensures Sync(s, w).tick == NextTick(s.tick, LastDeadline(s.log, start), w)
    ensures |s.log| <= |Sync(s, w).log| && Sync(s, w).log[..|s.log|] == s.log
  {
    SyncTick(s, w);
    SyncAdds(s, w);
  }

  lemma DeadlineAt(s: State, e: Event, start: int) returns (k: nat)
    requires Sound(s, start) && Update(s, e, Step(s, e).log).Some? && !s.destroyed
    ensures UpdatesAt(s, e, Step(s, e).log, k)
    ensures Step(s, e).tick == NextTick(if e.TickFires? then None else s.tick,
                                        LastDeadline(Step(s, e).log[..k], start),
                                        Update(s, e, Step(s, e).log).value)
  {
    if Ends(s, e) {
      k := EndDeadline(s, e, start);
    } else {
      k := |s.log|;
      var t := if e.TickFires? then s.(tick := None) else s;
      SameCore(s, t, start);
      SyncDeadline(t, e.w, start);
    }
  }

  lemma RestTick(s: State, w: World)
    requires !s.destroyed
    ensures Rest(s, w).tick == NextTick(s.tick, s.deadline, w)
  {
    SyncTick(s, w);
    StartUnlocked(Sync(s, w).(again := false));
  }

  lemma NoUpdateTick(s: State, e: Event)
    requires Update(s, e, Step(s, e).log).None?
    ensures Step(s, e).tick == if e.Dispose? && !s.destroyed then None else s.tick
  {
    if Ends(s, e) {
      NeverWithoutEnd(s, e);
    } else if e.Request? {
      StartUnlocked(Log(s.(retryArmed := false, retries := 0), Requested));
    } else if e.RetryFires? {
      StartUnlocked(s.(retryArmed := false));
    }
  }

  lemma RestGrows(s: State, w: World)
    requires s.log != []
    ensures |s.log| <= |Rest(s, w).log| && Rest(s, w).log[|s.log| - 1] == s.log[|s.log| - 1]
  {
    SyncAdds(s, w);
    var synced := Sync(s, w);
    StartUnlocked(synced.(again := false));
    var more := Rest(s, w).log;
    if !s.destroyed {
      assert more[..|synced.log|] == synced.log;
      assert more[|s.log| - 1] == synced.log[|s.log| - 1] == synced.log[..|s.log|][|s.log| - 1];
    }
  }

  lemma NeverWithoutEnd(s: State, e: Event)
    requires Ends(s, e)
    ensures HasEnd(s.log, Step(s, e).log)
  {
    var ended := Ending(Concluding(s, e));
    EndingUnlocked(s, e, ended);
    EndIsRest(s, e, ended);
    EndIsKept(s, ended, e.w);
  }

  lemma EndIsKept(s: State, ended: State, w: World)
    requires |s.log| < |ended.log| && ended.log[|ended.log| - 1].Ended?
    ensures HasEnd(s.log, Rest(ended, w).log)
  {
    RestGrows(ended, w);
    assert Rest(ended, w).log[|ended.log| - 1].Ended?;
  }

  /** In every run the display tick after an event is exactly this: while the session shows time
      left, an update leaves the earlier of the armed tick and the next one; without time left, in a
      locked or greeter session, and once destroyed there is none; other events leave it alone. */
  lemma TicksAreExact(preview: bool, start: int, events: seq<Event>, e: Event) returns (k: nat)
    ensures
      var s, s' := Run(Initial(preview, start), events), Run(Initial(preview, start), events + [e]);
      var update := Update(s, e, s'.log);
      && UpdatesAt(s, e, s'.log, k)
      && s'.tick ==
           if Dispose in events + [e] then None
           else if update.None? then s.tick
           else NextTick(if e.TickFires? then None else s.tick, LastDeadline(s'.log[..k], start), update.value)
  {
    var s := Run(Initial(preview, start), events);
    assert (events + [e])[..|events + [e]| - 1] == events;
    EveryRunIsSound(preview, start, events);
    EveryRunIsSound(preview, start, events + [e]);
    if !s.destroyed && Update(s, e, Step(s, e).log).Some? {
      k := DeadlineAt(s, e, start);
    } else {
      k := StepLocks(s, e, start);
      if !s.destroyed && !e.Dispose? {
        NoUpdateTick(s, e);
      }
    }
  }

  /** A read that nothing supersedes takes the deadline it is answered, whatever else happened. */
  lemma AnsweredReadIsTaken(preview: bool, start: int, events: seq<Event>, w: World, deadline: int, w': World)
    requires
      var s := Run(Initial(preview, start), events);
      s.reading == Some(Read(s.serial, Estimates)) && Dispose !in events
    ensures
      var s' := Run(Initial(preview, start), events + [EstimateArrives(w), DeadlineArrives(deadline, w')]);
      s'.reading.None? && s'.deadline == deadline && Fresh(s'.log, s'.serial, deadline)
  {
    var s := Run(Initial(preview, start), events);
    var more := [EstimateArrives(w), DeadlineArrives(deadline, w')];
    var all := events + more;
    EveryRunIsSound(preview, start, events);
    EveryRunKeeps(preview, start, events);
    assert all[..|all| - 1] == events + [EstimateArrives(w)];
    assert (events + [EstimateArrives(w)])[..|events|] == events;
    EveryRunKeeps(preview, start, all);
    var t := Step(s, EstimateArrives(w));
    var ended := Ending(Take(t, deadline));
    SyncFrame(ended, w');
  }
}
