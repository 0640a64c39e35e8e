/** The one-shot unlock recovery of child/sessionUnlock.js as a state machine over the main
    loop's events. The handlers run to completion, except that the retry record and the native
    deactivate call may deliver further signals before they return; those two suspended
    activations are the frames below. */
module SessionUnlock {
  import opened Common

  const LIFETIME: int := 2000 * 1000  // microseconds

  type Name = nat

  /** A property that is strictly true, strictly false, or neither (unset). */
  datatype Tri = Yes | No | Unset

  datatype NativeState = Disabled | Active | LimitReached

  /** Everything a handler reads while it runs. */
  datatype World = World(
    locked: bool, modeLocked: bool, greeter: bool, sleeping: bool, limits: bool,
    shouldLock: Tri, state: NativeState, active: Tri,
    dailyEnd: Option<int>, current: int, now: int, owner: Option<Name>)

  datatype Request = Request(
    id: nat, owner: Name, started: int,
    activeSeen: bool, cleared: bool, retried: bool, dispatched: bool)

  /** A suspended _continue: inside its retry record, or inside shield.deactivate. */
  datatype Frame = NoFrame | Recording(id: nat) | Deactivating

  datatype Recovery = Recovery(closed: bool, request: Option<Request>, idle: bool, timeout: bool, frame: Frame)

  const INITIAL: Recovery := Recovery(false, None, false, false, NoFrame)

  datatype Event =
    | Notified(w: World)
    | UnlockSignal(sender: Option<Name>, w: World)
    | LockSignal(sender: Option<Name>, w: World)
    | OwnerNotified
    | PrepareForSleep(sleeping: bool)
    | SignalThrew
    | IdleFires(w: World)
    | IdleThrew
    | TimeoutFires
    | Returned(w: World)
    | ContinueThrew
    | Close

  predicate Trusted(sender: Option<Name>, w: World) {
    sender.Some? && sender == w.owner
  }

  function Finish(s: Recovery): Recovery {
    s.(request := None, idle := false, timeout := false)
  }

  function Changed(s: Recovery, w: World): Recovery {
    if s.request.None? then s
    else
      var request := s.request.value;
      if !w.locked then Finish(s)
      else if !request.dispatched && !w.modeLocked && !w.greeter then Finish(s)
      else if w.shouldLock != No && request.cleared then Finish(s)
      else
        var seen := request.activeSeen || w.active == Yes;
        if w.active == No && seen then Finish(s)
        else if w.greeter || w.sleeping || !w.limits then Finish(s)
        else s.(request := Some(request.(cleared := request.cleared || w.shouldLock == No, activeSeen := seen)),
                idle := true)
  }

  predicate NativeLock(w: World) {
    w.locked && w.modeLocked && !w.greeter && !w.sleeping && w.limits
    && w.shouldLock == Yes && w.state == LimitReached
  }

  function UnlockRequested(s: Recovery, owner: Name, w: World, id: nat): Recovery {
    if !NativeLock(w) then Finish(s)
    else Changed(Finish(s).(request := Some(Request(id, owner, w.now, w.active == Yes, false, false, false)),
                            timeout := true), w)
  }

  /** The native guards of a dispatch. */
  predicate Guards(w: World) {
    && w.locked && !w.greeter && !w.sleeping && w.limits && w.active == Yes && w.modeLocked
    && w.shouldLock == No && w.state == Active
    && w.dailyEnd.Some? && w.dailyEnd.value > w.current
  }

  function Continue(s: Recovery, w: World): Recovery {
    if s.request.None? || s.closed || s.request.value.retried then s
    else
      var request := s.request.value;
      if w.now - request.started >= LIFETIME then Finish(s)
      else if w.owner != Some(request.owner) then Finish(s)
      else if !w.locked then Finish(s)
      else if !Guards(w) then s
      else s.(request := Some(request.(retried := true)), frame := Recording(request.id))
  }

  /** Whether the retry record returns to the request it recorded. */
  predicate Dispatches(s: Recovery) {
    s.frame.Recording? && !s.closed && s.request.Some? && s.request.value.id == s.frame.id
  }

  /** The effect of one event; `tick` names a request armed by it. */
  function Step(s: Recovery, e: Event, tick: nat): Recovery {
    match e
    case Notified(w) => if s.closed then s else Changed(s, w)
    case UnlockSignal(sender, w) =>
      if s.closed || !Trusted(sender, w) then s else UnlockRequested(s, sender.value, w, tick)
    case LockSignal(sender, w) => if s.closed || !Trusted(sender, w) then s else Finish(s)
    case OwnerNotified => if s.closed then s else Finish(s)
    case PrepareForSleep(sleeping) => if s.closed || !sleeping then s else Finish(s)
    case SignalThrew => if s.closed then s else Finish(s)
    case IdleFires(w) => if !s.idle || !s.frame.NoFrame? then s else Continue(s.(idle := false), w)
    case IdleThrew => if !s.idle || !s.frame.NoFrame? then s else Finish(s)
    case TimeoutFires => if !s.timeout || !s.frame.NoFrame? then s else Finish(s)
    case Returned(w) =>
      if s.frame.NoFrame? then s
      else if Dispatches(s) then
        s.(request := Some(s.request.value.(dispatched := true)), timeout := true, frame := Deactivating)
      else Changed(s.(frame := NoFrame), w)
    case ContinueThrew => if s.frame.NoFrame? then s else Finish(s.(frame := NoFrame))
    case Close => Finish(s.(closed := true))
  }

  // ---------------------------------------------------------------------------
  // Whole runs
  // ---------------------------------------------------------------------------

  /** The state before event k. */
  function At(events: seq<Event>, k: nat): Recovery
    requires k <= |events|
  {
    if k == 0 then INITIAL else Step(At(events, k - 1), events[k - 1], k - 1)
  }

  /** Event k enters shield.deactivate, for the request armed by event j. */
  predicate Deactivates(events: seq<Event>, k: nat, j: nat)
    requires k < |events|
  {
    && !At(events, k).frame.Deactivating? && At(events, k + 1).frame.Deactivating?
    && At(events, k).request.Some? && At(events, k).request.value.id == j
  }

  /** The world _changed judges at event i. */
  function Judged(events: seq<Event>, i: nat): Option<World>
    requires i < |events|
  {
    match events[i]
    case Notified(w) => Some(w)
    case Returned(w) => if At(events, i).frame.NoFrame? || Dispatches(At(events, i)) then None else Some(w)
    case _ => None
  }

  /** The world an idle dispatch check reads at event i. */
  function Checked(events: seq<Event>, i: nat): Option<World>
    requires i < |events|
  {
    match events[i]
    case IdleFires(w) => if At(events, i).idle && At(events, i).frame.NoFrame? then Some(w) else None
    case _ => None
  }

  /** Since Unlock j and before event k some judged world (or the Unlock's own) had the session active. */
  ghost predicate SeenActive(events: seq<Event>, j: nat, k: nat)
    requires j < k <= |events| && events[j].UnlockSignal?
  {
    || events[j].w.active == Yes
    || exists i :: j < i < k && Judged(events, i).Some? && Judged(events, i).value.active == Yes
  }

  ghost predicate SeenCleared(events: seq<Event>, j: nat, k: nat)
    requires j < k <= |events|
  {
    exists i :: j < i < k && Judged(events, i).Some? && Judged(events, i).value.shouldLock == No
  }

  /** What _changed makes of a world it judges after Unlock j. */
  ghost predicate Condemns(events: seq<Event>, j: nat, i: nat, w: World)
    requires j < i < |events| && events[j].UnlockSignal?
  {
    || !w.locked || w.greeter || w.sleeping || !w.limits || !w.modeLocked
    || (w.active == No && SeenActive(events, j, i))
    || (w.shouldLock != No && SeenCleared(events, j, i))
  }

  /** What the dispatch check itself refuses for good. */
  predicate Expels(events: seq<Event>, j: nat, w: World)
    requires j < |events| && events[j].UnlockSignal?
  {
    w.now - events[j].w.now >= LIFETIME || w.owner != events[j].sender || !w.locked
  }

  /** What withdraws the authority of Unlock j at a later event i. */
  ghost predicate Withdraws(events: seq<Event>, j: nat, i: nat)
    requires j < i < |events| && events[j].UnlockSignal?
  {
    || events[i].Close? || events[i].OwnerNotified? || events[i].SignalThrew?
    || (events[i].PrepareForSleep? && events[i].sleeping)
    || ((events[i].LockSignal? || events[i].UnlockSignal?) && FromOwner(events[i].sender, events[i].w.owner))
    || (events[i].TimeoutFires? && At(events, i).frame.NoFrame?)
    || (events[i].IdleThrew? && At(events, i).idle && At(events, i).frame.NoFrame?)
    || (events[i].ContinueThrew? && !At(events, i).frame.NoFrame?)
    || (Judged(events, i).Some? && Condemns(events, j, i, Judged(events, i).value))
    || (Checked(events, i).Some? && Expels(events, j, Checked(events, i).value))
  }

  predicate FromOwner(sender: Option<Name>, owner: Option<Name>) {
    sender.Some? && owner.Some? && sender.value == owner.value
  }

  /** What must be so for a dispatch: an active, locked user session with limits in which GNOME has
      granted time again, up to a finite end in the future. */
  predicate Granted(w: World) {
    && w.locked && w.modeLocked && !w.greeter && !w.sleeping && w.limits && w.active == Yes
    && w.shouldLock == No && w.state == Active
    && w.dailyEnd.Some? && w.current < w.dailyEnd.value
  }

  /** Event j is a trusted Unlock of a native limit lock. */
  predicate Arms(events: seq<Event>, j: nat)
    requires j < |events|
  {
    && events[j].UnlockSignal? && FromOwner(events[j].sender, events[j].w.owner)
    && var w := events[j].w;
       && w.locked && w.modeLocked && !w.greeter && !w.sleeping && w.limits
       && w.shouldLock == Yes && w.state == LimitReached
  }

  /** The dispatch check that passed for Unlock j. */
  predicate Approves(events: seq<Event>, j: nat, c: nat)
    requires j < |events| && c < |events| && events[j].UnlockSignal?
  {
    && events[c].IdleFires? && Granted(events[c].w)
    && events[c].w.owner == events[j].sender
    && events[c].w.now - events[j].w.now < LIFETIME
  }

  ghost predicate Undisturbed(events: seq<Event>, j: nat, k: nat)
    requires j < k <= |events| && events[j].UnlockSignal?
  {
    forall i | j < i < k :: !Withdraws(events, j, i)
  }

  /** What the state before event k says about the events before it: the live request ... */
  ghost predicate RequestExplained(events: seq<Event>, k: nat)
    requires k <= |events|
  {
    var s := At(events, k);
    s.request.Some? ==>
      var r := s.request.value;
      && !s.closed && s.timeout
      && r.id < k && Arms(events, r.id)
      && events[r.id].sender == Some(r.owner) && r.started == events[r.id].w.now
      && (r.dispatched ==> r.retried)
      && (r.retried && !r.dispatched ==> s.frame == Recording(r.id))
      && (s.frame == Recording(r.id) ==> r.retried && !r.dispatched)
      && (!r.dispatched ==>
            && Undisturbed(events, r.id, k)
            && r.activeSeen == SeenActive(events, r.id, k)
            && r.cleared == SeenCleared(events, r.id, k)
            && forall i | r.id < i < k :: !Deactivates(events, i, r.id))
  }

  /** ... and the suspended retry record. */
  ghost predicate FrameExplained(events: seq<Event>, k: nat)
    requires k <= |events|
  {
    var f := At(events, k).frame;
    f.Recording? ==>
      && f.id < k && Arms(events, f.id)
      && exists c :: f.id < c < k && Approves(events, f.id, c) && SameTurn(events, f.id, c, k)
  }

  /** From the approving check up to event k the handler has not returned from its retry record,
      so only signals delivered inside that one main-loop turn lie between. */
  ghost predicate SameTurn(events: seq<Event>, j: nat, c: nat, k: nat)
    requires c < k <= |events|
  {
    forall m | c < m <= k :: At(events, m).frame == Recording(j)
  }

  lemma FrameStep(events: seq<Event>, k: nat)
    requires k < |events| && RequestExplained(events, k) && FrameExplained(events, k)
    ensures FrameExplained(events, k + 1)
  {
    var s, s' := At(events, k), At(events, k + 1);
    if s'.frame.Recording? {
      var j := s'.frame.id;
      if s.frame != s'.frame {
        assert Approves(events, j, k) && SameTurn(events, j, k, k + 1);
      } else {
        var c :| j < c < k && Approves(events, j, c) && SameTurn(events, j, c, k);
        assert SameTurn(events, j, c, k + 1);
      }
    }
  }

  lemma SeenStep(events: seq<Event>, j: nat, k: nat)
    requires j < k < |events| && events[j].UnlockSignal?
    ensures SeenActive(events, j, k + 1)
            <==> SeenActive(events, j, k) || (Judged(events, k).Some? && Judged(events, k).value.active == Yes)
    ensures SeenCleared(events, j, k + 1)
            <==> SeenCleared(events, j, k) || (Judged(events, k).Some? && Judged(events, k).value.shouldLock == No)
    ensures Undisturbed(events, j, k + 1) <==> Undisturbed(events, j, k) && !Withdraws(events, j, k)
  {
  }

  /** A new request starts with an empty history. */
  lemma ArmedStep(events: seq<Event>, k: nat)
    requires k < |events| && events[k].UnlockSignal?
    ensures SeenActive(events, k, k + 1) == (events[k].w.active == Yes)
    ensures !SeenCleared(events, k, k + 1) && Undisturbed(events, k, k + 1)
  {
  }

  /** A judged world either withdraws the request or is recorded in it. */
  lemma JudgedStep(events: seq<Event>, k: nat)
    requires k < |events| && RequestExplained(events, k) && Judged(events, k).Some?
    ensures RequestExplained(events, k + 1)
  {
    var s := At(events, k);
    if s.request.Some? && At(events, k + 1).request.Some? {
      JudgedKeeps(events, k);
    }
  }

  /** What a judgement that keeps the request found and recorded. */
  lemma ChangedKeeps(s: Recovery, w: World)
    requires s.request.Some? && Changed(s, w).request.Some?
    ensures
      var r := s.request.value;
      && Changed(s, w) == s.(request := Some(r.(cleared := r.cleared || w.shouldLock == No,
                                                activeSeen := r.activeSeen || w.active == Yes)), idle := true)
      && w.locked && !w.greeter && !w.sleeping && w.limits && (r.dispatched || w.modeLocked)
      && !(w.active == No && r.activeSeen) && !(w.shouldLock != No && r.cleared)
  {
  }

  lemma JudgedState(events: seq<Event>, k: nat, w: World) returns (s: Recovery)
    requires k < |events| && RequestExplained(events, k) && Judged(events, k) == Some(w) && At(events, k).request.Some?
    ensures At(events, k + 1) == Changed(s, w)
    ensures s == At(events, k) || (s == At(events, k).(frame := NoFrame) && !Dispatches(At(events, k)))
  {
    s := if events[k].Notified? then At(events, k) else At(events, k).(frame := NoFrame);
  }

  lemma JudgedKeeps(events: seq<Event>, k: nat)
    requires k < |events| && RequestExplained(events, k) && Judged(events, k).Some?
    requires At(events, k).request.Some? && At(events, k + 1).request.Some?
    ensures RequestExplained(events, k + 1)
  {
    var w := Judged(events, k).value;
    var s := JudgedState(events, k, w);
    ChangedKeeps(s, w);
    SeenStep(events, s.request.value.id, k);
  }

  /** An event that no handler judges leaves the request alone, records the retry or dispatches it. */
  predicate Kept(events: seq<Event>, k: nat)
    requires k < |events|
  {
    var s, s' := At(events, k), At(events, k + 1);
    && Judged(events, k).None? && s.request.Some? && s'.request.Some? && s.request.value.id == s'.request.value.id
  }

  lemma LeftAlone(events: seq<Event>, k: nat)
    requires k < |events| && Kept(events, k) && RequestExplained(events, k)
    requires At(events, k + 1).frame == At(events, k).frame
    ensures RequestExplained(events, k + 1)
  {
    SeenStep(events, At(events, k).request.value.id, k);
  }

  lemma RetryRecorded(events: seq<Event>, k: nat)
    requires k < |events| && Kept(events, k) && RequestExplained(events, k)
    requires At(events, k).frame.NoFrame? && At(events, k + 1).frame.Recording?
    ensures RequestExplained(events, k + 1)
  {
    SeenStep(events, At(events, k).request.value.id, k);
  }

  lemma KeptStep(events: seq<Event>, k: nat)
    requires k < |events| && Kept(events, k) && RequestExplained(events, k)
    ensures RequestExplained(events, k + 1)
  {
    var s, s' := At(events, k), At(events, k + 1);
    if s'.frame == s.frame {
      LeftAlone(events, k);
    } else if s'.frame.Recording? {
      RetryRecorded(events, k);
    } else {
      assert s'.request.value.dispatched;
    }
  }

  lemma RequestStep(events: seq<Event>, k: nat)
    requires k < |events| && RequestExplained(events, k) && FrameExplained(events, k)
    ensures RequestExplained(events, k + 1)
  {
    var s, s' := At(events, k), At(events, k + 1);
    if Judged(events, k).Some? {
      JudgedStep(events, k);
    } else if s'.request.Some? {
      if s.request.Some? && s.request.value.id == s'.request.value.id {
        KeptStep(events, k);
      } else {
        ArmedStep(events, k);
      }
    }
  }

  lemma {:induction false} EveryStateExplained(events: seq<Event>, k: nat)
    requires k <= |events|
    ensures RequestExplained(events, k) && FrameExplained(events, k)
  {
    if k > 0 {
      EveryStateExplained(events, k - 1);
      RequestStep(events, k - 1);
      FrameStep(events, k - 1);
    }
  }

  // ---------------------------------------------------------------------------
  // Main results
  // ---------------------------------------------------------------------------

  /** Every deactivation answers one trusted Unlock of a native limit lock that nothing in between
      withdrew. A dispatch check less than two seconds after it found all guards, and the call is
      made inside that check's own main-loop turn. */
  lemma DeactivationIsAuthorised(events: seq<Event>, k: nat, j: nat)
    requires k < |events| && Deactivates(events, k, j)
    ensures j < k && Arms(events, j) && Undisturbed(events, j, k)
    ensures exists c :: j < c < k && Approves(events, j, c) && SameTurn(events, j, c, k)
  {
    EveryStateExplained(events, k);
  }

  /** Nothing else ends a request: before its dispatch it survives an event exactly when that
      event does not withdraw it. */
  lemma WithdrawalIsExact(events: seq<Event>, j: nat, i: nat)
    requires i < |events| && At(events, i).request.Some?
    requires At(events, i).request.value.id == j && !At(events, i).request.value.dispatched
    ensures j < i && events[j].UnlockSignal?
    ensures At(events, i + 1).request.Some? && At(events, i + 1).request.value.id == j <==> !Withdraws(events, j, i)
  {
    EveryStateExplained(events, i);
  }

  /** In every run the dispatch check keeps a live request exactly while it is young, its owner
      still owns the name and the shield is locked, whatever else it sees. */
  lemma DispatchCheckOnlyWaits(events: seq<Event>, i: nat, j: nat)
    requires i < |events| && Checked(events, i).Some? && At(events, i).request.Some?
    requires At(events, i).request.value.id == j && !At(events, i).request.value.retried
    ensures j < i && events[j].UnlockSignal?
    ensures
      var w := events[i].w;
      (At(events, i + 1).request.Some? && At(events, i + 1).request.value.id == j) <==>
      w.now - events[j].w.now < LIFETIME && w.owner == events[j].sender && w.locked
  {
    EveryStateExplained(events, i);
  }

  /** One Unlock is answered by at most one deactivation. */
  lemma DeactivatesAtMostOnce(events: seq<Event>, k: nat, k': nat, j: nat)
    requires k < |events| && k' < |events| && Deactivates(events, k, j) && Deactivates(events, k', j)
    ensures k == k'
  {
    EveryStateExplained(events, k);
    EveryStateExplained(events, k');
  }

  /** Nothing is deactivated after close. */
  lemma {:induction false} ClosedForGood(events: seq<Event>, c: nat, k: nat)
    requires c < k <= |events| && events[c].Close?
    ensures At(events, k).closed && At(events, k).request.None?
    ensures k < |events| ==> forall j: nat :: !Deactivates(events, k, j)
    decreases k
  {
    if c + 1 < k {
      ClosedForGood(events, c, k - 1);
    }
  }

  // ---------------------------------------------------------------------------
  // What a handler saw without acting on it
  // ---------------------------------------------------------------------------

  /** The world any handler read at event i, judged or only checked. */
  function Observed(events: seq<Event>, i: nat): Option<World>
    requires i < |events|
  {
    if Judged(events, i).Some? then Judged(events, i) else Checked(events, i)
  }

  ghost predicate EverActive(events: seq<Event>, j: nat, k: nat)
    requires j < k <= |events| && events[j].UnlockSignal?
  {
    || events[j].w.active == Yes
    || exists i :: j < i < k && Observed(events, i).Some? && Observed(events, i).value.active == Yes
  }

  ghost predicate EverCleared(events: seq<Event>, j: nat, k: nat)
    requires j < k <= |events|
  {
    exists i :: j < i < k && Observed(events, i).Some? && Observed(events, i).value.shouldLock == No
  }

  /** A handler observed an unlocked shield, a session gone inactive after being active, or
      exhaustion after clearing. */
  ghost predicate Revokes(events: seq<Event>, j: nat, i: nat)
    requires j < i < |events| && events[j].UnlockSignal?
  {
    Observed(events, i).Some? &&
    var w := Observed(events, i).value;
    || !w.locked
    || (w.active == No && EverActive(events, j, i))
    || (w.shouldLock != No && EverCleared(events, j, i))
  }

  /** The two ways an observation is lost: the dispatch check that finds the session inactive or
      exhausted again only waits, and what a check saw is not remembered for a later judgement. */
  ghost predicate Forgives(events: seq<Event>, j: nat, i: nat)
    requires j < i < |events| && events[j].UnlockSignal?
  {
    if Checked(events, i).Some? then
      var w := Checked(events, i).value;
      || (w.active == No && EverActive(events, j, i))
      || (w.shouldLock != No && EverCleared(events, j, i))
    else
      Judged(events, i).Some? &&
      var w := Judged(events, i).value;
      || (w.active == No && EverActive(events, j, i) && !SeenActive(events, j, i))
      || (w.shouldLock != No && EverCleared(events, j, i) && !SeenCleared(events, j, i))
  }

  lemma SeenIsEver(events: seq<Event>, j: nat, i: nat)
    requires j < i <= |events| && events[j].UnlockSignal?
    ensures SeenActive(events, j, i) ==> EverActive(events, j, i)
    ensures SeenCleared(events, j, i) ==> EverCleared(events, j, i)
  {
    if SeenActive(events, j, i) && events[j].w.active != Yes {
      var m :| j < m < i && Judged(events, m).Some? && Judged(events, m).value.active == Yes;
      assert Observed(events, m).value.active == Yes;
    }
    if SeenCleared(events, j, i) {
      var m :| j < m < i && Judged(events, m).Some? && Judged(events, m).value.shouldLock == No;
      assert Observed(events, m).value.shouldLock == No;
    }
  }

  /** An event that withdraws nothing revokes exactly when it is forgiven. */
  lemma RevokedMeansForgiven(events: seq<Event>, j: nat, i: nat)
    requires j < i < |events| && events[j].UnlockSignal? && !Withdraws(events, j, i)
    ensures Revokes(events, j, i) <==> Forgives(events, j, i)
  {
    SeenIsEver(events, j, i);
  }

  /** Exactly when a deactivation respects everything any handler observed since its Unlock: no
      observation was forgiven. */
  lemma ObservationsAreRespectedExactly(events: seq<Event>, k: nat, j: nat)
    requires k < |events| && Deactivates(events, k, j)
    ensures j < k && events[j].UnlockSignal?
    ensures (forall i | j < i < k :: !Revokes(events, j, i)) <==> (forall i | j < i < k :: !Forgives(events, j, i))
  {
    DeactivationIsAuthorised(events, k, j);
    forall i | j < i < k
      ensures Revokes(events, j, i) <==> Forgives(events, j, i)
    {
      RevokedMeansForgiven(events, j, i);
    }
  }

  /** A check that forgives is always possible: an inactive session ... */
  lemma InactivityIsForgiven(lock: World, grant: World, owner: Name)
    requires NativeLock(lock) && lock.active == Yes && lock.owner == Some(owner)
    requires Granted(grant) && grant.owner == Some(owner) && grant.now - lock.now < LIFETIME
    ensures
      var events := [UnlockSignal(Some(owner), lock), IdleFires(grant.(active := No)), Notified(grant),
                     IdleFires(grant), Returned(grant)];
      Deactivates(events, 4, 0) && Forgives(events, 0, 1)
  {
    var events := [UnlockSignal(Some(owner), lock), IdleFires(grant.(active := No)), Notified(grant),
                   IdleFires(grant), Returned(grant)];
    assert At(events, 1) == Step(INITIAL, events[0], 0);
    assert At(events, 2) == Step(At(events, 1), events[1], 1);
    assert At(events, 3) == Step(At(events, 2), events[2], 2);
    assert At(events, 4) == Step(At(events, 3), events[3], 3);
  }

  /** ... and exhaustion after clearing. */
  lemma ExhaustionIsForgiven(lock: World, grant: World, owner: Name)
    requires NativeLock(lock) && lock.active != No && lock.owner == Some(owner)
    requires Granted(grant) && grant.owner == Some(owner) && grant.now - lock.now < LIFETIME
    ensures
      var events := [UnlockSignal(Some(owner), lock), Notified(grant), IdleFires(grant.(shouldLock := Yes)),
                     Notified(grant), IdleFires(grant), Returned(grant)];
      Deactivates(events, 5, 0) && SeenCleared(events, 0, 2) && Forgives(events, 0, 2)
  {
    var events := [UnlockSignal(Some(owner), lock), Notified(grant), IdleFires(grant.(shouldLock := Yes)),
                   Notified(grant), IdleFires(grant), Returned(grant)];
    assert At(events, 1) == Step(INITIAL, events[0], 0);
    assert At(events, 2) == Step(At(events, 1), events[1], 1);
    assert At(events, 3) == Step(At(events, 2), events[2], 2);
    assert At(events, 4) == Step(At(events, 3), events[3], 3);
    assert At(events, 5) == Step(At(events, 4), events[4], 4);
    assert Judged(events, 1) == Some(grant);
    assert SeenCleared(events, 0, 2);
    SeenIsEver(events, 0, 2);
  }

  // ---------------------------------------------------------------------------
  // The guards at the call
  // ---------------------------------------------------------------------------

  lemma {:induction false} AtPrefix(events: seq<Event>, other: seq<Event>, k: nat)
    requires k <= |events| && k <= |other| && events[..k] == other[..k]
    ensures At(events, k) == At(other, k)
  {
    if k > 0 {
      assert events[..k][..k - 1] == events[..k - 1] && other[..k][..k - 1] == other[..k - 1];
      assert events[k - 1] == events[..k][k - 1];
      AtPrefix(events, other, k - 1);
    }
  }

  /** All guards, the owner and the age, in the world of the call itself. */
  predicate CallIsGuarded(events: seq<Event>, k: nat, j: nat)
    requires j < |events| && k < |events| && events[j].UnlockSignal? && events[k].Returned?
  {
    && Granted(events[k].w) && events[k].w.owner == events[j].sender
    && events[k].w.now - events[j].w.now < LIFETIME
  }

  /** The call is made whatever its world is, since the guards are not read again after the retry
      record. They hold at the call if the record returns in the world it was made in. */
  lemma GuardsAtTheCall(events: seq<Event>, k: nat, j: nat, w: World)
    requires k < |events| && Deactivates(events, k, j)
    ensures Deactivates(events[k := Returned(w)], k, j)
    ensures j < k && events[j].UnlockSignal?
    ensures exists c :: j < c < k && Approves(events, j, c) && SameTurn(events, j, c, k)
                        && (w == events[c].w ==> CallIsGuarded(events[k := Returned(w)], k, j))
  {
    DeactivationIsAuthorised(events, k, j);
    AtPrefix(events, events[k := Returned(w)], k);
    var c :| j < c < k && Approves(events, j, c) && SameTurn(events, j, c, k);
    assert w == events[c].w ==> CallIsGuarded(events[k := Returned(w)], k, j);
  }

  // ---------------------------------------------------------------------------
  // The object
  // ---------------------------------------------------------------------------

  class SessionUnlockRecovery {
    var closed: bool
    var request: Option<Request>
    var idle: bool
    var timeout: bool
    var frame: Frame

    constructor ()
      ensures Now() == INITIAL
    {
      closed, request, idle, timeout, frame := false, None, false, false, NoFrame;
    }

    function Now(): Recovery
      reads this
    {
      Recovery(closed, request, idle, timeout, frame)
    }

    method DoFinish()
      modifies this`request, this`idle, this`timeout
      ensures Now() == Finish(old(Now()))
    {
      request := None;
      idle := false;
      timeout := false;
    }

    method DoChanged(w: World)
      modifies this`request, this`idle, this`timeout
      ensures Now() == Changed(old(Now()), w)
    {
      if request.None? {
        return;
      }
      if !w.locked {
        DoFinish();
        return;
      }
      if !request.value.dispatched && !w.modeLocked && !w.greeter {
        DoFinish();
        return;
      }
      if w.shouldLock == No {
        request := Some(request.value.(cleared := true));
      } else if request.value.cleared {
        DoFinish();
        return;
      }
      if w.active == Yes {
        request := Some(request.value.(activeSeen := true));
      }
      if w.active == No && request.value.activeSeen {
        DoFinish();
        return;
      }
      if w.greeter || w.sleeping || !w.limits {
        DoFinish();
        return;
      }
      if !idle {
        idle := true;
      }
    }

    method DoUnlockRequested(owner: Name, w: World, id: nat)
      modifies this`request, this`idle, this`timeout
      ensures Now() == UnlockRequested(old(Now()), owner, w, id)
    {
      DoFinish();
      if !w.locked || !w.modeLocked || w.greeter || w.sleeping || !w.limits
         || w.shouldLock != Yes || w.state != LimitReached {
        return;
      }
      request := Some(Request(id, owner, w.now, w.active == Yes, false, false, false));
      timeout := true;
      DoChanged(w);
    }

    /** Runs up to the retry record, or to the end when nothing is to be dispatched. */
    method DoContinue(w: World)
      modifies this
      ensures Now() == Continue(old(Now()), w)
    {
      if request.None? || closed {
        return;
      }
      if request.value.retried {
        return;
      }
      if w.now - request.value.started >= LIFETIME || w.owner != Some(request.value.owner) || !w.locked {
        DoFinish();
        return;
      }
      if w.greeter || w.sleeping || !w.limits || w.active != Yes || !w.modeLocked {
        return;
      }
      if w.shouldLock != No || w.state != Active || w.dailyEnd.None? || w.dailyEnd.value <= w.current {
        return;
      }
      request := Some(request.value.(retried := true));
      frame := Recording(request.value.id);
    }

    /** The rest of _continue after one of its two outward calls returned. */
    method Resume(w: World) returns (deactivated: bool)
      requires !frame.NoFrame?
      modifies this
      ensures Now() == Step(old(Now()), Returned(w), 0)
      ensures deactivated == Dispatches(old(Now()))
    {
      deactivated := false;
      if frame.Recording? && request.Some? && request.value.id == frame.id && !closed {
        request := Some(request.value.(dispatched := true));
        timeout := true;
        frame := Deactivating;
        deactivated := true;
        return;
      }
      frame := NoFrame;
      DoChanged(w);
    }

    /** Delivers one event the way the main loop or a re-entrant signal does. */
    method Handle(e: Event, tick: nat) returns (deactivated: bool)
      modifies this
      ensures Now() == Step(old(Now()), e, tick)
      ensures deactivated == (e.Returned? && Dispatches(old(Now())))
    {
      deactivated := false;
      match e {
        case Notified(w) =>
          if !closed {
            DoChanged(w);
          }
        case UnlockSignal(sender, w) =>
          if !closed && Trusted(sender, w) {
            DoUnlockRequested(sender.value, w, tick);
          }
        case LockSignal(sender, w) =>
          if !closed && Trusted(sender, w) {
            DoFinish();
          }
        case OwnerNotified =>
          if !closed {
            DoFinish();
          }
        case PrepareForSleep(sleeping) =>
          if !closed && sleeping {
            DoFinish();
          }
        case SignalThrew =>
          if !closed {
            DoFinish();
          }
        case IdleFires(w) =>
          if idle && frame.NoFrame? {
            idle := false;
            DoContinue(w);
          }
        case IdleThrew =>
          if idle && frame.NoFrame? {
            idle := false;
            DoFinish();
          }
        case TimeoutFires =>
          if timeout && frame.NoFrame? {
            timeout := false;
            DoFinish();
          }
        case Returned(w) =>
          if !frame.NoFrame? {
            deactivated := Resume(w);
          }
        case ContinueThrew =>
          if !frame.NoFrame? {
            frame := NoFrame;
            DoFinish();
          }
        case Close =>
          closed := true;
          DoFinish();
      }
    }
  }
}
