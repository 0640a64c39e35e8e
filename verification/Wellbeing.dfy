/** The suppression lease of child/wellbeingSuppression.js: one SetWindow call in flight, a
    helper process that may be replaced at any time, and a release that survives close. */
module WellbeingSuppression {
  import opened Common

  type Name = nat

  datatype Call = Call(requested: int, generation: nat)

  /** A request goes to a pinned owner, or to the well-known name (None). */
  datatype Entry =
    | Asked(value: int, generation: nat, target: Option<Name>, thrown: bool)
    | Answered(value: int, generation: nat, now: nat, ok: bool)

  /** `sent` is None when the helper's lease is unknown. */
  datatype State = State(
    desired: int, sent: Option<int>, pending: Option<Call>, closed: bool,
    owner: Option<Name>, generation: nat, log: seq<Entry>)

  const INITIAL: State := State(0, Some(0), None, false, None, 0, [])

  /** What a handler meets: the computed window (None: it threw), and whether the bus takes a call. */
  datatype World = World(window: Option<int>, dispatches: bool)

  datatype Event =
    | OwnerChanged(owner: Option<Name>, w: World)
    | Update(w: World)
    | Reply(ok: bool, w: World)
    | Close(w: World)

  function Flush(s: State, w: World): State {
    if s.pending.Some? || s.sent == Some(s.desired) then s
    else if w.dispatches then
      s.(pending := Some(Call(s.desired, s.generation)),
         log := s.log + [Asked(s.desired, s.generation, s.owner, false)])
    else s.(sent := None, log := s.log + [Asked(s.desired, s.generation, s.owner, true)])
  }

  function DoUpdate(s: State, w: World): State {
    if s.closed then s
    else Flush(s.(desired := if w.window.Some? then w.window.value else 0), w)
  }

  /** Acknowledgements belong to one helper process; a vanished one has no leases. */
  function WithOwner(s: State, owner: Option<Name>): State {
    s.(owner := owner, generation := s.generation + 1, sent := if owner.None? then Some(0) else None)
  }

  function DoOwnerChanged(s: State, owner: Option<Name>, w: World): State {
    if s.closed || s.owner == owner then s
    else DoUpdate(WithOwner(s, owner), w)
  }

  function Finished(s: State, ok: bool): State
    requires s.pending.Some?
  {
    var q := s.pending.value;
    s.(pending := None,
       sent := if q.generation != s.generation then s.sent else if ok then Some(q.requested) else None,
       log := s.log + [Answered(q.requested, q.generation, s.generation, ok)])
  }

  function DoReply(s: State, ok: bool, w: World): State {
    if s.pending.None? then s
    else
      var q := s.pending.value;
      if s.closed then
        if q.requested != 0 then Flush(Finished(s, ok).(sent := None), w) else Finished(s, ok)
      else if q.generation != s.generation || s.desired != q.requested then DoUpdate(Finished(s, ok), w)
      else Finished(s, ok)
  }

  function DoClose(s: State, w: World): State {
    if s.closed then s else Flush(s.(closed := true, desired := 0), w)
  }

  function Step(s: State, e: Event): State {
    match e
    case OwnerChanged(owner, w) => DoOwnerChanged(s, owner, w)
    case Update(w) => DoUpdate(s, w)
    case Reply(ok, w) => DoReply(s, ok, w)
    case Close(w) => DoClose(s, w)
  }

  function Run(events: seq<Event>): State {
    if events == [] then INITIAL else Step(Run(events[..|events| - 1]), events[|events| - 1])
  }

  // ---------------------------------------------------------------------------
  // Invariants
  // ---------------------------------------------------------------------------

  /** Every dispatched request is answered before anything else is asked. */
  predicate OneInFlight(s: State) {
    && (forall i | 0 <= i < |s.log| - 1 && s.log[i].Asked? && !s.log[i].thrown ::
          && s.log[i + 1].Answered? && s.log[i + 1].value == s.log[i].value
          && s.log[i + 1].generation == s.log[i].generation)
    && (s.pending.Some? <==> s.log != [] && s.log[|s.log| - 1].Asked? && !s.log[|s.log| - 1].thrown)
    && (s.pending.Some? ==>
          s.pending.value == Call(s.log[|s.log| - 1].value, s.log[|s.log| - 1].generation))
    && (forall i | 0 <= i < |s.log| :: s.log[i].generation <= s.generation)
    && (forall i | 0 <= i < |s.log| && s.log[i].Answered? :: s.log[i].now <= s.generation)
  }

  predicate Settles(e: Entry, generation: nat) {
    (e.Answered? || e.thrown) && e.generation == generation
  }

  /** The last thing the current generation settled was an acknowledgement of v, or nothing was
      settled, no helper owns the name and v is 0. */
  ghost predicate Acknowledged(s: State, v: int) {
    || (v == 0 && s.owner.None? && forall i | 0 <= i < |s.log| :: !Settles(s.log[i], s.generation))
    || exists i: nat :: AcknowledgedAt(s, v, i)
  }

  predicate AcknowledgedAt(s: State, v: int, i: nat) {
    && i < |s.log| && s.log[i] == Answered(v, s.generation, s.generation, true)
    && forall m | i < m < |s.log| :: !Settles(s.log[m], s.generation)
  }

  /** The non-zero request i may hold a lease at the current owner: it was dispatched to it, or to
      the well-known name and was still unanswered when that owner appeared. */
  predicate Reaches(s: State, i: nat)
    requires i < |s.log|
  {
    && s.log[i].Asked? && !s.log[i].thrown && s.log[i].value != 0
    && (s.log[i].generation == s.generation
        || (s.owner.Some? && s.log[i].target.None?
            && (i + 1 < |s.log| && s.log[i + 1].Answered? ==> s.log[i + 1].now == s.generation)))
  }

  /** A zero request went to the current owner after entry i. */
  predicate Released(s: State, i: nat)
    requires i < |s.log|
  {
    exists j | i < j < |s.log| ::
      s.log[j].Asked? && !s.log[j].thrown && s.log[j].value == 0 && s.log[j].generation == s.generation
  }

  predicate AllReleased(s: State) {
    forall i | 0 <= i < |s.log| && Reaches(s, i) :: Released(s, i)
  }

  /** While the pending call is older than the owner, nothing was asked of that owner. */
  predicate StaleCall(s: State) {
    s.pending.Some? && s.pending.value.generation != s.generation ==>
      && s.sent == (if s.owner.None? then Some(0) else None)
      && forall i | 0 <= i < |s.log| :: s.log[i].generation < s.generation
  }

  /** A lease not given back yet is still being asked for, or not believed released. */
  predicate Remembered(s: State) {
    AllReleased(s) || (if s.pending.Some? then s.pending.value.requested != 0 else s.sent != Some(0))
  }

  /** The last thing tried was a release that the bus did not take. */
  predicate ReleaseRefused(s: State) {
    s.log != [] && s.log[|s.log| - 1] == Asked(0, s.generation, s.owner, true)
  }

  predicate Quiet(s: State) {
    s.closed ==> s.desired == 0 && (s.pending.None? ==> AllReleased(s) || ReleaseRefused(s))
  }

  predicate Failed(e: Entry) {
    if e.Answered? then !e.ok else e.thrown
  }

  /** While open, an idle lease is the desired one, or the last call failed. */
  predicate UpToDate(s: State) {
    !s.closed && s.pending.None? ==>
      s.sent == Some(s.desired) || (s.log != [] && Failed(s.log[|s.log| - 1]))
  }

  ghost predicate Consistent(s: State) {
    OneInFlight(s) && StaleCall(s) && Remembered(s) && (s.sent.Some? ==> Acknowledged(s, s.sent.value))
  }

  ghost predicate Inv(s: State) {
    Consistent(s) && Quiet(s) && UpToDate(s)
  }

  lemma FlushReleases(s: State, w: World)
    requires OneInFlight(s) && Remembered(s)
    ensures Remembered(Flush(s, w))
    ensures s.desired == 0 && Flush(s, w).pending.None? ==> AllReleased(Flush(s, w)) || ReleaseRefused(Flush(s, w))
  {
    var s' := Flush(s, w);
    if s' != s && s.desired == 0 && w.dispatches {
      assert s'.log[|s.log|].value == 0;
    } else if s' != s && !w.dispatches {
      assert s'.sent.None? && s'.pending.None?;
    }
  }

  lemma FlushInFlight(s: State, w: World)
    requires OneInFlight(s)
    ensures OneInFlight(Flush(s, w))
  {
  }

  lemma FlushAcknowledged(s: State, w: World)
    requires s.sent.Some? ==> Acknowledged(s, s.sent.value)
    ensures Flush(s, w).sent.Some? ==> Acknowledged(Flush(s, w), Flush(s, w).sent.value)
  {
    var s' := Flush(s, w);
    if s'.sent.Some? && s' != s {
      if i: nat :| AcknowledgedAt(s, s.sent.value, i) {
        assert AcknowledgedAt(s', s.sent.value, i);
      }
    }
  }

  lemma FlushKeeps(s: State, w: World)
    requires Consistent(s) && (s.closed ==> s.desired == 0)
    ensures Inv(Flush(s, w))
  {
    FlushReleases(s, w);
    FlushInFlight(s, w);
    FlushAcknowledged(s, w);
    assert StaleCall(Flush(s, w));
  }

  lemma FinishedInFlight(s: State, ok: bool)
    requires OneInFlight(s) && s.pending.Some?
    ensures OneInFlight(Finished(s, ok))
  {
  }

  lemma FinishedAcknowledged(s: State, ok: bool)
    requires s.pending.Some? && (s.sent.Some? ==> Acknowledged(s, s.sent.value))
    ensures Finished(s, ok).sent.Some? ==> Acknowledged(Finished(s, ok), Finished(s, ok).sent.value)
  {
    var s', q := Finished(s, ok), s.pending.value;
    if s'.sent.Some? {
      if q.generation == s.generation {
        assert AcknowledgedAt(s', q.requested, |s.log|);
      } else if i: nat :| AcknowledgedAt(s, s.sent.value, i) {
        assert AcknowledgedAt(s', s.sent.value, i);
      }
    }
  }

  lemma FinishedReleases(s: State, ok: bool)
    requires s.pending.Some? && OneInFlight(s) && StaleCall(s) && Remembered(s)
    ensures Remembered(Finished(s, ok))
    ensures s.pending.value.requested == 0 ==> AllReleased(Finished(s, ok))
  {
    var s' := Finished(s, ok);
    forall i | 0 <= i < |s.log| && Released(s, i)
      ensures Released(s', i)
    {
      var j :| i < j < |s.log| && s.log[j].Asked? && !s.log[j].thrown && s.log[j].value == 0
        && s.log[j].generation == s.generation;
      assert s'.log[j] == s.log[j];
    }
    forall i | 0 <= i < |s'.log| && Reaches(s', i)
      ensures i < |s.log| && Reaches(s, i)
    {
    }
  }

  lemma FinishedKeeps(s: State, ok: bool)
    requires Inv(s) && s.pending.Some?
    ensures Consistent(Finished(s, ok))
  {
    FinishedInFlight(s, ok);
    FinishedAcknowledged(s, ok);
    FinishedReleases(s, ok);
  }

  lemma UpdateKeeps(s: State, w: World)
    requires Consistent(s) && !s.closed
    ensures Inv(DoUpdate(s, w))
  {
    var desired := if w.window.Some? then w.window.value else 0;
    WithDesired(s, desired);
    FlushKeeps(s.(desired := desired), w);
  }

  lemma ReplyKeeps(s: State, ok: bool, w: World)
    requires Inv(s)
    ensures Inv(DoReply(s, ok, w))
  {
    if s.pending.Some? {
      FinishedKeeps(s, ok);
      FinishedReleases(s, ok);
      var f, q := Finished(s, ok), s.pending.value;
      if s.closed && q.requested != 0 {
        assert Consistent(f.(sent := None)) by {
          Unlearn(f);
        }
        FlushKeeps(f.(sent := None), w);
      } else if !s.closed && (q.generation != s.generation || s.desired != q.requested) {
        UpdateKeeps(f, w);
      }
    }
  }

  lemma Unlearn(s: State)
    requires Consistent(s) && s.pending.None?
    ensures Consistent(s.(sent := None))
  {
    SameLog(s, s.(sent := None));
  }

  /** What is reached and released depends on the log and the owner only. */
  lemma SameLog(s: State, t: State)
    requires s.log == t.log && s.owner == t.owner && s.generation == t.generation
    ensures OneInFlight(s) && s.pending == t.pending ==> OneInFlight(t)
    ensures AllReleased(s) == AllReleased(t)
    ensures forall v :: Acknowledged(s, v) ==> Acknowledged(t, v)
  {
    forall v, i: nat | AcknowledgedAt(s, v, i)
      ensures AcknowledgedAt(t, v, i)
    {
    }
    assert forall i | 0 <= i < |s.log| :: Reaches(s, i) == Reaches(t, i) && Released(s, i) == Released(t, i);
  }

  lemma WithDesired(s: State, desired: int)
    requires Consistent(s)
    ensures Consistent(s.(desired := desired))
    ensures Consistent(s.(desired := desired, closed := true))
  {
    SameLog(s, s.(desired := desired));
    SameLog(s, s.(desired := desired, closed := true));
  }

  /** A new owner inherits no request, except one still on its way to the well-known name. */
  lemma OwnerKeeps(s: State, owner: Option<Name>)
    requires Inv(s) && !s.closed
    ensures Consistent(WithOwner(s, owner))
  {
    var t := WithOwner(s, owner);
    assert OneInFlight(t);
    assert forall i | 0 <= i < |t.log| && Reaches(t, i) :: i == |t.log| - 1;
  }

  lemma OwnerChangedKeeps(s: State, owner: Option<Name>, w: World)
    requires Inv(s)
    ensures Inv(DoOwnerChanged(s, owner, w))
  {
    if !s.closed && s.owner != owner {
      OwnerKeeps(s, owner);
      UpdateKeeps(WithOwner(s, owner), w);
    }
  }

  lemma CloseKeeps(s: State, w: World)
    requires Inv(s)
    ensures Inv(DoClose(s, w))
  {
    if !s.closed {
      WithDesired(s, 0);
      FlushKeeps(s.(closed := true, desired := 0), w);
    }
  }

  lemma StepKeeps(s: State, e: Event)
    requires Inv(s)
    ensures Inv(Step(s, e))
  {
    match e
    case OwnerChanged(owner, w) => OwnerChangedKeeps(s, owner, w);
    case Update(w) => if !s.closed { UpdateKeeps(s, w); }
    case Reply(ok, w) => ReplyKeeps(s, ok, w);
    case Close(w) => CloseKeeps(s, w);
  }

  lemma {:induction false} EveryRunKeeps(events: seq<Event>)
    ensures Inv(Run(events))
  {
    if events != [] {
      EveryRunKeeps(events[..|events| - 1]);
      StepKeeps(Run(events[..|events| - 1]), events[|events| - 1]);
    }
  }

  // ---------------------------------------------------------------------------
  // Main results
  // ---------------------------------------------------------------------------

  /** In every run the requests and their answers alternate: a dispatched request is answered
      before the next one is made, so at most one call is in flight. */
  lemma {:induction false} AtMostOneCallInFlight(events: seq<Event>, i: nat, j: nat)
    requires i < j < |Run(events).log|
    requires Run(events).log[i].Asked? && !Run(events).log[i].thrown && Run(events).log[j].Asked?
    ensures i + 1 < j && Run(events).log[i + 1].Answered? && Run(events).log[i + 1].value == Run(events).log[i].value
  {
    EveryRunKeeps(events);
  }

  /** A known lease is what the current owner last acknowledged, or nothing at all when the
      helper vanished. */
  lemma {:induction false} KnownLeaseWasAcknowledged(events: seq<Event>)
    ensures Run(events).sent.Some? ==> Acknowledged(Run(events), Run(events).sent.value)
    ensures UpToDate(Run(events))
  {
    EveryRunKeeps(events);
  }

  /** Once closed and quiescent, each non-zero window that may hold at the current owner was
      followed by a zero request to it, unless the bus refused to take that last release. */
  lemma {:induction false} ReleasedAfterClose(events: seq<Event>, i: nat)
    requires Run(events).closed && Run(events).pending.None?
    requires i < |Run(events).log| && Reaches(Run(events), i)
    ensures Released(Run(events), i) || ReleaseRefused(Run(events))
  {
    EveryRunKeeps(events);
  }

  lemma RefusedChangesNothing(s: State)
    requires s.pending.None?
    ensures AllReleased(s.(sent := None, log := s.log + [Asked(s.desired, s.generation, s.owner, true)])) == AllReleased(s)
  {
    var t := s.(sent := None, log := s.log + [Asked(s.desired, s.generation, s.owner, true)]);
    forall i | 0 <= i < |s.log|
      ensures Reaches(t, i) == Reaches(s, i) && Released(t, i) == Released(s, i)
    {
      if Released(s, i) {
        var j :| i < j < |s.log| && s.log[j].Asked? && !s.log[j].thrown && s.log[j].value == 0
          && s.log[j].generation == s.generation;
        assert t.log[j] == s.log[j];
      }
    }
    assert !Reaches(t, |s.log|);
  }

  lemma ReleaseRequestReleases(s: State)
    ensures AllReleased(s.(pending := Some(Call(0, s.generation)),
                           log := s.log + [Asked(0, s.generation, s.owner, false)]))
  {
    var t := s.(pending := Some(Call(0, s.generation)), log := s.log + [Asked(0, s.generation, s.owner, false)]);
    assert t.log[|s.log|] == Asked(0, s.generation, s.owner, false);
  }

  /** A release that is due leaves nothing behind exactly when the bus takes it or nothing was left. */
  lemma ReleaseFlushIsExact(s: State, w: World)
    requires Remembered(s) && s.pending.None? && s.desired == 0
    ensures AllReleased(Flush(s, w)) <==> w.dispatches || AllReleased(s)
  {
    RefusedChangesNothing(s);
    ReleaseRequestReleases(s);
  }

  /** At the close of an idle object everything is released exactly when the bus takes the
      release or every lease had been given back before. */
  lemma {:induction false} CloseReleasesExactly(events: seq<Event>, w: World)
    requires !Run(events).closed && Run(events).pending.None?
    ensures AllReleased(DoClose(Run(events), w)) <==> w.dispatches || AllReleased(Run(events))
  {
    var s := Run(events);
    EveryRunKeeps(events);
    WithDesired(s, 0);
    SameLog(s, s.(desired := 0, closed := true));
    ReleaseFlushIsExact(s.(desired := 0, closed := true), w);
  }

  /** The same at a non-zero request's reply that arrives after close. */
  lemma {:induction false} LateReplyReleasesExactly(events: seq<Event>, ok: bool, w: World)
    requires Run(events).closed && Run(events).pending.Some? && Run(events).pending.value.requested != 0
    ensures AllReleased(DoReply(Run(events), ok, w)) <==> w.dispatches || AllReleased(Finished(Run(events), ok))
  {
    var s := Run(events);
    EveryRunKeeps(events);
    FinishedKeeps(s, ok);
    var f := Finished(s, ok);
    Unlearn(f);
    SameLog(f, f.(sent := None));
    ReleaseFlushIsExact(f.(sent := None), w);
  }

  /** What decides the release at the event that brings the closed object to rest: whether the bus
      takes the request that is due then, or nothing is left to give back. */
  predicate Settled(s: State, e: Event) {
    match e
    case Close(w) => w.dispatches || AllReleased(s)
    case Reply(ok, w) =>
      s.pending.Some? && (s.pending.value.requested == 0 || w.dispatches || AllReleased(Finished(s, ok)))
    case _ => false
  }

  lemma RestIsFinal(s: State, e: Event)
    requires s.closed && s.pending.None?
    ensures Step(s, e) == s
  {
  }

  /** Exactly when a closed, quiescent object has released everything: m is the event that brought
      it to rest, a close of the idle object or the reply to its last request. */
  lemma {:induction false} ReleaseIsExact(events: seq<Event>) returns (m: nat)
    requires Run(events).closed && Run(events).pending.None?
    ensures m < |events| && Run(events) == Run(events[..m + 1])
    ensures if events[m].Close? then !Run(events[..m]).closed && Run(events[..m]).pending.None?
            else events[m].Reply? && Run(events[..m]).closed && Run(events[..m]).pending.Some?
    ensures AllReleased(Run(events)) <==> Settled(Run(events[..m]), events[m])
    decreases |events|
  {
    var last := |events| - 1;
    var before, e := Run(events[..last]), events[last];
    assert events[..last + 1] == events;
    if before.closed && before.pending.None? {
      RestIsFinal(before, e);
      m := ReleaseIsExact(events[..last]);
      assert events[..last][..m + 1] == events[..m + 1] && events[..last][..m] == events[..m];
    } else {
      m := last;
      EveryRunKeeps(events[..last]);
      if e.Close? {
        CloseReleasesExactly(events[..last], e.w);
      } else if before.pending.value.requested != 0 {
        LateReplyReleasesExactly(events[..last], e.ok, e.w);
      } else {
        FinishedReleases(before, e.ok);
      }
    }
  }

  /** A refused release is not tried again after close: the window outlives the extension until
      the helper's own deadline. */
  lemma RefusedReleaseIsFinal(window: int, name: Name)
    requires window != 0
    ensures
      var w := World(Some(window), true);
      var s := Run([OwnerChanged(Some(name), w), Reply(true, w), Close(w.(dispatches := false))]);
      && s.closed && s.pending.None? && |s.log| == 3 && Reaches(s, 0) && !Released(s, 0)
      && forall e: Event :: Step(s, e) == s
  {
    var w := World(Some(window), true);
    var e0, e1, e2 := OwnerChanged(Some(name), w), Reply(true, w), Close(w.(dispatches := false));
    assert [e0][..0] == [] && [e0, e1][..1] == [e0] && [e0, e1, e2][..2] == [e0, e1];
    assert Run([e0]) == Step(INITIAL, e0);
    assert Run([e0, e1]) == Step(Run([e0]), e1);
    assert Run([e0, e1, e2]) == Step(Run([e0, e1]), e2);
  }

  // ---------------------------------------------------------------------------
  // The object
  // ---------------------------------------------------------------------------

  /** `pending` holds what the callback of the call in flight captured. */
  class Suppression {
    var desired: int
    var sent: Option<int>
    var pending: Option<Call>
    var closed: bool
    var owner: Option<Name>
    var generation: nat
    ghost var log: seq<Entry>

    ghost function Now(): State
      reads this
    {
      State(desired, sent, pending, closed, owner, generation, log)
    }

    constructor ()
      ensures Now() == INITIAL
    {
      desired, sent, pending, closed, owner, generation := 0, Some(0), None, false, None, 0;
      log := [];
    }

    method FlushRequest(w: World)
      modifies this
      ensures Now() == Flush(old(Now()), w)
    {
      if pending.Some? || sent == Some(desired) {
        return;
      }
      log := log + [Asked(desired, generation, owner, !w.dispatches)];
      if w.dispatches {
        pending := Some(Call(desired, generation));
      } else {
        sent := None;
      }
    }

    method UpdateWindow(w: World)
      modifies this
      ensures Now() == DoUpdate(old(Now()), w)
    {
      if closed {
        return;
      }
      match w.window {
        case Some(window) => desired := window;
        case None => desired := 0;
      }
      FlushRequest(w);
    }

    method ChangeOwner(name: Option<Name>, w: World)
      modifies this
      ensures Now() == DoOwnerChanged(old(Now()), name, w)
    {
      if closed || owner == name {
        return;
      }
      owner := name;
      generation := generation + 1;
      sent := if owner.None? then Some(0) else None;
      UpdateWindow(w);
    }

    method Finish(ok: bool, w: World)
      modifies this
      ensures Now() == DoReply(old(Now()), ok, w)
    {
      if pending.None? {
        return;
      }
      var call := pending.value;
      pending := None;
      log := log + [Answered(call.requested, call.generation, generation, ok)];
      if call.generation == generation {
        sent := if ok then Some(call.requested) else None;
      }
      if closed {
        if call.requested != 0 {
          sent := None;
          FlushRequest(w);
        }
      } else if call.generation != generation || desired != call.requested {
        UpdateWindow(w);
      }
    }

    method CloseLease(w: World)
      modifies this
      ensures Now() == DoClose(old(Now()), w)
    {
      if closed {
        return;
      }
      closed := true;
      desired := 0;
      FlushRequest(w);
    }
  }
}
