/** The suppression lease told without the object's fields: what is wanted, owned and leased is
    read off the events and the calls already made, and every call follows from that. */
module WellbeingHistory {
  import opened Common
  import opened WellbeingSuppression

  function Value(w: World): int {
    if w.window.Some? then w.window.value else 0
  }

  predicate InFlight(log: seq<Entry>) {
    log != [] && log[|log| - 1].Asked? && !log[|log| - 1].thrown
  }

  predicate Closed(events: seq<Event>) {
    exists i | 0 <= i < |events| :: events[i].Close?
  }

  /** The owner the bus reported last before close. */
  function Owner(events: seq<Event>): Option<Name> {
    if events == [] then None
    else
      var before, e := events[..|events| - 1], events[|events| - 1];
      if e.OwnerChanged? && !Closed(before) then e.owner else Owner(before)
  }

  /** How often it changed. */
  function Changes(events: seq<Event>): nat {
    if events == [] then 0
    else
      var before, e := events[..|events| - 1], events[|events| - 1];
      Changes(before) + if e.OwnerChanged? && !Closed(before) && e.owner != Owner(before) then 1 else 0
  }

  /** What the current helper process holds as far as the answers tell: its last acknowledgement,
      nothing known after a failure or at a new process, and nothing at all without a process. */
  function Lease(log: seq<Entry>, changes: nat, owner: Option<Name>): Option<int> {
    if log == [] then if owner.None? then Some(0) else None
    else
      var e := log[|log| - 1];
      if !Settles(e, changes) then Lease(log[..|log| - 1], changes, owner)
      else if e.Answered? && e.ok then Some(e.value) else None
  }

  /** The event makes the open object compute its window: every update, every change of owner, and a
      reply to a call that went to another process or asked for another window. */
  predicate Computes(before: seq<Event>, e: Event)
    decreases |before|, 2
  {
    !Closed(before) &&
    match e
    case Update(_) => true
    case OwnerChanged(owner, _) => owner != Owner(before)
    case Reply(_, _) =>
      var log := Calls(before);
      InFlight(log) && (log[|log| - 1].value != Window(before) || log[|log| - 1].generation != Changes(before))
    case Close(_) => false
  }

  /** The window computed last; none is wanted before the first one, after a failed one, and
      after close. */
  function Window(events: seq<Event>): int
    decreases |events|, 0
  {
    if events == [] then 0
    else
      var before, e := events[..|events| - 1], events[|events| - 1];
      if e.Close? then 0 else if Computes(before, e) then Value(e.w) else Window(before)
  }

  /** The log before the event may ask for anything: a reply answers the call in flight. */
  function Heard(log: seq<Entry>, e: Event, changes: nat): seq<Entry> {
    if e.Reply? && InFlight(log) then
      log + [Answered(log[|log| - 1].value, log[|log| - 1].generation, changes, e.ok)]
    else log
  }

  /** A reply after close to a call for a window: its release is due whatever the answer was. */
  predicate LateReply(before: seq<Event>, log: seq<Entry>, e: Event) {
    Closed(before) && e.Reply? && InFlight(log) && log[|log| - 1].value != 0
  }

  /** The calls that ought to be made, and their answers. */
  function Calls(events: seq<Event>): seq<Entry>
    decreases |events|, 1
  {
    if events == [] then []
    else
      var before, e := events[..|events| - 1], events[|events| - 1];
      var log := Calls(before);
      var heard := Heard(log, e, Changes(before));
      var due :=
        || LateReply(before, log, e)
        || ((Computes(before, e) || (e.Close? && !Closed(before)))
            && !InFlight(heard)
            && Lease(heard, Changes(events), Owner(events)) != Some(Window(events)));
      if due then heard + [Asked(Window(events), Changes(events), Owner(events), !e.w.dispatches)] else heard
  }

  // ---------------------------------------------------------------------------
  // The object does exactly this
  // ---------------------------------------------------------------------------

  /** The fields fit the log and each other. */
  predicate Fits(s: State) {
    && (s.pending.Some? <==> InFlight(s.log))
    && (s.pending.Some? ==> s.pending.value == Call(s.log[|s.log| - 1].value, s.log[|s.log| - 1].generation))
    && (!s.closed ==> s.sent == Lease(s.log, s.generation, s.owner))
    && (forall i | 0 <= i < |s.log| :: s.log[i].generation <= s.generation)
    && (s.closed ==> s.desired == 0)
  }

  predicate Agrees(events: seq<Event>, s: State) {
    && Fits(s)
    && s.log == Calls(events) && (s.closed <==> Closed(events)) && s.desired == Window(events)
    && s.owner == Owner(events) && s.generation == Changes(events)
  }

  lemma LeaseOfNewProcess(log: seq<Entry>, changes: nat, owner: Option<Name>)
    requires forall i | 0 <= i < |log| :: log[i].generation < changes
    ensures Lease(log, changes, owner) == if owner.None? then Some(0) else None
  {
    if log != [] {
      LeaseOfNewProcess(log[..|log| - 1], changes, owner);
    }
  }

  lemma LeaseAppend(log: seq<Entry>, e: Entry, changes: nat, owner: Option<Name>)
    ensures Lease(log + [e], changes, owner) ==
            if !Settles(e, changes) then Lease(log, changes, owner)
            else if e.Answered? && e.ok then Some(e.value) else None
  {
    assert (log + [e])[..|log + [e]| - 1] == log;
  }

  lemma ClosedStep(before: seq<Event>, e: Event)
    ensures Closed(before + [e]) <==> Closed(before) || e.Close?
  {
    assert (before + [e])[|before|] == e;
    if Closed(before) {
      var i :| 0 <= i < |before| && before[i].Close?;
      assert (before + [e])[i].Close?;
    }
  }

  /** What one event ought to add, in terms of what the histories say before and after it. */
  function Added(log: seq<Entry>, e: Event, computes: bool, closed: bool, changes: nat,
                 window: int, changes': nat, owner': Option<Name>): seq<Entry> {
    var heard := Heard(log, e, changes);
    var late := closed && e.Reply? && InFlight(log) && log[|log| - 1].value != 0;
    var due := late || ((computes || (e.Close? && !closed))
                        && !InFlight(heard) && Lease(heard, changes', owner') != Some(window));
    if due then heard + [Asked(window, changes', owner', !e.w.dispatches)] else heard
  }

  lemma CallsStep(before: seq<Event>, e: Event)
    ensures
      var events := before + [e];
      && Calls(events) == Added(Calls(before), e, Computes(before, e), Closed(before), Changes(before),
                                Window(events), Changes(events), Owner(events))
      && Window(events) == (if e.Close? then 0 else if Computes(before, e) then Value(e.w) else Window(before))
      && Owner(events) == (if e.OwnerChanged? && !Closed(before) then e.owner else Owner(before))
      && Changes(events) == Changes(before) +
           if e.OwnerChanged? && !Closed(before) && e.owner != Owner(before) then 1 else 0
  {
    assert (before + [e])[..|before + [e]| - 1] == before;
  }

  lemma FlushAgrees(s: State, w: World)
    requires Fits(s)
    ensures Fits(Flush(s, w))
    ensures Flush(s, w).log ==
            if !InFlight(s.log) && s.sent != Some(s.desired)
            then s.log + [Asked(s.desired, s.generation, s.owner, !w.dispatches)] else s.log
    ensures Flush(s, w) == s.(pending := Flush(s, w).pending, sent := Flush(s, w).sent, log := Flush(s, w).log)
  {
    LeaseAppend(s.log, Asked(s.desired, s.generation, s.owner, false), s.generation, s.owner);
    LeaseAppend(s.log, Asked(s.desired, s.generation, s.owner, true), s.generation, s.owner);
  }

  lemma FinishedAgrees(s: State, ok: bool)
    requires Fits(s) && s.pending.Some?
    ensures Fits(Finished(s, ok)) && !InFlight(Finished(s, ok).log)
    ensures Finished(s, ok).log ==
            s.log + [Answered(s.log[|s.log| - 1].value, s.log[|s.log| - 1].generation, s.generation, ok)]
  {
    var q := s.pending.value;
    LeaseAppend(s.log, Answered(q.requested, q.generation, s.generation, ok), s.generation, s.owner);
  }

  lemma UpdateAgrees(s: State, w: World)
    requires Fits(s) && !s.closed
    ensures Fits(DoUpdate(s, w))
    ensures DoUpdate(s, w).log ==
            if !InFlight(s.log) && Lease(s.log, s.generation, s.owner) != Some(Value(w))
            then s.log + [Asked(Value(w), s.generation, s.owner, !w.dispatches)] else s.log
    ensures var t := DoUpdate(s, w);
            t.desired == Value(w) && !t.closed && t.owner == s.owner && t.generation == s.generation
  {
    FlushAgrees(s.(desired := Value(w)), w);
  }

  lemma OwnerAgrees(s: State, owner: Option<Name>)
    requires Fits(s) && !s.closed
    ensures Fits(WithOwner(s, owner))
  {
    LeaseOfNewProcess(s.log, s.generation + 1, owner);
  }

  lemma CloseAgrees(s: State, w: World)
    requires Fits(s) && !s.closed
    ensures Fits(DoClose(s, w))
    ensures DoClose(s, w).log ==
            if !InFlight(s.log) && Lease(s.log, s.generation, s.owner) != Some(0)
            then s.log + [Asked(0, s.generation, s.owner, !w.dispatches)] else s.log
  {
    FlushAgrees(s.(closed := true, desired := 0), w);
  }

  lemma LateAgrees(s: State, ok: bool, w: World)
    requires Fits(s) && s.closed && s.pending.Some? && s.pending.value.requested != 0
    ensures Fits(DoReply(s, ok, w))
    ensures DoReply(s, ok, w).log ==
            s.log + [Answered(s.log[|s.log| - 1].value, s.log[|s.log| - 1].generation, s.generation, ok)]
              + [Asked(0, s.generation, s.owner, !w.dispatches)]
  {
    FinishedAgrees(s, ok);
    FlushAgrees(Finished(s, ok).(sent := None), w);
  }

  lemma ReplyAgrees(before: seq<Event>, s: State, ok: bool, w: World)
    requires Agrees(before, s)
    ensures Agrees(before + [Reply(ok, w)], DoReply(s, ok, w))
  {
    CallsStep(before, Reply(ok, w));
    ClosedStep(before, Reply(ok, w));
    if s.pending.Some? {
      FinishedAgrees(s, ok);
      if s.closed && s.pending.value.requested != 0 {
        LateAgrees(s, ok, w);
      } else if Computes(before, Reply(ok, w)) {
        UpdateAgrees(Finished(s, ok), w);
      }
    }
  }

  lemma EventAgrees(before: seq<Event>, s: State, e: Event)
    requires Agrees(before, s)
    ensures Agrees(before + [e], Step(s, e))
  {
    CallsStep(before, e);
    ClosedStep(before, e);
    match e
    case Update(w) => if !s.closed { UpdateAgrees(s, w); }
    case OwnerChanged(owner, w) =>
      if !s.closed && s.owner != owner {
        OwnerAgrees(s, owner);
        UpdateAgrees(WithOwner(s, owner), w);
      }
    case Reply(ok, w) => ReplyAgrees(before, s, ok, w);
    case Close(w) => if !s.closed { CloseAgrees(s, w); }
  }

  // ---------------------------------------------------------------------------
  // Main results
  // ---------------------------------------------------------------------------

  /** In every run the calls and answers are exactly those that follow from the events: each call
      asks for the window computed last (none after close) of the process that owns the name then,
      and one is made exactly when a window is computed or released, no call is in flight and the
      lease known from the answers is another. */
  lemma {:induction false} CallsAreExact(events: seq<Event>)
    ensures Agrees(events, Run(events))
  {
    if events != [] {
      var before, e := events[..|events| - 1], events[|events| - 1];
      assert events == before + [e];
      CallsAreExact(before);
      EventAgrees(before, Run(before), e);
    }
  }

  /** Every request in the log asks for the window computed last before it, of the owner then. */
  lemma {:induction false} EveryCallAsksTheWindow(events: seq<Event>, k: nat) returns (m: nat)
    requires k < |Run(events).log| && Run(events).log[k].Asked?
    ensures m < |events| && |Run(events[..m]).log| <= k < |Run(events[..m + 1]).log|
    ensures
      var e := Run(events).log[k];
      && e == Run(events[..m + 1]).log[k]
      && e.value == Window(events[..m + 1]) && e.target == Owner(events[..m + 1])
      && e.generation == Changes(events[..m + 1])
    decreases |events|
  {
    var last := |events| - 1;
    CallsAreExact(events);
    CallsAreExact(events[..last]);
    CallsStep(events[..last], events[last]);
    assert events == events[..last] + [events[last]] && events[..last + 1] == events;
    if k < |Run(events[..last]).log| {
      m := EveryCallAsksTheWindow(events[..last], k);
      assert events[..last][..m] == events[..m] && events[..last][..m + 1] == events[..m + 1];
    } else {
      m := last;
    }
  }

  /** While open, an idle object whose last call did not fail holds a lease of exactly the window
      computed last, and the helper has acknowledged it. */
  lemma {:induction false} IdleLeaseIsTheWindow(events: seq<Event>)
    requires !Closed(events) && !InFlight(Run(events).log)
    requires Run(events).log != [] ==> !Failed(Run(events).log[|Run(events).log| - 1])
    ensures Run(events).sent == Some(Window(events)) && Acknowledged(Run(events), Window(events))
  {
    CallsAreExact(events);
    EveryRunKeeps(events);
  }
}
