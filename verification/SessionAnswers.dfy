/** When exactly the unlock recovery of child/sessionUnlock.js holds a request, checks it and
    deactivates the shield, in terms of the events and what their handlers read. */
module SessionAnswers {
  import opened Common
  import opened SessionUnlock

  ghost predicate ClosedBefore(events: seq<Event>, k: nat)
    requires k <= |events|
  {
    exists i: nat | i < k :: events[i].Close?
  }

  /** The request of Unlock j waits for its dispatch before event k. */
  predicate Waiting(events: seq<Event>, k: nat, j: nat)
    requires k <= |events|
  {
    var s := At(events, k);
    s.request.Some? && s.request.value.id == j && !s.request.value.dispatched
  }

  lemma {:induction false} ClosedIsClosed(events: seq<Event>, k: nat)
    requires k <= |events|
    ensures At(events, k).closed <==> ClosedBefore(events, k)
  {
    if k > 0 {
      ClosedIsClosed(events, k - 1);
      assert events[k - 1].Close? ==> ClosedBefore(events, k);
    }
  }

  lemma ArmsExactly(events: seq<Event>, j: nat)
    requires j < |events| && (At(events, j).request.Some? ==> At(events, j).request.value.id < j)
    ensures Waiting(events, j + 1, j) <==> !At(events, j).closed && Arms(events, j)
  {
  }

  lemma DispatchStep(s: Recovery, e: Event, tick: nat)
    requires s.request.Some? && !s.request.value.dispatched && s.request.value.id < tick
    requires Step(s, e, tick).request.Some? && Step(s, e, tick).request.value.id == s.request.value.id
    ensures Step(s, e, tick).request.value.dispatched <==> !s.frame.Deactivating? && Step(s, e, tick).frame.Deactivating?
  {
  }

  lemma WaitingStep(events: seq<Event>, i: nat, j: nat)
    requires j < i < |events| && Waiting(events, i, j)
    requires At(events, i + 1).request.Some? && At(events, i + 1).request.value.id == j
    ensures Waiting(events, i + 1, j) <==> !Deactivates(events, i, j)
  {
    DispatchStep(At(events, i), events[i], i);
  }

  /** Armed and neither withdrawn nor answered since. */
  ghost predicate Unanswered(events: seq<Event>, k: nat, j: nat)
    requires k <= |events|
  {
    && j < k && Arms(events, j) && !ClosedBefore(events, j)
    && Undisturbed(events, j, k)
    && forall i: nat | j < i < k :: !Deactivates(events, i, j)
  }

  lemma WaitingMeans(events: seq<Event>, k: nat, j: nat)
    requires k <= |events| && Waiting(events, k, j)
    ensures Unanswered(events, k, j)
  {
    EveryStateExplained(events, k);
    ClosedIsClosed(events, k);
    assert forall i: nat | i < j && i < k :: events[i].Close? ==> ClosedBefore(events, k);
  }

  lemma WaitingGoesOn(events: seq<Event>, k: nat, j: nat)
    requires j + 1 < k <= |events| && Waiting(events, k - 1, j) && Unanswered(events, k, j)
    ensures Waiting(events, k, j)
  {
    assert !Withdraws(events, j, k - 1) && !Deactivates(events, k - 1, j);
    WithdrawalIsExact(events, j, k - 1);
    WaitingStep(events, k - 1, j);
  }

  lemma {:induction false} WaitingFollows(events: seq<Event>, k: nat, j: nat)
    requires k <= |events| && Unanswered(events, k, j)
    ensures Waiting(events, k, j)
    decreases k
  {
    if k == j + 1 {
      EveryStateExplained(events, j);
      ClosedIsClosed(events, j);
      ArmsExactly(events, j);
    } else {
      WaitingFollows(events, k - 1, j);
      WaitingGoesOn(events, k, j);
    }
  }

  /** In every run a request waits exactly since a trusted Unlock of a native limit lock that
      nothing withdrew since, and until it is answered. */
  lemma WaitingIsExact(events: seq<Event>, k: nat, j: nat)
    requires k <= |events|
    ensures Waiting(events, k, j) <==> Unanswered(events, k, j)
  {
    if Waiting(events, k, j) {
      WaitingMeans(events, k, j);
    }
    if Unanswered(events, k, j) {
      WaitingFollows(events, k, j);
    }
  }

  /** A dispatch check is due: since the last one a notification was judged, or the Unlock came. */
  predicate CheckDue(events: seq<Event>, k: nat)
    requires k <= |events|
  {
    k > 0 &&
    if events[k - 1].IdleFires? && At(events, k - 1).frame.NoFrame? then false
    else
      || Judged(events, k - 1).Some? || Arms(events, k - 1)
      || CheckDue(events, k - 1)
  }

  /** Whether a waiting request has its check scheduled after one more event. */
  lemma IdleStep(s: Recovery, e: Event, tick: nat)
    requires !s.closed && Step(s, e, tick).request.Some? && !Step(s, e, tick).request.value.dispatched
    ensures Step(s, e, tick).idle <==>
            if e.IdleFires? && s.frame.NoFrame? then false
            else
              || e.Notified? || (e.Returned? && !s.frame.NoFrame?)
              || (e.UnlockSignal? && FromOwner(e.sender, e.w.owner)) || s.idle
  {
  }

  lemma DueStep(events: seq<Event>, k: nat, j: nat)
    requires k < |events| && Waiting(events, k + 1, j) && RequestExplained(events, k)
    ensures At(events, k + 1).idle <==>
            if events[k].IdleFires? && At(events, k).frame.NoFrame? then false
            else Judged(events, k).Some? || Arms(events, k) || At(events, k).idle
  {
    IdleStep(At(events, k), events[k], k);
  }

  lemma WaitingBefore(events: seq<Event>, k: nat, j: nat)
    requires k < |events| && Waiting(events, k + 1, j) && RequestExplained(events, k)
    ensures Waiting(events, k, j) || Arms(events, k)
  {
  }

  lemma {:induction false} DueIsArmed(events: seq<Event>, k: nat, j: nat)
    requires k <= |events| && Waiting(events, k, j)
    ensures At(events, k).idle <==> CheckDue(events, k)
    decreases k
  {
    if k > 0 {
      EveryStateExplained(events, k - 1);
      DueStep(events, k - 1, j);
      WaitingBefore(events, k - 1, j);
      if Waiting(events, k - 1, j) {
        DueIsArmed(events, k - 1, j);
      }
    }
  }

  /** In every run the lifetime runs exactly while a request is held, and no check is due without one. */
  lemma {:induction false} SourcesAreHeld(events: seq<Event>, k: nat)
    requires k <= |events|
    ensures At(events, k).timeout <==> At(events, k).request.Some?
    ensures At(events, k).idle ==> At(events, k).request.Some?
  {
    if k > 0 {
      SourcesAreHeld(events, k - 1);
    }
  }

  /** Event c begins the dispatch of Unlock j. */
  predicate Begins(events: seq<Event>, c: nat, j: nat)
    requires c < |events|
  {
    At(events, c).frame.NoFrame? && At(events, c + 1).frame == Recording(j)
  }

  lemma BeginsStep(events: seq<Event>, c: nat, j: nat)
    requires c < |events| && RequestExplained(events, c)
    ensures Begins(events, c, j) <==>
              && At(events, c).frame.NoFrame? && At(events, c).idle && Waiting(events, c, j)
              && j < c && events[j].UnlockSignal? && Approves(events, j, c)
  {
  }

  /** A dispatch begins exactly when a due check finds a waiting request young, its owner still
      there and everything granted. */
  lemma BeginsExactly(events: seq<Event>, c: nat, j: nat)
    requires c < |events|
    ensures Begins(events, c, j) <==>
              && At(events, c).frame.NoFrame? && CheckDue(events, c) && Waiting(events, c, j)
              && j < c && events[j].UnlockSignal? && Approves(events, j, c)
  {
    EveryStateExplained(events, c);
    BeginsStep(events, c, j);
    if Waiting(events, c, j) {
      DueIsArmed(events, c, j);
    }
  }

  /** The shield is deactivated exactly when the retry record of a begun dispatch returns in the
      same turn to a request that is still waiting. */
  lemma DeactivatesExactly(events: seq<Event>, k: nat, j: nat)
    requires k < |events|
    ensures Deactivates(events, k, j) <==>
              && events[k].Returned? && Waiting(events, k, j)
              && exists c: nat | c < k :: Begins(events, c, j) && SameTurn(events, j, c, k)
  {
    EveryStateExplained(events, k);
    if Deactivates(events, k, j) {
      DeactivationIsAuthorised(events, k, j);
      var c: nat := BeginOf(events, k, j);
    }
    if events[k].Returned? && Waiting(events, k, j) {
      if c: nat :| c < k && Begins(events, c, j) && SameTurn(events, j, c, k) {
        assert At(events, k).frame == Recording(j);
        ClosedIsClosed(events, k);
      }
    }
  }

  lemma {:induction false} BeginOf(events: seq<Event>, k: nat, j: nat) returns (c: nat)
    requires k <= |events| && At(events, k).frame == Recording(j)
    ensures c < k && Begins(events, c, j) && SameTurn(events, j, c, k)
    decreases k
  {
    if At(events, k - 1).frame == Recording(j) {
      c := BeginOf(events, k - 1, j);
    } else {
      c := k - 1;
    }
  }

  /** The suspended activation, told by what began it: a dispatch begins it, its retry record returns
      into the deactivation or ends it, and the next return or exception ends it. */
  lemma FramesAreExact(events: seq<Event>, k: nat)
    requires k < |events|
    ensures
      var f, f' := At(events, k).frame, At(events, k + 1).frame;
      if exists j: nat :: Begins(events, k, j) then f.NoFrame? && f'.Recording?
      else if exists j: nat :: Deactivates(events, k, j) then f.Recording? && f'.Deactivating?
      else if events[k].Returned? || events[k].ContinueThrew? then f'.NoFrame?
      else f' == f
  {
    EveryStateExplained(events, k);
    var s := At(events, k);
    if s.request.Some? && !At(events, k + 1).frame.NoFrame? && At(events, k + 1).frame != s.frame {
      assert Deactivates(events, k, s.request.value.id) || Begins(events, k, s.request.value.id);
    }
  }
}
