/** The migration performed in place: each method does its durable writes in the source's
    order, stops at the first refused check or lost write, and is proved to reach the disk
    its specification function reaches, for every amount of remaining power. */
module MigrationInPlace {
  import opened Common
  import opened CrashSteps
  import opened LifecycleMigration

  class Migration {
    var account: bool
    var state: Option<Saved>
    var disabled: bool
    var expiry: Option<ExpiryRecord>
    var live: Days
    var pam: PerService<Option<string>>
    var policyLoaded: bool
    var power: Power

    constructor (disk: Disk, power: Power)
      ensures Now() == Machine(disk, power)
    {
      account, state, disabled, expiry := disk.account, disk.state, disk.disabled, disk.expiry;
      live, pam, policyLoaded := disk.live, disk.pam, disk.policyLoaded;
      this.power := power;
    }

    function Now(): Machine
      reads this
    {
      Machine(Disk(account, state, disabled, expiry, live, pam, policyLoaded), power)
    }

    method SaveState(value: Option<Saved>) returns (o: Outcome<Reason>)
      modifies this`power, this`state
      ensures Reached(Now(), o) == Write(old(Now()), old(Now()).disk.(state := value))
    {
      o := Done;
      power :- Spend(power);
      state := value;
    }

    method SaveDisabled(value: bool) returns (o: Outcome<Reason>)
      modifies this`power, this`disabled
      ensures Reached(Now(), o) == Write(old(Now()), old(Now()).disk.(disabled := value))
    {
      o := Done;
      power :- Spend(power);
      disabled := value;
    }

    method SaveExpiry(value: Option<ExpiryRecord>) returns (o: Outcome<Reason>)
      modifies this`power, this`expiry
      ensures Reached(Now(), o) == Write(old(Now()), old(Now()).disk.(expiry := value))
    {
      o := Done;
      power :- Spend(power);
      expiry := value;
    }

    method SetExpiry(value: Days) returns (o: Outcome<Reason>)
      modifies this`power, this`live
      ensures Reached(Now(), o) == Write(old(Now()), old(Now()).disk.(live := value))
    {
      o := Done;
      power :- Spend(power);
      live := value;
    }

    method WritePam(s: Service, text: Option<string>) returns (o: Outcome<Reason>)
      modifies this`power, this`pam
      ensures Reached(Now(), o) == Write(old(Now()), old(Now()).disk.(pam := old(pam).Put(s, text)))
    {
      o := Done;
      power :- Spend(power);
      pam := pam.Put(s, text);
    }

    method SwitchPolicy(loaded: bool) returns (o: Outcome<Reason>)
      modifies this`power, this`policyLoaded
      ensures Reached(Now(), o) == Write(old(Now()), old(Now()).disk.(policyLoaded := loaded))
    {
      o := Done;
      power :- Spend(power);
      policyLoaded := loaded;
    }

    method DoQuarantine() returns (o: Outcome<Reason>)
      modifies this
      ensures Reached(Now(), o) == Quarantine(old(Now()))
    {
      o := Done;
      :- Require(account, AccountMissing);
      var actual := live;
      var record := ExpiryRecord(actual, Quarantined);
      if expiry.Some? {
        record := expiry.value;
        :- Require(actual == CLOSED || actual == record.expires, ChangedExpiry);
      }
      record := record.(phase := Quarantined);
      :- SaveExpiry(Some(record));
      if actual != CLOSED {
        :- SetExpiry(CLOSED);
      }
    }

    method DoBar(saved: Saved, e: Env) returns (o: Outcome<Reason>)
      modifies this
      ensures Reached(Now(), o) == Bar(old(Now()), saved, e)
    {
      o := Done;
      :- SaveState(Some(saved));
      :- SaveDisabled(true);
      ghost var barred := Now();
      for i := 0 to |e.order|
        invariant WriteDenials(barred, saved, e.order) == WriteDenials(Now(), saved, e.order[i..])
      {
        :- WritePam(e.order[i], Some(DENIAL + saved.pam.Get(e.order[i]).Original()));
      }
      :- Require(e.material, PolicyMaterial);
      if policyLoaded {
        :- SwitchPolicy(false);
      }
    }

    method DoPrepare(e: Env) returns (o: Outcome<Reason>)
      modifies this
      ensures Reached(Now(), o) == Prepare(old(Now()), e)
    {
      var explained := state.Some? || !disabled;
      :- Require(account, AccountMissing);
      :- Require(explained, UnownedMarker);
      if state.None? {
        :- Require(Idle(None, e), NotIdle);
        o := DoQuarantine();
        return;
      }
      var saved := state.value;
      :- Require(OwnIdentity(saved, e), ChangedIdentity);
      :- Require(VerifyPam(saved, pam), ModifiedPam);
      :- Require(e.material, PolicyMaterial);
      if !saved.admission {
        saved := saved.(admission := true, prelease := Some(e.boot));
        :- SaveState(Some(saved));
      }
      :- Require(Idle(Some(saved), e), NotIdle);
      :- DoQuarantine();
      saved := saved.(kioskUid := Some(e.identity), removing := true);
      o := DoBar(saved, e);
    }

    method DoRestoreLocked(saved: Saved, e: Env) returns (o: Outcome<Reason>)
      modifies this
      ensures Reached(Now(), o) == RestoreLocked(old(Now()), saved, e)
    {
      o := Done;
      :- Require(VerifyPam(saved, pam), ModifiedPam);
      :- Require(saved.removing, NotPrepared);
      for i := 0 to |e.order|
        invariant WriteBefore(old(Now()), saved, e.order) == WriteBefore(Now(), saved, e.order[i..])
      {
        :- WritePam(e.order[i], saved.pam.Get(e.order[i]).Before());
      }
    }

    method DoRestoreOriginalPam(e: Env) returns (o: Outcome<Reason>)
      modifies this
      ensures Reached(Now(), o) == RestoreOriginalPam(old(Now()), e)
    {
      o := Done;
      :- Require(IsQuarantined(Now().disk), QuarantineRequired);
      :- Require(state.Some? || !disabled, UnownedMarker);
      if state.Some? {
        var saved := state.value;
        :- Require(saved.kioskUid == Some(e.identity), ChangedIdentity);
        :- Require(Idle(Some(saved), e), NotIdle);
        :- DoRestoreLocked(saved, e);
      }
    }

    method DoEraseMarkers() returns (o: Outcome<Reason>)
      modifies this
      ensures Reached(Now(), o) == EraseMarkers(old(Now()))
    {
      if disabled {
        :- SaveDisabled(false);
      }
      if state.Some? {
        :- SaveState(None);
      }
      o := Done;
    }

    method DoCommit(e: Env) returns (o: Outcome<Reason>)
      modifies this
      ensures Reached(Now(), o) == Commit(old(Now()), e)
    {
      var closed := IsQuarantined(Now().disk);
      :- Require(closed, QuarantineRequired);
      if state.Some? {
        var saved := state.value;
        :- Require(saved.kioskUid == Some(e.identity) && saved.removing, NotPrepared);
        :- Require(VerifyOriginals(saved, pam), ModifiedPam);
        :- Require(Idle(Some(saved), e), NotIdle);
      }
      :- Require(e.ready && e.visible, NotReady);
      o := DoEraseMarkers();
    }

    method DoReopen(record: ExpiryRecord) returns (o: Outcome<Reason>)
      modifies this
      ensures Reached(Now(), o) == Reopen(old(Now()), record)
    {
      var actual := live;
      :- SaveExpiry(Some(record.(phase := Releasing)));
      if actual != record.expires {
        :- SetExpiry(record.expires);
      }
      o := SaveExpiry(None);
    }

    method DoReleaseAccount() returns (o: Outcome<Reason>)
      modifies this
      ensures Reached(Now(), o) == ReleaseAccount(old(Now()))
    {
      o := Done;
      :- Require(account, AccountMissing);
      :- Require(state.None? && !disabled, NotCommitted);
      if expiry.Some? {
        var record := expiry.value;
        :- Require(live == CLOSED || (record.phase == Releasing && live == record.expires), ChangedExpiry);
        :- DoReopen(record);
      }
    }

    method DoReinstate(saved: Saved, e: Env) returns (o: Outcome<Reason>)
      modifies this
      ensures Reached(Now(), o) == Reinstate(old(Now()), saved, e)
    {
      o := Done;
      :- Require(e.material, PolicyMaterial);
      :- SwitchPolicy(true);
      ghost var loaded := Now();
      for i := 0 to |e.order|
        invariant WriteAfter(loaded, saved, e.order) == WriteAfter(Now(), saved, e.order[i..])
      {
        :- WritePam(e.order[i], Some(saved.pam.Get(e.order[i]).after));
      }
      :- SaveState(Some(saved.(previous := PerService(None, None), removing := false)));
      if disabled {
        :- SaveDisabled(false);
      }
    }

    method DoRollback(e: Env, release: bool) returns (o: Outcome<Reason>)
      modifies this
      ensures Reached(Now(), o) == Rollback(old(Now()), e, release)
    {
      o := Done;
      :- Require(account, AccountMissing);
      :- Require(state.Some? || !disabled, UnownedMarker);
      if state.Some? {
        var saved := state.value;
        :- Require(OwnIdentity(saved, e), ChangedIdentity);
        :- Require(VerifyPam(saved, pam), ModifiedPam);
        :- Require(Idle(Some(saved), e), NotIdle);
        :- DoQuarantine();
        if !release {
          o := DoBar(saved.(removing := true), e);
          return;
        }
        :- DoReinstate(saved, e);
      }
      if !release {
        o := DoQuarantine();
        return;
      }
      if expiry.Some? {
        var record := expiry.value;
        :- Require(live == CLOSED || live == record.expires, ChangedExpiry);
        :- DoReopen(record);
      }
    }

    method DoFinishRemove(e: Env) returns (o: Outcome<Reason>)
      modifies this
      ensures Reached(Now(), o) == FinishRemove(old(Now()), e)
    {
      if state.None? && expiry.None? && !disabled {
        return Done;
      }
      :- Require(!account, AccountPresent);
      if state.Some? {
        var saved := state.value;
        :- Require(OwnIdentity(saved, e), ChangedIdentity);
        :- Require(Idle(Some(saved), e), NotIdle);
        :- DoRestoreLocked(saved, e);
      } else {
        :- Require(!disabled, UnownedMarker);
      }
      :- DoEraseMarkers();
      if expiry.Some? {
        :- SaveExpiry(None);
      }
      o := Done;
    }

    /** A whole configuration, from any disk left behind by earlier cut attempts. */
    method Configure(ghost g: Disk, ghost attempts: seq<Attempt>, e: Env) returns (o: Outcome<Reason>)
      requires Genesis(g, e.identity) && Lawful(attempts, e.identity) && e.Valid() && e.Accepts()
      requires Now() == Machine(Run(g, attempts), Steady) && account
      modifies this
      ensures o.Done? <==> old(state).None?
                           || (old(state).value.admission && old(state).value.prelease != Some(e.boot))
      ensures o.Done? ==> state.None? && !disabled && expiry.None? && live == g.live
      ensures o.Done? ==> pam == if g.state.Some? then Befores(g.state.value) else g.pam
      ensures Inv(g, Now().disk, e.identity)
    {
      EveryCrashStateIsSafe(g, attempts, e.identity);
      ConfigureFrom(g, Now(), e);
      :- DoPrepare(e);
      :- DoRestoreOriginalPam(e);
      :- DoCommit(e);
      o := DoReleaseAccount();
    }
  }
}
