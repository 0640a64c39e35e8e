/** What each operation of packaging/lifecycle_migration.py needs and achieves, on every disk
    whatsoever: written in terms of the disk and the surroundings alone, apart from the order in
    which the operations check and write. */
module LifecycleExactness {
  import opened Common
  import opened CrashSteps
  import opened LifecycleMigration

  /** The saved record was admitted, in another boot than this one. */
  predicate Lapsed(saved: Saved, e: Env) {
    saved.admission && saved.prelease != Some(e.boot)
  }

  predicate OwnOrUnclaimed(saved: Saved, e: Env) {
    saved.kioskUid.Some? ==> saved.kioskUid.value == e.identity
  }

  /** The texts of one PAM file that the saved record accounts for. */
  function Texts(saved: Saved, s: Service): set<Option<string>> {
    var record := saved.pam.Get(s);
    {record.Before(), Some(record.after)}
    + (if saved.removing then {Some(DENIAL + record.Original())} else {})
    + (if saved.previous.Get(s).Some? then {Some(saved.previous.Get(s).value.after)} else {})
  }

  predicate Explained(saved: Saved, pam: PerService<Option<string>>) {
    pam.gdm in Texts(saved, GdmPassword) && pam.user in Texts(saved, SystemdUser)
  }

  predicate ExpiryKnown(d: Disk) {
    d.expiry.Some? ==> d.live == Some(1) || d.live == d.expiry.value.expires
  }

  predicate Closed(d: Disk) {
    d.account && d.expiry.Some? && d.expiry.value.phase == Quarantined && d.live == Some(1)
  }

  /** What a caller could check before the operation. */
  predicate Permitted(op: Op, d: Disk, e: Env) {
    match op
    case OpPrepare =>
      && d.account && e.quiet && ExpiryKnown(d)
      && (match d.state
          case None => !d.disabled
          case Some(saved) =>
            e.material && OwnOrUnclaimed(saved, e) && Explained(saved, d.pam) && Lapsed(saved, e))
    case OpRestore =>
      && Closed(d)
      && (match d.state
          case None => !d.disabled
          case Some(saved) =>
            && saved.kioskUid == Some(e.identity) && saved.removing
            && Explained(saved, d.pam) && e.quiet && Lapsed(saved, e))
    case OpCommit =>
      && Closed(d) && e.ready && e.visible
      && (match d.state
          case None => true
          case Some(saved) =>
            && saved.kioskUid == Some(e.identity) && saved.removing
            && d.pam == Befores(saved) && e.quiet && Lapsed(saved, e))
    case OpRelease =>
      && d.account && d.state.None? && !d.disabled
      && (d.expiry.Some? ==>
            d.live == Some(1) || (d.expiry.value.phase == Releasing && d.live == d.expiry.value.expires))
    case OpRollback(release) =>
      && d.account && ExpiryKnown(d)
      && (match d.state
          case None => !d.disabled
          case Some(saved) =>
            && e.material && e.quiet
            && OwnOrUnclaimed(saved, e) && Explained(saved, d.pam) && Lapsed(saved, e))
    case OpFinishRemove =>
      || (d.state.None? && d.expiry.None? && !d.disabled)
      || (&& !d.account
          && (match d.state
              case None => !d.disabled
              case Some(saved) =>
                && saved.removing && e.quiet
                && OwnOrUnclaimed(saved, e) && Explained(saved, d.pam) && Lapsed(saved, e)))
  }

  function Expires(d: Disk): Days {
    if d.expiry.Some? then d.expiry.value.expires else d.live
  }

  function Shut(d: Disk): Disk {
    d.(expiry := Some(ExpiryRecord(Expires(d), Quarantined)), live := Some(1))
  }

  function Reopened(d: Disk): Disk {
    d.(expiry := None, live := Expires(d))
  }

  function BarredBy(d: Disk, saved: Saved): Disk {
    Shut(d).(state := Some(saved), disabled := true, pam := Denials(saved), policyLoaded := false)
  }

  /** The disk an uncut, permitted operation leaves. */
  function Achieved(op: Op, d: Disk, e: Env): Disk {
    match op
    case OpPrepare =>
      (match d.state
       case None => Shut(d)
       case Some(saved) => BarredBy(d, saved.(kioskUid := Some(e.identity), removing := true)))
    case OpRestore => if d.state.None? then d else d.(pam := Befores(d.state.value))
    case OpCommit => d.(state := None, disabled := false)
    case OpRelease => Reopened(d)
    case OpRollback(release) =>
      (match d.state
       case None => if release then Reopened(d) else Shut(d)
       case Some(saved) =>
         if release then
           Reopened(d).(state := Some(saved.(previous := PerService(None, None), removing := false)),
                        disabled := false, pam := Afters(saved), policyLoaded := true)
         else BarredBy(d, saved.(removing := true)))
    case OpFinishRemove =>
      var pam := if d.state.None? then d.pam else Befores(d.state.value);
      d.(state := None, disabled := false, expiry := None, pam := pam)
  }

  /** A disk on the way: every field is the old or the new one, an expiry record keeps its expiry,
      and the account may be closed meanwhile. */
  predicate Between(d: Disk, d': Disk, target: Disk) {
    && d'.account == d.account
    && d'.state in {d.state, target.state}
    && d'.disabled in {d.disabled, target.disabled}
    && d'.policyLoaded in {d.policyLoaded, target.policyLoaded}
    && d'.pam.gdm in {d.pam.gdm, target.pam.gdm} && d'.pam.user in {d.pam.user, target.pam.user}
    && (d'.expiry in {d.expiry, target.expiry} || (d'.expiry.Some? && d'.expiry.value.expires == Expires(d)))
    && d'.live in {d.live, target.live, Some(1)}
  }

  /** All that an operation which is not permitted can leave: nothing changed; the boot recorded by
      a first prepare; or, when a rollback misses its policy inputs, the account closed and barred. */
  predicate LeftByRefusal(op: Op, d: Disk, e: Env, d': Disk) {
    || d' == d
    || (&& op.OpPrepare? && d.account && d.state.Some? && !d.state.value.admission
        && d' == d.(state := Some(d.state.value.(admission := true, prelease := Some(e.boot)))))
    || (&& op.OpRollback? && d.account && d.state.Some? && !e.material && e.quiet && Lapsed(d.state.value, e)
        && Between(d, d', if op.release then Shut(d) else BarredBy(d, d.state.value.(removing := true)))
        && d'.policyLoaded == d.policyLoaded)
  }

  // ---------------------------------------------------------------------------
  // Operation by operation
  // ---------------------------------------------------------------------------

  /** One operation from one disk with one power supply does what is said above. */
  predicate Exact(op: Op, d: Disk, e: Env, power: Power) {
    var r := Perform(op, Machine(d, power), e);
    && (power.Steady? ==> (r.Go? <==> Permitted(op, d, e)) && r.m.power.Steady?)
    && (r.Go? ==> Permitted(op, d, e) && r.m.disk == Achieved(op, d, e))
    && (if Permitted(op, d, e) then Between(d, r.m.disk, Achieved(op, d, e)) && (r.Stop? ==> r.why == Crashed)
        else LeftByRefusal(op, d, e, r.m.disk))
  }

  lemma QuarantineIsExact(d: Disk, power: Power)
    requires d.account
    ensures var r := Quarantine(Machine(d, power));
            && (power.Steady? ==> (ExpiryKnown(d) ==> r.Go?) && r.m.power.Steady?)
            && (r.Go? ==> ExpiryKnown(d) && r.m.disk == Shut(d))
            && (r.Stop? ==> (r.why == Crashed || !ExpiryKnown(d)) && Between(d, r.m.disk, Shut(d))
                            && r.m.disk.disabled == d.disabled && r.m.disk.state == d.state)
            && (!ExpiryKnown(d) ==> r.Stop? && r.m.disk == d)
  {
  }

  lemma BarIsExact(d: Disk, power: Power, saved: Saved, e: Env)
    requires e.Valid()
    ensures var r := Bar(Machine(d, power), saved, e);
            var target := d.(state := Some(saved), disabled := true, pam := Denials(saved), policyLoaded := false);
            && (power.Steady? ==> (r.Go? <==> e.material) && r.m.power.Steady?)
            && (r.Go? ==> e.material && r.m.disk == target)
            && Between(d, r.m.disk, target)
            && (r.Stop? && e.material ==> r.why == Crashed)
            && (!e.material ==> r.m.disk.policyLoaded == d.policyLoaded)
            && r.m.disk.expiry == d.expiry && r.m.disk.live == d.live
            && (r.m.disk.state != Some(saved) ==> r.m.disk == d)
  {
    var w: Step := Write(Machine(d, power), d.(state := Some(saved)));
    if w.Go? {
      var w': Step := Write(w.m, w.m.disk.(disabled := true));
      if w'.Go? {
        var r := WriteDenials(w'.m, saved, e.order);
        DenialsRewrite(w'.m, saved, e.order);
        RewriteComplete(w'.m.disk, r.m.disk, e, Denials(saved), r.Go?);
      }
    }
  }

  function Closing(m: Machine, saved: Saved, e: Env): Step {
    var m :- Quarantine(m);
    Bar(m, saved, e)
  }

  lemma ClosingIsExact(d: Disk, power: Power, saved: Saved, e: Env)
    requires e.Valid() && d.account
    ensures var r := Closing(Machine(d, power), saved, e);
            && (power.Steady? ==> (r.Go? <==> ExpiryKnown(d) && e.material) && r.m.power.Steady?)
            && (r.Go? ==> ExpiryKnown(d) && e.material && r.m.disk == BarredBy(d, saved))
            && Between(d, r.m.disk, BarredBy(d, saved))
            && (r.Stop? && ExpiryKnown(d) && e.material ==> r.why == Crashed)
            && (!ExpiryKnown(d) ==> r.m.disk == d)
            && (!e.material ==> r.m.disk.policyLoaded == d.policyLoaded)
  {
    QuarantineIsExact(d, power);
    var q := Quarantine(Machine(d, power));
    if q.Go? {
      BarIsExact(q.m.disk, q.m.power, saved, e);
    }
  }

  /** What a record must satisfy before anything is closed. */
  predicate Admissible(d: Disk, saved: Saved, e: Env) {
    e.quiet && OwnOrUnclaimed(saved, e) && Explained(saved, d.pam) && Lapsed(saved, e)
  }

  lemma PrepareSplits(d: Disk, saved: Saved, e: Env, power: Power)
    requires d.account && d.state == Some(saved)
    ensures var r := Prepare(Machine(d, power), e);
            if Admissible(d, saved, e) && e.material then
              r == Closing(Machine(d, power), saved.(kioskUid := Some(e.identity), removing := true), e)
            else
              r.Stop? && LeftByRefusal(OpPrepare, d, e, r.m.disk) && (power.Steady? ==> r.m.power.Steady?)
  {
  }

  lemma PrepareIsExact(d: Disk, e: Env, power: Power)
    requires e.Valid()
    ensures Exact(OpPrepare, d, e, power)
  {
    if d.account {
      match d.state
      case None => QuarantineIsExact(d, power);
      case Some(saved) =>
        PrepareSplits(d, saved, e, power);
        ClosingIsExact(d, power, saved.(kioskUid := Some(e.identity), removing := true), e);
    }
  }

  lemma RestoreLockedIsExact(d: Disk, power: Power, saved: Saved, e: Env)
    requires e.Valid()
    ensures var r := RestoreLocked(Machine(d, power), saved, e);
            && (power.Steady? ==> (r.Go? <==> Explained(saved, d.pam) && saved.removing) && r.m.power.Steady?)
            && (r.Go? ==> Explained(saved, d.pam) && saved.removing && r.m.disk == d.(pam := Befores(saved)))
            && (if Explained(saved, d.pam) && saved.removing then
                  Between(d, r.m.disk, d.(pam := Befores(saved))) && (r.Stop? ==> r.why == Crashed)
                else r.m.disk == d)
            && r.m.disk == d.(pam := r.m.disk.pam)
  {
    var m := Machine(d, power);
    var r := WriteBefore(m, saved, e.order);
    BeforesRewrite(m, saved, e.order);
    RewriteComplete(d, r.m.disk, e, Befores(saved), r.Go?);
  }

  lemma RestoreIsExact(d: Disk, e: Env, power: Power)
    requires e.Valid()
    ensures Exact(OpRestore, d, e, power)
  {
    if d.state.Some? {
      RestoreLockedIsExact(d, power, d.state.value, e);
    }
  }

  lemma CommitIsExact(d: Disk, e: Env, power: Power)
    ensures Exact(OpCommit, d, e, power)
  {
  }

  lemma ReleaseIsExact(d: Disk, e: Env, power: Power)
    ensures Exact(OpRelease, d, e, power)
  {
  }

  lemma ReinstateIsExact(d: Disk, power: Power, saved: Saved, e: Env)
    requires e.Valid()
    ensures var r := Reinstate(Machine(d, power), saved, e);
            var target := d.(state := Some(saved.(previous := PerService(None, None), removing := false)),
                             disabled := false, pam := Afters(saved), policyLoaded := true);
            && (power.Steady? ==> (r.Go? <==> e.material) && r.m.power.Steady?)
            && (r.Go? ==> e.material && r.m.disk == target)
            && Between(d, r.m.disk, target)
            && (if e.material then r.Stop? ==> r.why == Crashed else r.m.disk == d)
            && r.m.disk.expiry == d.expiry && r.m.disk.live == d.live
  {
    var w: Step := Write(Machine(d, power), d.(policyLoaded := true));
    if w.Go? {
      var r := WriteAfter(w.m, saved, e.order);
      AftersRewrite(w.m, saved, e.order);
      RewriteComplete(w.m.disk, r.m.disk, e, Afters(saved), r.Go?);
    }
  }

  lemma RollbackReleaseIsExact(d: Disk, power: Power)
    requires ExpiryKnown(d)
    ensures var r := RollbackRelease(Machine(d, power));
            && (power.Steady? ==> r.Go? && r.m.power.Steady?)
            && (r.Go? ==> r.m.disk == Reopened(d))
            && (r.Stop? ==> r.why == Crashed)
            && Between(d, r.m.disk, Reopened(d)) && r.m.disk.state == d.state
  {
  }

  function Reopening(m: Machine, saved: Saved, e: Env): Step {
    var m :- Quarantine(m);
    var m :- Reinstate(m, saved, e);
    RollbackRelease(m)
  }

  function Reinstated(d: Disk, saved: Saved): Disk {
    Reopened(d).(state := Some(saved.(previous := PerService(None, None), removing := false)),
                 disabled := false, pam := Afters(saved), policyLoaded := true)
  }

  lemma ReopeningIsExact(d: Disk, power: Power, saved: Saved, e: Env)
    requires e.Valid() && d.account
    ensures var r := Reopening(Machine(d, power), saved, e);
            && (power.Steady? ==> (r.Go? <==> ExpiryKnown(d) && e.material) && r.m.power.Steady?)
            && (r.Go? ==> ExpiryKnown(d) && e.material && r.m.disk == Reinstated(d, saved))
            && Between(d, r.m.disk, Reinstated(d, saved))
            && (r.Stop? && ExpiryKnown(d) && e.material ==> r.why == Crashed)
            && (!ExpiryKnown(d) ==> r.m.disk == d)
            && (!e.material ==> Between(d, r.m.disk, Shut(d)))
  {
    QuarantineIsExact(d, power);
    var q := Quarantine(Machine(d, power));
    if q.Go? {
      ReinstateIsExact(q.m.disk, q.m.power, saved, e);
      var r := Reinstate(q.m, saved, e);
      if r.Go? {
        RollbackReleaseIsExact(r.m.disk, r.m.power);
      }
    }
  }

  lemma RollbackSplits(d: Disk, saved: Saved, e: Env, release: bool, power: Power)
    requires d.account && d.state == Some(saved)
    ensures var r := Rollback(Machine(d, power), e, release);
            if !Admissible(d, saved, e) then r.Stop? && r.m == Machine(d, power)
            else if release then r == Reopening(Machine(d, power), saved, e)
            else r == Closing(Machine(d, power), saved.(removing := true), e)
  {
  }

  lemma RollbackIsExact(d: Disk, e: Env, release: bool, power: Power)
    requires e.Valid()
    ensures Exact(OpRollback(release), d, e, power)
  {
    if !d.account {
    } else if d.state.None? {
      if release && ExpiryKnown(d) {
        RollbackReleaseIsExact(d, power);
      } else {
        QuarantineIsExact(d, power);
      }
    } else {
      RollbackSplits(d, d.state.value, e, release, power);
      if release {
        ReopeningIsExact(d, power, d.state.value, e);
      } else {
        ClosingIsExact(d, power, d.state.value.(removing := true), e);
      }
    }
  }

  function Clearing(m: Machine): Step {
    var m :- EraseMarkers(m);
    if m.disk.expiry.Some? then Write(m, m.disk.(expiry := None)) else Go(m)
  }

  lemma ClearingIsExact(d: Disk, power: Power)
    ensures var r := Clearing(Machine(d, power));
            var target := d.(state := None, disabled := false, expiry := None);
            && (power.Steady? ==> r.Go? && r.m.power.Steady?)
            && (r.Go? ==> r.m.disk == target)
            && (r.Stop? ==> r.why == Crashed)
            && Between(d, r.m.disk, target) && r.m.disk.pam == d.pam
  {
  }

  lemma FinishSplits(d: Disk, saved: Saved, e: Env, power: Power)
    requires !d.account && d.state == Some(saved)
    ensures var r := FinishRemove(Machine(d, power), e);
            var q := RestoreLocked(Machine(d, power), saved, e);
            if e.quiet && OwnOrUnclaimed(saved, e) && Lapsed(saved, e) then
              r == (if q.Stop? then q else Clearing(q.m))
            else r.Stop? && r.m == Machine(d, power)
  {
  }

  lemma FinishRemoveIsExact(d: Disk, e: Env, power: Power)
    requires e.Valid()
    ensures Exact(OpFinishRemove, d, e, power)
  {
    if !d.account {
      match d.state
      case None => ClearingIsExact(d, power);
      case Some(saved) =>
        FinishSplits(d, saved, e, power);
        RestoreLockedIsExact(d, power, saved, e);
        var q := RestoreLocked(Machine(d, power), saved, e);
        ClearingIsExact(q.m.disk, q.m.power);
    }
  }

  // ---------------------------------------------------------------------------
  // Main results
  // ---------------------------------------------------------------------------

  /** On every disk, even one edited by others: an uncut operation succeeds exactly when it is
      permitted and then leaves exactly the achieved disk; a cut one is on the way there; and one
      that is not permitted leaves nothing but a refusal's traces. */
  lemma OperationsAreExact(op: Op, d: Disk, e: Env, power: Power)
    requires e.Valid()
    ensures Exact(op, d, e, power)
  {
    match op
    case OpPrepare => PrepareIsExact(d, e, power);
    case OpRestore => RestoreIsExact(d, e, power);
    case OpCommit => CommitIsExact(d, e, power);
    case OpRelease => ReleaseIsExact(d, e, power);
    case OpRollback(release) => RollbackIsExact(d, e, release, power);
    case OpFinishRemove => FinishRemoveIsExact(d, e, power);
  }

  /** A commit may erase the record: the replacement is ready and visible, nothing of the kiosk
      runs, the removal was prepared in an earlier boot, and both PAM files are the originals. */
  predicate MayCommit(d: Disk, saved: Saved, e: Env) {
    && e.ready && e.visible && e.quiet && Closed(d)
    && saved.removing && Lapsed(saved, e) && saved.kioskUid == Some(e.identity) && d.pam == Befores(saved)
  }

  /** The finalizer may: the account is gone, nothing runs, and the removal was prepared. */
  predicate MayFinish(d: Disk, saved: Saved, e: Env) {
    && !d.account && e.quiet && saved.removing && Lapsed(saved, e) && Explained(saved, d.pam)
  }

  /** In every run, from any disk, the record is erased only by a permitted commit or finalizer,
      and every PAM file is its original by then. */
  lemma ErasureIsAuthorised(g: Disk, attempts: seq<Attempt>, i: nat, identity: nat)
    requires Lawful(attempts, identity) && i < |attempts|
    requires Run(g, attempts[..i]).state.Some? && Run(g, attempts[..i + 1]).state.None?
    ensures
      var d, saved := Run(g, attempts[..i]), Run(g, attempts[..i]).state.value;
      && attempts[i].Try?
      && ((attempts[i].op == OpCommit && MayCommit(d, saved, attempts[i].env))
          || (attempts[i].op == OpFinishRemove && MayFinish(d, saved, attempts[i].env)))
      && Run(g, attempts[..i + 1]).pam == Befores(saved)
  {
    var d, a := Run(g, attempts[..i]), attempts[i];
    assert attempts[..i + 1][..i] == attempts[..i];
    if a.Try? {
      OperationsAreExact(a.op, d, a.env, a.power);
      if a.op == OpFinishRemove {
        ErasingFinisherRestored(d, a.env, a.power);
      } else if a.op == OpCommit {
        assert Befores(d.state.value) == d.pam;
      }
    }
  }

  /** The finalizer restores before it erases. */
  lemma ErasingFinisherRestored(d: Disk, e: Env, power: Power)
    requires e.Valid() && d.state.Some? && FinishRemove(Machine(d, power), e).m.disk.state.None?
    ensures FinishRemove(Machine(d, power), e).m.disk.pam == Befores(d.state.value)
  {
    if !d.account {
      FinishSplits(d, d.state.value, e, power);
      RestoreLockedIsExact(d, power, d.state.value, e);
      var q := RestoreLocked(Machine(d, power), d.state.value, e);
      ClearingIsExact(q.m.disk, q.m.power);
    }
  }

  /** The policy goes only after it was attested and nothing of the kiosk runs. */
  lemma UnloadIsAuthorised(op: Op, d: Disk, e: Env, power: Power)
    requires e.Valid() && d.policyLoaded && !Perform(op, Machine(d, power), e).m.disk.policyLoaded
    ensures (op == OpPrepare || op == OpRollback(false)) && d.account && d.state.Some?
    ensures e.material && Admissible(d, d.state.value, e)
  {
    OperationsAreExact(op, d, e, power);
  }

  /** What decides a configuration on a disk the migration itself left behind. */
  predicate Configurable(d: Disk, e: Env) {
    && d.account && e.quiet && e.ready && e.visible
    && (d.state.Some? ==> e.material && Lapsed(d.state.value, e))
  }

  lemma PrepareIsPermitted(g: Disk, d: Disk, e: Env)
    requires e.Valid() && Inv(g, d, e.identity)
    ensures Permitted(OpPrepare, d, e) <==>
              d.account && e.quiet && (d.state.Some? ==> e.material && Lapsed(d.state.value, e))
  {
  }

  /** A prepared disk has all that the three later operations need but the replacement. */
  lemma PreparedGoesOn(d: Disk, e: Env)
    requires Permitted(OpPrepare, d, e)
    ensures
      var p := Achieved(OpPrepare, d, e);
      var q := Achieved(OpRestore, p, e);
      && Permitted(OpRestore, p, e)
      && (Permitted(OpCommit, q, e) <==> e.ready && e.visible)
      && Permitted(OpRelease, Achieved(OpCommit, q, e), e)
  {
  }

  /** Without any assumption about the surroundings: from every reachable disk a whole, uncut
      configuration succeeds exactly when every one of its observations passes. */
  lemma ConfigureIsExact(g: Disk, attempts: seq<Attempt>, e: Env)
    requires Genesis(g, e.identity) && Lawful(attempts, e.identity) && e.Valid()
    ensures Configure(Machine(Run(g, attempts), Steady), e).Go? <==> Configurable(Run(g, attempts), e)
  {
    var d := Run(g, attempts);
    EveryCrashStateIsSafe(g, attempts, e.identity);
    PrepareIsPermitted(g, d, e);
    OperationsAreExact(OpPrepare, d, e, Steady);
    if Permitted(OpPrepare, d, e) {
      var p := Achieved(OpPrepare, d, e);
      var q := Achieved(OpRestore, p, e);
      PreparedGoesOn(d, e);
      OperationsAreExact(OpRestore, p, e, Steady);
      OperationsAreExact(OpCommit, q, e, Steady);
      OperationsAreExact(OpRelease, Achieved(OpCommit, q, e), e, Steady);
      ConfigureSteps(d, e, p, q);
    }
  }

  lemma ConfigureSteps(d: Disk, e: Env, p: Disk, q: Disk)
    requires Perform(OpPrepare, Machine(d, Steady), e) == Go(Machine(p, Steady))
    requires Perform(OpRestore, Machine(p, Steady), e) == Go(Machine(q, Steady))
    ensures
      var c := Perform(OpCommit, Machine(q, Steady), e);
      Configure(Machine(d, Steady), e).Go? <==> c.Go? && Perform(OpRelease, c.m, e).Go?
  {
  }

  // ---------------------------------------------------------------------------
  // Resuming
  // ---------------------------------------------------------------------------

  /** The operation may be run again on d', and leads where it led from d. */
  predicate Resumes(op: Op, d: Disk, e: Env, d': Disk) {
    Permitted(op, d', e) && Achieved(op, d', e) == Achieved(op, d, e)
  }

  lemma ClosingResumes(op: Op, d: Disk, power: Power, saved: Saved, e: Env)
    requires e.Valid() && Permitted(op, d, e) && d.state.Some? && (op == OpPrepare || op == OpRollback(false))
    requires saved == if op == OpPrepare then d.state.value.(kioskUid := Some(e.identity), removing := true)
                      else d.state.value.(removing := true)
    ensures Resumes(op, d, e, Closing(Machine(d, power), saved, e).m.disk)
  {
    QuarantineIsExact(d, power);
    var q := Quarantine(Machine(d, power));
    if q.Go? {
      BarIsExact(q.m.disk, q.m.power, saved, e);
    }
  }

  lemma PrepareResumes(d: Disk, power: Power, e: Env)
    requires e.Valid() && Permitted(OpPrepare, d, e)
    ensures Resumes(OpPrepare, d, e, Prepare(Machine(d, power), e).m.disk)
  {
    match d.state
    case None => QuarantineIsExact(d, power);
    case Some(saved) =>
      PrepareSplits(d, saved, e, power);
      ClosingResumes(OpPrepare, d, power, saved.(kioskUid := Some(e.identity), removing := true), e);
  }

  lemma ReinstateOrder(d: Disk, power: Power, saved: Saved, e: Env)
    requires e.Valid()
    ensures var r := Reinstate(Machine(d, power), saved, e);
            && (r.m.disk.state == d.state || r.m.disk.pam == Afters(saved))
            && r.m.disk.account == d.account
  {
    var w: Step := Write(Machine(d, power), d.(policyLoaded := true));
    if w.Go? {
      var r := WriteAfter(w.m, saved, e.order);
      AftersRewrite(w.m, saved, e.order);
      RewriteComplete(w.m.disk, r.m.disk, e, Afters(saved), r.Go?);
    }
  }

  /** A disk between the closed and the reinstated one. */
  predicate Reinstating(d: Disk, saved: Saved, d': Disk) {
    var target := saved.(previous := PerService(None, None), removing := false);
    && d'.account && ExpiryKnown(d') && Expires(d') == Expires(d)
    && d'.pam.gdm in {d.pam.gdm, Some(saved.pam.gdm.after)} && d'.pam.user in {d.pam.user, Some(saved.pam.user.after)}
    && (d'.state == Some(saved) || (d'.state == Some(target) && d'.pam == Afters(saved)))
  }

  lemma ReinstatingResumes(d: Disk, saved: Saved, e: Env, d': Disk)
    requires Permitted(OpRollback(true), d, e) && d.state == Some(saved) && Reinstating(d, saved, d')
    ensures Resumes(OpRollback(true), d, e, d')
  {
  }

  lemma RollbackReleaseKeepsRest(d: Disk, power: Power)
    requires d.account && ExpiryKnown(d) && d.expiry.Some?
    ensures var d' := RollbackRelease(Machine(d, power)).m.disk;
            && d' == d.(expiry := d'.expiry, live := d'.live) && ExpiryKnown(d') && Expires(d') == Expires(d)
  {
  }

  lemma ReopeningResumes(d: Disk, power: Power, saved: Saved, e: Env)
    requires e.Valid() && Permitted(OpRollback(true), d, e) && d.state == Some(saved)
    ensures Resumes(OpRollback(true), d, e, Reopening(Machine(d, power), saved, e).m.disk)
  {
    var last := Reopening(Machine(d, power), saved, e).m.disk;
    QuarantineIsExact(d, power);
    var q := Quarantine(Machine(d, power));
    if q.Go? {
      ReinstateIsExact(q.m.disk, q.m.power, saved, e);
      ReinstateOrder(q.m.disk, q.m.power, saved, e);
      var r := Reinstate(q.m, saved, e);
      if r.Go? {
        RollbackReleaseKeepsRest(r.m.disk, r.m.power);
      }
    }
    assert Reinstating(d, saved, last);
    ReinstatingResumes(d, saved, e, last);
  }

  lemma RollbackResumes(d: Disk, power: Power, e: Env, release: bool)
    requires e.Valid() && Permitted(OpRollback(release), d, e)
    ensures Resumes(OpRollback(release), d, e, Rollback(Machine(d, power), e, release).m.disk)
  {
    match d.state
    case None =>
      if release {
        if d.expiry.Some? {
          RollbackReleaseKeepsRest(d, power);
        }
      } else {
        QuarantineIsExact(d, power);
      }
    case Some(saved) =>
      RollbackSplits(d, saved, e, release, power);
      if release {
        ReopeningResumes(d, power, saved, e);
      } else {
        ClosingResumes(OpRollback(false), d, power, saved.(removing := true), e);
      }
  }

  lemma ReleaseResumes(d: Disk, power: Power, e: Env)
    requires Permitted(OpRelease, d, e)
    ensures Resumes(OpRelease, d, e, ReleaseAccount(Machine(d, power)).m.disk)
  {
  }

  lemma CommitResumes(d: Disk, power: Power, e: Env)
    requires Permitted(OpCommit, d, e)
    ensures Resumes(OpCommit, d, e, Commit(Machine(d, power), e).m.disk)
  {
  }

  lemma RestoreResumes(d: Disk, power: Power, e: Env)
    requires e.Valid() && Permitted(OpRestore, d, e)
    ensures Resumes(OpRestore, d, e, RestoreOriginalPam(Machine(d, power), e).m.disk)
  {
    if d.state.Some? {
      RestoreLockedIsExact(d, power, d.state.value, e);
    }
  }

  lemma ClearingOrder(d: Disk, power: Power)
    ensures var d' := Clearing(Machine(d, power)).m.disk;
            && d'.account == d.account && d'.pam == d.pam
            && d' == d.(state := d'.state, disabled := d'.disabled, expiry := d'.expiry)
            && d'.state in {d.state, None} && d'.expiry in {d.expiry, None}
            && (d'.disabled ==> d'.disabled == d.disabled && d'.state == d.state && d'.expiry == d.expiry)
            && (d'.expiry != d.expiry ==> d'.state.None? && !d'.disabled)
  {
  }

  lemma FinishResumes(d: Disk, power: Power, e: Env)
    requires e.Valid() && Permitted(OpFinishRemove, d, e)
    ensures Resumes(OpFinishRemove, d, e, FinishRemove(Machine(d, power), e).m.disk)
  {
    if !d.account {
      match d.state
      case None => ClearingOrder(d, power);
      case Some(saved) =>
        FinishSplits(d, saved, e, power);
        RestoreLockedIsExact(d, power, saved, e);
        var q := RestoreLocked(Machine(d, power), saved, e);
        ClearingOrder(q.m.disk, q.m.power);
    }
  }

  lemma PerformResumes(op: Op, d: Disk, e: Env, power: Power)
    requires e.Valid() && Permitted(op, d, e)
    ensures Resumes(op, d, e, Perform(op, Machine(d, power), e).m.disk)
  {
    match op
    case OpPrepare => PrepareResumes(d, power, e);
    case OpRestore => RestoreResumes(d, power, e);
    case OpCommit => CommitResumes(d, power, e);
    case OpRelease => ReleaseResumes(d, power, e);
    case OpRollback(release) => RollbackResumes(d, power, e, release);
    case OpFinishRemove => FinishResumes(d, power, e);
  }

  /** Wherever a permitted operation is cut, it may be run again, and every later run leads to the
      same disk as one that was never cut. */
  lemma CutsCanBeResumed(op: Op, d: Disk, e: Env, power: Power)
    requires e.Valid() && Permitted(op, d, e)
    ensures
      var d' := Perform(op, Machine(d, power), e).m.disk;
      && Permitted(op, d', e)
      && Perform(op, Machine(d', Steady), e).Go?
      && Perform(op, Machine(d', Steady), e).m.disk == Achieved(op, d, e)
  {
    PerformResumes(op, d, e, power);
    OperationsAreExact(op, Perform(op, Machine(d, power), e).m.disk, e, Steady);
  }
}
