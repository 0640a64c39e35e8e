/** The retained policy journal of packaging/lifecycle_migration.py: capture_policy keeps the
    exact rollback inputs before unpack replaces them, retire_policy deletes them afterwards.
    A member's independent inode is recorded before its name is published. */
module PolicyCapture {
  import opened Common
  import opened CrashSteps

  type Digest = string
  type Inode = nat

  datatype Name = Config | Policy

  datatype Each<T> = Each(config: T, policy: T) {
    function Get(n: Name): T {
      if n.Config? then config else policy
    }

    function Put(n: Name, v: T): Each<T> {
      if n.Config? then this.(config := v) else this.(policy := v)
    }
  }

  datatype Member = Member(inode: Inode, digest: Digest)

  /** The retained directory: its own inode and the member each name refers to, if any. */
  datatype Directory = Directory(inode: Inode, members: Each<Option<Member>>)

  datatype Phase = Capturing | Ready | Retiring

  datatype Expected = Expected(digest: Digest, inode: Option<Inode>)

  datatype Receipt = Receipt(directory: Inode, phase: Phase, files: Each<Expected>)

  /** `saved`: the legacy state exists; `prepared`: it records the removal intent. */
  datatype Disk = Disk(saved: bool, prepared: bool, directory: Option<Directory>, receipt: Option<Receipt>)

  datatype Reason =
    | CaptureRetiring | ChangedDirectory | ChangedMember | PolicyInputs | UnownedContent
    | ChangedInputs | StateStillPresent | NotReady | MissingDirectory | NotPrepared

  type Machine = Powered<Disk>
  type Step = Progress<Disk, Reason>

  /** One attempt's surroundings: the package payload and the inodes the kernel hands out. */
  datatype Env = Env(attested: bool, inputs: Each<Digest>, directory: Inode, inodes: Each<Inode>)

  const NAMES: seq<Name> := [Config, Policy]

  predicate Matches(member: Option<Member>, expected: Expected, missing: bool) {
    match member
    case None => missing
    case Some(m) => Some(m.inode) == expected.inode && m.digest == expected.digest
  }

  predicate VerifyCapture(d: Disk, receipt: Receipt, missing: bool) {
    && d.directory.Some?
    && d.directory.value.inode == receipt.directory
    && Matches(d.directory.value.members.config, receipt.files.config, missing)
    && Matches(d.directory.value.members.policy, receipt.files.policy, missing)
  }

  function Fresh(e: Env): Receipt {
    Receipt(e.directory, Capturing,
            Each(Expected(e.inputs.config, None), Expected(e.inputs.policy, None)))
  }

  function WithMember(d: Disk, n: Name, member: Option<Member>): Disk
    requires d.directory.Some?
  {
    d.(directory := Some(d.directory.value.(members := d.directory.value.members.Put(n, member))))
  }

  /** Records each missing member's inode, then publishes its name. */
  function Publish(m: Machine, names: seq<Name>, e: Env): (r: Step)
    requires m.disk.directory.Some? && m.disk.receipt.Some?
    ensures r.m.disk.directory.Some? && r.m.disk.receipt.Some? && r.m.disk.prepared == m.disk.prepared
    decreases |names|
  {
    if names == [] then Go(m)
    else
      var n := names[0];
      var receipt := m.disk.receipt.value;
      var expected := receipt.files.Get(n);
      var member := m.disk.directory.value.members.Get(n);
      if e.inputs.Get(n) != expected.digest then Stop(m, Refused(ChangedInputs))
      else if !Matches(member, expected, true) then Stop(m, Refused(ChangedMember))
      else if member.Some? then Publish(m, names[1..], e)
      else
        var files := receipt.files.Put(n, expected.(inode := Some(e.inodes.Get(n))));
        var s: Step := Write(m, m.disk.(receipt := Some(receipt.(files := files))));
        if s.Stop? then s
        else
          var t: Step := Write(s.m, WithMember(s.m.disk, n, Some(Member(e.inodes.Get(n), e.inputs.Get(n)))));
          if t.Stop? then t else Publish(t.m, names[1..], e)
  }

  /** Publishes what is missing, verifies everything, and only then declares the capture ready. */
  function Complete(m: Machine, e: Env): Step
    requires m.disk.directory.Some? && m.disk.receipt.Some?
  {
    var s := Publish(m, NAMES, e);
    if s.Stop? then s
    else
      var receipt := s.m.disk.receipt.value;
      var t: Step := Check(s.m, VerifyCapture(s.m.disk, receipt, false), ChangedMember);
      if t.Stop? then t else Write(t.m, t.m.disk.(receipt := Some(receipt.(phase := Ready))))
  }

  function Capture(m: Machine, e: Env): Step {
    var receipt := m.disk.receipt;
    if !m.disk.saved then Go(m)
    else if receipt.Some? && receipt.value.phase.Ready? then
      Check(m, VerifyCapture(m.disk, receipt.value, false), ChangedMember)
    else
      var m :- Check(m, receipt.None? || receipt.value.phase.Capturing?, CaptureRetiring);
      var m :- Check(m, receipt.Some? ==> VerifyCapture(m.disk, receipt.value, true), ChangedMember);
      var m :- Check(m, e.attested, PolicyInputs);
      var s: Step := if m.disk.directory.Some? then Go(m)
                     else Write(m, m.disk.(directory := Some(Directory(e.directory, Each(None, None)))));
      if s.Stop? then s
      else if receipt.Some? then Complete(s.m, e)
      else
        var directory := s.m.disk.directory.value;
        var t: Step := Check(s.m, directory.members == Each(None, None), UnownedContent);
        if t.Stop? then t
        else
          var u: Step := Write(t.m, t.m.disk.(receipt := Some(Fresh(e).(directory := directory.inode))));
          if u.Stop? then u else Complete(u.m, e)
  }

  /** Deletes the listed members that are still there. */
  function Delete(m: Machine, names: seq<Name>): (r: Step)
    requires m.disk.directory.Some? && m.disk.receipt.Some?
    ensures r.m.disk.directory.Some? && r.m.disk.receipt == m.disk.receipt && r.m.disk.prepared == m.disk.prepared
    decreases |names|
  {
    if names == [] then Go(m)
    else
      var n := names[0];
      var member := m.disk.directory.value.members.Get(n);
      if !Matches(member, m.disk.receipt.value.files.Get(n), true) then Stop(m, Refused(ChangedMember))
      else if member.None? then Delete(m, names[1..])
      else
        var s: Step := Write(m, WithMember(m.disk, n, None));
        if s.Stop? then s else Delete(s.m, names[1..])
  }

  function Retire(m: Machine): Step {
    if m.disk.receipt.None? then Check(m, m.disk.directory.None?, UnownedContent)
    else
      var receipt := m.disk.receipt.value;
      var m :- Check(m, !m.disk.saved, StateStillPresent);
      var m :- Check(m, !receipt.phase.Capturing?, NotReady);
      if m.disk.directory.None? then
        var m :- Check(m, receipt.phase.Retiring?, MissingDirectory);
        Write(m, m.disk.(receipt := None))
      else
        var m :- Check(m, VerifyCapture(m.disk, receipt, receipt.phase.Retiring?), ChangedMember);
        var s: Step := Write(m, m.disk.(receipt := Some(receipt.(phase := Retiring))));
        if s.Stop? then s
        else
          var m :- Delete(s.m, NAMES);
          var m :- Check(m, m.disk.directory.value.inode == receipt.directory, ChangedDirectory);
          var m :- Write(m, m.disk.(directory := None));
          Write(m, m.disk.(receipt := None))
  }

  // ---------------------------------------------------------------------------
  // What the other operations have to do with the retained policy
  // ---------------------------------------------------------------------------

  /** policy_material: the retained inputs once anything is retained, else the package's own. */
  predicate Material(d: Disk, e: Env) {
    if d.directory.Some? || d.receipt.Some? then
      d.receipt.Some? && d.receipt.value.phase.Ready? && VerifyCapture(d, d.receipt.value, false)
    else e.attested
  }

  function Prepare(m: Machine, e: Env): Step {
    if !m.disk.saved then Go(m)
    else
      var m :- Check(m, Material(m.disk, e), PolicyInputs);
      Write(m, m.disk.(prepared := true))
  }

  /** A releasing rollback reloads the policy before it drops the removal intent; the other one
      records the intent before it looks at the policy. */
  function Rollback(m: Machine, e: Env, release: bool): Step {
    if !m.disk.saved then Go(m)
    else
      var m :- Check(m, release ==> Material(m.disk, e), PolicyInputs);
      Write(m, m.disk.(prepared := !release))
  }

  /** Commit and the post-erase finalizer erase only a state that was prepared. */
  function Erase(m: Machine): Step {
    if !m.disk.saved then Go(m)
    else
      var m :- Check(m, m.disk.prepared, NotPrepared);
      Write(m, m.disk.(saved := false))
  }

  // ---------------------------------------------------------------------------
  // Whole runs
  // ---------------------------------------------------------------------------

  datatype Attempt =
    | TryCapture(env: Env, power: Power)
    | TryRetire(power: Power)
    | TryPrepare(env: Env, power: Power)
    | TryRollback(env: Env, release: bool, power: Power)
    | TryErase(power: Power)

  function After(d: Disk, a: Attempt): Disk {
    match a
    case TryCapture(env, power) => Capture(Machine(d, power), env).m.disk
    case TryRetire(power) => Retire(Machine(d, power)).m.disk
    case TryPrepare(env, power) => Prepare(Machine(d, power), env).m.disk
    case TryRollback(env, release, power) => Rollback(Machine(d, power), env, release).m.disk
    case TryErase(power) => Erase(Machine(d, power)).m.disk
  }

  function Run(d: Disk, attempts: seq<Attempt>): Disk
    decreases |attempts|
  {
    if attempts == [] then d
    else After(Run(d, attempts[..|attempts| - 1]), attempts[|attempts| - 1])
  }

  const NOTHING: Disk := Disk(true, false, None, None)

  /** Every published name is exactly the recorded member; without a record nothing is published. */
  predicate Journalled(d: Disk) {
    match d.receipt
    case None => d.directory.Some? ==> d.directory.value.members == Each(None, None)
    case Some(receipt) =>
      && (d.directory.None? ==> receipt.phase.Retiring?)
      && (d.directory.Some? ==> VerifyCapture(d, receipt, !receipt.phase.Ready?))
  }

  predicate Inv(d: Disk) {
    Journalled(d) && (d.saved && d.receipt.Some? ==> !d.receipt.value.phase.Retiring?)
  }

  lemma PublishOne(m: Machine, n: Name, rest: seq<Name>, e: Env)
    requires Inv(m.disk) && m.disk.receipt.Some? && m.disk.receipt.value.phase.Capturing? && m.disk.directory.Some?
    requires m.disk.directory.value.members.Get(n).None? && e.inputs.Get(n) == m.disk.receipt.value.files.Get(n).digest
    ensures var r := Publish(m, [n] + rest, e);
            var receipt := m.disk.receipt.value;
            var files := receipt.files.Put(n, receipt.files.Get(n).(inode := Some(e.inodes.Get(n))));
            var d1 := m.disk.(receipt := Some(receipt.(files := files)));
            var d2 := WithMember(d1, n, Some(Member(e.inodes.Get(n), e.inputs.Get(n))));
            && Inv(d1) && Inv(d2)
            && (r == Stop(m, Crashed) || r == Stop(Machine(d1, Left(0)), Crashed)
                || exists p: Power :: (m.power.Steady? ==> p.Steady?) && r == Publish(Machine(d2, p), rest, e))
            && (m.power.Steady? ==> r == Publish(Machine(d2, Steady), rest, e))
  {
    assert ([n] + rest)[1..] == rest;
    var receipt := m.disk.receipt.value;
    var files := receipt.files.Put(n, receipt.files.Get(n).(inode := Some(e.inodes.Get(n))));
    var d1 := m.disk.(receipt := Some(receipt.(files := files)));
    var d2 := WithMember(d1, n, Some(Member(e.inodes.Get(n), e.inputs.Get(n))));
    var s: Step := Write(m, d1);
    if s.Go? {
      var t: Step := Write(s.m, d2);
      if t.Go? {
        assert t.m == Machine(d2, t.m.power);
      }
    }
  }

  lemma {:induction false} PublishKeeps(m: Machine, names: seq<Name>, e: Env)
    requires Inv(m.disk) && m.disk.saved
    requires m.disk.receipt.Some? && m.disk.receipt.value.phase.Capturing? && m.disk.directory.Some?
    ensures var r := Publish(m, names, e);
            && Inv(r.m.disk) && r.m.disk.saved && r.m.disk.receipt.value.phase.Capturing?
            && r.m.disk.directory.value.inode == m.disk.directory.value.inode
            && (r.Stop? && r.why.Refused? ==> r.why.reason == ChangedInputs)
            && (forall n: Name ::
                  && r.m.disk.receipt.value.files.Get(n).digest == m.disk.receipt.value.files.Get(n).digest
                  && (m.disk.directory.value.members.Get(n).Some? ==>
                        r.m.disk.directory.value.members.Get(n) == m.disk.directory.value.members.Get(n)))
            && (r.Go? ==> forall n | n in names ::
                  r.m.disk.directory.value.members.Get(n).Some?
                  && e.inputs.Get(n) == m.disk.receipt.value.files.Get(n).digest)
            && (m.power.Steady? ==>
                  && r.m.power.Steady?
                  && (r.Go? <==> forall n | n in names :: e.inputs.Get(n) == m.disk.receipt.value.files.Get(n).digest))
    decreases |names|
  {
    if names != [] {
      var n := names[0];
      assert [n] + names[1..] == names;
      if e.inputs.Get(n) == m.disk.receipt.value.files.Get(n).digest {
        if m.disk.directory.value.members.Get(n).Some? {
          PublishKeeps(m, names[1..], e);
        } else {
          PublishOne(m, n, names[1..], e);
          var receipt := m.disk.receipt.value;
          var files := receipt.files.Put(n, receipt.files.Get(n).(inode := Some(e.inodes.Get(n))));
          var d1 := m.disk.(receipt := Some(receipt.(files := files)));
          var d2 := WithMember(d1, n, Some(Member(e.inodes.Get(n), e.inputs.Get(n))));
          var s: Step := Write(m, d1);
          if s.Go? {
            var t: Step := Write(s.m, d2);
            if t.Go? {
              PublishKeeps(t.m, names[1..], e);
            }
          }
        }
      }
    }
  }

  lemma CompleteKeeps(m: Machine, e: Env)
    requires Inv(m.disk) && m.disk.saved
    requires m.disk.receipt.Some? && m.disk.receipt.value.phase.Capturing? && m.disk.directory.Some?
    ensures var r := Complete(m, e);
            && Inv(r.m.disk) && r.m.disk.saved && r.m.disk.directory.Some? && r.m.disk.receipt.Some?
            && (r.Stop? && r.why.Refused? ==> r.why.reason == ChangedInputs)
            && (forall n: Name ::
                  m.disk.directory.value.members.Get(n).Some? ==>
                    r.m.disk.directory.value.members.Get(n) == m.disk.directory.value.members.Get(n))
            && (r.Go? ==> r.m.disk.receipt.value.phase.Ready?
                          && VerifyCapture(r.m.disk, r.m.disk.receipt.value, false)
                          && forall n: Name :: r.m.disk.directory.value.members.Get(n).value.digest == e.inputs.Get(n))
            && (m.power.Steady? ==>
                  (r.Go? <==> forall n: Name :: e.inputs.Get(n) == m.disk.receipt.value.files.Get(n).digest))
  {
    PublishKeeps(m, NAMES, e);
    forall n: Name
      ensures n in NAMES
    {
      match n case Config => assert NAMES[0] == Config; case Policy => assert NAMES[1] == Policy;
    }
    var s := Publish(m, NAMES, e);
    if s.Go? {
      assert s.m.disk.directory.value.members.Get(Config).Some? && s.m.disk.directory.value.members.Get(Policy).Some?;
    }
  }

  lemma CaptureKeeps(m: Machine, e: Env)
    requires Inv(m.disk)
    ensures var r := Capture(m, e);
            && Inv(r.m.disk) && r.m.disk.saved == m.disk.saved
            && (r.Stop? && r.why.Refused? ==> r.why.reason in {PolicyInputs, ChangedInputs})
            && (r.Go? && m.disk.saved ==>
                  r.m.disk.receipt.Some? && r.m.disk.receipt.value.phase.Ready?
                  && VerifyCapture(r.m.disk, r.m.disk.receipt.value, false))
            && (m.disk.receipt.Some? && m.disk.receipt.value.phase.Ready? ==> r.m.disk == m.disk)
            && (m.power.Steady? && m.disk.saved ==>
                  (r.Go? <==>
                     || (m.disk.receipt.Some? && m.disk.receipt.value.phase.Ready?)
                     || (e.attested && (m.disk.receipt.Some? ==>
                           forall n: Name :: e.inputs.Get(n) == m.disk.receipt.value.files.Get(n).digest))))
  {
    var receipt := m.disk.receipt;
    if m.disk.saved && e.attested && (receipt.None? || receipt.value.phase.Capturing?) {
      if receipt.Some? {
        CompleteKeeps(m, e);
      } else {
        var s: Step := if m.disk.directory.Some? then Go(m)
                       else Write(m, m.disk.(directory := Some(Directory(e.directory, Each(None, None)))));
        if s.Go? {
          var directory := s.m.disk.directory.value;
          var u: Step := Write(s.m, s.m.disk.(receipt := Some(Fresh(e).(directory := directory.inode))));
          if u.Go? {
            CompleteKeeps(u.m, e);
          }
        }
      }
    }
  }

  lemma {:induction false} DeleteKeeps(m: Machine, names: seq<Name>)
    requires Inv(m.disk) && !m.disk.saved
    requires m.disk.receipt.Some? && m.disk.receipt.value.phase.Retiring? && m.disk.directory.Some?
    ensures var r := Delete(m, names);
            && Inv(r.m.disk) && !r.m.disk.saved
            && r.m.disk.directory.value.inode == m.disk.directory.value.inode
            && (r.Stop? ==> r.why == Crashed)
            && (r.Go? ==> forall n: Name ::
                  if n in names then r.m.disk.directory.value.members.Get(n).None?
                  else r.m.disk.directory.value.members.Get(n) == m.disk.directory.value.members.Get(n))
            && (m.power.Steady? ==> r.Go? && r.m.power.Steady?)
    decreases |names|
  {
    if names != [] {
      var n := names[0];
      if m.disk.directory.value.members.Get(n).None? {
        DeleteKeeps(m, names[1..]);
      } else {
        var s: Step := Write(m, WithMember(m.disk, n, None));
        if s.Go? {
          DeleteKeeps(s.m, names[1..]);
        }
      }
    }
  }

  lemma RetireKeeps(m: Machine)
    requires Inv(m.disk)
    ensures var r := Retire(m);
            && Inv(r.m.disk) && r.m.disk.saved == m.disk.saved
            && (r.Stop? && r.why.Refused? ==> r.why.reason in {UnownedContent, StateStillPresent, NotReady})
            && (r.Go? ==> r.m.disk.receipt.None? && r.m.disk.directory.None?)
            && (m.power.Steady? ==>
                  (r.Go? <==>
                     if m.disk.receipt.None? then m.disk.directory.None?
                     else !m.disk.saved && !m.disk.receipt.value.phase.Capturing?))
  {
    if m.disk.receipt.Some? && !m.disk.saved && !m.disk.receipt.value.phase.Capturing? && m.disk.directory.Some? {
      var receipt := m.disk.receipt.value;
      var s: Step := Write(m, m.disk.(receipt := Some(receipt.(phase := Retiring))));
      if s.Go? {
        DeleteKeeps(s.m, NAMES);
        var t := Delete(s.m, NAMES);
        if t.Go? {
          assert NAMES[0] == Config && NAMES[1] == Policy;
          assert t.m.disk.directory.value.members.Get(Config).None? && t.m.disk.directory.value.members.Get(Policy).None?;
        }
      }
    }
  }

  // ---------------------------------------------------------------------------
  // Main results
  // ---------------------------------------------------------------------------

  /** In every crash state the journal explains the directory. */
  lemma {:induction false} EveryCrashStateIsJournalled(attempts: seq<Attempt>)
    ensures Inv(Run(NOTHING, attempts))
    decreases |attempts|
  {
    if attempts != [] {
      var n := |attempts| - 1;
      EveryCrashStateIsJournalled(attempts[..n]);
      var d := Run(NOTHING, attempts[..n]);
      match attempts[n]
      case TryCapture(env, power) => CaptureKeeps(Machine(d, power), env);
      case TryRetire(power) => RetireKeeps(Machine(d, power));
      case _ =>
    }
  }

  /** While the legacy state exists, rerunning the capture finishes it exactly when it is
      already ready or the old inputs can still be attested and are the recorded ones. */
  lemma CaptureConverges(attempts: seq<Attempt>, e: Env)
    requires Run(NOTHING, attempts).saved
    ensures var d := Run(NOTHING, attempts);
            var r := Capture(Machine(d, Steady), e);
            && (r.Go? <==>
                  || (d.receipt.Some? && d.receipt.value.phase.Ready?)
                  || (e.attested && (d.receipt.Some? ==>
                        forall n: Name :: e.inputs.Get(n) == d.receipt.value.files.Get(n).digest)))
            && (r.Go? ==>
                  && r.m.disk.receipt.Some? && r.m.disk.receipt.value.phase.Ready?
                  && forall n: Name :: Matches(r.m.disk.directory.value.members.Get(n),
                                               r.m.disk.receipt.value.files.Get(n), false))
  {
    EveryCrashStateIsJournalled(attempts);
    CaptureKeeps(Machine(Run(NOTHING, attempts), Steady), e);
  }

  /** What retirement can finish: no capture, or one that became ready. */
  predicate Retirable(d: Disk) {
    if d.receipt.None? then d.directory.None? else !d.receipt.value.phase.Capturing?
  }

  /** Once the legacy state is gone, rerunning retirement removes everything exactly when the
      capture had been completed (or never begun). */
  lemma RetireConverges(attempts: seq<Attempt>)
    requires !Run(NOTHING, attempts).saved
    ensures var d := Run(NOTHING, attempts);
            var r := Retire(Machine(d, Steady));
            && (r.Go? <==> Retirable(d))
            && (r.Go? ==> r.m.disk.receipt.None? && r.m.disk.directory.None?)
  {
    EveryCrashStateIsJournalled(attempts);
    RetireKeeps(Machine(Run(NOTHING, attempts), Steady));
  }

  lemma ErasedStays(d: Disk, a: Attempt)
    requires Inv(d) && !d.saved
    ensures !After(d, a).saved && (Retirable(After(d, a)) <==> Retirable(d))
  {
    if a.TryRetire? {
      RetireKeeps(Machine(d, a.power));
    }
  }

  lemma {:induction false} ErasedRuns(first: seq<Attempt>, more: seq<Attempt>)
    requires !Run(NOTHING, first).saved
    ensures !Run(NOTHING, first + more).saved
    ensures Retirable(Run(NOTHING, first + more)) <==> Retirable(Run(NOTHING, first))
    decreases |more|
  {
    if more == [] {
      assert first + more == first;
    } else {
      var all, last := first + more, |more| - 1;
      assert all[..|all| - 1] == first + more[..last];
      ErasedRuns(first, more[..last]);
      EveryCrashStateIsJournalled(first + more[..last]);
      ErasedStays(Run(NOTHING, first + more[..last]), more[last]);
    }
  }

  /** Whether retirement can ever finish is settled when the state is erased: whatever is attempted
      afterwards, it succeeds exactly when the disk was retirable then. */
  lemma ErasureDecidesRetirement(attempts: seq<Attempt>, more: seq<Attempt>)
    requires Run(NOTHING, attempts).saved && Run(NOTHING, attempts).prepared
    ensures var d := Run(NOTHING, attempts + [TryErase(Steady)] + more);
            && !d.saved
            && (Retirable(d) <==> Retirable(Run(NOTHING, attempts)))
            && (Retire(Machine(d, Steady)).Go? <==> Retirable(Run(NOTHING, attempts)))
  {
    var first := attempts + [TryErase(Steady)];
    assert first[..|first| - 1] == attempts;
    ErasedRuns(first, more);
    RetireConverges(first + more);
  }

  /** No capture while prepared, and no ungated rollback to the prepared state. */
  predicate Orderly(attempts: seq<Attempt>) {
    forall i | 0 <= i < |attempts| ::
      && (attempts[i].TryCapture? ==> !Run(NOTHING, attempts[..i]).prepared)
      && (attempts[i].TryRollback? && !attempts[i].release ==> Run(NOTHING, attempts[..i]).prepared)
  }

  predicate InOrder(d: Disk) {
    (d.prepared ==> Retirable(d)) && (!d.saved ==> d.prepared)
  }

  lemma OrderlyCapture(d: Disk, e: Env, power: Power)
    requires Inv(d) && InOrder(d) && !d.prepared
    ensures InOrder(Capture(Machine(d, power), e).m.disk)
  {
    CaptureKeeps(Machine(d, power), e);
  }

  lemma OrderlyRetire(d: Disk, power: Power)
    requires Inv(d) && InOrder(d)
    ensures InOrder(Retire(Machine(d, power)).m.disk)
  {
    RetireKeeps(Machine(d, power));
  }

  lemma OrderlyStep(d: Disk, a: Attempt)
    requires Inv(d) && InOrder(d)
    requires (a.TryCapture? ==> !d.prepared) && (a.TryRollback? && !a.release ==> d.prepared)
    ensures InOrder(After(d, a))
  {
    match a
    case TryCapture(env, power) => OrderlyCapture(d, env, power);
    case TryRetire(power) => OrderlyRetire(d, power);
    case _ =>
  }

  lemma {:induction false} OrderlyRuns(attempts: seq<Attempt>)
    requires Orderly(attempts)
    ensures InOrder(Run(NOTHING, attempts))
    decreases |attempts|
  {
    if attempts != [] {
      var last := |attempts| - 1;
      assert forall i | 0 <= i < last :: attempts[..last][..i] == attempts[..i];
      OrderlyRuns(attempts[..last]);
      EveryCrashStateIsJournalled(attempts[..last]);
      OrderlyStep(Run(NOTHING, attempts[..last]), attempts[last]);
    }
  }

  /** Then the gate of prepare suffices: after every erasure a rerun of retirement succeeds. */
  lemma OrderlyRunsRetire(attempts: seq<Attempt>)
    requires Orderly(attempts)
    ensures var d := Run(NOTHING, attempts);
            && (d.prepared ==> Retirable(d))
            && (!d.saved ==> Retire(Machine(d, Steady)).Go?)
  {
    OrderlyRuns(attempts);
    if !Run(NOTHING, attempts).saved {
      RetireConverges(attempts);
    }
  }

  /** Both orders are needed. A capture cut inside an already prepared migration leaves content
      that retirement calls unowned once the state is erased ... */
  lemma CutCaptureBlocksRetirement(e: Env)
    requires e.attested
    ensures
      var attempts := [TryPrepare(e, Steady), TryCapture(e, Left(1)), TryErase(Steady)];
      var d := Run(NOTHING, attempts);
      !d.saved && Retire(Machine(d, Steady)) == Stop(Machine(d, Steady), Refused(UnownedContent))
  {
    Run3(TryPrepare(e, Steady), TryCapture(e, Left(1)), TryErase(Steady));
  }

  /** ... and so does a cut capture followed by the rollback of a failed configuration, which
      records the removal intent without looking at the retained policy. */
  lemma UngatedRollbackBlocksRetirement(e: Env)
    requires e.attested
    ensures
      var attempts := [TryCapture(e, Left(1)), TryRollback(e, false, Steady), TryErase(Steady)];
      var d := Run(NOTHING, attempts);
      !d.saved && Retire(Machine(d, Steady)) == Stop(Machine(d, Steady), Refused(UnownedContent))
  {
    Run3(TryCapture(e, Left(1)), TryRollback(e, false, Steady), TryErase(Steady));
  }

  lemma Run3(a: Attempt, b: Attempt, c: Attempt)
    ensures Run(NOTHING, [a, b, c]) == After(After(After(NOTHING, a), b), c)
  {
    assert [a, b, c][..2] == [a, b] && [a, b][..1] == [a] && [a][..0] == [];
    assert Run(NOTHING, [a]) == After(Run(NOTHING, []), a);
    assert Run(NOTHING, [a, b]) == After(Run(NOTHING, [a]), b);
  }

  lemma ReadyStep(d: Disk, a: Attempt)
    requires Inv(d) && d.saved && d.receipt.Some? && d.receipt.value.phase.Ready?
    ensures After(d, a).receipt == d.receipt && After(d, a).directory == d.directory
  {
    if a.TryCapture? {
      CaptureKeeps(Machine(d, a.power), a.env);
    }
  }

  lemma SavedBefore(d: Disk, a: Attempt)
    requires Inv(d) && After(d, a).saved
    ensures d.saved
  {
    match a
    case TryCapture(env, power) => CaptureKeeps(Machine(d, power), env);
    case TryRetire(power) => RetireKeeps(Machine(d, power));
    case _ =>
  }

  /** Once a capture is ready, no attempts whatever touch it for as long as the state exists. */
  lemma {:induction false} ReadyIsKept(first: seq<Attempt>, more: seq<Attempt>)
    requires Run(NOTHING, first).receipt.Some? && Run(NOTHING, first).receipt.value.phase.Ready?
    requires Run(NOTHING, first + more).saved
    ensures Run(NOTHING, first).saved
    ensures Run(NOTHING, first + more).receipt == Run(NOTHING, first).receipt
    ensures Run(NOTHING, first + more).directory == Run(NOTHING, first).directory
    decreases |more|
  {
    if more == [] {
      assert first + more == first;
    } else {
      var all, last := first + more, |more| - 1;
      assert all[..|all| - 1] == first + more[..last];
      EveryCrashStateIsJournalled(first + more[..last]);
      SavedBefore(Run(NOTHING, first + more[..last]), more[last]);
      ReadyIsKept(first, more[..last]);
      ReadyStep(Run(NOTHING, first + more[..last]), more[last]);
    }
  }

  predicate Holds(d: Disk, n: Name, member: Member) {
    d.directory.Some? && d.directory.value.members.Get(n) == Some(member)
  }

  lemma LossStep(d: Disk, a: Attempt, n: Name, member: Member)
    requires Inv(d) && Holds(d, n, member) && !Holds(After(d, a), n, member)
    ensures a.TryRetire? && !d.saved && d.receipt.Some? && !d.receipt.value.phase.Capturing?
    ensures After(d, a).receipt.Some? ==> After(d, a).receipt.value.phase.Retiring?
  {
    if a.TryCapture? && d.saved {
      var m := Machine(d, a.power);
      CaptureKeeps(m, a.env);
      if d.receipt.Some? && d.receipt.value.phase.Capturing? && a.env.attested {
        CompleteKeeps(m, a.env);
      }
    }
    if a.TryRetire? && !d.saved && d.receipt.Some? {
      var s: Step := Write(Machine(d, a.power), d.(receipt := Some(d.receipt.value.(phase := Retiring))));
    }
  }

  /** A published member that a run has lost, or holds in another version, was lost to a
      retirement after the state was gone and under the retiring phase. */
  lemma {:induction false} MembersDieOnlyRetiring(attempts: seq<Attempt>, i: nat, n: Name, member: Member) returns (m: nat)
    requires i <= |attempts| && Holds(Run(NOTHING, attempts[..i]), n, member)
    requires !Holds(Run(NOTHING, attempts), n, member)
    ensures i <= m < |attempts| && attempts[m].TryRetire? && !Run(NOTHING, attempts[..m]).saved
    ensures Holds(Run(NOTHING, attempts[..m]), n, member) && !Holds(Run(NOTHING, attempts[..m + 1]), n, member)
    ensures var r := Run(NOTHING, attempts[..m + 1]).receipt; r.Some? ==> r.value.phase.Retiring?
    decreases |attempts|
  {
    assert attempts[..|attempts|] == attempts;
    var last := |attempts| - 1;
    var before := Run(NOTHING, attempts[..last]);
    EveryCrashStateIsJournalled(attempts[..last]);
    if Holds(before, n, member) {
      m := last;
      LossStep(before, attempts[last], n, member);
    } else {
      assert attempts[..last][..i] == attempts[..i];
      m := MembersDieOnlyRetiring(attempts[..last], i, n, member);
      assert attempts[..last][..m] == attempts[..m] && attempts[..last][..m + 1] == attempts[..m + 1];
    }
  }

  predicate Tampered(d: Disk, n: Name) {
    && d.receipt.Some? && d.directory.Some?
    && !Matches(d.directory.value.members.Get(n), d.receipt.value.files.Get(n), d.receipt.value.phase.Retiring?)
  }

  /** Verification comes before the first deletion: from any disk at all, even one edited by
      others, no number of retirements changes anything while one member is not the recorded one. */
  lemma {:induction false} TamperedMembersAreLeftAlone(d: Disk, n: Name, attempts: seq<Attempt>)
    requires Tampered(d, n) && forall i | 0 <= i < |attempts| :: attempts[i].TryRetire?
    ensures Run(d, attempts) == d
    ensures forall power: Power :: Retire(Machine(d, power)).Stop? && Retire(Machine(d, power)).why.Refused?
    decreases |attempts|
  {
    if attempts != [] {
      TamperedMembersAreLeftAlone(d, n, attempts[..|attempts| - 1]);
    }
    match n case Config => case Policy =>
  }

  // ---------------------------------------------------------------------------
  // The operations in place
  // ---------------------------------------------------------------------------

  class Retention {
    var saved: bool
    var prepared: bool
    var directory: Option<Directory>
    var receipt: Option<Receipt>
    var power: Power

    constructor (disk: Disk, power: Power)
      ensures Now() == Machine(disk, power)
    {
      saved, prepared, directory, receipt := disk.saved, disk.prepared, disk.directory, disk.receipt;
      this.power := power;
    }

    function Now(): Machine
      reads this
    {
      Machine(Disk(saved, prepared, directory, receipt), power)
    }

    method SaveReceipt(value: Option<Receipt>) returns (o: Outcome<Reason>)
      modifies this`power, this`receipt
      ensures Reached(Now(), o) == Write(old(Now()), old(Now()).disk.(receipt := value))
    {
      o := Done;
      power :- Spend(power);
      receipt := value;
    }

    method SaveDirectory(value: Option<Directory>) returns (o: Outcome<Reason>)
      modifies this`power, this`directory
      ensures Reached(Now(), o) == Write(old(Now()), old(Now()).disk.(directory := value))
    {
      o := Done;
      power :- Spend(power);
      directory := value;
    }

    method Link(n: Name, member: Option<Member>) returns (o: Outcome<Reason>)
      requires directory.Some?
      modifies this`power, this`directory
      ensures directory.Some?
      ensures Reached(Now(), o) == Write(old(Now()), WithMember(old(Now()).disk, n, member))
    {
      o := SaveDirectory(Some(directory.value.(members := directory.value.members.Put(n, member))));
    }

    method DoComplete(e: Env) returns (o: Outcome<Reason>)
      requires directory.Some? && receipt.Some?
      modifies this
      ensures Reached(Now(), o) == Complete(old(Now()), e)
    {
      for i := 0 to |NAMES|
        invariant directory.Some? && receipt.Some?
        invariant Publish(old(Now()), NAMES, e) == Publish(Now(), NAMES[i..], e)
      {
        var n := NAMES[i];
        var current := receipt.value;
        var expected := current.files.Get(n);
        var member := directory.value.members.Get(n);
        :- Require(e.inputs.Get(n) == expected.digest, ChangedInputs);
        :- Require(Matches(member, expected, true), ChangedMember);
        if member.None? {
          var files := current.files.Put(n, expected.(inode := Some(e.inodes.Get(n))));
          :- SaveReceipt(Some(current.(files := files)));
          :- Link(n, Some(Member(e.inodes.Get(n), e.inputs.Get(n))));
        }
      }
      var current := receipt.value;
      :- Require(VerifyCapture(Now().disk, current, false), ChangedMember);
      o := SaveReceipt(Some(current.(phase := Ready)));
    }

    method DoCapture(e: Env) returns (o: Outcome<Reason>)
      modifies this
      ensures Reached(Now(), o) == Capture(old(Now()), e)
    {
      if !saved {
        return Done;
      }
      if receipt.Some? {
        if receipt.value.phase.Ready? {
          return Require(VerifyCapture(Now().disk, receipt.value, false), ChangedMember);
        }
        :- Require(receipt.value.phase.Capturing?, CaptureRetiring);
        :- Require(VerifyCapture(Now().disk, receipt.value, true), ChangedMember);
      }
      :- Require(e.attested, PolicyInputs);
      if directory.None? {
        :- SaveDirectory(Some(Directory(e.directory, Each(None, None))));
      }
      if receipt.None? {
        :- Require(directory.value.members == Each(None, None), UnownedContent);
        :- SaveReceipt(Some(Fresh(e).(directory := directory.value.inode)));
      }
      o := DoComplete(e);
    }

    method DoRetire() returns (o: Outcome<Reason>)
      modifies this
      ensures Reached(Now(), o) == Retire(old(Now()))
    {
      if receipt.None? {
        return Require(directory.None?, UnownedContent);
      }
      var current := receipt.value;
      :- Require(!saved, StateStillPresent);
      :- Require(!current.phase.Capturing?, NotReady);
      if directory.Some? {
        :- Require(VerifyCapture(Now().disk, current, current.phase.Retiring?), ChangedMember);
        :- SaveReceipt(Some(current.(phase := Retiring)));
        ghost var marked := Now();
        for i := 0 to |NAMES|
          invariant directory.Some? && receipt == marked.disk.receipt
          invariant Delete(marked, NAMES) == Delete(Now(), NAMES[i..])
        {
          var n := NAMES[i];
          var member := directory.value.members.Get(n);
          :- Require(Matches(member, receipt.value.files.Get(n), true), ChangedMember);
          if member.Some? {
            :- Link(n, None);
          }
        }
        :- Require(directory.value.inode == current.directory, ChangedDirectory);
        :- SaveDirectory(None);
      } else {
        :- Require(current.phase.Retiring?, MissingDirectory);
      }
      o := SaveReceipt(None);
    }
  }
}
