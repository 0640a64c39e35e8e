/** What capturing and retiring the retained policy need and achieve, on every disk whatsoever, in
    terms of the disk and the surroundings alone. */
module PolicyExactness {
  import opened Common
  import opened CrashSteps
  import opened PolicyCapture

  /** A name holds exactly the recorded member, or nothing where that may be. */
  predicate Known(member: Option<Member>, expected: Expected, missing: bool) {
    if member.None? then missing
    else expected.inode.Some? && member.value.inode == expected.inode.value && member.value.digest == expected.digest
  }

  /** The directory is the recorded one, and so is everything in it. */
  predicate Intact(d: Disk, missing: bool) {
    && d.receipt.Some? && d.directory.Some?
    && d.directory.value.inode == d.receipt.value.directory
    && Known(d.directory.value.members.config, d.receipt.value.files.config, missing)
    && Known(d.directory.value.members.policy, d.receipt.value.files.policy, missing)
  }

  /** What decides a capture. */
  predicate Capturable(d: Disk, e: Env) {
    || !d.saved
    || (match d.receipt
        case None => e.attested && (d.directory.None? || d.directory.value.members == Each(None, None))
        case Some(receipt) =>
          match receipt.phase
          case Ready => Intact(d, false)
          case Capturing =>
            && Intact(d, true) && e.attested
            && e.inputs.config == receipt.files.config.digest && e.inputs.policy == receipt.files.policy.digest
          case Retiring => false)
  }

  /** The record and the member of a name once it is published, if it was not before. */
  function Recorded(member: Option<Member>, expected: Expected, inode: Inode): Expected {
    if member.Some? then expected else expected.(inode := Some(inode))
  }

  function Published(member: Option<Member>, inode: Inode, digest: Digest): Option<Member> {
    if member.Some? then member else Some(Member(inode, digest))
  }

  /** A directory and a receipt to publish into: the ones there are, or new ones. */
  function Begun(d: Disk, e: Env): Disk {
    if d.receipt.Some? then d
    else
      var directory := if d.directory.Some? then d.directory.value else Directory(e.directory, Each(None, None));
      d.(directory := Some(directory),
         receipt := Some(Receipt(directory.inode, Capturing,
                                 Each(Expected(e.inputs.config, None), Expected(e.inputs.policy, None)))))
  }

  /** The disk an uncut, permitted capture leaves. */
  function Captured(d: Disk, e: Env): Disk {
    var b := Begun(d, e);
    if !d.saved || b.directory.None? || b.receipt.value.phase != Capturing then d
    else
      var members, receipt := b.directory.value.members, b.receipt.value;
      b.(directory := Some(Directory(b.directory.value.inode,
                                     Each(Published(members.config, e.inodes.config, e.inputs.config),
                                          Published(members.policy, e.inodes.policy, e.inputs.policy)))),
         receipt := Some(Receipt(receipt.directory, Ready,
                                 Each(Recorded(members.config, receipt.files.config, e.inodes.config),
                                      Recorded(members.policy, receipt.files.policy, e.inodes.policy)))))
  }

  /** One name of a disk on the way from the begun capture to the captured one. */
  predicate NameBetween(member: Option<Member>, expected: Expected, member': Option<Member>, expected': Expected,
                        inode: Inode, digest: Digest) {
    || (member' == member && expected' in {expected, Recorded(member, expected, inode)})
    || (member' == Published(member, inode, digest) && expected' == Recorded(member, expected, inode))
  }

  /** A disk on the way: nothing else changed, a record always before its member. */
  predicate OnTheWay(d: Disk, e: Env, d': Disk) {
    var b := Begun(d, e);
    || d' == d || d' == Captured(d, e)
    || (d.receipt.None? && d' == d.(directory := b.directory))
    || (&& b.directory.Some? && d'.directory.Some? && d'.receipt.Some?
        && d' == b.(directory := d'.directory, receipt := d'.receipt)
        && d'.directory.value.inode == b.directory.value.inode
        && d'.receipt.value == b.receipt.value.(files := d'.receipt.value.files)
        && var members, files := b.directory.value.members, b.receipt.value.files;
           var members', files' := d'.directory.value.members, d'.receipt.value.files;
           && NameBetween(members.config, files.config, members'.config, files'.config, e.inodes.config, e.inputs.config)
           && NameBetween(members.policy, files.policy, members'.policy, files'.policy, e.inodes.policy, e.inputs.policy))
  }

  /** A capture that may not be made changes nothing, unless only the second input has changed: then
      the first name may have been published already. */
  predicate LeftByRefusal(d: Disk, e: Env, d': Disk) {
    || d' == d
    || (&& d.saved && e.attested && Intact(d, true) && d.receipt.value.phase.Capturing?
        && e.inputs.config == d.receipt.value.files.config.digest
        && e.inputs.policy != d.receipt.value.files.policy.digest
        && OnTheWay(d, e, d')
        && d'.directory.Some? && d'.directory.value.members.policy == d.directory.value.members.policy)
  }

  /** What decides a retirement. */
  predicate MayRetire(d: Disk) {
    match d.receipt
    case None => d.directory.None?
    case Some(receipt) =>
      && !d.saved
      && (if receipt.phase.Retiring? then d.directory.Some? ==> Intact(d, true)
          else receipt.phase.Ready? && Intact(d, false))
  }

  // ---------------------------------------------------------------------------
  // Publishing
  // ---------------------------------------------------------------------------

  function Noted(d: Disk, n: Name, e: Env): Disk
    requires d.receipt.Some?
  {
    var receipt := d.receipt.value;
    d.(receipt := Some(receipt.(files := receipt.files.Put(n, receipt.files.Get(n).(inode := Some(e.inodes.Get(n)))))))
  }

  function Put(d: Disk, n: Name, e: Env): Disk
    requires d.receipt.Some? && d.directory.Some?
  {
    WithMember(Noted(d, n, e), n, Some(Member(e.inodes.Get(n), e.inputs.Get(n))))
  }

  /** One name: its refusals, then nothing to do, or a record and a member. */
  lemma PublishFirst(d: Disk, power: Power, n: Name, rest: seq<Name>, e: Env)
    requires d.directory.Some? && d.receipt.Some?
    ensures
      var m := Machine(d, power);
      var member, expected := d.directory.value.members.Get(n), d.receipt.value.files.Get(n);
      var noted: Step, put: Step := Write(m, Noted(d, n, e)), Write(Write<Disk, Reason>(m, Noted(d, n, e)).m, Put(d, n, e));
      Publish(m, [n] + rest, e) ==
      if e.inputs.Get(n) != expected.digest then Stop(m, Refused(ChangedInputs))
      else if !Known(member, expected, true) then Stop(m, Refused(ChangedMember))
      else if member.Some? then Publish(m, rest, e)
      else if noted.Stop? then noted
      else if put.Stop? then put
      else Publish(put.m, rest, e)
  {
    assert ([n] + rest)[1..] == rest && ([n] + rest)[0] == n;
  }

  /** All names published, the capture not yet declared ready. */
  function Filled(d: Disk, e: Env): Disk
    requires d.receipt.Some? && d.directory.Some?
  {
    var b := if d.directory.value.members.config.Some? then d else Put(d, Config, e);
    if d.directory.value.members.policy.Some? then b else Put(b, Policy, e)
  }

  lemma FilledIsCaptured(d: Disk, e: Env)
    requires d.saved && d.receipt.Some? && d.directory.Some? && d.receipt.value.phase.Capturing?
    ensures var f := Filled(d, e);
            Captured(d, e) == f.(receipt := Some(f.receipt.value.(phase := Ready)))
  {
  }

  /** Publishing one name from a disk where it is recorded correctly. */
  lemma PublishOneExact(d: Disk, power: Power, n: Name, rest: seq<Name>, e: Env) returns (left: Power)
    requires d.directory.Some? && d.receipt.Some?
    requires Known(d.directory.value.members.Get(n), d.receipt.value.files.Get(n), true)
    ensures
      var m := Machine(d, power);
      var r := Publish(m, [n] + rest, e);
      var present := d.directory.value.members.Get(n).Some?;
      var d' := if present then d else Put(d, n, e);
      if e.inputs.Get(n) != d.receipt.value.files.Get(n).digest then r == Stop(m, Refused(ChangedInputs))
      else
        || r == Publish(Machine(d', left), rest, e)
        || (!power.Steady? && !present && r.Stop? && r.why == Crashed && r.m.disk in {d, Noted(d, n, e)})
    ensures power.Steady? ==> left.Steady?
  {
    PublishFirst(d, power, n, rest, e);
    left := power;
    if d.directory.value.members.Get(n).None? {
      var noted: Step := Write(Machine(d, power), Noted(d, n, e));
      var put: Step := Write(noted.m, Put(d, n, e));
      left := put.m.power;
    }
  }

  /** A disk on the way to the captured one while both names are being published. */
  lemma PublishIsExact(d: Disk, power: Power, e: Env)
    requires d.saved && e.attested && Intact(d, true) && d.receipt.value.phase.Capturing?
    ensures
      var r := Publish(Machine(d, power), NAMES, e);
      var files := d.receipt.value.files;
      var both := e.inputs.config == files.config.digest && e.inputs.policy == files.policy.digest;
      && (power.Steady? ==> (r.Go? <==> both) && r.m.power.Steady?)
      && (r.Go? ==> both && r.m.disk == Filled(d, e))
      && (both && r.Stop? ==> r.why == Crashed && OnTheWay(d, e, r.m.disk))
      && (!both ==> LeftByRefusal(d, e, r.m.disk))
  {
    assert NAMES == [Config] + [Policy] && [Policy] == [Policy] + [];
    var left := PublishOneExact(d, power, Config, [Policy], e);
    var d' := if d.directory.value.members.config.Some? then d else Put(d, Config, e);
    var left' := PublishOneExact(d', left, Policy, [], e);
  }

  /** Verification of the filled disk passes, and readiness is one more write. */
  lemma FilledIsIntact(d: Disk, e: Env)
    requires Intact(d, true) && e.inputs.config == d.receipt.value.files.config.digest
    requires e.inputs.policy == d.receipt.value.files.policy.digest
    ensures VerifyCapture(Filled(d, e), Filled(d, e).receipt.value, false)
    ensures OnTheWay(d, e, Filled(d, e))
  {
  }

  lemma CompleteIsExact(d: Disk, power: Power, e: Env)
    requires d.saved && e.attested && Intact(d, true) && d.receipt.value.phase.Capturing?
    ensures
      var r := Complete(Machine(d, power), e);
      var files := d.receipt.value.files;
      var both := e.inputs.config == files.config.digest && e.inputs.policy == files.policy.digest;
      && (power.Steady? ==> (r.Go? <==> both))
      && (r.Go? ==> both && r.m.disk == Captured(d, e))
      && (both && r.Stop? ==> r.why == Crashed && OnTheWay(d, e, r.m.disk))
      && (!both ==> LeftByRefusal(d, e, r.m.disk))
  {
    PublishIsExact(d, power, e);
    FilledIsCaptured(d, e);
    var s := Publish(Machine(d, power), NAMES, e);
    if s.Go? {
      FilledIsIntact(d, e);
      var receipt := s.m.disk.receipt.value;
      var t: Step := Write(s.m, s.m.disk.(receipt := Some(receipt.(phase := Ready))));
    }
  }

  lemma VerifyIsIntact(d: Disk, missing: bool)
    requires d.receipt.Some?
    ensures VerifyCapture(d, d.receipt.value, missing) <==> Intact(d, missing)
  {
  }

  /** The way of a begun capture is the way of the whole one. */
  lemma BegunGoesOn(d: Disk, e: Env, b: Disk, d': Disk)
    requires d.saved && d.receipt.None? && b == Begun(d, e) && OnTheWay(b, e, d')
    ensures OnTheWay(d, e, d') && Captured(b, e) == Captured(d, e)
  {
  }

  lemma FreshCapture(d: Disk, e: Env, power: Power)
    requires d.saved && d.receipt.None? && e.attested && (d.directory.Some? ==> d.directory.value.members == Each(None, None))
    ensures
      var r := Capture(Machine(d, power), e);
      && (power.Steady? ==> r.Go?)
      && (r.Go? ==> r.m.disk == Captured(d, e))
      && (r.Stop? ==> r.why == Crashed && OnTheWay(d, e, r.m.disk))
  {
    var b := Begun(d, e);
    var s: Step := if d.directory.Some? then Go(Machine(d, power))
                   else Write(Machine(d, power), d.(directory := Some(Directory(e.directory, Each(None, None)))));
    if s.Go? {
      var u: Step := Write(s.m, s.m.disk.(receipt := Some(Fresh(e).(directory := s.m.disk.directory.value.inode))));
      if u.Go? {
        assert u.m.disk == b;
        CompleteIsExact(b, u.m.power, e);
        BegunGoesOn(d, e, b, Complete(u.m, e).m.disk);
      }
    }
  }

  lemma ResumedCapture(d: Disk, e: Env, power: Power)
    requires d.saved && d.receipt.Some? && d.receipt.value.phase.Capturing? && Intact(d, true) && e.attested
    ensures Capture(Machine(d, power), e) == Complete(Machine(d, power), e)
  {
    VerifyIsIntact(d, true);
  }

  lemma RefusedCapture(d: Disk, e: Env, power: Power)
    requires d.saved
    requires match d.receipt
             case None => !e.attested || (d.directory.Some? && d.directory.value.members != Each(None, None))
             case Some(receipt) =>
               || receipt.phase.Retiring? || (receipt.phase.Ready? && !Intact(d, false))
               || (receipt.phase.Capturing? && !(Intact(d, true) && e.attested))
    ensures var r := Capture(Machine(d, power), e);
            r.Stop? && r.why.Refused? && r.m == Machine(d, power)
  {
    if d.receipt.Some? {
      VerifyIsIntact(d, true);
      VerifyIsIntact(d, false);
    }
  }

  // ---------------------------------------------------------------------------
  // Main results
  // ---------------------------------------------------------------------------

  /** On every disk, even one edited by others: an uncut capture succeeds exactly when it may be
      made and leaves exactly the captured disk; a cut one is on the way, every record before its
      member; one that may not be made leaves at most the first name published. */
  lemma CaptureIsExact(d: Disk, e: Env, power: Power)
    ensures
      var r := Capture(Machine(d, power), e);
      && (power.Steady? ==> (r.Go? <==> Capturable(d, e)))
      && (r.Go? ==> Capturable(d, e) && r.m.disk == Captured(d, e))
      && (if Capturable(d, e) then r.Stop? ==> r.why == Crashed && OnTheWay(d, e, r.m.disk)
          else LeftByRefusal(d, e, r.m.disk))
  {
    if d.saved {
      match d.receipt
      case None =>
        if Capturable(d, e) {
          FreshCapture(d, e, power);
        } else {
          RefusedCapture(d, e, power);
        }
      case Some(receipt) =>
        VerifyIsIntact(d, false);
        if receipt.phase.Capturing? && Intact(d, true) && e.attested {
          ResumedCapture(d, e, power);
          CompleteIsExact(d, power, e);
        } else if !(receipt.phase.Ready? && Intact(d, false)) {
          RefusedCapture(d, e, power);
        }
    }
  }

  /** A disk on the way out: marked as retiring, then its members, the directory and the receipt go. */
  predicate OnTheWayOut(d: Disk, d': Disk) {
    || d' == d
    || d' == d.(directory := None, receipt := None)
    || (&& d.receipt.Some? && d'.receipt == Some(d.receipt.value.(phase := Retiring))
        && d' == d.(directory := d'.directory, receipt := d'.receipt)
        && (d'.directory.Some? ==>
              && d.directory.Some? && d'.directory.value.inode == d.directory.value.inode
              && d'.directory.value.members.config in {None, d.directory.value.members.config}
              && d'.directory.value.members.policy in {None, d.directory.value.members.policy}))
  }

  lemma DeleteFirst(d: Disk, power: Power, n: Name, rest: seq<Name>)
    requires d.directory.Some? && d.receipt.Some?
    requires Known(d.directory.value.members.Get(n), d.receipt.value.files.Get(n), true)
    ensures
      var m := Machine(d, power);
      var gone: Step := Write(m, WithMember(d, n, None));
      Delete(m, [n] + rest) ==
      if d.directory.value.members.Get(n).None? then Delete(m, rest)
      else if gone.Stop? then gone
      else Delete(gone.m, rest)
  {
    assert ([n] + rest)[1..] == rest && ([n] + rest)[0] == n;
  }

  lemma DeleteIsExact(d: Disk, power: Power)
    requires Intact(d, true) && d.receipt.value.phase.Retiring?
    ensures
      var r := Delete(Machine(d, power), NAMES);
      var empty := d.(directory := Some(d.directory.value.(members := Each(None, None))));
      && (power.Steady? ==> r.Go? && r.m.power.Steady?)
      && (r.Go? ==> r.m.disk == empty)
      && (r.Stop? ==> r.why == Crashed)
      && OnTheWayOut(d, r.m.disk)
  {
    assert NAMES == [Config] + [Policy] && [Policy] == [Policy] + [];
    DeleteFirst(d, power, Config, [Policy]);
    var c: Step := if d.directory.value.members.config.None? then Go(Machine(d, power))
                   else Write(Machine(d, power), WithMember(d, Config, None));
    if c.Go? {
      DeleteFirst(c.m.disk, c.m.power, Policy, []);
      var q: Step := if c.m.disk.directory.value.members.policy.None? then c
                     else Write(c.m, WithMember(c.m.disk, Policy, None));
    }
  }

  lemma RetireIntact(d: Disk, power: Power)
    requires d.receipt.Some? && d.directory.Some? && MayRetire(d)
    ensures
      var r := Retire(Machine(d, power));
      && (power.Steady? ==> r.Go?)
      && (r.Go? ==> r.m.disk == d.(directory := None, receipt := None))
      && (r.Stop? ==> r.why == Crashed && OnTheWayOut(d, r.m.disk))
  {
    var receipt := d.receipt.value;
    VerifyIsIntact(d, receipt.phase.Retiring?);
    var s: Step := Write(Machine(d, power), d.(receipt := Some(receipt.(phase := Retiring))));
    if s.Go? {
      DeleteIsExact(s.m.disk, s.m.power);
    }
  }

  lemma RefusedRetirement(d: Disk, power: Power)
    requires !MayRetire(d)
    ensures var r := Retire(Machine(d, power));
            r.Stop? && r.why.Refused? && r.m == Machine(d, power)
  {
    if d.receipt.Some? {
      VerifyIsIntact(d, true);
      VerifyIsIntact(d, false);
    }
  }

  /** On every disk: an uncut retirement succeeds exactly when nothing is retained, or the state is
      gone and what is retained is the recorded capture; then nothing is left. A cut one is on the
      way out, and one that may not be made changes nothing. */
  lemma RetirementIsExact(d: Disk, power: Power)
    ensures
      var r := Retire(Machine(d, power));
      && (power.Steady? ==> (r.Go? <==> MayRetire(d)))
      && (r.Go? ==> MayRetire(d) && r.m.disk == d.(directory := None, receipt := None))
      && (if MayRetire(d) then r.Stop? ==> r.why == Crashed && OnTheWayOut(d, r.m.disk) else r.m.disk == d)
  {
    if !MayRetire(d) {
      RefusedRetirement(d, power);
    } else if d.receipt.Some? && d.directory.Some? {
      RetireIntact(d, power);
    } else if d.receipt.Some? {
      var w: Step := Write(Machine(d, power), d.(receipt := None));
    }
  }

  /** The policy that can be reloaded: what is retained, if it is complete, or else the package's own. */
  predicate Available(d: Disk, e: Env) {
    if d.directory.None? && d.receipt.None? then e.attested
    else d.receipt.Some? && d.receipt.value.phase.Ready? && Intact(d, false)
  }

  /** On every disk, while the state exists: prepare and a releasing rollback need an available policy,
      a closing rollback needs none, and the state is erased only if it was prepared; each changes one
      fact, and a refused or cut one nothing. Without the state none has anything to do. */
  lemma NeighboursAreExact(d: Disk, e: Env, release: bool, power: Power)
    ensures
      var m := Machine(d, power);
      var p, b, x := Prepare(m, e), Rollback(m, e, release), Erase(m);
      && (power.Steady? ==> (p.Go? <==> d.saved ==> Available(d, e)))
      && (power.Steady? ==> (b.Go? <==> d.saved && release ==> Available(d, e)))
      && (power.Steady? ==> (x.Go? <==> d.saved ==> d.prepared))
      && (p.Go? ==> (d.saved ==> Available(d, e)) && p.m.disk == if d.saved then d.(prepared := true) else d)
      && (b.Go? ==> (d.saved && release ==> Available(d, e))
                    && b.m.disk == if d.saved then d.(prepared := !release) else d)
      && (x.Go? ==> (d.saved ==> d.prepared) && x.m.disk == d.(saved := false))
      && (p.Stop? ==> p.m.disk == d) && (b.Stop? ==> b.m.disk == d) && (x.Stop? ==> x.m.disk == d)
  {
    if d.receipt.Some? {
      VerifyIsIntact(d, false);
    }
    var p: Step := Write(Machine(d, power), d.(prepared := true));
    var b: Step := Write(Machine(d, power), d.(prepared := !release));
    var x: Step := Write(Machine(d, power), d.(saved := false));
  }
}
