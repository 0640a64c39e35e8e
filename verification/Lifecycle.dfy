/** The journalled account and PAM migration of packaging/lifecycle_migration.py.

    Every durable write is one atomic step and the power may fail before any of
    them; a later run starts from the disk alone. The functions give the meaning
    of each operation as a transformer of (disk, remaining power); class Migration
    performs the same operations in place and is proved against them. */
module LifecycleMigration {
  import opened Common
  import opened CrashSteps

  type Boot = nat
  type Days = Option<nat>  // a shadow expiry field; None is "never expires"

  const CLOSED: Days := Some(1)

  const DENIAL: string :=
    "# Oh No Parent Control removal admission barrier\n"
    + "account requisite pam_succeed_if.so quiet user != oh-no-parent-control\n"
    + "session requisite pam_succeed_if.so quiet user != oh-no-parent-control\n"

  datatype Service = GdmPassword | SystemdUser

  /** One value for each of the two PAM services. */
  datatype PerService<T> = PerService(gdm: T, user: T) {
    function Get(s: Service): T {
      if s.GdmPassword? then gdm else user
    }

    function Put(s: Service, v: T): PerService<T> {
      if s.GdmPassword? then this.(gdm := v) else this.(user := v)
    }
  }

  /** A PAM file either existed before the legacy product or shadows a vendor file. */
  datatype PamRecord = Existing(text: string, after: string) | Shadowing(vendor: string, after: string) {
    function Before(): Option<string> {
      if Existing? then Some(text) else None
    }

    function Original(): string {
      if Existing? then text else vendor
    }
  }

  datatype Saved = Saved(
    pam: PerService<PamRecord>,
    previous: PerService<Option<PamRecord>>,
    admission: bool,
    prelease: Option<Boot>,
    kioskUid: Option<nat>,
    removing: bool)

  datatype Phase = Quarantined | Releasing

  datatype ExpiryRecord = ExpiryRecord(expires: Days, phase: Phase)

  /** What survives a crash. */
  datatype Disk = Disk(
    account: bool,
    state: Option<Saved>,
    disabled: bool,
    expiry: Option<ExpiryRecord>,
    live: Days,
    pam: PerService<Option<string>>,
    policyLoaded: bool)

  type Machine = Powered<Disk>

  datatype Reason =
    | AccountMissing | AccountPresent | UnownedMarker | ChangedIdentity | ModifiedPam | PolicyMaterial
    | NotIdle | ChangedExpiry | QuarantineRequired | NotPrepared | NotCommitted | NotReady

  type Step = Progress<Disk, Reason>

  /** The surroundings of one attempt: identity, boot, and the checks that only observe. */
  datatype Env = Env(
    identity: nat,
    boot: Boot,
    order: seq<Service>,  // the iteration order of the saved dictionary
    quiet: bool,          // no kiosk process or executor is running
    material: bool,       // the retained policy inputs are present and exact
    ready: bool,          // the replacement verifier returns None
    visible: bool)        // verify_visibility accepts
  {
    predicate Valid() {
      order == [GdmPassword, SystemdUser] || order == [SystemdUser, GdmPassword]
    }

    predicate Accepts() {
      quiet && material && ready && visible
    }
  }

  // ---------------------------------------------------------------------------
  // The operations
  // ---------------------------------------------------------------------------

  predicate AcceptedText(saved: Saved, s: Service, actual: Option<string>) {
    var record := saved.pam.Get(s);
    || actual == record.Before()
    || actual == Some(record.after)
    || (saved.removing && actual == Some(DENIAL + record.Original()))
    || (saved.previous.Get(s).Some? && actual == Some(saved.previous.Get(s).value.after))
  }

  predicate VerifyPam(saved: Saved, pam: PerService<Option<string>>) {
    AcceptedText(saved, GdmPassword, pam.gdm) && AcceptedText(saved, SystemdUser, pam.user)
  }

  predicate VerifyOriginals(saved: Saved, pam: PerService<Option<string>>) {
    pam.gdm == saved.pam.gdm.Before() && pam.user == saved.pam.user.Before()
  }

  predicate Idle(saved: Option<Saved>, e: Env) {
    && e.quiet
    && (saved.Some? ==> saved.value.admission && saved.value.prelease != Some(e.boot))
  }

  predicate OwnIdentity(saved: Saved, e: Env) {
    saved.kioskUid == None || saved.kioskUid == Some(e.identity)
  }

  predicate IsQuarantined(d: Disk) {
    d.account && d.expiry.Some? && d.expiry.value.phase == Quarantined && d.live == CLOSED
  }

  function Quarantine(m: Machine): Step {
    var m :- Check(m, m.disk.account, AccountMissing);
    var actual := m.disk.live;
    var record := if m.disk.expiry.Some? then m.disk.expiry.value else ExpiryRecord(actual, Quarantined);
    var m :- Check(m, actual == CLOSED || actual == record.expires, ChangedExpiry);
    var m :- Write(m, m.disk.(expiry := Some(record.(phase := Quarantined))));
    if actual != CLOSED then Write(m, m.disk.(live := CLOSED)) else Go(m)
  }

  /** Puts the removal barrier in front of the original text of every listed service. */
  function WriteDenials(m: Machine, saved: Saved, order: seq<Service>): Step
    decreases |order|
  {
    if order == [] then Go(m)
    else
      var text := DENIAL + saved.pam.Get(order[0]).Original();
      var m :- Write(m, m.disk.(pam := m.disk.pam.Put(order[0], Some(text))));
      WriteDenials(m, saved, order[1..])
  }

  function WriteBefore(m: Machine, saved: Saved, order: seq<Service>): Step
    decreases |order|
  {
    if order == [] then Go(m)
    else
      var m :- Write(m, m.disk.(pam := m.disk.pam.Put(order[0], saved.pam.Get(order[0]).Before())));
      WriteBefore(m, saved, order[1..])
  }

  function WriteAfter(m: Machine, saved: Saved, order: seq<Service>): Step
    decreases |order|
  {
    if order == [] then Go(m)
    else
      var m :- Write(m, m.disk.(pam := m.disk.pam.Put(order[0], Some(saved.pam.Get(order[0]).after))));
      WriteAfter(m, saved, order[1..])
  }

  function UnloadPolicy(m: Machine, e: Env): Step {
    var m :- Check(m, e.material, PolicyMaterial);
    if m.disk.policyLoaded then Write(m, m.disk.(policyLoaded := false)) else Go(m)
  }

  /** Records the removal intent, raises the marker, bars every service, unloads the policy. */
  function Bar(m: Machine, saved: Saved, e: Env): Step {
    var m :- Write(m, m.disk.(state := Some(saved)));
    var m :- Write(m, m.disk.(disabled := true));
    var m :- WriteDenials(m, saved, e.order);
    UnloadPolicy(m, e)
  }

  function Prepare(m: Machine, e: Env): Step {
    var m :- Check(m, m.disk.account, AccountMissing);
    var m :- Check(m, m.disk.state.Some? || !m.disk.disabled, UnownedMarker);
    if m.disk.state.None? then
      var m :- Check(m, Idle(None, e), NotIdle);
      Quarantine(m)
    else
      var saved := m.disk.state.value;
      var m :- Check(m, OwnIdentity(saved, e), ChangedIdentity);
      var m :- Check(m, VerifyPam(saved, m.disk.pam), ModifiedPam);
      var m :- Check(m, e.material, PolicyMaterial);
      var admitted := if saved.admission then saved
                      else saved.(admission := true, prelease := Some(e.boot));
      var m :- if saved.admission then Go(m) else Write(m, m.disk.(state := Some(admitted)));
      var m :- Check(m, Idle(Some(admitted), e), NotIdle);
      var m :- Quarantine(m);
      Bar(m, admitted.(kioskUid := Some(e.identity), removing := true), e)
  }

  function RestoreLocked(m: Machine, saved: Saved, e: Env): Step {
    var m :- Check(m, VerifyPam(saved, m.disk.pam), ModifiedPam);
    var m :- Check(m, saved.removing, NotPrepared);
    WriteBefore(m, saved, e.order)
  }

  function RestoreOriginalPam(m: Machine, e: Env): Step {
    var m :- Check(m, IsQuarantined(m.disk), QuarantineRequired);
    var m :- Check(m, m.disk.state.Some? || !m.disk.disabled, UnownedMarker);
    if m.disk.state.None? then Go(m)
    else
      var saved := m.disk.state.value;
      var m :- Check(m, saved.kioskUid == Some(e.identity), ChangedIdentity);
      var m :- Check(m, Idle(Some(saved), e), NotIdle);
      RestoreLocked(m, saved, e)
  }

  function EraseMarkers(m: Machine): Step {
    var m :- if m.disk.disabled then Write(m, m.disk.(disabled := false)) else Go(m);
    if m.disk.state.Some? then Write(m, m.disk.(state := None)) else Go(m)
  }

  function Commit(m: Machine, e: Env): Step {
    var m :- Check(m, IsQuarantined(m.disk), QuarantineRequired);
    var m :- if m.disk.state.None? then Go(m)
             else
               var saved := m.disk.state.value;
               var m :- Check(m, saved.kioskUid == Some(e.identity) && saved.removing, NotPrepared);
               var m :- Check(m, VerifyOriginals(saved, m.disk.pam), ModifiedPam);
               Check(m, Idle(Some(saved), e), NotIdle);
    var m :- Check(m, e.ready && e.visible, NotReady);
    EraseMarkers(m)
  }

  /** Journals the release, reopens the account, then drops the journal. */
  function Reopen(m: Machine, record: ExpiryRecord): Step {
    var actual := m.disk.live;
    var m :- Write(m, m.disk.(expiry := Some(record.(phase := Releasing))));
    var m :- if actual != record.expires then Write(m, m.disk.(live := record.expires)) else Go(m);
    Write(m, m.disk.(expiry := None))
  }

  function ReleaseAccount(m: Machine): Step {
    var m :- Check(m, m.disk.account, AccountMissing);
    var m :- Check(m, m.disk.state.None? && !m.disk.disabled, NotCommitted);
    if m.disk.expiry.None? then Go(m)
    else
      var record := m.disk.expiry.value;
      var actual := m.disk.live;
      var m :- Check(m, actual == CLOSED || (record.phase == Releasing && actual == record.expires), ChangedExpiry);
      Reopen(m, record)
  }

  /** Reinstates the legacy gates under a reloaded policy. */
  function Reinstate(m: Machine, saved: Saved, e: Env): Step {
    var m :- Check(m, e.material, PolicyMaterial);
    var m :- Write(m, m.disk.(policyLoaded := true));
    var m :- WriteAfter(m, saved, e.order);
    var m :- Write(m, m.disk.(state := Some(saved.(previous := PerService(None, None), removing := false))));
    if m.disk.disabled then Write(m, m.disk.(disabled := false)) else Go(m)
  }

  function Rollback(m: Machine, e: Env, release: bool): Step {
    var m :- Check(m, m.disk.account, AccountMissing);
    var m :- Check(m, m.disk.state.Some? || !m.disk.disabled, UnownedMarker);
    if m.disk.state.Some? then
      var saved := m.disk.state.value;
      var m :- Check(m, OwnIdentity(saved, e), ChangedIdentity);
      var m :- Check(m, VerifyPam(saved, m.disk.pam), ModifiedPam);
      var m :- Check(m, Idle(Some(saved), e), NotIdle);
      var m :- Quarantine(m);
      if !release then Bar(m, saved.(removing := true), e)
      else
        var m :- Reinstate(m, saved, e);
        RollbackRelease(m)
    else if !release then Quarantine(m)
    else RollbackRelease(m)
  }

  function RollbackRelease(m: Machine): Step {
    if m.disk.expiry.None? then Go(m)
    else
      var record := m.disk.expiry.value;
      var m :- Check(m, m.disk.live == CLOSED || m.disk.live == record.expires, ChangedExpiry);
      Reopen(m, record)
  }

  /** Runs after the account and its home have been deleted. */
  function FinishRemove(m: Machine, e: Env): Step {
    if m.disk.state.None? && m.disk.expiry.None? && !m.disk.disabled then Go(m)
    else
      var m :- Check(m, !m.disk.account, AccountPresent);
      var m :- if m.disk.state.None? then Check(m, !m.disk.disabled, UnownedMarker)
               else
                 var saved := m.disk.state.value;
                 var m :- Check(m, OwnIdentity(saved, e), ChangedIdentity);
                 var m :- Check(m, Idle(Some(saved), e), NotIdle);
                 RestoreLocked(m, saved, e);
      var m :- EraseMarkers(m);
      if m.disk.expiry.Some? then Write(m, m.disk.(expiry := None)) else Go(m)
  }

  datatype Op = OpPrepare | OpRestore | OpCommit | OpRelease | OpRollback(release: bool) | OpFinishRemove

  function Perform(op: Op, m: Machine, e: Env): Step {
    match op
    case OpPrepare => Prepare(m, e)
    case OpRestore => RestoreOriginalPam(m, e)
    case OpCommit => Commit(m, e)
    case OpRelease => ReleaseAccount(m)
    case OpRollback(release) => Rollback(m, e, release)
    case OpFinishRemove => FinishRemove(m, e)
  }

  /** Configuration composes four operations, each only after the one before. */
  function Configure(m: Machine, e: Env): Step {
    var m :- Prepare(m, e);
    var m :- RestoreOriginalPam(m, e);
    var m :- Commit(m, e);
    ReleaseAccount(m)
  }

  // ---------------------------------------------------------------------------
  // Whole runs
  // ---------------------------------------------------------------------------

  /** One thing that happens to the disk: an operation, cut anywhere, or account deletion. */
  datatype Attempt = Try(op: Op, env: Env, power: Power) | AccountErased

  function After(d: Disk, a: Attempt): Disk {
    match a
    case Try(op, env, power) => Perform(op, Machine(d, power), env).m.disk
    case AccountErased => d.(account := false)
  }

  function Run(d: Disk, attempts: seq<Attempt>): Disk
    decreases |attempts|
  {
    if attempts == [] then d
    else After(Run(d, attempts[..|attempts| - 1]), attempts[|attempts| - 1])
  }

  predicate Lawful(attempts: seq<Attempt>, identity: nat) {
    forall i | 0 <= i < |attempts| ::
      attempts[i].Try? ==> attempts[i].env.Valid() && attempts[i].env.identity == identity
  }

  /** A disk on which the legacy product is installed, or was never installed. */
  predicate Genesis(g: Disk, identity: nat) {
    && g.account && g.expiry.None? && !g.disabled
    && (g.state.Some? ==>
          && !g.state.value.removing
          && VerifyPam(g.state.value, g.pam)
          && (g.state.value.kioskUid == None || g.state.value.kioskUid == Some(identity))
          && g.policyLoaded)
  }

  // ---------------------------------------------------------------------------
  // What every crash state keeps
  // ---------------------------------------------------------------------------

  /** The expiry journal never loses the original expiry g.live. */
  predicate Conserved(g: Disk, d: Disk) {
    && (d.expiry.Some? ==> d.expiry.value.expires == g.live)
    && (d.account ==>
          if d.expiry.Some? then d.live == CLOSED || d.live == g.live else d.live == g.live)
  }

  /** An account that can log in is never half migrated. */
  predicate FailClosed(d: Disk) {
    && (d.disabled ==> d.state.Some?)
    && (d.account && d.live != CLOSED ==> !d.disabled && (d.state.Some? ==> !d.state.value.removing))
  }

  predicate Barred(record: PamRecord, actual: Option<string>) {
    actual == record.Before() || actual == Some(DENIAL + record.Original())
  }

  /** PAM files hold a text the record explains; without the record, the original. */
  predicate PamExplained(g: Disk, d: Disk) {
    match d.state
    case None =>
      if g.state.Some? then VerifyOriginals(g.state.value, d.pam) else d.pam == g.pam
    case Some(saved) =>
      && g.state.Some? && saved.pam == g.state.value.pam
      && VerifyPam(saved, d.pam)
      && (!d.policyLoaded ==> Barred(saved.pam.gdm, d.pam.gdm) && Barred(saved.pam.user, d.pam.user))
  }

  predicate Inv(g: Disk, d: Disk, identity: nat) {
    && Conserved(g, d) && FailClosed(d) && PamExplained(g, d)
    && (d.state.Some? ==> d.state.value.kioskUid == None || d.state.value.kioskUid == Some(identity))
  }

  // ---------------------------------------------------------------------------
  // Every operation keeps the invariant, wherever it is cut
  // ---------------------------------------------------------------------------

  lemma QuarantineKeeps(g: Disk, m: Machine, identity: nat)
    requires Inv(g, m.disk, identity) && m.disk.account
    ensures var r := Quarantine(m);
            && Inv(g, r.m.disk, identity)
            && (m.disk.live == CLOSED ==> r.m.disk.live == CLOSED)
            && (r.Stop? ==> r.why == Crashed && r.m.disk.state == m.disk.state && r.m.disk.account)
            && (m.power.Steady? ==> r.Go?)
            && (r.Go? ==> r.m.disk == m.disk.(expiry := Some(ExpiryRecord(g.live, Quarantined)), live := CLOSED))
            && (r.Go? && m.power.Steady? ==> r.m.power.Steady?)
  {
  }

  /** Only PAM files in the list may change, each to its given text. */
  predicate Rewritten(d: Disk, d': Disk, order: seq<Service>, text: PerService<Option<string>>, done: bool) {
    && d' == d.(pam := d'.pam)
    && forall s: Service ::
         || d'.pam.Get(s) == text.Get(s)
         || (d'.pam.Get(s) == d.pam.Get(s) && (done ==> s !in order))
  }

  function Denials(saved: Saved): PerService<Option<string>> {
    PerService(Some(DENIAL + saved.pam.gdm.Original()), Some(DENIAL + saved.pam.user.Original()))
  }

  function Befores(saved: Saved): PerService<Option<string>> {
    PerService(saved.pam.gdm.Before(), saved.pam.user.Before())
  }

  function Afters(saved: Saved): PerService<Option<string>> {
    PerService(Some(saved.pam.gdm.after), Some(saved.pam.user.after))
  }

  lemma {:induction false} DenialsRewrite(m: Machine, saved: Saved, order: seq<Service>)
    ensures var r := WriteDenials(m, saved, order);
            && Rewritten(m.disk, r.m.disk, order, Denials(saved), r.Go?)
            && (r.Stop? ==> r.why == Crashed)
            && (m.power.Steady? ==> r.Go? && r.m.power.Steady?)
    decreases |order|
  {
    if order != [] {
      var text := DENIAL + saved.pam.Get(order[0]).Original();
      var w: Step := Write(m, m.disk.(pam := m.disk.pam.Put(order[0], Some(text))));
      if w.Go? {
        DenialsRewrite(w.m, saved, order[1..]);
      }
    }
  }

  lemma {:induction false} BeforesRewrite(m: Machine, saved: Saved, order: seq<Service>)
    ensures var r := WriteBefore(m, saved, order);
            && Rewritten(m.disk, r.m.disk, order, Befores(saved), r.Go?)
            && (r.Stop? ==> r.why == Crashed)
            && (m.power.Steady? ==> r.Go? && r.m.power.Steady?)
    decreases |order|
  {
    if order != [] {
      var w: Step := Write(m, m.disk.(pam := m.disk.pam.Put(order[0], saved.pam.Get(order[0]).Before())));
      if w.Go? {
        BeforesRewrite(w.m, saved, order[1..]);
      }
    }
  }

  lemma {:induction false} AftersRewrite(m: Machine, saved: Saved, order: seq<Service>)
    ensures var r := WriteAfter(m, saved, order);
            && Rewritten(m.disk, r.m.disk, order, Afters(saved), r.Go?)
            && (r.Stop? ==> r.why == Crashed)
            && (m.power.Steady? ==> r.Go? && r.m.power.Steady?)
    decreases |order|
  {
    if order != [] {
      var w: Step := Write(m, m.disk.(pam := m.disk.pam.Put(order[0], Some(saved.pam.Get(order[0]).after))));
      if w.Go? {
        AftersRewrite(w.m, saved, order[1..]);
      }
    }
  }

  /** The two services are all of them, so a finished rewrite fixes both files. */
  lemma RewriteComplete(d: Disk, d': Disk, e: Env, text: PerService<Option<string>>, done: bool)
    requires e.Valid() && Rewritten(d, d', e.order, text, done)
    ensures done ==> d'.pam == text
    ensures d'.pam.gdm == text.gdm || d'.pam.gdm == d.pam.gdm
    ensures d'.pam.user == text.user || d'.pam.user == d.pam.user
  {
    assert GdmPassword in e.order && SystemdUser in e.order;
    assert d'.pam.gdm == d'.pam.Get(GdmPassword) && d'.pam.user == d'.pam.Get(SystemdUser);
    assert d.pam.gdm == d.pam.Get(GdmPassword) && d.pam.user == d.pam.Get(SystemdUser);
  }

  lemma DenialsKeep(g: Disk, m: Machine, saved: Saved, e: Env)
    requires e.Valid() && Inv(g, m.disk, e.identity) && m.disk.live == CLOSED
    requires m.disk.state == Some(saved) && saved.removing
    ensures var r := WriteDenials(m, saved, e.order);
            && Inv(g, r.m.disk, e.identity) && r.m.disk == m.disk.(pam := r.m.disk.pam)
            && (r.Stop? ==> r.why == Crashed)
            && (m.power.Steady? ==> r.Go? && r.m.power.Steady?)
            && (r.Go? ==> r.m.disk.pam == Denials(saved))
  {
    var r := WriteDenials(m, saved, e.order);
    DenialsRewrite(m, saved, e.order);
    RewriteComplete(m.disk, r.m.disk, e, Denials(saved), r.Go?);
  }

  lemma BarringKeeps(g: Disk, d: Disk, saved: Saved, e: Env)
    requires e.Valid() && Inv(g, d, e.identity) && d.state.Some? && d.live == CLOSED
    requires saved.removing && saved.kioskUid in {None, Some(e.identity)}
    requires saved.pam == d.state.value.pam && saved.previous == d.state.value.previous
    ensures Inv(g, d.(state := Some(saved)), e.identity)
    ensures Inv(g, d.(state := Some(saved), disabled := true), e.identity)
  {
  }

  lemma BarKeeps(g: Disk, m: Machine, saved: Saved, e: Env)
    requires e.Valid() && Inv(g, m.disk, e.identity) && m.disk.state.Some? && m.disk.live == CLOSED
    requires saved.removing && saved.kioskUid in {None, Some(e.identity)}
    requires saved.pam == m.disk.state.value.pam && saved.previous == m.disk.state.value.previous
    ensures var r := Bar(m, saved, e);
            && Inv(g, r.m.disk, e.identity) && r.m.disk.live == CLOSED && r.m.disk.account == m.disk.account
            && (r.Stop? ==> r.why == Crashed || r.why == Refused(PolicyMaterial))
            && (m.power.Steady? && e.material ==> r.Go? && r.m.power.Steady?)
            && (r.Go? ==> r.m.disk == m.disk.(state := Some(saved), disabled := true,
                                              pam := Denials(saved), policyLoaded := false))
  {
    BarringKeeps(g, m.disk, saved, e);
    var w: Step := Write(m, m.disk.(state := Some(saved)));
    if w.Go? {
      var w': Step := Write(w.m, w.m.disk.(disabled := true));
      if w'.Go? {
        DenialsKeep(g, w'.m, saved, e);
      }
    }
  }

  lemma PrepareKeeps(g: Disk, m: Machine, e: Env)
    requires e.Valid() && Inv(g, m.disk, e.identity)
    ensures var r := Prepare(m, e);
            && Inv(g, r.m.disk, e.identity)
            && r.m.disk.account == m.disk.account
            && (m.disk.live == CLOSED ==> r.m.disk.live == CLOSED)
            && (r == Stop(r.m, Refused(NotIdle)) && m.disk.state.Some? ==>
                  && r.m.disk.state.Some? && r.m.disk.state.value.admission
                  && r.m.disk.state.value.prelease in {m.disk.state.value.prelease, Some(e.boot)})
            && (r.Stop? && r.why.Refused? ==> r.why.reason in {AccountMissing, PolicyMaterial, NotIdle})
            && (r.Go? ==>
                  && IsQuarantined(r.m.disk)
                  && (r.m.disk.state.Some? ==>
                        && r.m.disk.state.value.removing && r.m.disk.state.value.kioskUid == Some(e.identity)
                        && Idle(r.m.disk.state, e) && VerifyPam(r.m.disk.state.value, r.m.disk.pam)))
            && (m.power.Steady? && m.disk.account && e.quiet && e.material ==>
                  (r.Go? <==> Idle(m.disk.state, e)) && r.m.power.Steady?)
            && (r.Go? ==> (m.disk.state.Some? <==> r.m.disk.state.Some?))
  {
    if m.disk.account && m.disk.state.None? {
      QuarantineKeeps(g, m, e.identity);
    } else if m.disk.account && e.material {
      var saved := m.disk.state.value;
      var admitted := if saved.admission then saved
                      else saved.(admission := true, prelease := Some(e.boot));
      var w: Step := if saved.admission then Go(m) else Write(m, m.disk.(state := Some(admitted)));
      assert Inv(g, w.m.disk, e.identity);
      if w.Go? && Idle(Some(admitted), e) {
        QuarantineKeeps(g, w.m, e.identity);
        var q := Quarantine(w.m);
        if q.Go? {
          BarKeeps(g, q.m, admitted.(kioskUid := Some(e.identity), removing := true), e);
        }
      }
    }
  }

  lemma RestoreLockedKeeps(g: Disk, m: Machine, saved: Saved, e: Env)
    requires e.Valid() && Inv(g, m.disk, e.identity) && m.disk.state == Some(saved)
    ensures var r := RestoreLocked(m, saved, e);
            && Inv(g, r.m.disk, e.identity) && r.m.disk.live == m.disk.live
            && (r.Stop? ==> r.why == Crashed || (r.why == Refused(NotPrepared) && !saved.removing))
            && (m.power.Steady? ==> (r.Go? <==> saved.removing) && r.m.power.Steady?)
            && (r.Go? ==> r.m.disk == m.disk.(pam := Befores(saved)))
  {
    if saved.removing {
      var r := WriteBefore(m, saved, e.order);
      BeforesRewrite(m, saved, e.order);
      RewriteComplete(m.disk, r.m.disk, e, Befores(saved), r.Go?);
    }
  }

  lemma RestoreKeeps(g: Disk, m: Machine, e: Env)
    requires e.Valid() && Inv(g, m.disk, e.identity)
    ensures var r := RestoreOriginalPam(m, e);
            && Inv(g, r.m.disk, e.identity) && r.m.disk.live == m.disk.live
            && (r.Stop? && r.why.Refused? ==>
                  r.why.reason in {QuarantineRequired, ChangedIdentity, NotIdle, NotPrepared})
            && (r.Go? ==> r.m.disk == m.disk.(pam := r.m.disk.pam)
                          && (m.disk.state.Some? ==> r.m.disk.pam == Befores(m.disk.state.value)))
            && (m.power.Steady? && IsQuarantined(m.disk) && e.quiet
                && (m.disk.state.Some? ==>
                      m.disk.state.value.removing && m.disk.state.value.kioskUid == Some(e.identity))
                ==> r.m.power.Steady? && (r.Go? <==> Idle(m.disk.state, e)))
  {
    if m.disk.state.Some? {
      RestoreLockedKeeps(g, m, m.disk.state.value, e);
    }
  }

  lemma EraseMarkersKeeps(g: Disk, m: Machine, identity: nat)
    requires Inv(g, m.disk, identity) && (m.disk.account ==> m.disk.live == CLOSED)
    requires m.disk.state.Some? ==> VerifyOriginals(m.disk.state.value, m.disk.pam)
    ensures var r := EraseMarkers(m);
            && Inv(g, r.m.disk, identity) && (r.Stop? ==> r.why == Crashed)
            && (m.power.Steady? ==> r.Go? && r.m.power.Steady?)
            && (r.Go? ==> r.m.disk == m.disk.(state := None, disabled := false))
  {
  }

  lemma CommitKeeps(g: Disk, m: Machine, e: Env)
    requires e.Valid() && Inv(g, m.disk, e.identity)
    ensures var r := Commit(m, e);
            && Inv(g, r.m.disk, e.identity) && r.m.disk.live == m.disk.live
            && (r.Stop? && r.why.Refused? ==>
                  r.why.reason in {QuarantineRequired, NotPrepared, ModifiedPam, NotIdle, NotReady})
            && (r.Go? ==> r.m.disk == m.disk.(state := None, disabled := false) && IsQuarantined(m.disk))
            && (m.power.Steady? ==> r.m.power.Steady?)
            && (m.power.Steady? && IsQuarantined(m.disk) && e.ready && e.visible
                && (m.disk.state.Some? ==>
                      && m.disk.state.value.removing && m.disk.state.value.kioskUid == Some(e.identity)
                      && m.disk.pam == Befores(m.disk.state.value) && Idle(m.disk.state, e))
                ==> r.Go?)
  {
    if m.disk.live == CLOSED && (m.disk.state.Some? ==> VerifyOriginals(m.disk.state.value, m.disk.pam)) {
      EraseMarkersKeeps(g, m, e.identity);
    }
  }

  lemma ReopenKeeps(g: Disk, m: Machine, identity: nat)
    requires Inv(g, m.disk, identity) && m.disk.account && m.disk.expiry.Some?
    requires !m.disk.disabled && (m.disk.state.Some? ==> !m.disk.state.value.removing)
    ensures var r := Reopen(m, m.disk.expiry.value);
            && Inv(g, r.m.disk, identity) && (r.Stop? ==> r.why == Crashed)
            && (m.power.Steady? ==> r.Go? && r.m.power.Steady?)
            && (r.Go? ==> r.m.disk == m.disk.(expiry := None, live := g.live))
  {
  }

  lemma ReleaseKeeps(g: Disk, m: Machine, identity: nat)
    requires Inv(g, m.disk, identity)
    ensures var r := ReleaseAccount(m);
            && Inv(g, r.m.disk, identity)
            && (r.Stop? && r.why.Refused? ==> r.why.reason in {AccountMissing, NotCommitted, ChangedExpiry})
            && (r == Stop(r.m, Refused(ChangedExpiry)) <==>
                  && m.disk.account && m.disk.state.None? && m.disk.expiry.Some?
                  && m.disk.expiry.value.phase == Quarantined && m.disk.live != CLOSED)
            && (m.power.Steady? ==> r.m.power.Steady?)
            && (m.power.Steady? && IsQuarantined(m.disk) && m.disk.state.None? ==> r.Go?)
            && (r.Go? ==> r.m.disk == m.disk.(expiry := None, live := g.live)
                          && m.disk.state.None? && !m.disk.disabled)
  {
    if m.disk.account && m.disk.state.None? && m.disk.expiry.Some? {
      ReopenKeeps(g, m, identity);
    }
  }

  lemma ReinstateKeeps(g: Disk, m: Machine, saved: Saved, e: Env)
    requires e.Valid() && Inv(g, m.disk, e.identity) && m.disk.state == Some(saved) && m.disk.live == CLOSED
    ensures var r := Reinstate(m, saved, e);
            && Inv(g, r.m.disk, e.identity) && r.m.disk.live == CLOSED && r.m.disk.account == m.disk.account
            && (r.Stop? ==> r.why == Crashed || r.why == Refused(PolicyMaterial))
            && (r.Go? ==>
                  && !r.m.disk.disabled && r.m.disk.live == CLOSED && r.m.disk.expiry == m.disk.expiry
                  && r.m.disk.state == Some(saved.(previous := PerService(None, None), removing := false))
                  && r.m.disk.pam == Afters(saved) && r.m.disk.policyLoaded)
  {
    if e.material {
      var w: Step := Write(m, m.disk.(policyLoaded := true));
      if w.Go? {
        var r := WriteAfter(w.m, saved, e.order);
        AftersRewrite(w.m, saved, e.order);
        RewriteComplete(w.m.disk, r.m.disk, e, Afters(saved), r.Go?);
        assert Inv(g, r.m.disk, e.identity);
      }
    }
  }

  lemma RollbackKeeps(g: Disk, m: Machine, e: Env, release: bool)
    requires e.Valid() && Inv(g, m.disk, e.identity)
    ensures var r := Rollback(m, e, release);
            && Inv(g, r.m.disk, e.identity)
            && (r.Stop? && r.why.Refused? ==> r.why.reason in {AccountMissing, NotIdle, PolicyMaterial})
            && (r.Go? && release ==> r.m.disk.live == g.live && r.m.disk.expiry.None? && !r.m.disk.disabled)
            && (r.Go? && !release ==> r.m.disk.live == CLOSED)
  {
    if !m.disk.account {
    } else if m.disk.state.None? {
      if release {
        if m.disk.expiry.Some? {
          ReopenKeeps(g, m, e.identity);
        }
      } else {
        QuarantineKeeps(g, m, e.identity);
      }
    } else {
      var saved := m.disk.state.value;
      if Idle(Some(saved), e) {
        QuarantineKeeps(g, m, e.identity);
        var q := Quarantine(m);
        if q.Go? {
          if release {
            ReinstateKeeps(g, q.m, saved, e);
            var r := Reinstate(q.m, saved, e);
            if r.Go? {
              ReopenKeeps(g, r.m, e.identity);
            }
          } else {
            BarKeeps(g, q.m, saved.(removing := true), e);
          }
        }
      }
    }
  }

  lemma FinishRemoveKeeps(g: Disk, m: Machine, e: Env)
    requires e.Valid() && Inv(g, m.disk, e.identity)
    ensures var r := FinishRemove(m, e);
            && Inv(g, r.m.disk, e.identity)
            && (r.Stop? && r.why.Refused? ==> r.why.reason in {AccountPresent, NotIdle, NotPrepared})
            && (r.Go? ==> r.m.disk.state.None? && r.m.disk.expiry.None? && !r.m.disk.disabled)
            && (m.power.Steady? && !m.disk.account && e.quiet ==>
                  (r.Go? <==> m.disk.state.Some? ==> Idle(m.disk.state, e) && m.disk.state.value.removing))
  {
    if !m.disk.account {
      if m.disk.state.Some? && Idle(m.disk.state, e) {
        RestoreLockedKeeps(g, m, m.disk.state.value, e);
        var r := RestoreLocked(m, m.disk.state.value, e);
        if r.Go? {
          EraseMarkersKeeps(g, r.m, e.identity);
        }
      } else if m.disk.state.None? {
        EraseMarkersKeeps(g, m, e.identity);
      }
    }
  }

  lemma PerformKeeps(g: Disk, op: Op, m: Machine, e: Env)
    requires e.Valid() && Inv(g, m.disk, e.identity)
    ensures Inv(g, Perform(op, m, e).m.disk, e.identity)
  {
    match op
    case OpPrepare => PrepareKeeps(g, m, e);
    case OpRestore => RestoreKeeps(g, m, e);
    case OpCommit => CommitKeeps(g, m, e);
    case OpRelease => ReleaseKeeps(g, m, e.identity);
    case OpRollback(release) => RollbackKeeps(g, m, e, release);
    case OpFinishRemove => FinishRemoveKeeps(g, m, e);
  }

  // ---------------------------------------------------------------------------
  // Main results
  // ---------------------------------------------------------------------------

  /** Every disk reached by any attempts, each cut at any write, keeps the invariant. */
  lemma {:induction false} EveryCrashStateIsSafe(g: Disk, attempts: seq<Attempt>, identity: nat)
    requires Genesis(g, identity) && Lawful(attempts, identity)
    ensures Inv(g, Run(g, attempts), identity)
    decreases |attempts|
  {
    if attempts != [] {
      var n := |attempts| - 1;
      EveryCrashStateIsSafe(g, attempts[..n], identity);
      match attempts[n]
      case Try(op, env, power) => PerformKeeps(g, op, Machine(Run(g, attempts[..n]), power), env);
      case AccountErased =>
    }
  }

  /** No crash of the code's own makes a later run find a foreign marker, an unexplained
      PAM file or (except in release) an unexplained expiry. Commit may find PAM files not
      yet restored. Release refuses exactly after a quarantine cut between its two writes. */
  lemma OwnCrashesAreNeverRefused(g: Disk, attempts: seq<Attempt>, op: Op, power: Power, e: Env)
    requires Genesis(g, e.identity) && Lawful(attempts, e.identity) && e.Valid()
    ensures var d := Run(g, attempts);
            var r := Perform(op, Machine(d, power), e);
            && r != Stop(r.m, Refused(UnownedMarker))
            && (op != OpCommit ==> r != Stop(r.m, Refused(ModifiedPam)))
            && (op != OpRestore ==> r != Stop(r.m, Refused(ChangedIdentity)))
            && (r == Stop(r.m, Refused(ChangedExpiry)) <==>
                  && op == OpRelease && d.account && d.state.None? && d.expiry.Some?
                  && d.expiry.value.phase == Quarantined && d.live != CLOSED)
  {
    EveryCrashStateIsSafe(g, attempts, e.identity);
    var m := Machine(Run(g, attempts), power);
    match op
    case OpPrepare => PrepareKeeps(g, m, e);
    case OpRestore => RestoreKeeps(g, m, e);
    case OpCommit => CommitKeeps(g, m, e);
    case OpRelease => ReleaseKeeps(g, m, e.identity);
    case OpRollback(release) => RollbackKeeps(g, m, e, release);
    case OpFinishRemove => FinishRemoveKeeps(g, m, e);
  }

  /** The release refusal above does happen: power fails inside the first quarantine. */
  lemma ReleaseRefusalIsReachable(g: Disk, e: Env)
    requires Genesis(g, e.identity) && e.Valid() && e.quiet && g.state.None? && g.live != CLOSED
    ensures var d := Run(g, [Try(OpPrepare, e, Left(1))]);
            ReleaseAccount(Machine(d, Steady)).Stop?
            && ReleaseAccount(Machine(d, Steady)).why == Refused(ChangedExpiry)
  {
    var attempts := [Try(OpPrepare, e, Left(1))];
    assert attempts[..0] == [];
    assert Run(g, attempts) == After(Run(g, []), attempts[0]);
  }

  lemma ConfigureFrom(g: Disk, m: Machine, e: Env)
    requires Inv(g, m.disk, e.identity) && m.power.Steady? && m.disk.account && e.Valid() && e.Accepts()
    ensures var r := Configure(m, e);
            && Inv(g, r.m.disk, e.identity) && r.m.disk.account
            && (r.Go? <==> m.disk.state.None?
                           || (m.disk.state.value.admission && m.disk.state.value.prelease != Some(e.boot)))
            && (r.Go? ==>
                  && r.m.disk.state.None? && !r.m.disk.disabled && r.m.disk.expiry.None?
                  && r.m.disk.live == g.live
                  && r.m.disk.pam == if g.state.Some? then Befores(g.state.value) else g.pam)
            && (r.Stop? ==>
                  && r.m.disk.state.Some? && r.m.disk.state.value.admission
                  && r.m.disk.state.value.prelease in {m.disk.state.value.prelease, Some(e.boot)})
  {
    PrepareKeeps(g, m, e);
    var p := Prepare(m, e);
    if p.Go? {
      RestoreKeeps(g, p.m, e);
      var q := RestoreOriginalPam(p.m, e);
      CommitKeeps(g, q.m, e);
      var c := Commit(q.m, e);
      ReleaseKeeps(g, c.m, e.identity);
    }
  }

  /** Crash convergence. From every reachable disk an uninterrupted configuration, with its
      observing checks passing, succeeds exactly when the legacy record is gone or was
      admitted in another boot; then nothing of the migration is left and every original is
      back in place. */
  lemma ConfigureConverges(g: Disk, attempts: seq<Attempt>, e: Env)
    requires Genesis(g, e.identity) && Lawful(attempts, e.identity) && e.Valid() && e.Accepts()
    requires Run(g, attempts).account
    ensures var d := Run(g, attempts);
            var r := Configure(Machine(d, Steady), e);
            && (r.Go? <==> d.state.None?
                           || (d.state.value.admission && d.state.value.prelease != Some(e.boot)))
            && (r.Go? ==>
                  && r.m.disk.state.None? && !r.m.disk.disabled && r.m.disk.expiry.None?
                  && r.m.disk.live == g.live
                  && r.m.disk.pam == if g.state.Some? then Befores(g.state.value) else g.pam)
  {
    EveryCrashStateIsSafe(g, attempts, e.identity);
    ConfigureFrom(g, Machine(Run(g, attempts), Steady), e);
  }

  /** A refused first attempt admits the record, so the next boot always converges. */
  lemma NextBootConverges(g: Disk, attempts: seq<Attempt>, e: Env, next: Env)
    requires Genesis(g, e.identity) && Lawful(attempts, e.identity)
    requires e.Valid() && e.Accepts() && next.Valid() && next.Accepts()
    requires next.identity == e.identity && next.boot != e.boot
    requires Run(g, attempts).account
    requires Run(g, attempts).state.Some? ==> Run(g, attempts).state.value.prelease != Some(next.boot)
    ensures Configure(Machine(Configure(Machine(Run(g, attempts), Steady), e).m.disk, Steady), next).Go?
  {
    EveryCrashStateIsSafe(g, attempts, e.identity);
    var m := Machine(Run(g, attempts), Steady);
    ConfigureFrom(g, m, e);
    ConfigureFrom(g, Configure(m, e).m.(power := Steady), next);
  }

  /** Removal converges too: once the account is gone, the finalizer succeeds exactly when
      the record is gone or was prepared for removal in another boot. */
  lemma RemovalConverges(g: Disk, attempts: seq<Attempt>, e: Env)
    requires Genesis(g, e.identity) && Lawful(attempts, e.identity) && e.Valid() && e.quiet
    requires !Run(g, attempts).account
    ensures var d := Run(g, attempts);
            var r := FinishRemove(Machine(d, Steady), e);
            && (r.Go? <==> d.state.None?
                           || (d.state.value.removing && d.state.value.admission
                               && d.state.value.prelease != Some(e.boot)))
            && (r.Go? ==>
                  && r.m.disk.state.None? && !r.m.disk.disabled && r.m.disk.expiry.None?
                  && r.m.disk.pam == if g.state.Some? then Befores(g.state.value) else g.pam)
  {
    EveryCrashStateIsSafe(g, attempts, e.identity);
    FinishRemoveKeeps(g, Machine(Run(g, attempts), Steady), e);
  }

  /** Only release and a releasing rollback ever reopen a closed account, and a releasing
      rollback reopens it only after the legacy gates and their policy are back. */
  lemma OnlyReleaseReopens(g: Disk, op: Op, m: Machine, e: Env)
    requires e.Valid() && Inv(g, m.disk, e.identity) && m.disk.account && m.disk.live == CLOSED
    ensures var d := Perform(op, m, e).m.disk;
            d.live != CLOSED ==>
              || (op == OpRelease && m.disk.state.None?)
              || (op == OpRollback(true)
                  && (d.state.Some? ==> d.pam == Afters(d.state.value) && d.policyLoaded))
  {
    match op
    case OpPrepare => PrepareKeeps(g, m, e);
    case OpRestore => RestoreKeeps(g, m, e);
    case OpCommit => CommitKeeps(g, m, e);
    case OpRelease =>
    case OpRollback(release) => RollbackReopens(g, m, e, release);
    case OpFinishRemove =>
  }

  lemma BarredStaysClosed(g: Disk, m: Machine, e: Env)
    requires e.Valid() && Inv(g, m.disk, e.identity) && m.disk.account && m.disk.live == CLOSED
    ensures Rollback(m, e, false).m.disk.live == CLOSED
  {
    QuarantineKeeps(g, m, e.identity);
    if m.disk.state.Some? && Idle(m.disk.state, e) {
      var q := Quarantine(m);
      if q.Go? {
        BarKeeps(g, q.m, m.disk.state.value.(removing := true), e);
      }
    }
  }

  lemma ReinstatedReopens(g: Disk, m: Machine, saved: Saved, e: Env)
    requires e.Valid() && Inv(g, m.disk, e.identity) && m.disk.state == Some(saved) && m.disk.live == CLOSED
    ensures var r := Reinstate(m, saved, e);
            && (r.Stop? ==> r.m.disk.live == CLOSED)
            && (r.Go? ==>
                  var d := RollbackRelease(r.m).m.disk;
                  d.state.Some? && d.pam == Afters(d.state.value) && d.policyLoaded)
  {
    ReinstateKeeps(g, m, saved, e);
  }

  lemma RollbackReopens(g: Disk, m: Machine, e: Env, release: bool)
    requires e.Valid() && Inv(g, m.disk, e.identity) && m.disk.account && m.disk.live == CLOSED
    ensures var d := Rollback(m, e, release).m.disk;
            d.live != CLOSED ==>
              release && (d.state.Some? ==> d.pam == Afters(d.state.value) && d.policyLoaded)
  {
    if !release {
      BarredStaysClosed(g, m, e);
    } else if m.disk.state.Some? && Idle(m.disk.state, e) {
      QuarantineKeeps(g, m, e.identity);
      var q := Quarantine(m);
      if q.Go? {
        ReinstatedReopens(g, q.m, m.disk.state.value, e);
      }
    }
  }
}
