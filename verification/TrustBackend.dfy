/** The trust backend of packaging/package_activation.py over crashes and reboots: the rollback
    record, the activation receipt and the configuration are written in that order, and the
    receipt tells a configure retry whether a boot has loaded the edited configuration. */
module TrustBackend {
  import opened Common
  import opened CrashSteps
  import opened TrustConfig

  datatype Status = Ready | Boot(id: nat)

  datatype Record = Record(before: string, after: string)

  /** `installed` is a history variable: the boot in which the configuration was last replaced. */
  datatype Disk = Disk(config: string, record: Option<Record>, activation: Option<Status>, installed: Option<nat>)

  datatype Reason = Unacceptable | Modified | AdministratorTrust | NoReceipt

  type Machine = Powered<Disk>
  type Step = Progress<Disk, Reason>

  /** The boot that runs the operation, and whether other trust files hold no records. */
  datatype Env = Env(boot: nat, clean: bool)

  datatype Answer = Nothing | Reconfigured

  predicate Rollback(record: Record) {
    record.before != record.after && Enabled(record.before) == Ok(record.after)
  }

  /** The receipt before the configuration. */
  function Install(m: Machine, after: string, e: Env): Step {
    var stale := m.disk.config != after;
    var m :- if stale || m.disk.activation.None? then Write(m, m.disk.(activation := Some(Boot(e.boot)))) else Go(m);
    if stale then Write(m, m.disk.(config := after, installed := Some(e.boot))) else Go(m)
  }

  predicate Edition(config: string, record: Record) {
    config == record.before || config == record.after
  }

  /** A run that finds the rollback record. */
  function Continue(m: Machine, record: Record, sound: bool, e: Env): Step {
    var m :- Check(m, sound && Edition(m.disk.config, record), Modified);
    Install(m, record.after, e)
  }

  /** A run that finds none; `result` is the edit of the configuration. */
  function Begin(m: Machine, result: Result, e: Env): Step {
    var m :- Check(m, result.Ok?, Unacceptable);
    if result.contents == m.disk.config then Go(m)
    else
      var m :- Check(m, e.clean, AdministratorTrust);
      var m :- Write(m, m.disk.(record := Some(Record(m.disk.config, result.contents))));
      Install(m, result.contents, e)
  }

  function Prepare(m: Machine, e: Env): Step {
    if m.disk.record.Some? then Continue(m, m.disk.record.value, Rollback(m.disk.record.value), e)
    else Begin(m, Enabled(m.disk.config), e)
  }

  /** What the finished operation reports. */
  function Report(d: Disk, e: Env): Answer {
    if d.record.Some? && d.activation == Some(Boot(e.boot)) then Reconfigured else Nothing
  }

  function Complete(m: Machine): Step {
    if m.disk.record.None? then Go(m)
    else
      var m :- Check(m, m.disk.activation.Some?, NoReceipt);
      Write(m, m.disk.(activation := Some(Ready)))
  }

  // ---------------------------------------------------------------------------
  // Whole runs
  // ---------------------------------------------------------------------------

  datatype Event = Configure(clean: bool, power: Power) | Acknowledge(power: Power) | Reboot

  datatype World = World(disk: Disk, boot: nat)

  function Do(w: World, e: Event): World {
    match e
    case Configure(clean, power) => w.(disk := Prepare(Machine(w.disk, power), Env(w.boot, clean)).m.disk)
    case Acknowledge(power) => w.(disk := Complete(Machine(w.disk, power)).m.disk)
    case Reboot => w.(boot := w.boot + 1)
  }

  function Run(w: World, events: seq<Event>): World
    decreases |events|
  {
    if events == [] then w else Do(Run(w, events[..|events| - 1]), events[|events| - 1])
  }

  /** A machine this program never configured ... */
  predicate Untouched(w: World) {
    w.disk.record.None? && w.disk.activation.None? && w.disk.installed.None?
  }

  /** ... or one that a version without receipts configured. */
  predicate Legacy(w: World) {
    && w.disk.record.Some? && w.disk.activation.None? && Rollback(w.disk.record.value)
    && (if w.disk.config == w.disk.record.value.after then w.disk.installed.Some? && w.disk.installed.value <= w.boot
        else w.disk.config == w.disk.record.value.before && w.disk.installed.None?)
  }

  predicate Genesis(w: World) {
    Untouched(w) || Legacy(w)
  }

  /** The configuration this machine had before, and what the edit makes of it. */
  function Original(w: World): string {
    if w.disk.record.Some? then w.disk.record.value.before else w.disk.config
  }

  /** What a recorded transaction leaves behind; `receipts`: every installation wrote one. */
  predicate Recorded(d: Disk, boot: nat, receipts: bool)
    requires d.record.Some?
  {
    && Edition(d.config, d.record.value)
    && (d.activation.Some? && d.activation.value.Boot? ==> d.activation.value.id <= boot)
    && (d.config == d.record.value.after ==>
          && d.installed.Some? && d.installed.value <= boot
          && (receipts ==> d.activation.Some?)
          && (d.activation.Some? && d.activation.value.Boot? ==>
                && d.installed.value <= d.activation.value.id
                && (receipts ==> d.installed.value == d.activation.value.id)))
  }

  predicate Inv(start: World, w: World) {
    && Original(w) == Original(start)
    && (w.disk.record.None? ==> w.disk == start.disk && Untouched(w))
    && (w.disk.record.Some? ==> Rollback(w.disk.record.value) && Recorded(w.disk, w.boot, Untouched(start)))
  }

  lemma InstallKeeps(m: Machine, e: Env, receipts: bool)
    requires m.disk.record.Some? && Recorded(m.disk, e.boot, receipts)
    ensures var r := Install(m, m.disk.record.value.after, e);
            r.m.disk.record == m.disk.record && Recorded(r.m.disk, e.boot, receipts)
  {
  }

  lemma InstallFinishes(d: Disk, e: Env)
    requires d.record.Some?
    ensures
      var r := Install(Machine(d, Steady), d.record.value.after, e);
      && r.Go? && r.m.disk.record == d.record && r.m.disk.config == d.record.value.after && r.m.disk.activation.Some?
      && Install(Machine(r.m.disk, Left(0)), d.record.value.after, e).Go?
  {
  }

  lemma BeginKeeps(m: Machine, result: Result, e: Env, receipts: bool)
    requires m.disk.record.None? && m.disk.activation.None?
    ensures
      var d := Begin(m, result, e).m.disk;
      if d.record.None? then d == m.disk
      else
        && result.Ok? && result.contents != m.disk.config
        && d.record.value == Record(m.disk.config, result.contents) && Recorded(d, e.boot, receipts)
  {
    if result.Ok? && result.contents != m.disk.config && e.clean {
      var written: Step := Write(m, m.disk.(record := Some(Record(m.disk.config, result.contents))));
      if written.Go? {
        InstallKeeps(written.m, e, receipts);
      }
    }
  }

  lemma ConfigureKeeps(start: World, w: World, clean: bool, power: Power)
    requires Inv(start, w)
    ensures Inv(start, Do(w, Configure(clean, power)))
  {
    var m: Machine := Machine(w.disk, power);
    if w.disk.record.Some? {
      InstallKeeps(m, Env(w.boot, clean), Untouched(start));
    } else {
      BeginKeeps(m, Enabled(w.disk.config), Env(w.boot, clean), Untouched(start));
    }
  }

  lemma ReceiptKeeps(d: Disk, boot: nat, receipts: bool)
    requires d.record.Some? && Recorded(d, boot, receipts)
    ensures Recorded(d.(activation := Some(Ready)), boot, receipts)
  {
  }

  lemma AcknowledgeKeeps(start: World, w: World, power: Power)
    requires Inv(start, w)
    ensures Inv(start, Do(w, Acknowledge(power)))
  {
    var d := Do(w, Acknowledge(power)).disk;
    if w.disk.record.Some? {
      ReceiptKeeps(w.disk, w.boot, Untouched(start));
      assert d == w.disk || d == w.disk.(activation := Some(Ready));
    } else {
      assert d == w.disk;
    }
  }

  lemma DoKeeps(start: World, w: World, e: Event)
    requires Inv(start, w)
    ensures Inv(start, Do(w, e))
  {
    match e
    case Configure(clean, power) => ConfigureKeeps(start, w, clean, power);
    case Acknowledge(power) => AcknowledgeKeeps(start, w, power);
    case Reboot =>
  }

  lemma {:induction false} EveryCrashStateKeeps(start: World, events: seq<Event>)
    requires Genesis(start)
    ensures Inv(start, Run(start, events))
    decreases |events|
  {
    if events != [] {
      var last := |events| - 1;
      EveryCrashStateKeeps(start, events[..last]);
      DoKeeps(start, Run(start, events[..last]), events[last]);
    }
  }

  // ---------------------------------------------------------------------------
  // Main results
  // ---------------------------------------------------------------------------

  /** After any crashes and reboots the configuration is byte for byte the original or its edit,
      and it is the edit only once the rollback record (and, unless an older version installed
      it, the receipt) is durable. */
  lemma {:induction false} ConfigIsBeforeOrAfter(start: World, events: seq<Event>)
    requires Genesis(start)
    ensures
      var d := Run(start, events).disk;
      var before := Original(start);
      && (d.config == before || Enabled(before) == Ok(d.config))
      && (d.config != before ==>
            && d.record == Some(Record(before, d.config))
            && (Untouched(start) ==> d.activation.Some?))
  {
    EveryCrashStateKeeps(start, events);
  }

  /** A configure retry answers "nothing to do" only when a boot has loaded the edit: file trust
      was already on, the edit was installed in an earlier boot, or its readiness was recorded.
      For a machine without a legacy record these are exactly the cases. */
  lemma {:induction false} NothingMeansLoaded(start: World, events: seq<Event>, clean: bool)
    requires Genesis(start)
    requires Prepare(Machine(Run(start, events).disk, Steady), Env(Run(start, events).boot, clean)).Go?
    ensures
      var w := Run(start, events);
      var d := Prepare(Machine(w.disk, Steady), Env(w.boot, clean)).m.disk;
      var loaded :=
        || (d.record.None? && Enabled(d.config) == Ok(d.config))
        || (d.record.Some? && d.activation == Some(Ready))
        || (d.record.Some? && d.installed.Some? && d.installed.value < w.boot);
      && (Report(d, Env(w.boot, clean)) == Nothing ==> loaded)
      && (Untouched(start) && loaded ==> Report(d, Env(w.boot, clean)) == Nothing)
      && (d.record.Some? ==> d.config == d.record.value.after)
  {
    EveryCrashStateKeeps(start, events);
    ConfigureKeeps(start, Run(start, events), clean, Steady);
    PrepareFinishes(start, Run(start, events), clean);
    var w := Do(Run(start, events), Configure(clean, Steady));
    if w.disk.record.Some? {
      ReceiptIsExact(w.disk, w.boot, Untouched(start));
    }
  }

  /** The report judges the receipt; this is what the receipt says about the boots. */
  lemma ReceiptIsExact(d: Disk, boot: nat, receipts: bool)
    requires d.record.Some? && d.activation.Some? && d.config == d.record.value.after && Recorded(d, boot, receipts)
    ensures d.activation != Some(Boot(boot)) ==> d.activation == Some(Ready) || d.installed.value < boot
    ensures receipts && d.activation == Some(Boot(boot)) ==> d.installed == Some(boot)
  {
    match d.activation.value
    case Ready => assert d.activation == Some(Ready);
    case Boot(id) => assert d.activation == Some(Boot(id));
  }

  /** What a finished run leaves. */
  lemma PrepareFinishes(start: World, w: World, clean: bool)
    requires Inv(start, w)
    ensures
      var r := Prepare(Machine(w.disk, Steady), Env(w.boot, clean));
      && (r.Go? <==> w.disk.record.Some?
                     || (Enabled(w.disk.config).Ok? && (Enabled(w.disk.config).contents == w.disk.config || clean)))
      && (r.Go? ==>
            if r.m.disk.record.Some? then r.m.disk.config == r.m.disk.record.value.after && r.m.disk.activation.Some?
            else Enabled(r.m.disk.config) == Ok(r.m.disk.config))
  {
    if w.disk.record.Some? {
      InstallFinishes(w.disk, Env(w.boot, clean));
    } else if Enabled(w.disk.config).Ok? && Enabled(w.disk.config).contents != w.disk.config && clean {
      InstallFinishes(w.disk.(record := Some(Record(w.disk.config, Enabled(w.disk.config).contents))), Env(w.boot, clean));
    }
  }

  /** From every crash state a rerun ends with file trust on in the configuration, and a second
      rerun writes nothing. It is refused exactly when nothing was recorded yet and the
      configuration is not acceptable, or other trust files must be reviewed first. */
  lemma {:induction false} RetryConverges(start: World, events: seq<Event>, clean: bool)
    requires Genesis(start)
    ensures
      var w := Run(start, events);
      var e := Env(w.boot, clean);
      var r := Prepare(Machine(w.disk, Steady), e);
      && (r.Go? <==> w.disk.record.Some?
                     || (Enabled(w.disk.config).Ok? && (Enabled(w.disk.config).contents == w.disk.config || clean)))
      && (r.Go? ==>
            && Enabled(r.m.disk.config) == Ok(r.m.disk.config)
            && Prepare(Machine(r.m.disk, Left(0)), e).Go?)
      && (!r.Go? ==> r.m.disk == w.disk)
  {
    var w := Run(start, events);
    EveryCrashStateKeeps(start, events);
    PrepareFinishes(start, w, clean);
    ConfigureKeeps(start, w, clean, Steady);
    var r := Prepare(Machine(w.disk, Steady), Env(w.boot, clean));
    if r.Go? {
      RerunIsQuiet(start, World(r.m.disk, w.boot), clean);
    }
  }

  lemma RerunIsQuiet(start: World, w: World, clean: bool)
    requires Inv(start, w)
    requires if w.disk.record.Some? then w.disk.config == w.disk.record.value.after && w.disk.activation.Some?
             else Enabled(w.disk.config) == Ok(w.disk.config)
    ensures Enabled(w.disk.config) == Ok(w.disk.config)
    ensures Prepare(Machine(w.disk, Left(0)), Env(w.boot, clean)).Go?
  {
    if w.disk.record.Some? {
      EnabledIsIdempotent(w.disk.record.value.before);
    }
  }

  // ---------------------------------------------------------------------------
  // The files in place
  // ---------------------------------------------------------------------------

  class TrustFiles {
    var config: string
    var record: Option<Record>
    var activation: Option<Status>
    ghost var installed: Option<nat>
    var power: Power

    ghost function Now(): Machine
      reads this
    {
      Machine(Disk(config, record, activation, installed), power)
    }

    method WriteActivation(status: Status) returns (o: Outcome<Reason>)
      modifies this
      ensures Reached(Now(), o) == Write(old(Now()), old(Now()).disk.(activation := Some(status)))
    {
      o := Done;
      power :- Spend(power);
      activation := Some(status);
    }

    method DoInstall(after: string, e: Env) returns (o: Outcome<Reason>)
      modifies this
      ensures Reached(Now(), o) == Install(old(Now()), after, e)
      ensures record == old(record)
    {
      var stale := config != after;
      if stale || activation.None? {
        :- WriteActivation(Boot(e.boot));
      }
      if stale {
        power :- Spend(power);
        config, installed := after, Some(e.boot);
      }
      o := Done;
    }

    method DoContinue(kept: Record, sound: bool, e: Env) returns (o: Outcome<Reason>)
      modifies this
      ensures Reached(Now(), o) == Continue(old(Now()), kept, sound, e)
    {
      var known := config == kept.before || config == kept.after;
      :- Require(sound && known, Modified);
      o := DoInstall(kept.after, e);
    }

    method DoBegin(result: Result, e: Env) returns (o: Outcome<Reason>)
      modifies this
      ensures Reached(Now(), o) == Begin(old(Now()), result, e)
    {
      var accepted := result.Ok?;
      :- Require(accepted, Unacceptable);
      if result.contents == config {
        return Done;
      }
      :- Require(e.clean, AdministratorTrust);
      power :- Spend(power);
      record := Some(Record(config, result.contents));
      o := DoInstall(result.contents, e);
    }

    method DoPrepare(e: Env) returns (o: Outcome<Reason>, answer: Answer)
      modifies this
      ensures Reached(Now(), o) == Prepare(old(Now()), e)
      ensures o.Done? ==> answer == Report(Now().disk, e)
    {
      if record.Some? {
        o := DoContinue(record.value, Rollback(record.value), e);
      } else {
        o := DoBegin(Enabled(config), e);
      }
      answer := if record.Some? && activation == Some(Boot(e.boot)) then Reconfigured else Nothing;
    }

    method DoComplete() returns (o: Outcome<Reason>)
      modifies this
      ensures Reached(Now(), o) == Complete(old(Now()))
    {
      if record.None? {
        return Done;
      }
      :- Require(activation.Some?, NoReceipt);
      o := WriteActivation(Ready);
    }
  }
}
