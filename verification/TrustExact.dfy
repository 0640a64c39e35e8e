/** What configuring the trust backend needs and achieves, on every disk whatsoever. */
module TrustExactness {
  import opened Common
  import opened CrashSteps
  import opened TrustConfig
  import opened TrustBackend

  /** A rollback record is sound: its two texts differ and the second is the first one's edit. */
  predicate Sound(record: Record) {
    record.before != record.after && Enabled(record.before) == Ok(record.after)
  }

  /** What decides a run: a sound record with one of its texts in place, or a text that can be edited,
      and nothing in other trust files if it has to be. */
  predicate Configurable(d: Disk, e: Env) {
    match d.record
    case Some(record) => Sound(record) && (d.config == record.before || d.config == record.after)
    case None =>
      var result := Enabled(d.config);
      result.Ok? && (result.contents == d.config || e.clean)
  }

  /** The text to install, if any. */
  function Target(d: Disk): Option<Record> {
    match d.record
    case Some(record) => Some(record)
    case None =>
      var result := Enabled(d.config);
      if result.Ok? && result.contents != d.config then Some(Record(d.config, result.contents)) else None
  }

  /** The disk an uncut, permitted run leaves: the record, a receipt of this boot unless there was
      one for a text already in place, and the edited text. */
  function Configured(d: Disk, e: Env): Disk {
    match Target(d)
    case None => d
    case Some(record) =>
      if d.config == record.after then
        d.(activation := if d.activation.None? then Some(Boot(e.boot)) else d.activation)
      else Disk(record.after, Some(record), Some(Boot(e.boot)), Some(e.boot))
  }

  /** The record first, then the receipt, then the text. */
  predicate OnTheWay(d: Disk, e: Env, d': Disk) {
    || d' == d || d' == Configured(d, e)
    || (Target(d).Some? && d.config != Target(d).value.after &&
        (d' == d.(record := Target(d)) || d' == d.(record := Target(d), activation := Some(Boot(e.boot)))))
  }

  lemma InstallIsExact(d: Disk, after: string, e: Env, power: Power)
    ensures
      var r := Install(Machine(d, power), after, e);
      var done := if d.config == after then d.(activation := if d.activation.None? then Some(Boot(e.boot)) else d.activation)
                  else d.(config := after, activation := Some(Boot(e.boot)), installed := Some(e.boot));
      && (power.Steady? ==> r.Go?)
      && (r.Go? ==> r.m.disk == done)
      && (r.Stop? ==> r.why == Crashed)
      && (r.m.disk in {d, done} || (d.config != after && r.m.disk == d.(activation := Some(Boot(e.boot)))))
  {
  }

  /** On every disk: an uncut run succeeds exactly when the disk can be configured, and leaves
      exactly one disk; a cut one is on the way; a refused one changes nothing. */
  lemma ConfigurationIsExact(d: Disk, e: Env, power: Power)
    ensures
      var r := Prepare(Machine(d, power), e);
      && (power.Steady? ==> (r.Go? <==> Configurable(d, e)))
      && (r.Go? ==> Configurable(d, e) && r.m.disk == Configured(d, e))
      && (if Configurable(d, e) then r.Stop? ==> r.why == Crashed && OnTheWay(d, e, r.m.disk) else r.m.disk == d)
  {
    var target := Target(d);
    if target.Some? {
      if d.record.Some? {
        InstallIsExact(d, target.value.after, e, power);
      } else {
        var w: Step := Write(Machine(d, power), d.(record := target));
        InstallIsExact(d.(record := target), target.value.after, e, w.m.power);
      }
    }
  }

  /** What a finished run answers: nothing to do, unless the receipt is of this very boot. */
  lemma AnswerIsExact(d: Disk, e: Env)
    requires Configurable(d, e)
    ensures
      var r := Prepare(Machine(d, Steady), e);
      Report(r.m.disk, e) == Reconfigured <==>
        Target(d).Some? &&
        (d.config != Target(d).value.after || d.activation.None? || d.activation == Some(Boot(e.boot)))
  {
    ConfigurationIsExact(d, e, Steady);
    AnswerOf(d, e);
  }

  lemma AnswerOf(d: Disk, e: Env)
    requires Configurable(d, e)
    ensures
      Report(Configured(d, e), e) == Reconfigured <==>
        Target(d).Some? &&
        (d.config != Target(d).value.after || d.activation.None? || d.activation == Some(Boot(e.boot)))
  {
  }

  /** Readiness is recorded exactly beside a record with a receipt; without a record there is
      nothing to acknowledge. */
  lemma AcknowledgementIsExact(d: Disk, power: Power)
    ensures
      var r := Complete(Machine(d, power));
      && (power.Steady? ==> (r.Go? <==> d.record.Some? ==> d.activation.Some?))
      && (r.Go? ==> (d.record.Some? ==> d.activation.Some?)
                    && r.m.disk == if d.record.None? then d else d.(activation := Some(Ready)))
      && (r.Stop? ==> r.m.disk == d)
  {
  }
}
