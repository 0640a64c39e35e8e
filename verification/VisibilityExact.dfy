/** What the visibility transaction needs and achieves, on every directory whatsoever. */
module VisibilityExactness {
  import opened Common
  import opened CrashSteps
  import opened KeyFile
  import opened Visibility

  /** Nothing is pending and the account is visible. */
  predicate Quiet(d: Disk) {
    && d.slot.None?
    && (match d.cache
        case None => true
        case Some(cache) => cache.mark.None? && IsShown(cache.contents))
  }

  /** A mark on the cache is of this account's own, finished transaction. */
  predicate OwnMark(cache: Node, uid: nat) {
    cache.mark.Some? ==>
      && cache.mark.value.uid == uid && cache.mark.value.after == cache.contents
      && cache.mark.value.metadata == cache.metadata
  }

  /** A pending slot is of this account's own transaction, from exactly this cache. */
  predicate OwnSlot(slot: Option<Node>, cache: Node, uid: nat) {
    slot.Some? ==>
      && slot.value.mark.Some?
      && var record := slot.value.mark.value;
         && record.uid == uid && record.inode == cache.inode
         && record.before == cache.contents && record.after == slot.value.contents
         && record.metadata == cache.metadata && record.metadata == slot.value.metadata
  }

  /** What decides a run. */
  predicate MayProceed(d: Disk, e: Env) {
    match d.cache
    case None => d.slot.None?
    case Some(cache) =>
      && VisibilityPosition(cache.contents).At?
      && (Quiet(d) || (e.startPre && OwnMark(cache, e.uid) && OwnSlot(d.slot, cache, e.uid)))
  }

  function Unmarked(d: Disk): Disk {
    if d.cache.None? then d else d.(cache := Some(d.cache.value.(mark := None)))
  }

  function AfterEdit(contents: string): string {
    if VisibilityPosition(contents).At? then Edits(contents) else contents
  }

  /** The edited node: the text with its edit, the old metadata, and the record of the transaction. */
  function Marked(cache: Node, e: Env): Node {
    var after := AfterEdit(cache.contents);
    Node(e.inode, after, Some(Record(e.uid, cache.inode, cache.contents, after, cache.metadata)), cache.metadata)
  }

  /** The directory an uncut, permitted run leaves. */
  function Achieved(d: Disk, e: Env): Disk {
    match d.cache
    case None => d
    case Some(cache) =>
      if Quiet(d) then d
      else if IsShown(cache.contents) then Disk(Some(cache.(mark := None)), None)
      else Disk(Some(Node(e.inode, AfterEdit(cache.contents), None, cache.metadata)), None)
  }

  /** The steps of the way, in their order. */
  predicate OnTheWay(d: Disk, e: Env, d': Disk) {
    || d' == d || d' == Achieved(d, e)
    || (d.cache.Some? &&
        var clean := Unmarked(d).(slot := None);
        || d' == Unmarked(d) || d' == clean
        || (!IsShown(d.cache.value.contents)
            && (d' == clean.(slot := Some(Marked(d.cache.value, e))) || d' == Disk(Some(Marked(d.cache.value, e)), None))))
  }

  lemma RecoverIsExact(d: Disk, power: Power, e: Env)
    requires d.cache.Some?
    ensures
      var cache := d.cache.value;
      var r := Recover(Machine(d, power), cache, e);
      var own := OwnMark(cache, e.uid) && OwnSlot(d.slot, cache, e.uid);
      && (power.Steady? ==> (r.Go? <==> own) && r.m.power.Steady?)
      && (r.Go? ==> own && r.m.disk == Unmarked(d).(slot := None))
      && (own && r.Stop? ==> r.why == Crashed)
      && r.m.disk in {d, Unmarked(d), Unmarked(d).(slot := None)}
      && (!own ==> r.m.disk in {d, Unmarked(d)})
  {
  }

  lemma PublishIsExact(cache: Node, power: Power, e: Env)
    requires cache.mark.None?
    ensures
      var r := Publish(Machine(Disk(Some(cache), None), power), cache, AfterEdit(cache.contents), e);
      var marked := Marked(cache, e);
      && (power.Steady? ==> r.Go?)
      && (r.Go? ==> r.m.disk == Disk(Some(marked.(mark := None)), None))
      && (r.Stop? ==> r.why == Crashed)
      && r.m.disk in {Disk(Some(cache), None), Disk(Some(cache), Some(marked)), Disk(Some(marked), None),
                      Disk(Some(marked.(mark := None)), None)}
  {
  }

  /** On every directory, even one edited by others: an uncut run succeeds exactly when it may
      proceed, and leaves exactly one directory; a cut one stops at a step of the way; a refused one
      changes nothing, or drops the mark of a finished transaction. */
  lemma TransactionIsExact(d: Disk, e: Env, power: Power)
    ensures
      var r := MakeVisible(Machine(d, power), e);
      && (power.Steady? ==> (r.Go? <==> MayProceed(d, e)))
      && (r.Go? ==> MayProceed(d, e) && r.m.disk == Achieved(d, e))
      && (if MayProceed(d, e) then r.Stop? ==> r.why == Crashed && OnTheWay(d, e, r.m.disk)
          else r.m.disk == d || (r.m.disk == Unmarked(d) && d.cache.Some? && OwnMark(d.cache.value, e.uid)))
  {
    if d.cache.Some? && VisibilityPosition(d.cache.value.contents).At? && !Quiet(d) && e.startPre {
      RecoverIsExact(d, power, e);
      var r := Recover(Machine(d, power), d.cache.value, e);
      if r.Go? && !IsShown(d.cache.value.contents) {
        PublishIsExact(d.cache.value.(mark := None), r.m.power, e);
      }
    }
  }
}
