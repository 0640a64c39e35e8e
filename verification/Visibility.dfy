/** The visibility transaction of packaging/lifecycle_migration.py: the edited cache is linked
    under a slot name, renamed over the cache name, and only then loses its transaction mark. */
module Visibility {
  import opened Common
  import opened CrashSteps
  import opened KeyFile

  /** The transaction attribute. A digest is represented by the text it is taken of. */
  datatype Record = Record(uid: nat, inode: nat, before: string, after: string, metadata: string)

  /** An inode: owner, mode and the other attributes are its metadata. */
  datatype Node = Node(inode: nat, contents: string, mark: Option<Record>, metadata: string)

  datatype Disk = Disk(cache: Option<Node>, slot: Option<Node>)

  datatype Reason =
    | OrphanedSlot | AmbiguousCache | NotStartPre | ChangedCommitted | ChangedSlot | ReadbackFailed

  type Machine = Powered<Disk>
  type Step = Progress<Disk, Reason>

  datatype Env = Env(uid: nat, startPre: bool, inode: nat)

  predicate IsShown(contents: string) {
    VisibilityPosition(contents).At? && VisibilityPosition(contents).visible
  }

  /** What verify_visibility accepts. */
  predicate Settled(d: Disk) {
    d.slot.None? && (d.cache.Some? ==> d.cache.value.mark.None? && IsShown(d.cache.value.contents))
  }

  predicate Committed(record: Record, node: Node, uid: nat) {
    record.uid == uid && record.after == node.contents && record.metadata == node.metadata
  }

  predicate Owned(slot: Node, cache: Node, uid: nat) {
    && slot.mark.Some?
    && Committed(slot.mark.value, slot, uid)
    && slot.mark.value.inode == cache.inode && slot.mark.value.before == cache.contents
    && slot.mark.value.metadata == cache.metadata
  }

  /** Finishes or discards an interrupted transaction. */
  function Recover(m: Machine, cache: Node, e: Env): Step {
    var m :- Check(m, cache.mark.Some? ==> Committed(cache.mark.value, cache, e.uid), ChangedCommitted);
    var m :- if cache.mark.Some? then Write(m, m.disk.(cache := Some(cache.(mark := None)))) else Go(m);
    if m.disk.slot.None? then Go(m)
    else
      var m :- Check(m, Owned(m.disk.slot.value, cache, e.uid), ChangedSlot);
      Write(m, m.disk.(slot := None))
  }

  function Edition(cache: Node, after: string, e: Env): Node {
    Node(e.inode, after, Some(Record(e.uid, cache.inode, cache.contents, after, cache.metadata)), cache.metadata)
  }

  /** Publishes the edited text: link the slot, rename it over the cache, drop its mark. */
  function Publish(m: Machine, cache: Node, after: string, e: Env): Step {
    var edition := Edition(cache, after, e);
    var m :- Write(m, m.disk.(slot := Some(edition)));
    var m :- Write(m, Disk(Some(edition), None));
    var m :- Write(m, m.disk.(cache := Some(edition.(mark := None))));
    Check(m, m.disk.cache == Some(Node(e.inode, after, None, cache.metadata)), ReadbackFailed)
  }

  function MakeVisible(m: Machine, e: Env): Step {
    if m.disk.cache.None? then Check(m, m.disk.slot.None?, OrphanedSlot)
    else
      var cache := m.disk.cache.value;
      var m :- Check(m, VisibilityPosition(cache.contents).At?, AmbiguousCache);
      if Settled(m.disk) then Go(m)
      else
        var m :- Check(m, e.startPre, NotStartPre);
        var m :- Recover(m, cache, e);
        if IsShown(cache.contents) then Go(m)
        else Publish(m, cache.(mark := None), Edits(cache.contents), e)
  }

  // ---------------------------------------------------------------------------
  // Whole runs
  // ---------------------------------------------------------------------------

  datatype Attempt = Attempt(env: Env, power: Power)

  function Run(d: Disk, attempts: seq<Attempt>): Disk
    decreases |attempts|
  {
    if attempts == [] then d
    else
      var last := attempts[|attempts| - 1];
      MakeVisible(Machine(Run(d, attempts[..|attempts| - 1]), last.power), last.env).m.disk
  }

  predicate Lawful(attempts: seq<Attempt>, uid: nat) {
    forall i | 0 <= i < |attempts| :: attempts[i].env.uid == uid
  }

  /** An account cache without a transaction, with contents the edit accepts. */
  predicate Genesis(n: Node) {
    n.mark.None? && VisibilityPosition(n.contents).At?
  }

  /** The cache name holds all of the old text or all of the new one, never anything else; a
      mark or a slot is always the evidence of exactly this transaction. */
  predicate Between(n: Node, after: string, d: Disk, uid: nat) {
    && d.cache.Some?
    && d.cache.value.metadata == n.metadata
    && (d.cache.value == n || d.cache.value.contents == after)
    && (d.cache.value.mark.Some? ==>
          Committed(d.cache.value.mark.value, d.cache.value, uid) && d.cache.value.contents == after && d.slot.None?)
    && (d.slot.Some? ==>
          d.cache == Some(n) && Owned(d.slot.value, n, uid) && d.slot.value.contents == after)
  }

  predicate Inv(n: Node, d: Disk, uid: nat)
    requires Genesis(n)
  {
    && Between(n, Edits(n.contents), d, uid)
    && (d.cache.value != n || d.slot.Some? ==> !IsShown(n.contents))
  }

  lemma RecoverKeeps(n: Node, after: string, m: Machine, e: Env)
    requires n.mark.None? && Between(n, after, m.disk, e.uid)
    ensures var r := Recover(m, m.disk.cache.value, e);
            && Between(n, after, r.m.disk, e.uid)
            && (r.Stop? ==> r.why == Crashed)
            && (r.m.disk.slot.Some? ==> m.disk.slot.Some?)
            && (m.power.Steady? ==> r.Go? && r.m.power.Steady?)
            && r.m.disk.cache.value.(mark := None) == m.disk.cache.value.(mark := None)
            && (r.Go? ==> r.m.disk == Disk(Some(m.disk.cache.value.(mark := None)), None))
  {
  }

  lemma PublishKeeps(n: Node, after: string, m: Machine, e: Env)
    requires n.mark.None? && m.disk == Disk(Some(n), None)
    ensures var r := Publish(m, n, after, e);
            && Between(n, after, r.m.disk, e.uid)
            && (r.Stop? ==> r.why == Crashed)
            && (m.power.Steady? ==> r.Go?)
            && (r.Go? ==> r.m.disk == Disk(Some(Node(e.inode, after, None, n.metadata)), None))
  {
  }

  lemma ShownAfter(n: Node)
    requires Genesis(n)
    ensures IsShown(Edits(n.contents)) && (IsShown(n.contents) ==> Edits(n.contents) == n.contents)
  {
    if !IsShown(n.contents) {
      EditPreservesMeaning(n.contents, Edits(n.contents));
    }
  }

  lemma MakeVisibleKeeps(n: Node, m: Machine, e: Env)
    requires Genesis(n) && Inv(n, m.disk, e.uid)
    ensures var r := MakeVisible(m, e);
            && Inv(n, r.m.disk, e.uid)
            && (r.Stop? ==> r.why == Crashed || (r.why == Refused(NotStartPre) && !Settled(m.disk)))
            && (m.power.Steady? && (e.startPre || Settled(m.disk)) ==> r.Go?)
            && (r.Go? ==>
                  && Settled(r.m.disk) && r.m.disk.cache.value.contents == Edits(n.contents)
                  && (IsShown(m.disk.cache.value.contents) ==>
                        r.m.disk.cache == Some(m.disk.cache.value.(mark := None))))
  {
    ShownAfter(n);
    var cache, after := m.disk.cache.value, Edits(n.contents);
    if !Settled(m.disk) && e.startPre {
      RecoverKeeps(n, after, m, e);
      var r := Recover(m, cache, e);
      if r.Go? && !IsShown(cache.contents) {
        assert cache == n;
        PublishKeeps(n, after, r.m, e);
      }
    }
  }

  // ---------------------------------------------------------------------------
  // Main results
  // ---------------------------------------------------------------------------

  /** After any crashes the cache name refers to exactly the old or exactly the new text. */
  lemma {:induction false} EveryCrashStateIsAtomic(n: Node, attempts: seq<Attempt>, uid: nat)
    requires Genesis(n) && Lawful(attempts, uid)
    ensures Inv(n, Run(Disk(Some(n), None), attempts), uid)
    decreases |attempts|
  {
    if attempts != [] {
      var last := |attempts| - 1;
      EveryCrashStateIsAtomic(n, attempts[..last], uid);
      MakeVisibleKeeps(n, Machine(Run(Disk(Some(n), None), attempts[..last]), attempts[last].power), attempts[last].env);
    }
  }

  /** A rerun at the daemon's start-pre boundary always finishes the transaction, and when the
      new text is already in place it only drops the mark instead of editing again. */
  lemma {:induction false} RerunConverges(n: Node, attempts: seq<Attempt>, e: Env)
    requires Genesis(n) && Lawful(attempts, e.uid)
    ensures var d := Run(Disk(Some(n), None), attempts);
            var r := MakeVisible(Machine(d, Steady), e);
            && d.cache.Some? && r.m.disk.cache.Some?
            && (r.Go? <==> e.startPre || Settled(d))
            && (r.Go? ==>
                  && Settled(r.m.disk)
                  && r.m.disk.cache.value.contents == Edits(n.contents)
                  && r.m.disk.cache.value.metadata == n.metadata
                  && (IsShown(d.cache.value.contents) ==> r.m.disk.cache.value.inode == d.cache.value.inode))
  {
    EveryCrashStateIsAtomic(n, attempts, e.uid);
    MakeVisibleKeeps(n, Machine(Run(Disk(Some(n), None), attempts), Steady), e);
  }

  // ---------------------------------------------------------------------------
  // The transaction in place
  // ---------------------------------------------------------------------------

  class CacheDirectory {
    var cache: Option<Node>
    var slot: Option<Node>
    var power: Power

    constructor (disk: Disk, power: Power)
      ensures Now() == Machine(disk, power)
    {
      cache, slot := disk.cache, disk.slot;
      this.power := power;
    }

    function Now(): Machine
      reads this
    {
      Machine(Disk(cache, slot), power)
    }

    /** Performs one directory operation, or loses power before it. */
    method Change(cache': Option<Node>, slot': Option<Node>) returns (o: Outcome<Reason>)
      modifies this
      ensures Reached(Now(), o) == Write(old(Now()), Disk(cache', slot'))
    {
      o := Done;
      power :- Spend(power);
      cache, slot := cache', slot';
    }

    method DoRecover(current: Node, e: Env) returns (o: Outcome<Reason>)
      modifies this
      ensures Reached(Now(), o) == Recover(old(Now()), current, e)
    {
      if current.mark.Some? {
        :- Require(Committed(current.mark.value, current, e.uid), ChangedCommitted);
        :- Change(Some(current.(mark := None)), slot);
      }
      if slot.Some? {
        :- Require(Owned(slot.value, current, e.uid), ChangedSlot);
        :- Change(cache, None);
      }
      o := Done;
    }

    method DoMakeVisible(e: Env) returns (o: Outcome<Reason>)
      modifies this
      ensures Reached(Now(), o) == MakeVisible(old(Now()), e)
    {
      if cache.None? {
        return Require(slot.None?, OrphanedSlot);
      }
      var current := cache.value;
      var at := FindPosition(current.contents);
      :- Require(at.At?, AmbiguousCache);
      if at.visible && current.mark.None? && slot.None? {
        return Done;
      }
      :- Require(e.startPre, NotStartPre);
      :- DoRecover(current, e);
      if at.visible {
        return Done;
      }
      var after := Edits(current.contents);
      var edition := Edition(current.(mark := None), after, e);
      :- Change(cache, Some(edition));
      :- Change(slot, None);
      :- Change(Some(edition.(mark := None)), slot);
      o := Require(cache == Some(Node(e.inode, after, None, current.metadata)), ReadbackFailed);
    }
  }
}
