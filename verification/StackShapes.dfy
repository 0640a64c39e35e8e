/** Which PAM stacks packaging/distro_pam.py accepts, said of the places of their lines. */
module StackShapes {
  import opened DistroPam

  predicate Skips(kind: Kind, stack: seq<string>, a: nat, b: nat) {
    forall m | a < m < b && m < |stack| :: !Counts(kind, stack[m])
  }

  /** The owned lines stand at these places, in order, and no other line that counts between them. */
  predicate Stands(kind: Kind, stack: seq<string>, block: seq<string>, at: seq<nat>) {
    && |at| == |block|
    && (forall i | 0 <= i < |at| :: at[i] < |stack| && stack[at[i]] == block[i] && Counts(kind, stack[at[i]]))
    && (forall i | 0 < i < |at| :: at[i - 1] < at[i] && Skips(kind, stack, at[i - 1], at[i]))
  }

  // ---------------------------------------------------------------------------
  // The places of the lines that count
  // ---------------------------------------------------------------------------

  function Marks(kind: Kind, stack: seq<string>): seq<bool> {
    seq(|stack|, i requires 0 <= i < |stack| => Counts(kind, stack[i]))
  }

  /** The marked places from k on. */
  function Places(marks: seq<bool>, k: nat): seq<nat>
    requires k <= |marks|
    decreases |marks| - k
  {
    if k == |marks| then [] else (if marks[k] then [k] else []) + Places(marks, k + 1)
  }

  predicate Clear(marks: seq<bool>, a: nat, b: nat) {
    forall m | a < m < b && m < |marks| :: !marks[m]
  }

  /** These are the marked places from k on, all of them in order. */
  predicate Placed(marks: seq<bool>, k: nat, at: seq<nat>) {
    && (forall i | 0 <= i < |at| :: k <= at[i] < |marks| && marks[at[i]])
    && (forall i, j | 0 <= i < j < |at| :: at[i] < at[j])
    && (forall m | k <= m < |marks| && marks[m] :: m in at)
  }

  lemma PlacedCons(marks: seq<bool>, k: nat, rest: seq<nat>)
    requires k < |marks| && marks[k] && Placed(marks, k + 1, rest)
    ensures Placed(marks, k, [k] + rest)
  {
    var at := [k] + rest;
    assert at[0] == k && forall i | 0 <= i < |rest| :: at[i + 1] == rest[i];
  }

  lemma {:induction false} PlacesAre(marks: seq<bool>, k: nat)
    requires k <= |marks|
    ensures Placed(marks, k, Places(marks, k))
    decreases |marks| - k
  {
    if k < |marks| {
      PlacesAre(marks, k + 1);
      if marks[k] {
        PlacedCons(marks, k, Places(marks, k + 1));
      } else {
        assert [] + Places(marks, k + 1) == Places(marks, k + 1);
      }
    }
  }

  lemma NeighboursAreClear(marks: seq<bool>, all: seq<nat>, i: nat)
    requires Placed(marks, 0, all) && 0 < i < |all|
    ensures all[i - 1] < all[i] && Clear(marks, all[i - 1], all[i])
  {
  }

  lemma PlaceOf(marks: seq<bool>, all: seq<nat>, b: nat) returns (k: nat)
    requires Placed(marks, 0, all) && b < |marks| && marks[b]
    ensures k < |all| && all[k] == b
  {
    k :| k < |all| && all[k] == b;
  }

  /** Marked places with nothing between are neighbours. */
  lemma NextPlace(marks: seq<bool>, all: seq<nat>, j: nat, b: nat)
    requires Placed(marks, 0, all) && j < |all| && b < |marks| && marks[b] && all[j] < b && Clear(marks, all[j], b)
    ensures j + 1 < |all| && all[j + 1] == b
  {
    var k := PlaceOf(marks, all, b);
  }

  lemma {:induction false} FollowPlaces(marks: seq<bool>, at: seq<nat>, all: seq<nat>, p: nat, i: nat)
    requires Placed(marks, 0, all) && i < |at| && p < |all| && all[p] == at[0]
    requires forall j | 0 <= j < |at| :: at[j] < |marks| && marks[at[j]]
    requires forall j | 0 < j < |at| :: at[j - 1] < at[j] && Clear(marks, at[j - 1], at[j])
    ensures p + i < |all| && all[p + i] == at[i]
  {
    if i > 0 {
      FollowPlaces(marks, at, all, p, i - 1);
      NextPlace(marks, all, p + i - 1, at[i]);
    }
  }

  /** The lines at these places. */
  predicate LinesAt(stack: seq<string>, at: seq<nat>, lines: seq<string>) {
    |lines| == |at| && forall i | 0 <= i < |at| :: at[i] < |stack| && lines[i] == stack[at[i]]
  }

  lemma LinesCons(stack: seq<string>, k: nat, at: seq<nat>, lines: seq<string>)
    requires k < |stack| && LinesAt(stack, at, lines)
    ensures LinesAt(stack, [k] + at, [stack[k]] + lines)
  {
  }

  lemma EntriesStep(kind: Kind, stack: seq<string>, k: nat)
    requires k < |stack|
    ensures Entries(kind, stack[k..]) ==
            (if Counts(kind, stack[k]) then [stack[k]] else []) + Entries(kind, stack[k + 1..])
  {
    assert stack[k..][0] == stack[k] && stack[k..][1..] == stack[k + 1..];
  }

  lemma {:induction false} EntriesAre(kind: Kind, stack: seq<string>, k: nat)
    requires k <= |stack|
    ensures LinesAt(stack, Places(Marks(kind, stack), k), Entries(kind, stack[k..]))
    decreases |stack| - k
  {
    if k < |stack| {
      EntriesAre(kind, stack, k + 1);
      EntriesStep(kind, stack, k);
      var rest, lines := Places(Marks(kind, stack), k + 1), Entries(kind, stack[k + 1..]);
      if Marks(kind, stack)[k] {
        LinesCons(stack, k, rest, lines);
      } else {
        assert [] + rest == rest && [] + lines == lines;
      }
    }
  }

  /** The entries are the lines at the marked places. */
  lemma EntriesPlaced(kind: Kind, stack: seq<string>) returns (marks: seq<bool>, all: seq<nat>)
    ensures |marks| == |stack| && forall m | 0 <= m < |stack| :: marks[m] == Counts(kind, stack[m])
    ensures Placed(marks, 0, all) && LinesAt(stack, all, Entries(kind, stack))
  {
    marks := Marks(kind, stack);
    all := Places(marks, 0);
    PlacesAre(marks, 0);
    EntriesAre(kind, stack, 0);
    assert stack[0..] == stack;
  }

  // ---------------------------------------------------------------------------
  // Acceptance
  // ---------------------------------------------------------------------------

  lemma BlockStands(kind: Kind, stack: seq<string>, block: seq<string>, p: nat) returns (at: seq<nat>)
    requires BlockAt(Entries(kind, stack), p, block)
    ensures Stands(kind, stack, block, at)
  {
    var marks, all := EntriesPlaced(kind, stack);
    var entries := Entries(kind, stack);
    at := all[p..p + |block|];
    forall i | 0 <= i < |at|
      ensures at[i] < |stack| && stack[at[i]] == block[i] && Counts(kind, stack[at[i]])
    {
      assert at[i] == all[p + i] && entries[p..p + |block|][i] == entries[p + i];
    }
    forall i | 0 < i < |at|
      ensures at[i - 1] < at[i] && Skips(kind, stack, at[i - 1], at[i])
    {
      NeighboursAreClear(marks, all, p + i);
    }
  }

  lemma StandingIsFollowed(kind: Kind, stack: seq<string>, block: seq<string>, at: seq<nat>, marks: seq<bool>,
                           all: seq<nat>) returns (p: nat)
    requires Stands(kind, stack, block, at) && block != [] && Placed(marks, 0, all)
    requires |marks| == |stack| && forall m | 0 <= m < |stack| :: marks[m] == Counts(kind, stack[m])
    ensures forall i {:trigger at[i]} | 0 <= i < |at| :: p + i < |all| && all[p + i] == at[i]
  {
    p := PlaceOf(marks, all, at[0]);
    forall j | 0 < j < |at|
      ensures at[j - 1] < at[j] && Clear(marks, at[j - 1], at[j])
    {
      assert Skips(kind, stack, at[j - 1], at[j]);
    }
    forall i | 0 <= i < |at|
      ensures p + i < |all| && all[p + i] == at[i]
    {
      FollowPlaces(marks, at, all, p, i);
    }
  }

  lemma LinesFollow(stack: seq<string>, all: seq<nat>, lines: seq<string>, at: seq<nat>, block: seq<string>, p: nat)
    requires LinesAt(stack, all, lines) && LinesAt(stack, at, block) && block != []
    requires forall i {:trigger at[i]} | 0 <= i < |at| :: p + i < |all| && all[p + i] == at[i]
    ensures p < |lines| && BlockAt(lines, p, block)
  {
    var last: nat := |at| - 1;
    assert at[last] == at[|at| - 1] && p + last < |all|;
    forall i | 0 <= i < |block|
      ensures lines[p + i] == block[i]
    {
      assert all[p + i] == at[i];
    }
    assert lines[p..p + |block|] == block;
  }

  lemma StandingIsBlock(kind: Kind, stack: seq<string>, block: seq<string>, at: seq<nat>) returns (p: nat)
    requires Stands(kind, stack, block, at) && block != []
    ensures p < |Entries(kind, stack)| && BlockAt(Entries(kind, stack), p, block)
  {
    var marks, all := EntriesPlaced(kind, stack);
    p := StandingIsFollowed(kind, stack, block, at, marks, all);
    LinesFollow(stack, all, Entries(kind, stack), at, block, p);
  }

  lemma AcceptedIsExact(kind: Kind, stack: seq<string>, block: seq<string>)
    requires block != []
    ensures Accepts(kind, stack, block) <==> exists at: seq<nat> :: Stands(kind, stack, block, at)
  {
    if Accepts(kind, stack, block) {
      var p: nat :| p < |Entries(kind, stack)| && BlockAt(Entries(kind, stack), p, block);
      var at := BlockStands(kind, stack, block, p);
    }
    if at: seq<nat> :| Stands(kind, stack, block, at) {
      var p := StandingIsBlock(kind, stack, block, at);
    }
  }

  ghost predicate Standing(kind: Kind, stack: seq<string>, block: seq<string>) {
    exists at: seq<nat> :: Stands(kind, stack, block, at)
  }

  lemma HoldsIsExact(d: Distribution, kind: Kind, block: seq<string>, files: Files)
    requires block != []
    ensures Holds(d, kind, block, files) <==>
            forall name | Required(d, kind, name, files) :: name in files && Standing(kind, files[name], block)
  {
    forall name | name in files
      ensures Accepts(kind, files[name], block) <==> Standing(kind, files[name], block)
    {
      AcceptedIsExact(kind, files[name], block);
    }
  }

  lemma BlocksAreFull(d: Distribution, kind: Kind) returns (block: seq<string>)
    ensures block == Block(d, kind) != []
  {
    block := Block(d, kind);
    assert |block| == |Policy(d, kind)|;
  }

  /** The policy is accepted exactly when in every required stack, of each type, the owned lines stand
      in order with no other entry of the type, quiet entry or include between them. */
  lemma ActiveIsExact(d: Distribution, files: Files)
    ensures Active(d, files) <==>
            && (forall name | Required(d, Auth, name, files) ::
                  name in files && Standing(Auth, files[name], Block(d, Auth)))
            && (forall name | Required(d, Account, name, files) ::
                  name in files && Standing(Account, files[name], Block(d, Account)))
  {
    var auth := BlocksAreFull(d, Auth);
    var account := BlocksAreFull(d, Account);
    HoldsIsExact(d, Auth, auth, files);
    HoldsIsExact(d, Account, account, files);
  }
}
