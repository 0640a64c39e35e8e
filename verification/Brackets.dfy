/** The bracket pairing of _parsed in tools/document_checks.py: one pass with a bounded stack. */
module Brackets {
  import opened Common
  import opened CodeSpans
  import opened LinkSyntax

  /** `stack` holds the open brackets, oldest first; while `overflow` counts, none is kept. */
  datatype Scan = Scan(stack: seq<nat>, overflow: nat, pairs: map<nat, nat>)

  const EMPTY: Scan := Scan([], 0, map[])

  function Open(s: Scan, index: nat): Scan {
    if s.overflow > 0 then s.(overflow := s.overflow + 1)
    else if |s.stack| == MAX_NESTING then s.(overflow := |s.stack| + 1, stack := [])
    else s.(stack := s.stack + [index])
  }

  function Close(s: Scan, index: nat): Scan {
    if s.overflow > 0 then s.(overflow := s.overflow - 1)
    else if s.stack == [] then s
    else s.(stack := s.stack[..|s.stack| - 1], pairs := s.pairs[s.stack[|s.stack| - 1] := index])
  }

  function Take(s: Scan, c: char, index: nat): Scan {
    if c == '[' then Open(s, index) else if c == ']' then Close(s, index) else s
  }

  function ScanFrom(t: string, index: nat, s: Scan): Scan
    decreases |t| - index
  {
    if index >= |t| then s
    else if t[index] == '\\' then ScanFrom(t, index + 2, s)
    else ScanFrom(t, index + 1, Take(s, t[index], index))
  }

  function Pairs(t: string): map<nat, nat> {
    ScanFrom(t, 0, EMPTY).pairs
  }

  method FindPairs(t: string) returns (pairs: map<nat, nat>)
    ensures pairs == Pairs(t)
  {
    var stack: seq<nat>, overflow: nat, index: nat := [], 0, 0;
    pairs := map[];
    while index < |t|
      invariant Pairs(t) == ScanFrom(t, index, Scan(stack, overflow, pairs)).pairs
      decreases |t| - index
    {
      var c := t[index];
      if c == '\\' {
        index := index + 2;
        continue;
      }
      if c == '[' {
        if overflow > 0 {
          overflow := overflow + 1;
        } else if |stack| == MAX_NESTING {
          overflow := |stack| + 1;
          stack := [];
        } else {
          stack := stack + [index];
        }
      } else if c == ']' {
        if overflow > 0 {
          overflow := overflow - 1;
        } else if stack != [] {
          pairs := pairs[stack[|stack| - 1] := index];
          stack := stack[..|stack| - 1];
        }
      }
      index := index + 1;
    }
  }

  // ---------------------------------------------------------------------------
  // What a pair is
  // ---------------------------------------------------------------------------

  /** The reference: scanning on from index with this many brackets open, where the first of them
      closes. */
  function Closer(t: string, index: nat, depth: nat): Option<nat>
    decreases |t| - index
  {
    if index >= |t| || depth == 0 then None
    else if t[index] == '\\' then Closer(t, index + 2, depth)
    else if t[index] == '[' then Closer(t, index + 1, depth + 1)
    else if t[index] == ']' then if depth == 1 then Some(index) else Closer(t, index + 1, depth - 1)
    else Closer(t, index + 1, depth)
  }

  /** An unescaped opening bracket. */
  predicate Opening(t: string, a: nat) {
    a < |t| && t[a] == '[' && !Escaped(t, a)
  }

  /** Every kept bracket is open now: the scan from it reaches here at its depth. */
  predicate StackOk(t: string, index: nat, stack: seq<nat>) {
    forall k | 0 <= k < |stack| ::
      && stack[k] < index && Opening(t, stack[k])
      && Closer(t, stack[k] + 1, 1) == Closer(t, index, |stack| - k)
  }

  predicate Calm(s: Scan) {
    s.overflow > 0 ==> s.stack == []
  }

  predicate PairsOk(t: string, pairs: map<nat, nat>) {
    forall a | a in pairs :: Opening(t, a) && Closer(t, a + 1, 1) == Some(pairs[a])
  }

  lemma OpenKeepsStack(t: string, index: nat, stack: seq<nat>)
    requires Opening(t, index) && StackOk(t, index, stack)
    ensures StackOk(t, index + 1, stack + [index])
  {
    forall k | 0 <= k < |stack|
      ensures Closer(t, stack[k] + 1, 1) == Closer(t, index + 1, |stack| + 1 - k)
    {
      assert Closer(t, stack[k] + 1, 1) == Closer(t, index, |stack| - k);
    }
  }

  lemma CloseKeepsStack(t: string, index: nat, stack: seq<nat>)
    requires index < |t| && t[index] == ']' && stack != [] && StackOk(t, index, stack)
    ensures StackOk(t, index + 1, stack[..|stack| - 1])
  {
    forall k | 0 <= k < |stack| - 1
      ensures Closer(t, stack[k] + 1, 1) == Closer(t, index + 1, |stack| - 1 - k)
    {
      assert Closer(t, stack[k] + 1, 1) == Closer(t, index, |stack| - k);
    }
  }

  lemma OtherKeepsStack(t: string, index: nat, stack: seq<nat>)
    requires index < |t| && t[index] != '[' && t[index] != ']' && t[index] != '\\' && StackOk(t, index, stack)
    ensures StackOk(t, index + 1, stack)
  {
    forall k | 0 <= k < |stack|
      ensures Closer(t, stack[k] + 1, 1) == Closer(t, index + 1, |stack| - k)
    {
      assert Closer(t, stack[k] + 1, 1) == Closer(t, index, |stack| - k);
    }
  }

  lemma TakeKeepsStack(t: string, index: nat, s: Scan)
    requires index < |t| && t[index] != '\\' && !Escaped(t, index) && StackOk(t, index, s.stack) && Calm(s)
    ensures StackOk(t, index + 1, Take(s, t[index], index).stack) && Calm(Take(s, t[index], index))
  {
    if t[index] == '[' {
      OpenKeepsStack(t, index, s.stack);
    } else if t[index] == ']' {
      if s.stack != [] {
        CloseKeepsStack(t, index, s.stack);
      }
    } else {
      OtherKeepsStack(t, index, s.stack);
    }
  }

  lemma TakeKeepsPairs(t: string, index: nat, s: Scan)
    requires index < |t| && StackOk(t, index, s.stack) && PairsOk(t, s.pairs)
    ensures PairsOk(t, Take(s, t[index], index).pairs)
  {
    if t[index] == ']' && s.overflow == 0 && s.stack != [] {
      var top := |s.stack| - 1;
      assert Closer(t, s.stack[top] + 1, 1) == Closer(t, index, 1) == Some(index);
    }
  }

  lemma {:induction false} ScanKeepsPairs(t: string, index: nat, s: Scan)
    requires !Escaped(t, index) && StackOk(t, index, s.stack) && PairsOk(t, s.pairs) && Calm(s)
    ensures PairsOk(t, ScanFrom(t, index, s).pairs)
    decreases |t| - index
  {
    if index < |t| {
      if t[index] == '\\' {
        assert !Escaped(t, index + 2);
        SkipKeepsStack(t, index, s.stack);
        ScanKeepsPairs(t, index + 2, s);
      } else {
        TakeKeepsStack(t, index, s);
        TakeKeepsPairs(t, index, s);
        ScanKeepsPairs(t, index + 1, Take(s, t[index], index));
      }
    }
  }

  lemma SkipKeepsStack(t: string, index: nat, stack: seq<nat>)
    requires index < |t| && t[index] == '\\' && StackOk(t, index, stack)
    ensures StackOk(t, index + 2, stack)
  {
  }

  lemma {:induction false} CloserIsLater(t: string, index: nat, depth: nat)
    requires Closer(t, index, depth).Some?
    ensures index <= Closer(t, index, depth).value < |t| && t[Closer(t, index, depth).value] == ']'
    decreases |t| - index
  {
    if t[index] == '\\' {
      CloserIsLater(t, index + 2, depth);
    } else if t[index] == '[' {
      CloserIsLater(t, index + 1, depth + 1);
    } else if t[index] == ']' {
      if depth > 1 {
        CloserIsLater(t, index + 1, depth - 1);
      }
    } else {
      CloserIsLater(t, index + 1, depth);
    }
  }

  /** Every pair is an unescaped opening bracket and the bracket that balances it. */
  lemma PairsBalance(t: string)
    ensures PairsOk(t, Pairs(t))
    ensures forall a | a in Pairs(t) :: a < Pairs(t)[a] < |t| && t[Pairs(t)[a]] == ']'
  {
    ScanKeepsPairs(t, 0, EMPTY);
    forall a | a in Pairs(t)
      ensures a < Pairs(t)[a] < |t| && t[Pairs(t)[a]] == ']'
    {
      CloserIsLater(t, a + 1, 1);
    }
  }

  // ---------------------------------------------------------------------------
  // Pairs never cross
  // ---------------------------------------------------------------------------

  /** Scanning on from index, where position i is the next bracket looked at. */
  lemma {:induction false} CloserInside(t: string, index: nat, depth: nat, c: nat)
    requires index <= c && Opening(t, c) && !Escaped(t, index) && depth > 0
    requires Closer(t, index, depth).Some? && c < Closer(t, index, depth).value
    ensures Closer(t, c + 1, 1).Some? && Closer(t, c + 1, 1).value < Closer(t, index, depth).value
    decreases |t| - index
  {
    if index == c {
      CloserNested(t, c + 1, 1, depth);
    } else if t[index] == '\\' {
      assert !Escaped(t, index + 2) && Escaped(t, index + 1);
      CloserInside(t, index + 2, depth, c);
    } else if t[index] == '[' {
      CloserInside(t, index + 1, depth + 1, c);
    } else if t[index] == ']' {
      CloserInside(t, index + 1, depth - 1, c);
    } else {
      CloserInside(t, index + 1, depth, c);
    }
  }

  /** An inner bracket closes before the outer ones do. */
  lemma {:induction false} CloserNested(t: string, index: nat, inner: nat, outer: nat)
    requires inner > 0 && outer > 0 && Closer(t, index, inner + outer).Some?
    ensures Closer(t, index, inner).Some? && Closer(t, index, inner).value < Closer(t, index, inner + outer).value
    decreases |t| - index
  {
    if t[index] == '\\' {
      CloserNested(t, index + 2, inner, outer);
    } else if t[index] == '[' {
      CloserNested(t, index + 1, inner + 1, outer);
    } else if t[index] == ']' {
      if inner > 1 {
        CloserNested(t, index + 1, inner - 1, outer);
      } else {
        CloserIsLater(t, index + 1, outer);
      }
    } else {
      CloserNested(t, index + 1, inner, outer);
    }
  }

  /** Recorded pairs never cross: they are apart or one is inside the other. */
  lemma PairsNeverCross(t: string, a: nat, b: nat)
    requires a in Pairs(t) && b in Pairs(t) && a < b
    ensures Pairs(t)[a] < b || Pairs(t)[b] < Pairs(t)[a]
  {
    PairsBalance(t);
    if b < Pairs(t)[a] {
      assert !Escaped(t, a + 1);
      CloserInside(t, a + 1, 1, b);
    }
  }

  // ---------------------------------------------------------------------------
  // Exactly which balanced brackets are recorded
  // ---------------------------------------------------------------------------

  /** How many brackets are open before position i; a closing one without a partner opens none. */
  function OpenBefore(t: string, i: nat): nat
    requires i <= |t|
  {
    if i == 0 then 0
    else
      var d := OpenBefore(t, i - 1);
      if Escaped(t, i - 1) then d
      else if t[i - 1] == '[' then d + 1
      else if t[i - 1] == ']' && d > 0 then d - 1
      else d
  }

  predicate AllOpen(t: string, a: nat, b: nat) {
    forall m | a < m <= b <= |t| :: OpenBefore(t, m) > 0
  }

  /** Since brackets were last all closed before position i, a 33rd one was open at once. */
  predicate Crowded(t: string, i: nat) {
    exists k | 0 <= k < i <= |t| :: Opening(t, k) && OpenBefore(t, k) >= MAX_NESTING && AllOpen(t, k, i)
  }

  predicate InStep(t: string, index: nat, s: Scan)
    requires index <= |t|
  {
    && (s.overflow > 0 <==> Crowded(t, index))
    && OpenBefore(t, index) == (if s.overflow > 0 then s.overflow else |s.stack|)
    && |s.stack| <= MAX_NESTING
  }

  /** What the scan did before index: pairs outside crowded stretches, and no other one missed. */
  predicate Scanned(t: string, index: nat, s: Scan) {
    && (forall a | a in s.pairs :: !Crowded(t, s.pairs[a]))
    && (forall a: nat {:trigger Recordable(t, a)} | a < index && Recordable(t, a) :: a in s.stack || a in s.pairs)
  }

  predicate Recordable(t: string, a: nat) {
    Opening(t, a) && Closer(t, a + 1, 1).Some? && !Crowded(t, Closer(t, a + 1, 1).value)
  }

  lemma CrowdedStep(t: string, index: nat)
    requires index < |t|
    ensures Crowded(t, index + 1) <==>
            OpenBefore(t, index + 1) > 0 && (Crowded(t, index) || (Opening(t, index) && OpenBefore(t, index) >= MAX_NESTING))
  {
    if Crowded(t, index + 1) {
      var k :| 0 <= k < index + 1 && Opening(t, k) && OpenBefore(t, k) >= MAX_NESTING && AllOpen(t, k, index + 1);
      assert OpenBefore(t, index + 1) > 0;
      if k < index {
        assert AllOpen(t, k, index);
      }
    }
    if OpenBefore(t, index + 1) > 0 && Crowded(t, index) {
      var k :| 0 <= k < index && Opening(t, k) && OpenBefore(t, k) >= MAX_NESTING && AllOpen(t, k, index);
      assert AllOpen(t, k, index + 1);
    }
    if OpenBefore(t, index + 1) > 0 && Opening(t, index) && OpenBefore(t, index) >= MAX_NESTING {
      assert AllOpen(t, index, index + 1);
    }
  }

  lemma TakeInStep(t: string, index: nat, s: Scan)
    requires index < |t| && t[index] != '\\' && !Escaped(t, index) && Calm(s) && InStep(t, index, s)
    ensures InStep(t, index + 1, Take(s, t[index], index))
  {
    CrowdedStep(t, index);
  }

  lemma SkipInStep(t: string, index: nat, s: Scan)
    requires index + 1 < |t| && t[index] == '\\' && !Escaped(t, index) && InStep(t, index, s)
    ensures InStep(t, index + 2, s)
  {
    CrowdedStep(t, index);
    CrowdedStep(t, index + 1);
    assert Escaped(t, index + 1);
  }

  /** A bracket that closes at b is open all the way there. */
  lemma {:induction false} OpenUntilClosed(t: string, index: nat, depth: nat)
    requires index <= |t| && !Escaped(t, index) && Closer(t, index, depth).Some? && OpenBefore(t, index) >= depth
    ensures AllOpen(t, index, Closer(t, index, depth).value)
    decreases |t| - index
  {
    CloserIsLater(t, index, depth);
    var b := Closer(t, index, depth).value;
    if t[index] == '\\' {
      assert Escaped(t, index + 1) && index + 1 < |t|;
      assert OpenBefore(t, index + 1) == OpenBefore(t, index) == OpenBefore(t, index + 2);
      OpenUntilClosed(t, index + 2, depth);
      assert forall m | index < m <= b && m > index + 2 :: OpenBefore(t, m) > 0;
    } else if !(t[index] == ']' && depth == 1) {
      var next := if t[index] == '[' then depth + 1 else if t[index] == ']' then depth - 1 else depth;
      assert OpenBefore(t, index + 1) >= next > 0;
      OpenUntilClosed(t, index + 1, next);
      assert forall m | index < m <= b && m > index + 1 :: OpenBefore(t, m) > 0;
    }
  }

  /** A bracket open in a crowded stretch closes in it. */
  lemma StaysCrowded(t: string, index: nat, depth: nat)
    requires index <= |t| && !Escaped(t, index) && Closer(t, index, depth).Some? && OpenBefore(t, index) >= depth
    requires Crowded(t, index)
    ensures Crowded(t, Closer(t, index, depth).value)
  {
    OpenUntilClosed(t, index, depth);
    CloserIsLater(t, index, depth);
    var k :| 0 <= k < index && Opening(t, k) && OpenBefore(t, k) >= MAX_NESTING && AllOpen(t, k, index);
    assert AllOpen(t, k, Closer(t, index, depth).value);
  }

  /** The opening bracket that crowds the stack, and those it drops, are not recordable. */
  lemma DropsOnlyCrowded(t: string, index: nat, s: Scan, a: nat)
    requires Opening(t, index) && StackOk(t, index, s.stack) && Calm(s)
    requires InStep(t, index, s) && Scanned(t, index, s)
    requires s.overflow > 0 || |s.stack| == MAX_NESTING
    requires a <= index && Recordable(t, a)
    ensures a in s.pairs
  {
    CrowdedStep(t, index);
    if a == index {
      StaysCrowded(t, index + 1, 1);
    } else if a in s.stack {
      var k :| 0 <= k < |s.stack| && s.stack[k] == a;
      assert Crowded(t, index + 1);
      assert Closer(t, a + 1, 1) == Closer(t, index + 1, |s.stack| - k + 1);
      StaysCrowded(t, index + 1, |s.stack| - k + 1);
    }
  }

  lemma TakeKeepsEntry(s: Scan, c: char, index: nat, a: nat)
    requires a in s.stack || a in s.pairs
    requires c == '[' ==> a in s.pairs || |s.stack| < MAX_NESTING
    requires Calm(s)
    ensures a in Take(s, c, index).stack || a in Take(s, c, index).pairs
  {
    var s' := Take(s, c, index);
    if a in s.stack {
      var k :| 0 <= k < |s.stack| && s.stack[k] == a;
      assert k < |s'.stack| ==> s'.stack[k] == a;
    }
  }

  lemma TakeMissesNone(t: string, index: nat, s: Scan, a: nat)
    requires index < |t| && t[index] != '\\' && !Escaped(t, index) && StackOk(t, index, s.stack) && Calm(s)
    requires InStep(t, index, s) && Scanned(t, index, s)
    requires a <= index && Recordable(t, a)
    ensures a in Take(s, t[index], index).stack || a in Take(s, t[index], index).pairs
  {
    if t[index] == '[' && (s.overflow > 0 || |s.stack| == MAX_NESTING) {
      DropsOnlyCrowded(t, index, s, a);
      TakeKeepsEntry(s, t[index], index, a);
    } else if a == index {
      assert Opening(t, a);
      assert Take(s, t[index], index).stack[|s.stack|] == index;
    } else {
      TakeKeepsEntry(s, t[index], index, a);
    }
  }

  lemma TakeRecords(t: string, index: nat, s: Scan, a: nat)
    requires index < |t| && InStep(t, index, s) && Scanned(t, index, s) && a in Take(s, t[index], index).pairs
    ensures !Crowded(t, Take(s, t[index], index).pairs[a])
  {
    if a in s.pairs && Take(s, t[index], index).pairs[a] == s.pairs[a] {
      assert !Crowded(t, s.pairs[a]);
    }
  }

  lemma TakeScans(t: string, index: nat, s: Scan)
    requires index < |t| && t[index] != '\\' && !Escaped(t, index) && StackOk(t, index, s.stack) && Calm(s)
    requires InStep(t, index, s) && Scanned(t, index, s)
    ensures Scanned(t, index + 1, Take(s, t[index], index))
  {
    var s' := Take(s, t[index], index);
    forall a | a in s'.pairs
      ensures !Crowded(t, s'.pairs[a])
    {
      TakeRecords(t, index, s, a);
    }
    forall a: nat | a < index + 1 && Recordable(t, a)
      ensures a in s'.stack || a in s'.pairs
    {
      TakeMissesNone(t, index, s, a);
    }
  }

  /** Nothing kept at the end ever closes. */
  lemma EndKeepsUnclosed(t: string, index: nat, stack: seq<nat>, a: nat)
    requires |t| <= index || (t[index] == '\\' && index + 1 == |t|)
    requires StackOk(t, index, stack) && a in stack
    ensures Closer(t, a + 1, 1).None?
  {
    var k :| 0 <= k < |stack| && stack[k] == a;
    assert Closer(t, a + 1, 1) == Closer(t, index, |stack| - k);
  }

  lemma {:induction false} ScanIsExact(t: string, index: nat, s: Scan)
    requires index <= |t| && !Escaped(t, index) && StackOk(t, index, s.stack) && Calm(s)
    requires InStep(t, index, s) && Scanned(t, index, s)
    ensures forall a | a in ScanFrom(t, index, s).pairs :: !Crowded(t, ScanFrom(t, index, s).pairs[a])
    ensures forall a: nat | Recordable(t, a) :: a in ScanFrom(t, index, s).pairs
    decreases |t| - index
  {
    if index == |t| || (t[index] == '\\' && index + 1 == |t|) {
      forall a: nat | Recordable(t, a)
        ensures a in s.pairs
      {
        if a in s.stack {
          EndKeepsUnclosed(t, index, s.stack, a);
        }
      }
    } else if t[index] == '\\' {
      SkipKeepsStack(t, index, s.stack);
      SkipInStep(t, index, s);
      assert Escaped(t, index + 1) && !Escaped(t, index + 2);
      assert Scanned(t, index + 2, s);
      ScanIsExact(t, index + 2, s);
    } else {
      TakeKeepsStack(t, index, s);
      TakeInStep(t, index, s);
      TakeScans(t, index, s);
      ScanIsExact(t, index + 1, Take(s, t[index], index));
    }
  }

  /** The pairs are exactly the balanced unescaped brackets that do not close in a crowded stretch. */
  lemma PairsAreExact(t: string, a: nat, b: nat)
    ensures (a in Pairs(t) && Pairs(t)[a] == b) <==>
            (Opening(t, a) && Closer(t, a + 1, 1) == Some(b) && !Crowded(t, b))
  {
    PairsBalance(t);
    assert !Crowded(t, 0);
    ScanIsExact(t, 0, EMPTY);
  }
}
