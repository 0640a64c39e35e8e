/** The duplicate suffixes of heading_anchors in tools/document_checks.py: a counter per slug
    skips numbers known to be taken, and every heading still gets the least free one. */
module HeadingSlugs {
  import opened Common

  function Decimal(n: nat): string {
    if n < 10 then [Digit(n)] else Decimal(n / 10) + [Digit(n % 10)]
  }

  lemma {:induction false} DecimalIsInjective(m: nat, n: nat)
    requires Decimal(m) == Decimal(n)
    ensures m == n
  {
    var a, b := Decimal(m), Decimal(n);
    assert a[|a| - 1] == Digit(m % 10) && b[|b| - 1] == Digit(n % 10);
    if m < 10 || n < 10 {
      DecimalLength(m);
      DecimalLength(n);
    } else {
      assert Decimal(m / 10) == a[..|a| - 1] && Decimal(n / 10) == b[..|b| - 1];
      DecimalIsInjective(m / 10, n / 10);
    }
  }

  lemma {:induction false} DecimalLength(n: nat)
    ensures |Decimal(n)| >= 1 && (|Decimal(n)| == 1 <==> n < 10)
  {
    if n >= 10 {
      DecimalLength(n / 10);
    }
  }

  /** The slug, or the slug with a numbered suffix. */
  function Candidate(slug: string, n: nat): string {
    if n == 0 then slug else slug + "-" + Decimal(n)
  }

  lemma CandidatesDiffer(slug: string, m: nat, n: nat)
    requires Candidate(slug, m) == Candidate(slug, n)
    ensures m == n
  {
    var a, b := Candidate(slug, m), Candidate(slug, n);
    if m > 0 && n > 0 {
      assert a[|slug| + 1..] == Decimal(m) && b[|slug| + 1..] == Decimal(n);
      DecimalIsInjective(m, n);
    }
  }

  /** The number a reader would choose: the first whose candidate is free. */
  ghost predicate LeastFree(slug: string, used: set<string>, n: nat) {
    Candidate(slug, n) !in used && forall m: nat | m < n :: Candidate(slug, m) in used
  }

  function Elements(s: seq<string>): set<string> {
    set x | x in s
  }

  ghost predicate IsLeastFree(slug: string, used: set<string>, name: string) {
    exists n: nat :: LeastFree(slug, used, n) && name == Candidate(slug, n)
  }

  /** Every heading has the least free candidate of its slug, given the headings before it. */
  ghost predicate Assigned(slugs: seq<string>, names: seq<string>) {
    && |names| == |slugs|
    && (slugs != [] ==>
          var last := |slugs| - 1;
          && Assigned(slugs[..last], names[..last])
          && IsLeastFree(slugs[last], Elements(names[..last]), names[last]))
  }

  predicate Distinct(names: seq<string>) {
    forall i, j | 0 <= i < j < |names| :: names[i] != names[j]
  }

  /** No two headings share a name, even when a literal heading looks like a numbered duplicate. */
  lemma {:induction false} AssignedIsDistinct(slugs: seq<string>, names: seq<string>)
    requires Assigned(slugs, names)
    ensures Distinct(names)
  {
    if slugs != [] {
      var last := |slugs| - 1;
      AssignedIsDistinct(slugs[..last], names[..last]);
      assert names[last] !in Elements(names[..last]);
      forall i, j | 0 <= i < j < |names|
        ensures names[i] != names[j]
      {
        assert names[..last][i] == names[i];
        if j < last {
          assert names[..last][j] == names[j];
        }
      }
    }
  }

  lemma LeastFreeIsUnique(slug: string, used: set<string>, a: string, b: string)
    requires IsLeastFree(slug, used, a) && IsLeastFree(slug, used, b)
    ensures a == b
  {
    var m: nat :| LeastFree(slug, used, m) && a == Candidate(slug, m);
    var n: nat :| LeastFree(slug, used, n) && b == Candidate(slug, n);
    assert m == n;
  }

  /** The headings alone determine the names. */
  lemma {:induction false} AssignedIsUnique(slugs: seq<string>, a: seq<string>, b: seq<string>)
    requires Assigned(slugs, a) && Assigned(slugs, b)
    ensures a == b
  {
    if slugs != [] {
      var last := |slugs| - 1;
      AssignedIsUnique(slugs[..last], a[..last], b[..last]);
      LeastFreeIsUnique(slugs[last], Elements(a[..last]), a[last], b[last]);
      assert a == a[..last] + [a[last]] && b == b[..last] + [b[last]];
    }
  }

  /** Numbers below a slug's counter are taken. */
  ghost predicate Counted(counts: map<string, nat>, used: set<string>) {
    forall slug, n: nat | slug in counts && n < counts[slug] :: Candidate(slug, n) in used
  }

  /** The inner loop: steps to a free candidate. The finite set of used names bounds it. */
  method NextSuffix(slug: string, start: nat, used: set<string>) returns (suffix: nat)
    requires forall m: nat | m < start :: Candidate(slug, m) in used
    ensures LeastFree(slug, used, suffix)
  {
    suffix := start;
    var candidate := Candidate(slug, suffix);
    ghost var left := used;
    while candidate in used
      invariant candidate == Candidate(slug, suffix)
      invariant forall m: nat | m < suffix :: Candidate(slug, m) in used
      invariant left <= used && forall m: nat | m >= suffix && Candidate(slug, m) in used :: Candidate(slug, m) in left
      decreases left
    {
      left := left - {candidate};
      forall m: nat | m >= suffix + 1 && Candidate(slug, m) in used
        ensures Candidate(slug, m) in left
      {
        if Candidate(slug, m) == candidate {
          CandidatesDiffer(slug, m, suffix);
        }
      }
      suffix := suffix + 1;
      candidate := slug + "-" + Decimal(suffix);
    }
  }

  lemma AssignedMore(slugs: seq<string>, names: seq<string>, slug: string, n: nat)
    requires Assigned(slugs, names) && LeastFree(slug, Elements(names), n)
    ensures Assigned(slugs + [slug], names + [Candidate(slug, n)])
  {
    var more := names + [Candidate(slug, n)];
    assert (slugs + [slug])[..|slugs|] == slugs && more[..|names|] == names;
    assert IsLeastFree(slug, Elements(names), more[|names|]);
  }

  lemma ElementsMore(names: seq<string>, name: string)
    ensures Elements(names + [name]) == Elements(names) + {name}
  {
    assert forall x :: x in names + [name] <==> x in names || x == name;
  }

  lemma CountedMore(counts: map<string, nat>, used: set<string>, slug: string, n: nat)
    requires Counted(counts, used) && LeastFree(slug, used, n)
    ensures Counted(counts[slug := n + 1], used + {Candidate(slug, n)})
  {
  }

  method AssignSlugs(slugs: seq<string>) returns (names: seq<string>)
    ensures Assigned(slugs, names)
  {
    names := [];
    var counts: map<string, nat> := map[];
    var used: set<string> := {};
    for k := 0 to |slugs|
      invariant Assigned(slugs[..k], names)
      invariant used == Elements(names) && Counted(counts, used)
    {
      var slug := slugs[k];
      var suffix := NextSuffix(slug, if slug in counts then counts[slug] else 0, used);
      var name := Candidate(slug, suffix);
      AssignedMore(slugs[..k], names, slug, suffix);
      ElementsMore(names, name);
      CountedMore(counts, used, slug, suffix);
      assert slugs[..k + 1] == slugs[..k] + [slug];
      names := names + [name];
      counts := counts[slug := suffix + 1];
      used := used + {name};
    }
    assert slugs[..|slugs|] == slugs;
  }
}
