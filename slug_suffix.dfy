/** The collision rule every slug generator of the catalog shares: keep the
    base slug when it is free, otherwise try `base-1`, `base-2`, ... and
    take the first one not yet taken. */
module SlugSuffix {
  import opened Common

  /** The k-th candidate: the base itself for k = 0, `base-k` after that. */
  function Candidate(base: string, k: nat): string {
    if k == 0 then base else base + "-" + NatToString(k)
  }

  /** Different suffix numbers never give the same candidate. */
  lemma CandidateInjective(base: string, i: nat, j: nat)
    requires Candidate(base, i) == Candidate(base, j)
    ensures i == j
  {
    if i != 0 && j != 0 {
      var a, b := Candidate(base, i), Candidate(base, j);
      assert a[|base| + 1..] == NatToString(i);
      assert b[|base| + 1..] == NatToString(j);
      NatToStringInjective(i, j);
    }
  }

  /** The candidates numbered below k. */
  ghost function Candidates(base: string, k: nat): set<string> {
    if k == 0 then {} else Candidates(base, k - 1) + {Candidate(base, k - 1)}
  }

  lemma {:induction false} CandidatesSize(base: string, k: nat)
    ensures |Candidates(base, k)| == k
    ensures forall j :: 0 <= j < k ==> Candidate(base, j) in Candidates(base, k)
    ensures forall s :: s in Candidates(base, k) ==> exists j :: 0 <= j < k && s == Candidate(base, j)
  {
    if k > 0 {
      CandidatesSize(base, k - 1);
      if Candidate(base, k - 1) in Candidates(base, k - 1) {
        var j :| 0 <= j < k - 1 && Candidate(base, k - 1) == Candidate(base, j);
        CandidateInjective(base, k - 1, j);
        assert false;
      }
    }
  }

  /** If the first k candidates are all taken, at least k slugs are taken:
      this bounds the search below. */
  lemma CandidatesFill(base: string, taken: set<string>, k: nat)
    requires forall j :: 0 <= j < k ==> Candidate(base, j) in taken
    ensures k <= |taken|
  {
    CandidatesSize(base, k);
    var c := Candidates(base, k);
    assert c <= taken;
    assert taken == c + (taken - c);
  }

  /** The least suffix number, from k on, whose candidate is free. */
  function FreeIndex(base: string, taken: set<string>, k: nat): (r: nat)
    requires forall j :: 0 <= j < k ==> Candidate(base, j) in taken
    ensures k <= r
    ensures Candidate(base, r) !in taken
    ensures forall j :: 0 <= j < r ==> Candidate(base, j) in taken
    decreases |taken| - k
  {
    CandidatesFill(base, taken, k);
    if Candidate(base, k) !in taken then k
    else
      CandidatesFill(base, taken, k + 1);
      FreeIndex(base, taken, k + 1)
  }

  /** The slug the search settles on. */
  function FirstFree(base: string, taken: set<string>): string {
    Candidate(base, FreeIndex(base, taken, 0))
  }

  /** The chosen slug is free, and it is the base when the base is free,
      otherwise `base-k` for the least k >= 1 whose candidate is free. */
  lemma FirstFreeIsLeastFree(base: string, taken: set<string>)
    ensures FirstFree(base, taken) !in taken
    ensures base !in taken ==> FirstFree(base, taken) == base
    ensures base in taken ==>
      exists k :: 1 <= k && FirstFree(base, taken) == base + "-" + NatToString(k) &&
        forall j :: 1 <= j < k ==> base + "-" + NatToString(j) in taken
  {
    var k := FreeIndex(base, taken, 0);
    if base in taken {
      assert k != 0;
      forall j | 1 <= j < k ensures base + "-" + NatToString(j) in taken {
        assert Candidate(base, j) in taken;
      }
    }
  }

  lemma FreeIndexStep(base: string, taken: set<string>, k: nat)
    requires forall j :: 0 <= j <= k ==> Candidate(base, j) in taken
    ensures FreeIndex(base, taken, k) == FreeIndex(base, taken, k + 1)
  {
  }

  /** The counter loop of the slug generators: starting from the base,
      append `-counter` with counter = 1, 2, ... while the slug is taken. */
  method FindFreeSlug(base: string, taken: set<string>) returns (slug: string)
    ensures slug == FirstFree(base, taken)
    ensures slug !in taken
  {
    slug := base;
    var counter := 1;
    while slug in taken
      invariant 1 <= counter
      invariant slug == Candidate(base, counter - 1)
      invariant forall j :: 0 <= j < counter - 1 ==> Candidate(base, j) in taken
      invariant FreeIndex(base, taken, counter - 1) == FreeIndex(base, taken, 0)
      decreases |taken| - counter + 1
    {
      CandidatesFill(base, taken, counter);
      FreeIndexStep(base, taken, counter - 1);
      slug := base + "-" + NatToString(counter);
      counter := counter + 1;
    }
  }
}
