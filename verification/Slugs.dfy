/** The unbounded search for an organization slug that is not taken
    (backend/app/api/v1/auth.py:81-89). */
module Slugs {
  import Decimals

  /** The k-th slug the search tries: `base`, `base-1`, `base-2`, ... */
  function Candidate(base: string, k: nat): string
  {
    if k == 0 then base else base + "-" + Decimals.Print(k)
  }

  lemma CandidatesDiffer(base: string, i: nat, j: nat)
    requires i != j
    ensures Candidate(base, i) != Candidate(base, j)
  {
    var n := |base|;
    if i > 0 && j > 0 {
      assert Candidate(base, i)[n + 1..] == Decimals.Print(i);
      assert Candidate(base, j)[n + 1..] == Decimals.Print(j);
      if Decimals.Print(i) == Decimals.Print(j) { Decimals.PrintInjective(i, j); }
    }
  }

  ghost function Tried(base: string, k: nat): set<string>
  {
    if k == 0 then {} else Tried(base, k - 1) + {Candidate(base, k - 1)}
  }

  lemma {:induction false} TriedCount(base: string, k: nat, n: nat)
    requires k <= n
    ensures |Tried(base, k)| == k && Candidate(base, n) !in Tried(base, k)
  {
    if k > 0 {
      TriedCount(base, k - 1, k - 1);
      TriedCount(base, k - 1, n);
      CandidatesDiffer(base, k - 1, n);
    }
  }

  lemma {:induction false} TriedTaken(taken: set<string>, base: string, k: nat)
    requires forall j :: 0 <= j < k ==> Candidate(base, j) in taken
    ensures Tried(base, k) <= taken
  {
    if k > 0 { TriedTaken(taken, base, k - 1); }
  }

  /** If the first k candidates are all taken, then at least k slugs are taken. */
  lemma TakenAtLeast(taken: set<string>, base: string, k: nat)
    requires forall j :: 0 <= j < k ==> Candidate(base, j) in taken
    ensures k <= |taken|
  {
    TriedCount(base, k, k);
    TriedTaken(taken, base, k);
    var rest := taken - Tried(base, k);
    assert taken == Tried(base, k) + rest;
    assert |taken| == |Tried(base, k)| + |rest|;
  }

  /** The number of the first free candidate, searching from k. */
  function FirstFree(taken: set<string>, base: string, k: nat): (r: nat)
    requires forall j :: 0 <= j < k ==> Candidate(base, j) in taken
    ensures k <= r && Candidate(base, r) !in taken
    ensures forall j :: 0 <= j < r ==> Candidate(base, j) in taken
    decreases |taken| + 1 - k
  {
    TakenAtLeast(taken, base, k);
    if Candidate(base, k) !in taken then k else FirstFree(taken, base, k + 1)
  }

  function SlugFor(taken: set<string>, base: string): string { Candidate(base, FirstFree(taken, base, 0)) }

  /** The search ends after at most one probe more than there are slugs, with the first
      candidate that is free. */
  method FindSlug(taken: set<string>, base: string) returns (slug: string, probes: nat)
    ensures slug == SlugFor(taken, base) && slug !in taken
    ensures 1 <= probes <= |taken| + 1
    ensures slug == Candidate(base, probes - 1) && forall j :: 0 <= j < probes - 1 ==> Candidate(base, j) in taken
  {
    slug := base;
    var counter := 1;
    probes := 1;
    while slug in taken
      invariant counter == probes && probes >= 1 && slug == Candidate(base, probes - 1)
      invariant forall j :: 0 <= j < probes - 1 ==> Candidate(base, j) in taken
      invariant probes - 1 <= |taken|
      decreases |taken| + 1 - probes
    {
      TakenAtLeast(taken, base, probes);
      slug := base + "-" + Decimals.Print(counter);
      counter := counter + 1;
      probes := probes + 1;
    }
    FirstFreeUnique(taken, base, probes - 1);
  }

  lemma FirstFreeUnique(taken: set<string>, base: string, k: nat)
    requires Candidate(base, k) !in taken && forall j :: 0 <= j < k ==> Candidate(base, j) in taken
    ensures FirstFree(taken, base, 0) == k
  {
    var r := FirstFree(taken, base, 0);
    assert Candidate(base, r) !in taken;
  }

  /** The characters a slug keeps; every other one becomes a hyphen. */
  predicate IsSlugChar(c: char) { 'a' <= c <= 'z' || '0' <= c <= '9' || c == '-' }

  /** The base of the search, from the lower-cased organization name. */
  function SlugBase(lowerName: string): (base: string)
    ensures |base| == if |lowerName| <= 40 then |lowerName| else 40
    ensures forall i :: 0 <= i < |base| ==>
      var c := lowerName[i];
      base[i] == if 'a' <= c <= 'z' || '0' <= c <= '9' || c == '-' then c else '-'
  {
    var replaced := seq(|lowerName|, i requires 0 <= i < |lowerName| =>
      if IsSlugChar(lowerName[i]) then lowerName[i] else '-');
    if |replaced| <= 40 then replaced else replaced[..40]
  }
}
