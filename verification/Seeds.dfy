/**
 The choice of target directories for seed corpora (prepareSeeds in the bundler):
 the first of "base", "base-1", "base-2", ... that no earlier corpus uses.
 */
module Seeds {
  import opened Decimals
  import opened Finite

  function Candidate(base: string, i: nat): string {
    if i == 0 then base else base + "-" + Digits(i)
  }

  /** The base itself, then the base, a dash and the numbers from one on. */
  lemma CandidateMeans(base: string, i: nat)
    ensures i == 0 ==> Candidate(base, i) == base
    ensures i > 0 ==> base + "-" <= Candidate(base, i) && NumberOf(Candidate(base, i)[|base| + 1..]) == i
  {
    DigitsMean(i);
    if i > 0 {
      assert Candidate(base, i)[|base| + 1..] == Digits(i);
    }
  }

  lemma CandidatesDiffer(base: string, i: nat, j: nat)
    requires i != j
    ensures Candidate(base, i) != Candidate(base, j)
  {
    if i == 0 || j == 0 {
      assert |Candidate(base, i)| != |Candidate(base, j)|;
    } else {
      assert Candidate(base, i)[|base| + 1..] == Digits(i) && Candidate(base, j)[|base| + 1..] == Digits(j);
      if Digits(i) == Digits(j) {
        DigitsInjective(i, j);
      }
    }
  }

  /** The first n candidates. */
  ghost function Tried(base: string, n: nat): (s: set<string>)
    ensures forall i: nat :: i < n ==> Candidate(base, i) in s
    ensures forall x :: x in s ==> exists i: nat :: i < n && Candidate(base, i) == x
  {
    if n == 0 then {} else Tried(base, n - 1) + {Candidate(base, n - 1)}
  }

  lemma {:induction false} TriedSize(base: string, n: nat)
    ensures |Tried(base, n)| == n
  {
    if n > 0 {
      TriedSize(base, n - 1);
      forall i: nat | i < n - 1
        ensures Candidate(base, i) != Candidate(base, n - 1)
      {
        CandidatesDiffer(base, i, n - 1);
      }
    }
  }

  lemma {:induction false} ElementsSize(s: seq<string>)
    ensures |set x | x in s| <= |s|
  {
    if s != [] {
      ElementsSize(s[1..]);
      assert (set x | x in s) == (set x | x in s[1..]) + {s[0]};
    }
  }

  /** Pigeonhole: if the first n candidates are all taken, there are n directories. */
  lemma AllTaken(base: string, n: nat, used: seq<string>)
    requires forall i: nat :: i < n ==> Candidate(base, i) in used
    ensures n <= |used|
  {
    TriedSize(base, n);
    ElementsSize(used);
    SubsetSize(Tried(base, n), (set x | x in used));
  }

  /** The directory is the first candidate that is not in use, among the first |used| + 1. */
  ghost predicate FirstFree(base: string, used: seq<string>, target: string) {
    exists i: nat :: i <= |used| && IsFirstFree(base, used, target, i)
  }

  ghost predicate IsFirstFree(base: string, used: seq<string>, target: string, i: nat) {
    target == Candidate(base, i) && target !in used && forall j: nat :: j < i ==> Candidate(base, j) in used
  }

  /** The inner loop: at most |used| + 1 names are tried. */
  method ChooseDir(base: string, used: seq<string>) returns (target: string)
    ensures target !in used && FirstFree(base, used, target)
  {
    target := base;
    var i := 1;
    while target in used
      invariant 1 <= i <= |used| + 1
      invariant target == Candidate(base, i - 1)
      invariant forall j: nat :: j < i - 1 ==> Candidate(base, j) in used
      decreases |used| + 1 - i
    {
      AllTaken(base, i, used);
      target := base + "-" + Digits(i);
      i := i + 1;
    }
    assert IsFirstFree(base, used, target, i - 1);
  }

  /** prepareSeeds, on the joined base names; writeOk says which WriteDir calls succeed. */
  method PrepareSeeds(bases: seq<string>, writeOk: seq<bool>) returns (targets: seq<string>, ok: bool)
    requires |writeOk| == |bases|
    ensures |targets| <= |bases|
    ensures ok ==> |targets| == |bases|
    ensures ok <==> forall k :: 0 <= k < |bases| ==> writeOk[k]
    ensures forall k :: 0 <= k < |targets| ==> FirstFree(bases[k], targets[..k], targets[k])
    ensures forall j, k :: 0 <= j < k < |targets| ==> targets[j] != targets[k]
  {
    targets := [];
    for n := 0 to |bases|
      invariant |targets| == n
      invariant forall k :: 0 <= k < n ==> writeOk[k]
      invariant forall k :: 0 <= k < n ==> FirstFree(bases[k], targets[..k], targets[k])
      invariant forall j, k :: 0 <= j < k < n ==> targets[j] != targets[k]
    {
      var target := ChooseDir(bases[n], targets);
      ghost var before := targets;
      targets := targets + [target];
      assert targets[..n] == before;
      assert forall k :: 0 <= k < n ==> targets[..k] == before[..k];
      if !writeOk[n] {
        return targets, false;
      }
    }
    ok := true;
  }
}
