/** The search for an unused file name in `http_response_file::OpenFile`. */
module FileName {
  import opened Text

  /** The name tried in round `k`: the bare name, then `name.1`, `name.2`, ... */
  function Candidate(name: string, k: nat): string {
    if k == 0 then name else name + "." + Decimal(k)
  }

  lemma CandidatesDiffer(name: string, j: nat, k: nat)
    requires j != k
    ensures Candidate(name, j) != Candidate(name, k)
  {
    if j != 0 && k != 0 {
      var n := |name + "."|;
      assert Candidate(name, j)[n..] == Decimal(j);
      assert Candidate(name, k)[n..] == Decimal(k);
      DecimalInjective(j, k);
    }
  }

  /** If the first `k` candidates all exist, at least `k` files exist. */
  lemma {:induction false} Pigeonhole(name: string, existing: set<string>, k: nat)
    requires forall j :: 0 <= j < k ==> Candidate(name, j) in existing
    ensures k <= |existing|
  {
    if k > 0 {
      var last := Candidate(name, k - 1);
      forall j | 0 <= j < k - 1 ensures Candidate(name, j) in existing - {last} {
        CandidatesDiffer(name, j, k - 1);
      }
      Pigeonhole(name, existing - {last}, k - 1);
    }
  }

  /** The least candidate from `k` on that is free. */
  function FirstFree(name: string, existing: set<string>, k: nat): (free: nat)
    requires forall j :: 0 <= j < k ==> Candidate(name, j) in existing
    ensures Candidate(name, free) !in existing
    ensures forall j :: 0 <= j < free ==> Candidate(name, j) in existing
    ensures k <= free <= |existing|
    decreases |existing| - k
  {
    Pigeonhole(name, existing, k);
    if Candidate(name, k) !in existing then k
    else
      Pigeonhole(name, existing, k + 1);
      FirstFree(name, existing, k + 1)
  }

  function FreePath(name: string, existing: set<string>): string {
    Candidate(name, FirstFree(name, existing, 0))
  }

  /** The search picks the bare name, or `name.k` with the least unused k >= 1, and
      any path with that property is the one it picks. */
  lemma FreePathIsLeast(name: string, existing: set<string>, k: nat)
    ensures FreePath(name, existing) == Candidate(name, k) <==>
      Candidate(name, k) !in existing && forall j :: 0 <= j < k ==> Candidate(name, j) in existing
    ensures FreePath(name, existing) !in existing
  {
    var free := FirstFree(name, existing, 0);
    if free != k {
      CandidatesDiffer(name, free, k);
    }
  }

  /** The path is the name with a dot and the least number from 1 on that makes it unused. */
  predicate Numbered(name: string, existing: set<string>, path: string, k: nat) {
    && k >= 1 && path == name + "." + Decimal(k) && path !in existing
    && forall j: nat :: 1 <= j < k ==> name + "." + Decimal(j) in existing
  }

  /** The bare name is chosen exactly when it is unused, and otherwise the name with the
      least unused number, which is unique. */
  lemma FreePathByName(name: string, existing: set<string>) returns (k: nat)
    ensures FreePath(name, existing) == name <==> name !in existing
    ensures FreePath(name, existing) !in existing
    ensures name in existing ==> Numbered(name, existing, FreePath(name, existing), k)
    ensures forall i: nat, path :: name in existing && Numbered(name, existing, path, i) ==>
              i == k && path == FreePath(name, existing)
  {
    k := FirstFree(name, existing, 0);
    forall j: nat | 1 <= j < k ensures name + "." + Decimal(j) in existing {
      assert Candidate(name, j) in existing;
    }
    forall i: nat, path | name in existing && Numbered(name, existing, path, i)
      ensures i == k && path == FreePath(name, existing)
    {
      NumberedIsFree(name, existing, path, i);
    }
    if k > 0 {
      CandidatesDiffer(name, 0, k);
    }
  }

  lemma NumberedIsFree(name: string, existing: set<string>, path: string, i: nat)
    requires name in existing && Numbered(name, existing, path, i)
    ensures i == FirstFree(name, existing, 0) && path == FreePath(name, existing)
  {
    forall j: nat | j < i ensures Candidate(name, j) in existing {
      assert j > 0 ==> name + "." + Decimal(j) in existing;
    }
    FreePathIsLeast(name, existing, i);
    forall j: nat | j != i ensures Candidate(name, j) != Candidate(name, i) {
      CandidatesDiffer(name, j, i);
    }
  }
}
