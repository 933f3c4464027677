/** The deletion loop of `Prune` and what repeated runs of it achieve. */
module Retention {

  /** A data file as the loop meets it: oldest first, with its age check and whether it can be removed. */
  datatype DataFile = DataFile(hour: int, name: nat, size: nat, expired: bool, removable: bool)

  /** `totalBytes`, bytes freed, and which of the files seen so far were deleted. */
  datatype Progress = Progress(totalBytes: int, freed: nat, deleted: seq<bool>)

  /** One round of the loop. Freed bytes count twice against the budget: they are subtracted from the
      total when a file goes, and subtracted again in the comparison. */
  function PruneFile(s: Progress, f: DataFile, maxSizeBytes: int): Progress {
    var shouldDelete := f.expired || (maxSizeBytes > 0 && s.totalBytes - s.freed > maxSizeBytes);
    if shouldDelete && f.removable then Progress(s.totalBytes - f.size, s.freed + f.size, s.deleted + [true])
    else s.(deleted := s.deleted + [false])
  }

  function PruneAll(files: seq<DataFile>, total: int, maxSizeBytes: int): (r: Progress)
    ensures |r.deleted| == |files|
  {
    if files == [] then Progress(total, 0, [])
    else PruneFile(PruneAll(files[..|files| - 1], total, maxSizeBytes), files[|files| - 1], maxSizeBytes)
  }

  lemma PruneNext(files: seq<DataFile>, i: nat, total: int, maxSizeBytes: int)
    requires i < |files|
    ensures PruneAll(files[..i + 1], total, maxSizeBytes) == PruneFile(PruneAll(files[..i], total, maxSizeBytes), files[i], maxSizeBytes)
  {
    assert files[..i + 1][..i] == files[..i];
  }

  function SumSizes(files: seq<DataFile>): nat {
    if files == [] then 0 else SumSizes(files[..|files| - 1]) + files[|files| - 1].size
  }

  /** Budget-only pruning over files that can all be removed. */
  predicate BudgetOnly(files: seq<DataFile>) {
    forall i :: 0 <= i < |files| ==> !files[i].expired && files[i].removable
  }

  /** The first `k` files are deleted and the others kept. */
  predicate DeletesPrefix(r: Progress, k: nat) {
    k <= |r.deleted| && forall i :: 0 <= i < |r.deleted| ==> r.deleted[i] == (i < k)
  }

  lemma PrefixOfPrefix<T>(s: seq<T>, n: nat, j: nat)
    requires j <= n <= |s|
    ensures s[..n][..j] == s[..j]
  {
  }

  /** Budget-only pruning deletes an oldest-first prefix: the shortest one whose size, counted twice,
      brings the total within the budget, or everything. */
  lemma {:induction false} PrunesShortestPrefix(files: seq<DataFile>, total: int, budget: nat) returns (k: nat)
    requires BudgetOnly(files) && budget > 0
    ensures k <= |files| && DeletesPrefix(PruneAll(files, total, budget), k)
    ensures PruneAll(files, total, budget).freed == SumSizes(files[..k])
    ensures PruneAll(files, total, budget).totalBytes == total - SumSizes(files[..k])
    ensures k < |files| ==> total - 2 * SumSizes(files[..k]) <= budget
    ensures forall j :: 0 <= j < k ==> total - 2 * SumSizes(files[..j]) > budget
  {
    if files == [] {
      k := 0;
    } else {
      var n := |files| - 1;
      var init := files[..n];
      k := PrunesShortestPrefix(init, total, budget);
      forall j | 0 <= j <= n ensures init[..j] == files[..j] { PrefixOfPrefix(files, n, j); }
      if k == n && total - 2 * SumSizes(files[..n]) > budget {
        assert files[..n + 1] == files;
        k := n + 1;
      }
    }
  }

  /** One run ends with no data files left or with at most half of the excess. */
  lemma PruneHalvesExcess(files: seq<DataFile>, total: int, budget: nat) returns (k: nat)
    requires BudgetOnly(files) && budget > 0
    ensures k <= |files| && DeletesPrefix(PruneAll(files, total, budget), k)
    ensures PruneAll(files, total, budget).totalBytes == total - SumSizes(files[..k])
    ensures k == |files| || 2 * (PruneAll(files, total, budget).totalBytes - budget) <= total - budget
    ensures total <= budget ==> k == 0
  {
    k := PrunesShortestPrefix(files, total, budget);
    assert files[..0] == [];
    assert k > 0 ==> total - 2 * SumSizes(files[..0]) > budget;
  }

  /** One run is not enough in general: the excess can stay positive although a second run would
      have had files to delete. */
  lemma OneRunCanFallShort()
    ensures var files := [DataFile(0, 0, 5, false, true), DataFile(0, 1, 5, false, true)];
      var r := PruneAll(files, 10, 1);
      r.totalBytes == 5 && r.totalBytes > 1 && r.deleted == [true, false]
  {
    var a, b := DataFile(0, 0, 5, false, true), DataFile(0, 1, 5, false, true);
    var files := [a, b];
    assert files[..1] == [a] && [a][..0] == [];
    assert PruneAll([], 10, 1) == Progress(10, 0, []);
    assert PruneAll([a], 10, 1) == Progress(5, 5, [true]);
  }

  // ---------------------------------------------------------------- when one run is enough

  /** The bytes freed if the first `k` files and every expired one go, as far as they can be removed. */
  function Freed(files: seq<DataFile>, k: nat): nat {
    if files == [] then 0
    else
      var n := |files| - 1;
      Freed(files[..n], k) + if files[n].removable && (n < k || files[n].expired) then files[n].size else 0
  }

  /** For any files: until the freed bytes pass half of the excess everything removable goes, and after
      that only what has expired. */
  lemma {:induction false} RunFrees(files: seq<DataFile>, total: int, budget: nat) returns (k: nat)
    requires budget > 0
    ensures k <= |files| && PruneAll(files, total, budget).freed == Freed(files, k)
    ensures PruneAll(files, total, budget).totalBytes == total - Freed(files, k)
    ensures k < |files| ==> 2 * Freed(files[..k], k) >= total - budget && 2 * Freed(files, k) >= total - budget
    ensures forall j :: 0 <= j < k ==> 2 * Freed(files[..j], j) < total - budget
  {
    if files == [] {
      k := 0;
    } else {
      var n := |files| - 1;
      k := RunFrees(files[..n], total, budget);
      forall j | 0 <= j <= n ensures files[..n][..j] == files[..j] { PrefixOfPrefix(files, n, j); }
      if k == n && 2 * Freed(files[..n], n) < total - budget {
        k := n + 1;
        EarlierFiles(files[..n], n, n + 1);
      }
    }
  }

  lemma {:induction false} EarlierFiles(files: seq<DataFile>, i: nat, k: nat)
    requires i <= k
    ensures Freed(files, i) <= Freed(files, k)
    ensures |files| <= i ==> Freed(files, i) == Freed(files, k)
  {
    if files != [] { EarlierFiles(files[..|files| - 1], i, k); }
  }

  /** The first `k` files with the expired ones free the whole excess, and no fewer files free half of it. */
  predicate EnoughAt(files: seq<DataFile>, k: nat, total: int, budget: nat) {
    k <= |files| && Freed(files, k) >= total - budget && forall j :: 0 <= j < k ==> 2 * Freed(files[..j], j) < total - budget
  }

  /** One run reaches the budget if and only if the file that passes half of the excess, with whatever
      expires after it, also passes all of it. */
  lemma ReachesBudgetIff(files: seq<DataFile>, total: int, budget: nat)
    requires budget > 0
    ensures PruneAll(files, total, budget).totalBytes <= budget <==> exists k :: EnoughAt(files, k, total, budget)
  {
    var k := RunFrees(files, total, budget);
    if i :| EnoughAt(files, i, total, budget) {
      assert i <= k;
      EarlierFiles(files, i, k);
    }
    assert total - Freed(files, k) <= budget ==> EnoughAt(files, k, total, budget);
  }

  /** What is left after a run that deleted the first `k` files. */
  function Remaining(files: seq<DataFile>, r: Progress): seq<DataFile>
    requires |r.deleted| == |files|
  {
    if files == [] then []
    else
      var n := |files| - 1;
      Remaining(files[..n], r.(deleted := r.deleted[..n])) + if r.deleted[n] then [] else [files[n]]
  }

  lemma {:induction false} RemainingIsSuffix(files: seq<DataFile>, r: Progress, k: nat)
    requires |r.deleted| == |files| && DeletesPrefix(r, k)
    ensures Remaining(files, r) == files[k..]
  {
    if files != [] {
      var n := |files| - 1;
      if k <= n {
        RemainingIsSuffix(files[..n], r.(deleted := r.deleted[..n]), k);
        assert files[k..] == files[..n][k..] + [files[n]];
      } else {
        RemainingIsSuffix(files[..n], r.(deleted := r.deleted[..n]), n);
        assert files[..n][n..] == [] && files[k..] == [];
      }
    }
  }

  /** The total after `rounds` runs in a row. */
  function Rounds(files: seq<DataFile>, total: int, budget: nat, rounds: nat): (int, seq<DataFile>)
    decreases rounds
  {
    if rounds == 0 then (total, files)
    else
      var r := PruneAll(files, total, budget);
      Rounds(Remaining(files, r), r.totalBytes, budget, rounds - 1)
  }

  function Pow2(n: nat): (p: nat)
    ensures p > 0
  {
    if n == 0 then 1 else 2 * Pow2(n - 1)
  }

  /** `y` halved `n` times, rounding down. */
  function Halve(y: int, n: nat): int
    decreases n
  {
    if n == 0 then y else Halve(y / 2, n - 1)
  }

  lemma {:induction false} HalveMonotone(x: int, y: int, n: nat)
    requires x <= y
    ensures Halve(x, n) <= Halve(y, n)
    decreases n
  {
    if n > 0 { HalveMonotone(x / 2, y / 2, n - 1); }
  }

  lemma HalvedOnce(x: int, y: int, n: nat)
    requires n > 0 && 2 * x <= y
    ensures Halve(x, n - 1) <= Halve(y, n)
  {
    HalveMonotone(x, y / 2, n - 1);
  }

  lemma {:induction false} HalvedAway(y: int, n: nat)
    requires y < Pow2(n)
    ensures Halve(y, n) <= 0
    decreases n
  {
    if n > 0 { HalvedAway(y / 2, n - 1); }
  }

  lemma OneRun(files: seq<DataFile>, total: int, budget: nat) returns (rest: seq<DataFile>)
    requires BudgetOnly(files) && budget > 0
    ensures Remaining(files, PruneAll(files, total, budget)) == rest && BudgetOnly(rest)
    ensures rest == [] || 2 * (PruneAll(files, total, budget).totalBytes - budget) <= total - budget
  {
    var k := PruneHalvesExcess(files, total, budget);
    RemainingIsSuffix(files, PruneAll(files, total, budget), k);
    rest := files[k..];
  }

  predicate Within(outcome: (int, seq<DataFile>), budget: nat, excess: int) {
    outcome.1 == [] || outcome.0 - budget <= excess
  }

  /** The first of `n` runs. */
  lemma FirstRun(files: seq<DataFile>, total: int, budget: nat, n: nat) returns (rest: seq<DataFile>, total': int)
    requires n > 0 && BudgetOnly(files) && budget > 0
    ensures Rounds(files, total, budget, n) == Rounds(rest, total', budget, n - 1)
    ensures BudgetOnly(rest) && (rest == [] || 2 * (total' - budget) <= total - budget)
  {
    total' := PruneAll(files, total, budget).totalBytes;
    rest := OneRun(files, total, budget);
  }

  /** After `n` runs there are no data files left, or the excess has been halved `n` times. */
  lemma {:induction false} ExcessHalvesEachRun(files: seq<DataFile>, total: int, budget: nat, n: nat)
    requires BudgetOnly(files) && budget > 0
    ensures Within(Rounds(files, total, budget, n), budget, Halve(total - budget, n))
    decreases n
  {
    if n > 0 {
      var rest, total' := FirstRun(files, total, budget, n);
      if rest == [] {
        NothingLeft(total', budget, n - 1);
      } else {
        ExcessHalvesEachRun(rest, total', budget, n - 1);
        HalvedOnce(total' - budget, total - budget, n);
      }
    }
  }

  lemma {:induction false} NothingLeft(total: int, budget: nat, n: nat)
    ensures Rounds([], total, budget, n).1 == []
    decreases n
  {
    if n > 0 { NothingLeft(PruneAll([], total, budget).totalBytes, budget, n - 1); }
  }

  /** Logarithmically many runs reach the budget or run out of files. */
  lemma BudgetReached(files: seq<DataFile>, total: int, budget: nat, n: nat)
    requires BudgetOnly(files) && budget > 0 && Pow2(n) > total - budget
    ensures Within(Rounds(files, total, budget, n), budget, 0)
  {
    ExcessHalvesEachRun(files, total, budget, n);
    HalvedAway(total - budget, n);
  }
}
