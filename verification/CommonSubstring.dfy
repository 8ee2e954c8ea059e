/** The longest text that two texts have in common, from a table of run lengths. */
module CommonSubstring {
  import Seqs

  ghost predicate OccursAt(s: string, t: string, i: nat) {
    i + |s| <= |t| && t[i..i + |s|] == s
  }

  ghost predicate Occurs(s: string, t: string) {
    exists i: nat :: OccursAt(s, t, i)
  }

  /** How far back two texts agree from given places. */
  function Run(a: string, b: string, i: nat, j: nat): (n: nat)
    requires i <= |a| && j <= |b|
    ensures n <= i && n <= j
  {
    if i == 0 || j == 0 || a[i - 1] != b[j - 1] then 0 else Run(a, b, i - 1, j - 1) + 1
  }

  lemma {:induction false} RunExactly(a: string, b: string, i: nat, j: nat, k: nat)
    requires k <= i <= |a| && k <= j <= |b|
    ensures k <= Run(a, b, i, j) <==> a[i - k..i] == b[j - k..j]
    decreases i
  {
    if k == 0 {
    } else {
      Seqs.SliceSnoc(a, i - k, i - 1);
      Seqs.SliceSnoc(b, j - k, j - 1);
      if a[i - 1] == b[j - 1] {
        assert a[i - k..i][..k - 1] == a[i - k..i - 1] && b[j - k..j][..k - 1] == b[j - k..j - 1];
        RunExactly(a, b, i - 1, j - 1, k - 1);
      } else {
        assert a[i - k..i][k - 1] != b[j - k..j][k - 1];
      }
    }
  }

  /** Every common text ends somewhere in a run that is at least as long. */
  lemma CommonHasRun(a: string, b: string, s: string, end: nat)
    requires |s| <= end && OccursAt(s, a, end - |s|) && Occurs(s, b)
    ensures exists j: nat :: j <= |b| && |s| <= Run(a, b, end, j)
  {
    var j: nat :| OccursAt(s, b, j);
    RunExactly(a, b, end, j + |s|, |s|);
  }

  lemma RunIsCommon(a: string, b: string, i: nat, j: nat)
    requires i <= |a| && j <= |b|
    ensures var s := a[i - Run(a, b, i, j)..i]; OccursAt(s, a, i - Run(a, b, i, j)) && Occurs(s, b)
  {
    var n := Run(a, b, i, j);
    RunExactly(a, b, i, j, n);
    assert OccursAt(a[i - n..i], b, j - n);
  }

  /** The table cells before row i, and those of row i before column j. */
  predicate Before(x: nat, y: nat, i: nat, j: nat) {
    x < i || (x == i && y < j)
  }

  /** The best run among the cells seen: none is longer, none as long ends earlier. */
  ghost predicate IsBest(a: string, b: string, i: nat, j: nat, len: nat, endA: nat, endB: nat) {
    endA <= i && endA <= |a| && endB <= |b| && len == Run(a, b, endA, endB) && (len == 0 ==> endA == 0) &&
    forall x: nat, y: nat :: x <= |a| && y <= |b| && Before(x, y, i, j) ==>
      Run(a, b, x, y) <= len && (Run(a, b, x, y) == len ==> endA <= x)
  }

  ghost predicate Filled(a: string, b: string, dp: array2<nat>, i: nat, j: nat)
    reads dp
  {
    dp.Length0 == |a| + 1 && dp.Length1 == |b| + 1 &&
    forall x: nat, y: nat :: x <= |a| && y <= |b| ==>
      dp[x, y] == if Before(x, y, i, j) then Run(a, b, x, y) else 0
  }

  method Lcs(a: string, b: string) returns (r: string)
    ensures Occurs(r, a) && Occurs(r, b)
    ensures forall s :: Occurs(s, a) && Occurs(s, b) ==> |s| <= |r|
    ensures exists p: nat :: OccursAt(r, a, p) && forall s, i: nat :: |s| == |r| && OccursAt(s, a, i) && Occurs(s, b) ==> p <= i
  {
    ghost var endB: nat := 0;
    var bestLen: nat, bestEndA: nat := 0, 0;
    if a != "" && b != "" {
      var dp := new nat[|a| + 1, |b| + 1]((_, _) => 0);
      for i := 1 to |a| + 1
        invariant Filled(a, b, dp, i, 0)
        invariant IsBest(a, b, i, 0, bestLen, bestEndA, endB)
        modifies dp
      {
        bestLen, bestEndA, endB := FillRow(a, b, dp, i, bestLen, bestEndA, endB);
      }
    }
    r := a[bestEndA - bestLen..bestEndA];
    BestIsLongest(a, b, bestLen, bestEndA, endB);
  }

  method FillRow(a: string, b: string, dp: array2<nat>, i: nat, len: nat, end: nat, ghost endB0: nat)
    returns (bestLen: nat, bestEndA: nat, ghost endB: nat)
    requires 0 < i <= |a| && Filled(a, b, dp, i, 0) && IsBest(a, b, i, 0, len, end, endB0)
    modifies dp
    ensures Filled(a, b, dp, i + 1, 0) && IsBest(a, b, i + 1, 0, bestLen, bestEndA, endB)
  {
    hide IsBest, Run;
    bestLen, bestEndA, endB := len, end, endB0;
    RowBegins(a, b, i, len, end, endB);
    for j := 1 to |b| + 1
      invariant Filled(a, b, dp, i, j) && IsBest(a, b, i, j, bestLen, bestEndA, endB)
    {
      RunStep(a, b, i, j);
      CellSeen(a, b, i, j, bestLen, bestEndA, endB);
      if a[i - 1] == b[j - 1] {
        dp[i, j] := dp[i - 1, j - 1] + 1;
        if dp[i, j] > bestLen {
          bestLen := dp[i, j];
          bestEndA := i;
          endB := j;
        }
      }
    }
    RowEnds(a, b, i, bestLen, bestEndA, endB);
  }

  lemma RunStep(a: string, b: string, i: nat, j: nat)
    requires 0 < i <= |a| && 0 < j <= |b|
    ensures Run(a, b, i, j) == if a[i - 1] == b[j - 1] then Run(a, b, i - 1, j - 1) + 1 else 0
  {
  }

  lemma CellSeen(a: string, b: string, i: nat, j: nat, len: nat, endA: nat, endB: nat)
    requires 0 < i <= |a| && j <= |b| && IsBest(a, b, i, j, len, endA, endB)
    ensures var n := Run(a, b, i, j);
      if n > len then IsBest(a, b, i, j + 1, n, i, j) else IsBest(a, b, i, j + 1, len, endA, endB)
  {
    hide Run;
  }

  /** No text ends before column 1. */
  lemma RowBegins(a: string, b: string, i: nat, len: nat, endA: nat, endB: nat)
    requires i <= |a| && IsBest(a, b, i, 0, len, endA, endB)
    ensures IsBest(a, b, i, 1, len, endA, endB)
  {
  }

  lemma RowEnds(a: string, b: string, i: nat, len: nat, endA: nat, endB: nat)
    requires i <= |a| && IsBest(a, b, i, |b| + 1, len, endA, endB)
    ensures IsBest(a, b, i + 1, 0, len, endA, endB)
  {
    hide Run;
  }

  lemma BestIsLongest(a: string, b: string, len: nat, endA: nat, endB: nat)
    requires IsBest(a, b, |a| + 1, 0, len, endA, endB) || ((a == "" || b == "") && len == endA == endB == 0)
    ensures var r := a[endA - len..endA];
      Occurs(r, a) && Occurs(r, b) &&
      (forall s :: Occurs(s, a) && Occurs(s, b) ==> |s| <= |r|) &&
      exists p: nat :: OccursAt(r, a, p) && forall s, i: nat :: |s| == |r| && OccursAt(s, a, i) && Occurs(s, b) ==> p <= i
  {
    var r := a[endA - len..endA];
    RunIsCommon(a, b, endA, endB);
    forall s | Occurs(s, a) && Occurs(s, b) ensures |s| <= |r| {
      var i: nat :| OccursAt(s, a, i);
      CommonHasRun(a, b, s, i + |s|);
    }
    forall s, i: nat | |s| == |r| && OccursAt(s, a, i) && Occurs(s, b) ensures endA - len <= i {
      CommonHasRun(a, b, s, i + |s|);
    }
  }
}
