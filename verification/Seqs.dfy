/** Equalities between slices and concatenations of sequences. */
module Seqs {

  lemma Associative<T>(a: seq<T>, b: seq<T>, c: seq<T>)
    ensures a + (b + c) == a + b + c
  {
  }

  lemma AppendNothing<T>(a: seq<T>, b: seq<T>)
    requires b == []
    ensures a + b == a && b + a == a
  {
  }

  /** The first element of a concatenation, and the rest of it. */
  lemma FirstOfAppend<T>(a: seq<T>, b: seq<T>)
    requires a != []
    ensures (a + b)[0] == a[0] && (a + b)[1..] == a[1..] + b
  {
  }

  lemma Split<T>(s: seq<T>, k: nat)
    requires k <= |s|
    ensures s[..k] + s[k..] == s
  {
  }

  lemma WholeSlice<T>(s: seq<T>, i: nat, k: nat)
    requires i <= k == |s|
    ensures s[i..k] == s[i..]
  {
  }

  lemma WholeTake<T>(s: seq<T>, k: nat)
    requires k == |s|
    ensures s[..k] == s
  {
  }

  lemma SliceSnoc<T>(s: seq<T>, i: nat, k: nat)
    requires i <= k < |s|
    ensures s[i..k + 1] == s[i..k] + [s[k]]
  {
  }

  lemma TakeSnoc<T>(s: seq<T>, k: nat)
    requires k < |s|
    ensures s[..k + 1] == s[..k] + [s[k]]
  {
  }

  lemma DropCons<T>(s: seq<T>, k: nat)
    requires k < |s|
    ensures s[k..] == [s[k]] + s[k + 1..]
    ensures s[k..][0] == s[k] && s[k..][1..] == s[k + 1..]
  {
  }

  lemma TakeSlice<T>(s: seq<T>, i: nat, k: nat)
    requires i <= k <= |s|
    ensures s[..i] + s[i..k] == s[..k]
  {
  }

  lemma RestOfTake<T>(s: seq<T>, k: nat)
    requires 0 < k <= |s|
    ensures s[..k][0] == s[0] && s[..k][1..] == s[1..][..k - 1]
  {
  }

  /** Both sides of an element put between two sequences. */
  lemma Between<T>(a: seq<T>, x: T, b: seq<T>)
    ensures var s := a + [x] + b;
      s[..|a|] == a && s[|a|] == x && s[|a| + 1..] == b && s[..|a| + 1] == a + [x] && s[|a|..] == [x] + b
  {
  }

  /** Both sides of the border of two sequences. */
  lemma Border<T>(a: seq<T>, b: seq<T>)
    ensures (a + b)[..|a|] == a && (a + b)[|a|..] == b
  {
  }

  lemma SliceOfDrop<T>(s: seq<T>, i: nat, k: nat, n: nat)
    requires i + k + n <= |s|
    ensures s[i..][k..k + n] == s[i + k..i + k + n]
  {
    var a, b := s[i..][k..k + n], s[i + k..i + k + n];
    forall j | 0 <= j < n ensures a[j] == b[j] {
    }
  }

  lemma SliceOfAppend<T>(s: seq<T>, t: seq<T>, k: nat, n: nat)
    requires k + n <= |s|
    ensures (s + t)[k..k + n] == s[k..k + n]
  {
    var a, b := (s + t)[k..k + n], s[k..k + n];
    forall j | 0 <= j < n ensures a[j] == b[j] {
    }
  }
}
