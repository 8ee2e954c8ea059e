/** Splitting at a delimiter, joining, and replacing. */
module SplitJoin {
  import Seqs
  import opened Wrappers

  predicate OccursAt(d: string, s: string, k: nat) {
    k + |d| <= |s| && s[k..k + |d|] == d
  }

  lemma OccursMeans(d: string, s: string, k: nat)
    ensures OccursAt(d, s, k) <==> exists before, after :: |before| == k && s == before + d + after
  {
    if OccursAt(d, s, k) {
      assert s == s[..k] + d + s[k + |d|..];
    }
    if before, after :| |before| == k && s == before + d + after {
      assert s[k..k + |d|] == d;
    }
  }

  /** The first place from i on where d occurs. */
  function Find(s: string, d: string, i: nat): (r: Option<nat>)
    requires i <= |s|
    ensures r.Some? ==> i <= r.value && r.value + |d| <= |s|
    decreases |s| - i
  {
    if OccursAt(d, s, i) then Some(i) else if i == |s| then None else Find(s, d, i + 1)
  }

  lemma {:induction false} FoundFirst(s: string, d: string, i: nat)
    requires i <= |s|
    ensures var r := Find(s, d, i);
      if r.Some? then OccursAt(d, s, r.value) && (forall k: nat :: i <= k < r.value ==> !OccursAt(d, s, k))
      else forall k: nat :: i <= k ==> !OccursAt(d, s, k)
    decreases |s| - i
  {
    if !OccursAt(d, s, i) && i < |s| {
      FoundFirst(s, d, i + 1);
    }
  }

  /** Nothing before it and there it is: that is what is found. */
  lemma FirstFound(s: string, d: string, i: nat, k: nat)
    requires i <= k <= |s| && OccursAt(d, s, k) && forall j: nat :: i <= j < k ==> !OccursAt(d, s, j)
    ensures Find(s, d, i) == Some(k)
  {
    FoundFirst(s, d, i);
  }

  /** The pieces of a text from i on. */
  function Split(s: string, d: string, i: nat): (parts: seq<string>)
    requires d != "" && i <= |s|
    ensures parts != []
    decreases |s| - i
  {
    var end := Find(s, d, i);
    if end.None? then [s[i..]] else [s[i..end.value]] + Split(s, d, end.value + |d|)
  }

  function Join(parts: seq<string>, separator: string): string {
    if parts == [] then ""
    else parts[0] + (if |parts| == 1 then "" else separator) + Join(parts[1..], separator)
  }

  method StringSplit(s: string, delimiter: string) returns (parts: seq<string>)
    requires delimiter != ""
    ensures parts == Split(s, delimiter, 0)
  {
    hide Find, OccursAt;
    parts := [];
    Seqs.AppendNothing(Split(s, delimiter, 0), []);
    var start := 0;
    var end := Find(s, delimiter, 0);
    while end.Some?
      invariant start <= |s| && end == Find(s, delimiter, start)
      invariant Split(s, delimiter, 0) == parts + Split(s, delimiter, start)
      decreases |s| - start
    {
      Seqs.Associative(parts, [s[start..end.value]], Split(s, delimiter, end.value + |delimiter|));
      parts := parts + [s[start..end.value]];
      start := end.value + |delimiter|;
      end := Find(s, delimiter, start);
    }
    parts := parts + [s[start..]];
  }

  /** Where the loop stands after some rounds; nowhere once it has ended. */
  function StartAfter(s: string, delimiter: string, rounds: nat): (start: Option<nat>)
    ensures start.Some? ==> start.value <= |s|
  {
    if rounds == 0 then Some(0)
    else
      var before := StartAfter(s, delimiter, rounds - 1);
      var end := if before.Some? then Find(s, delimiter, before.value) else None;
      if end.Some? then Some(end.value + |delimiter|) else None
  }

  /** The loop ends exactly for a delimiter that is not empty. */
  lemma LoopEndsExactly(s: string, delimiter: string)
    ensures (exists rounds: nat :: StartAfter(s, delimiter, rounds).None?) <==> delimiter != ""
  {
    if delimiter == "" {
      forall rounds: nat ensures StartAfter(s, delimiter, rounds).Some? {
        LoopStays(s, rounds);
      }
    } else {
      LoopMoves(s, delimiter, |s| + 1);
      assert StartAfter(s, delimiter, |s| + 1).None?;
    }
  }

  lemma {:induction false} LoopStays(s: string, rounds: nat)
    ensures StartAfter(s, "", rounds) == Some(0)
  {
    if rounds > 0 {
      LoopStays(s, rounds - 1);
      assert s[0..0] == "";
    }
  }

  lemma {:induction false} LoopMoves(s: string, delimiter: string, rounds: nat)
    requires delimiter != ""
    ensures StartAfter(s, delimiter, rounds).Some? ==> StartAfter(s, delimiter, rounds).value >= rounds
  {
    if rounds > 0 {
      LoopMoves(s, delimiter, rounds - 1);
    }
  }

  lemma JoinFrom(values: seq<string>, separator: string, i: nat)
    requires i < |values|
    ensures Join(values[i..], separator) == values[i] + ((if i + 1 < |values| then separator else "") + Join(values[i + 1..], separator))
  {
    Seqs.DropCons(values, i);
    Seqs.Associative(values[i], if i + 1 < |values| then separator else "", Join(values[i + 1..], separator));
  }

  method StringJoin(values: seq<string>, separator: string) returns (r: string)
    ensures r == Join(values, separator)
  {
    hide Join;
    r := "";
    var i := 0;
    assert values[0..] == values;
    while i < |values|
      invariant i <= |values|
      invariant Join(values, separator) == r + ((if 0 < i < |values| then separator else "") + Join(values[i..], separator))
    {
      ghost var lead := if i > 0 then separator else "";
      ghost var rest := (if i + 1 < |values| then separator else "") + Join(values[i + 1..], separator);
      JoinFrom(values, separator, i);
      Seqs.Associative(r, lead, values[i] + rest);
      Seqs.Associative(r + lead, values[i], rest);
      Seqs.AppendNothing(r, "");
      if i > 0 {
        r := r + separator;
      }
      r := r + values[i];
      i := i + 1;
    }
    assert values[i..] == [];
    assert Join(values[i..], separator) == "" by { NothingJoined(separator); }
    Seqs.AppendNothing(r, "");
  }

  lemma NothingJoined(separator: string)
    ensures Join([], separator) == ""
  {
  }

  /** The delimiter-free pieces that a text falls into when it is cut at the
      first delimiter again and again: no delimiter starts inside a piece. */
  predicate IsCut(parts: seq<string>, d: string)
    requires d != ""
  {
    parts != [] &&
    if |parts| == 1 then Find(parts[0], d, 0).None?
    else Find(parts[0] + d, d, 0) == Some(|parts[0]|) && IsCut(parts[1..], d)
  }

  lemma {:induction false} JoinSplit(s: string, d: string, i: nat)
    requires d != "" && i <= |s|
    ensures Join(Split(s, d, i), d) == s[i..]
    decreases |s| - i
  {
    hide Find, OccursAt;
    var end := Find(s, d, i);
    if end.Some? {
      var k := end.value;
      JoinSplit(s, d, k + |d|);
      assert s[k..k + |d|] == d by { FoundAt(s, d, i); }
      var rest := Split(s, d, k + |d|);
      Seqs.FirstOfAppend([s[i..k]], rest);
      Seqs.AppendNothing(rest, [s[i..k]][1..]);
      Joins(s, i, k, k + |d|);
    } else {
      Seqs.AppendNothing(s[i..], "");
      assert Join([], d) == "";
    }
  }

  lemma FoundAt(s: string, d: string, i: nat)
    requires i <= |s| && Find(s, d, i).Some?
    ensures var k := Find(s, d, i).value; s[k..k + |d|] == d
  {
    FoundFirst(s, d, i);
  }

  lemma Joins(s: string, i: nat, k: nat, n: nat)
    requires i <= k <= n <= |s|
    ensures s[i..k] + s[k..n] + s[n..] == s[i..]
  {
  }

  lemma {:induction false} SplitIsCut(s: string, d: string, i: nat)
    requires d != "" && i <= |s|
    ensures IsCut(Split(s, d, i), d)
    decreases |s| - i
  {
    hide OccursAt, Find;
    var end := Find(s, d, i);
    FoundFirst(s, d, i);
    if end.Some? {
      var rest := Split(s, d, end.value + |d|);
      SplitIsCut(s, d, end.value + |d|);
      Seqs.FirstOfAppend([s[i..end.value]], rest);
      Seqs.AppendNothing(rest, [s[i..end.value]][1..]);
      PieceBefore(s, d, i, end.value);
    } else {
      NothingIn(s, d, i);
    }
  }

  lemma PieceBefore(s: string, d: string, i: nat, k: nat)
    requires d != "" && i <= k && OccursAt(d, s, k) && forall j: nat :: i <= j < k ==> !OccursAt(d, s, j)
    ensures Find(s[i..k] + d, d, 0) == Some(k - i)
  {
    var p, more := s[i..k] + d, s[k + |d|..];
    Joins(s, i, k, k + |d|);
    forall j: nat | j <= k - i ensures OccursAt(d, p, j) <==> OccursAt(d, s, i + j) {
      OccursWithin(p, d, more, j);
      OccursFrom(s, d, i, j);
    }
    FirstFound(p, d, 0, k - i);
  }

  lemma OccursFrom(s: string, d: string, i: nat, k: nat)
    requires i <= |s|
    ensures OccursAt(d, s[i..], k) <==> OccursAt(d, s, i + k)
  {
    if i + k + |d| <= |s| {
      Seqs.SliceOfDrop(s, i, k, |d|);
    }
  }

  lemma OccursWithin(p: string, d: string, more: string, k: nat)
    requires k + |d| <= |p|
    ensures OccursAt(d, p, k) <==> OccursAt(d, p + more, k)
  {
    Seqs.SliceOfAppend(p, more, k, |d|);
  }

  lemma NothingIn(s: string, d: string, i: nat)
    requires i <= |s|
    ensures Find(s[i..], d, 0).None? <==> Find(s, d, i).None?
  {
    hide OccursAt, Find;
    FoundFirst(s, d, i);
    FoundFirst(s[i..], d, 0);
    if Find(s[i..], d, 0).Some? {
      OccursFrom(s, d, i, Find(s[i..], d, 0).value);
    }
    if Find(s, d, i).Some? {
      OccursFrom(s, d, i, Find(s, d, i).value - i);
    }
  }

  /** No piece of a text holds the delimiter. */
  lemma PiecesAreFree(s: string, d: string, n: nat, k: nat)
    requires d != "" && n < |Split(s, d, 0)|
    ensures !OccursAt(d, Split(s, d, 0)[n], k)
  {
    SplitIsCut(s, d, 0);
    CutPiecesAreFree(Split(s, d, 0), d, n, k);
  }

  lemma {:induction false} CutPiecesAreFree(parts: seq<string>, d: string, n: nat, k: nat)
    requires d != "" && IsCut(parts, d) && n < |parts|
    ensures !OccursAt(d, parts[n], k)
    decreases |parts|
  {
    if n > 0 {
      CutPiecesAreFree(parts[1..], d, n - 1, k);
    } else if |parts| == 1 {
      FoundFirst(parts[0], d, 0);
    } else {
      FoundFirst(parts[0] + d, d, 0);
      if k + |d| <= |parts[0]| {
        OccursWithin(parts[0], d, d, k);
      }
    }
  }

  /** Pieces of that kind are found again in their joined text. */
  lemma {:induction false} CutIsSplit(parts: seq<string>, d: string, s: string, i: nat)
    requires d != "" && IsCut(parts, d) && i <= |s| && s[i..] == Join(parts, d)
    ensures Split(s, d, i) == parts
    decreases |parts|
  {
    hide Find, OccursAt;
    if |parts| == 1 {
      Seqs.AppendNothing(parts[0], "");
      assert Join(parts[1..], d) == "";
      NothingIn(s, d, i);
    } else {
      var k, rest := |parts[0]|, Join(parts[1..], d);
      Seqs.Border(parts[0] + d, rest);
      FirstPiece(s, d, i, parts[0], rest);
      CutIsSplit(parts[1..], d, s, i + k + |d|);
      Seqs.DropCons(parts, 0);
    }
  }

  lemma FirstPiece(s: string, d: string, i: nat, p: string, rest: string)
    requires d != "" && i <= |s| && s[i..] == p + d + rest && Find(p + d, d, 0) == Some(|p|)
    ensures i + |p| + |d| <= |s| && Find(s, d, i) == Some(i + |p|) && s[i..i + |p|] == p && s[i + |p| + |d|..] == rest
  {
    hide OccursAt, Find;
    FoundFirst(p + d, d, 0);
    forall j: nat | i <= j < i + |p| ensures !OccursAt(d, s, j) {
      assert !OccursAt(d, p + d, j - i);
      OccursWithin(p + d, d, rest, j - i);
      OccursFrom(s, d, i, j - i);
    }
    OccursWithin(p + d, d, rest, |p|);
    OccursFrom(s, d, i, |p|);
    FirstFound(s, d, i, i + |p|);
    Pieces(s, i, p, d, rest);
  }

  lemma Pieces(s: string, i: nat, p: string, d: string, rest: string)
    requires i <= |s| && s[i..] == p + d + rest
    ensures i + |p| + |d| <= |s| && s[i..i + |p|] == p && s[i + |p| + |d|..] == rest
  {
    assert |s[i..]| == |p| + |d| + |rest|;
    assert s[i..i + |p|] == s[i..][..|p|] && s[i + |p| + |d|..] == s[i..][|p| + |d|..];
  }

  /** Splitting a joined text gives the pieces back exactly when they are such. */
  lemma SplitJoinExactly(parts: seq<string>, d: string)
    requires d != ""
    ensures Split(Join(parts, d), d, 0) == parts <==> IsCut(parts, d)
  {
    hide Split, Join, IsCut;
    var s := Join(parts, d);
    assert s[0..] == s;
    SplitIsCut(s, d, 0);
    if IsCut(parts, d) {
      CutIsSplit(parts, d, s, 0);
    }
  }

  /** Replacing is splitting at one text and joining with the other. */
  method StringReplaceAll(s: string, search: string, replace: string) returns (r: string)
    ensures r == if search == "" then s else Join(Split(s, search, 0), replace)
  {
    hide Find, OccursAt, Split;
    if search == "" {
      return s;
    }
    r := "";
    var lastPos := 0;
    var pos := Find(s, search, 0);
    while pos.Some?
      invariant lastPos <= |s| && pos == Find(s, search, lastPos)
      invariant Join(Split(s, search, 0), replace) == r + Join(Split(s, search, lastPos), replace)
      decreases |s| - lastPos
    {
      JoinStep(s, search, replace, lastPos);
      ghost var rest := Join(Split(s, search, pos.value + |search|), replace);
      Seqs.Associative(r, s[lastPos..pos.value] + replace, rest);
      Seqs.Associative(r, s[lastPos..pos.value], replace);
      r := r + s[lastPos..pos.value];
      r := r + replace;
      lastPos := pos.value + |search|;
      pos := Find(s, search, lastPos);
    }
    JoinStep(s, search, replace, lastPos);
    r := r + s[lastPos..];
  }

  lemma JoinStep(s: string, d: string, separator: string, i: nat)
    requires d != "" && i <= |s|
    ensures var end := Find(s, d, i);
      Join(Split(s, d, i), separator) ==
        if end.Some? then s[i..end.value] + separator + Join(Split(s, d, end.value + |d|), separator) else s[i..]
  {
    hide Find;
    var end := Find(s, d, i);
    if end.Some? {
      var rest := Split(s, d, end.value + |d|);
      Seqs.FirstOfAppend([s[i..end.value]], rest);
      Seqs.AppendNothing(rest, [s[i..end.value]][1..]);
    } else {
      Seqs.AppendNothing(s[i..], "");
      assert Join([], separator) == "";
    }
  }
}
