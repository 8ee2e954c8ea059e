/** What two template outputs share at both ends, segment by segment, and when
    the parts can be put together again. */
module DiffSplit {
  import Seqs
  import opened Segments

  datatype Split = Split(prefix: string, suffix: string, left: string, right: string)

  /** Prefix, own part and suffix make up each side. */
  predicate Conserved(left: string, right: string, r: Split) {
    r.prefix + r.left + r.suffix == left && r.prefix + r.right + r.suffix == right
  }

  function Least(a: nat, b: nat): nat {
    if a < b then a else b
  }

  /** The rounds that take equal segments off both ends while both sides have at
      least two left; p are taken in front and q behind. */
  function Rounds(a: seq<Segment>, b: seq<Segment>, p: nat, q: nat): (r: (nat, nat))
    requires p + q <= Least(|a|, |b|)
    ensures p <= r.0 && q <= r.1 && r.0 + r.1 <= Least(|a|, |b|)
    ensures p + q < Least(|a|, |b|) && r.0 + r.1 == Least(|a|, |b|) ==> r.1 > 0
    decreases |a| - p - q
  {
    if p + q + 1 >= |a| || p + q + 1 >= |b| then (p, q)
    else
      var p1 := if a[p] == b[p] then p + 1 else p;
      var q1 := if a[|a| - 1 - q] == b[|b| - 1 - q] then q + 1 else q;
      if p1 == p && q1 == q then (p, q) else Rounds(a, b, p1, q1)
  }

  /** What is settled and what is left once the last segment of a side has been
      compared. */
  datatype Middle = Middle(prefix: string, suffix: string, left: seq<Segment>, right: seq<Segment>)

  /** Where the end iterator stands: on the last segment left, or on the spent one. */
  function EndOf(n: nat, p: nat, q: nat): (e: nat)
    requires p + q <= n && 0 < n && (p + q == n ==> q > 0)
    ensures p <= e < n
  {
    if p + q == n then p else n - 1 - q
  }

  /** The segments from p to the end iterator, none when they are spent. */
  function Remaining(a: seq<Segment>, p: nat, q: nat): seq<Segment>
    requires p + q <= |a|
  {
    a[p..|a| - q]
  }

  function Ends(a: seq<Segment>, b: seq<Segment>, p: nat, q: nat): Middle
    requires p + q <= Least(|a|, |b|) && 0 < Least(|a|, |b|) && (p + q == Least(|a|, |b|) ==> q > 0)
  {
    var endA, endB := EndOf(|a|, p, q), EndOf(|b|, p, q);
    var prefix, suffix := Text(a[..p]), Text(a[|a| - q..]);
    if p == endA && p != endB then
      if a[p] == b[endB] then Middle(prefix, b[endB].value + suffix, [], b[p..endB])
      else if a[p] == b[p] then Middle(prefix + b[p].value, suffix, [], b[p + 1..endB + 1])
      else Middle(prefix, suffix, Remaining(a, p, q), Remaining(b, p, q))
    else if p == endB && p != endA then
      if a[endA] == b[p] then Middle(prefix, a[endA].value + suffix, a[p..endA], [])
      else if a[p] == b[p] then Middle(prefix + a[p].value, suffix, a[p + 1..endA + 1], [])
      else Middle(prefix, suffix, Remaining(a, p, q), Remaining(b, p, q))
    else if p == endA && p == endB && a[p] == b[p] && a[p].Marker? then
      Middle(prefix + b[p].value, suffix, [], [])
    else Middle(prefix, suffix, Remaining(a, p, q), Remaining(b, p, q))
  }

  function CommonPrefix(a: string, b: string, n: nat): (r: nat)
    requires n <= Least(|a|, |b|) && a[..n] == b[..n]
    ensures n <= r <= Least(|a|, |b|) && a[..r] == b[..r] && (r < Least(|a|, |b|) ==> a[r] != b[r])
    decreases |a| - n
  {
    if n < Least(|a|, |b|) && a[n] == b[n] then
      Seqs.TakeSnoc(a, n);
      Seqs.TakeSnoc(b, n);
      CommonPrefix(a, b, n + 1)
    else n
  }

  function Tail(s: string, n: nat): string
    requires n <= |s|
  {
    s[|s| - n..]
  }

  lemma NoTail(s: string)
    ensures Tail(s, 0) == ""
  {
  }

  lemma SuffixStep(a: string, b: string, n: nat)
    requires n < Least(|a|, |b|) && Tail(a, n) == Tail(b, n) && a[|a| - 1 - n] == b[|b| - 1 - n]
    ensures Tail(a, n + 1) == Tail(b, n + 1)
  {
    Seqs.DropCons(a, |a| - 1 - n);
    Seqs.DropCons(b, |b| - 1 - n);
  }

  function CommonSuffix(a: string, b: string, n: nat): (r: nat)
    requires n <= Least(|a|, |b|) && Tail(a, n) == Tail(b, n)
    ensures n <= r <= Least(|a|, |b|) && Tail(a, r) == Tail(b, r)
    ensures r < Least(|a|, |b|) ==> a[|a| - 1 - r] != b[|b| - 1 - r]
    decreases |a| - n
  {
    if n < Least(|a|, |b|) && a[|a| - 1 - n] == b[|b| - 1 - n] then
      SuffixStep(a, b, n);
      CommonSuffix(a, b, n + 1)
    else n
  }

  /** The longest shared start, counted. */
  method CommonPrefixLen(left: string, right: string) returns (n: nat)
    ensures n == CommonPrefix(left, right, 0)
    ensures n <= |left| && n <= |right| && left[..n] == right[..n]
    ensures n < |left| && n < |right| ==> left[n] != right[n]
  {
    n := 0;
    while n < |left| && n < |right| && left[n] == right[n]
      invariant n <= Least(|left|, |right|) && left[..n] == right[..n]
      invariant CommonPrefix(left, right, 0) == CommonPrefix(left, right, n)
    {
      Seqs.TakeSnoc(left, n);
      Seqs.TakeSnoc(right, n);
      n := n + 1;
    }
  }

  method CommonSuffixLen(left: string, right: string) returns (n: nat)
    ensures n == CommonSuffix(left, right, 0)
    ensures n <= |left| && n <= |right| && Tail(left, n) == Tail(right, n)
    ensures n < |left| && n < |right| ==> left[|left| - 1 - n] != right[|right| - 1 - n]
  {
    hide Tail;
    assert Tail(left, 0) == Tail(right, 0) by { NoTail(left); NoTail(right); }
    n := 0;
    while n < |left| && n < |right| && left[|left| - 1 - n] == right[|right| - 1 - n]
      invariant n <= Least(|left|, |right|) && Tail(left, n) == Tail(right, n)
      invariant CommonSuffix(left, right, 0) == CommonSuffix(left, right, n)
    {
      SuffixStep(left, right, n);
      n := n + 1;
    }
  }

  predicate StartPlain(m: Middle) {
    m.left != [] && m.right != [] && m.left[0].Plain? && m.right[0].Plain?
  }

  predicate EndPlain(m: Middle) {
    m.left != [] && m.right != [] && m.left[|m.left| - 1].Plain? && m.right[|m.right| - 1].Plain?
  }

  function SharedBehind(a: string, b: string, behind: bool): (s: nat)
    ensures s <= Least(|a|, |b|) && Tail(a, s) == Tail(b, s)
    ensures behind && s < Least(|a|, |b|) ==> a[|a| - 1 - s] != b[|b| - 1 - s]
  {
    if behind then CommonSuffix(a, b, 0) else 0
  }

  function SharedInFront(a: string, b: string, front: bool): (p: nat)
    ensures p <= Least(|a|, |b|) && a[..p] == b[..p] && (front && p < Least(|a|, |b|) ==> a[p] != b[p])
  {
    if front then CommonPrefix(a, b, 0) else 0
  }

  /** How much of two texts is shared in front and behind, without overlap. */
  function Shared(a: string, b: string, front: bool, behind: bool): (r: (nat, nat))
    ensures r.0 + r.1 <= Least(|a|, |b|) && a[..r.0] == b[..r.0] && Tail(a, r.1) == Tail(b, r.1)
    ensures front && r.0 + r.1 < Least(|a|, |b|) ==> a[r.0] != b[r.0]
    ensures behind && r.0 + r.1 < Least(|a|, |b|) ==> a[|a| - 1 - r.1] != b[|b| - 1 - r.1]
  {
    var s := SharedBehind(a, b, behind);
    var p := SharedInFront(a[..|a| - s], b[..|b| - s], front);
    TakeTwice(a, |a| - s, p);
    TakeTwice(b, |b| - s, p);
    (p, s)
  }

  lemma TakeTwice(a: string, i: nat, p: nat)
    requires p <= i <= |a|
    ensures a[..i][..p] == a[..p]
  {
  }

  /** Characters shared by text at the ends of what is left go with the shared parts. */
  function Trimmed(m: Middle): Split {
    var a, b := Text(m.left), Text(m.right);
    Parted(m.prefix, m.suffix, a, b, Shared(a, b, StartPlain(m), EndPlain(m)))
  }

  /** Shared characters in front and behind move out of both texts. */
  function Parted(prefix: string, suffix: string, a: string, b: string, shared: (nat, nat)): Split
    requires shared.0 + shared.1 <= Least(|a|, |b|)
  {
    var (p, s) := shared;
    Split(prefix + a[..p], a[|a| - s..] + suffix, a[p..|a| - s], b[p..|b| - s])
  }

  /** No difference is all prefix; and so is a left side that begins the right. */
  function Settled(left: string, right: string, r: Split): Split {
    var q := if r.left == "" && r.right == "" then Split(left, "", r.left, r.right) else r;
    if q.left == "" && q.right != "" && left <= right then Split(left, "", q.left, right[|left|..]) else q
  }

  function DiffSplit(left: string, right: string): Split {
    var a, b := Segmented(left), Segmented(right);
    if a == [] then Split("", "", "", right)
    else if b == [] then Split("", "", left, "")
    else
      var (p, q) := Rounds(a, b, 0, 0);
      Settled(left, right, Trimmed(Ends(a, b, p, q)))
  }

  // When both sides are kept

  lemma {:induction false} RoundsKeep(a: seq<Segment>, b: seq<Segment>, p: nat, q: nat)
    requires p + q <= Least(|a|, |b|) && a[..p] == b[..p] && a[|a| - q..] == b[|b| - q..]
    ensures var r := Rounds(a, b, p, q); a[..r.0] == b[..r.0] && a[|a| - r.1..] == b[|b| - r.1..]
    decreases |a| - p - q
  {
    if p + q + 1 >= |a| || p + q + 1 >= |b| {
    } else {
      var p1 := if a[p] == b[p] then p + 1 else p;
      var q1 := if a[|a| - 1 - q] == b[|b| - 1 - q] then q + 1 else q;
      Seqs.TakeSnoc(a, p);
      Seqs.TakeSnoc(b, p);
      Seqs.DropCons(a, |a| - 1 - q);
      Seqs.DropCons(b, |b| - 1 - q);
      if p1 != p || q1 != q {
        RoundsKeep(a, b, p1, q1);
      }
    }
  }

  /** A side is only used up when both ends matched in every round. */
  lemma {:induction false} RoundsFull(a: seq<Segment>, b: seq<Segment>, p: nat, q: nat)
    requires p + q < Least(|a|, |b|)
    requires p < q ==> a[p] != b[p]
    requires q < p ==> a[|a| - 1 - q] != b[|b| - 1 - q]
    ensures var r := Rounds(a, b, p, q); r.0 + r.1 == Least(|a|, |b|) ==> r.0 == r.1 && p == q
    decreases |a| - p - q
  {
    if p + q + 1 >= |a| || p + q + 1 >= |b| {
    } else {
      var p1 := if a[p] == b[p] then p + 1 else p;
      var q1 := if a[|a| - 1 - q] == b[|b| - 1 - q] then q + 1 else q;
      if p1 == p && q1 == q {
      } else if p1 + q1 < Least(|a|, |b|) {
        RoundsFull(a, b, p1, q1);
      } else {
        assert Rounds(a, b, p1, q1) == (p1, q1);
      }
    }
  }

  /** Sides that agree in k segments at both ends are matched that far. */
  lemma {:induction false} RoundsReach(a: seq<Segment>, b: seq<Segment>, p: nat, k: nat)
    requires p <= k && 2 * k <= Least(|a|, |b|) <= 2 * k + 1
    requires a[..k] == b[..k] && a[|a| - k..] == b[|b| - k..]
    ensures Rounds(a, b, p, p) == (k, k)
    decreases k - p
  {
    if p < k {
      assert a[p] == a[..k][p] == b[..k][p] == b[p];
      assert a[|a| - 1 - p] == a[|a| - k..][k - 1 - p] == b[|b| - k..][k - 1 - p] == b[|b| - 1 - p];
      RoundsReach(a, b, p + 1, k);
    }
  }

  /** The last segment of a used-up side is compared, and counted, once more. */
  predicate Reread(a: seq<Segment>, b: seq<Segment>, p: nat, q: nat)
    requires p + q <= Least(|a|, |b|) && 0 < Least(|a|, |b|) && (p + q == Least(|a|, |b|) ==> q > 0)
  {
    p + q == |a| < |b| &&
    if p + q + 1 == |b| then a[p] == b[p] && a[p].Marker? else a[p] == b[p] || a[p] == b[|b| - 1 - q]
  }

  lemma ThreeParts(s: seq<Segment>, i: nat, j: nat)
    requires i <= j <= |s|
    ensures Text(s[..i]) + Text(s[i..j]) + Text(s[j..]) == Text(s)
    ensures i < |s| ==> Text(s[..i + 1]) == Text(s[..i]) + s[i].value && Text(s[i..]) == s[i].value + Text(s[i + 1..])
  {
    hide Text;
    Seqs.TakeSlice(s, i, j);
    TextAppend(s[..i], s[i..j]);
    Seqs.Split(s, j);
    TextAppend(s[..j], s[j..]);
    if i < |s| {
      Seqs.TakeSnoc(s, i);
      Seqs.DropCons(s, i);
      TextAppend(s[..i], [s[i]]);
      TextAppend([s[i]], s[i + 1..]);
      OneText(s[i]);
    }
  }

  lemma OneText(x: Segment)
    ensures Text([x]) == x.value
  {
    Seqs.AppendNothing(x.value, Text([x][1..]));
  }

  lemma NoText(s: seq<Segment>, i: nat)
    requires i <= |s|
    ensures Text(s[i..i]) == "" && Text([]) == ""
  {
  }

  /** The legal end of the rounds. */
  predicate Matched(a: seq<Segment>, b: seq<Segment>, p: nat, q: nat) {
    p + q <= Least(|a|, |b|) && 0 < Least(|a|, |b|) && (p + q == Least(|a|, |b|) ==> q > 0) &&
    a[..p] == b[..p] && a[|a| - q..] == b[|b| - q..]
  }

  /** One side put together from what was taken at its ends, none, one more
      behind, or one more in front. */
  lemma {:induction false} SideKept(s: seq<Segment>, p: nat, q: nat)
    requires p + q <= |s|
    ensures Text(s[..p]) + Text(s[p..|s| - q]) + Text(s[|s| - q..]) == Text(s)
    ensures p + q < |s| ==>
      Text(s[..p]) + Text(s[p..|s| - 1 - q]) + (s[|s| - 1 - q].value + Text(s[|s| - q..])) == Text(s) &&
      Text(s[..p]) + s[p].value + Text(s[p + 1..|s| - q]) + Text(s[|s| - q..]) == Text(s)
  {
    hide Text;
    ThreeParts(s, p, |s| - q);
    if p + q < |s| {
      ThreeParts(s, p, |s| - 1 - q);
      ThreeParts(s, |s| - 1 - q, |s| - 1 - q);
      ThreeParts(s, p + 1, |s| - q);
    }
  }

  lemma OneLeft(s: seq<Segment>, p: nat)
    requires p < |s|
    ensures s[p..p] == [] && s[p + 1..p + 1] == []
  {
  }

  /** Either side is kept unless its last segment was counted twice. */
  lemma {:induction false} LeftKept(a: seq<Segment>, b: seq<Segment>, p: nat, q: nat)
    requires Matched(a, b, p, q)
    ensures var m := Ends(a, b, p, q);
      if p + q == |a| == |b| then m.left == []
      else if Reread(a, b, p, q) then m.left == [] && |m.prefix + m.suffix| == |Text(a)| + |a[p].value|
      else m.prefix + Text(m.left) + m.suffix == Text(a)
  {
    hide Text;
    SideKept(a, p, q);
    var end := EndOf(|a|, p, q);
    OneLeft(a, end);
    NoText(a, p);
    if p + q == |a| {
      Seqs.AppendNothing(Text(a[..p]), "");
    } else if p == end {
      Seqs.AppendNothing(Text(a[..p]), "");
      Seqs.AppendNothing(Text(a[..p]) + a[p].value, "");
    }
  }

  lemma {:induction false} RightKept(a: seq<Segment>, b: seq<Segment>, p: nat, q: nat)
    requires Matched(a, b, p, q)
    ensures var m := Ends(a, b, p, q);
      if p + q == |a| == |b| then m.right == []
      else if Reread(b, a, p, q) then m.right == [] && |m.prefix + m.suffix| == |Text(b)| + |b[p].value|
      else m.prefix + Text(m.right) + m.suffix == Text(b)
  {
    hide Text;
    SideKept(b, p, q);
    var end := EndOf(|b|, p, q);
    OneLeft(b, end);
    NoText(b, p);
    if p + q == |b| {
      Seqs.AppendNothing(Text(b[..p]), "");
    } else if p == end {
      Seqs.AppendNothing(Text(b[..p]), "");
      Seqs.AppendNothing(Text(b[..p]) + b[p].value, "");
    }
  }

  /** Ends taken from one text put around the middle of another. */
  lemma EndsFit(prefix: string, a: string, b: string, suffix: string, p: nat, s: nat)
    requires p + s <= Least(|a|, |b|) && a[..p] == b[..p] && Tail(a, s) == Tail(b, s)
    ensures (prefix + a[..p]) + b[p..|b| - s] + (a[|a| - s..] + suffix) == prefix + b + suffix
  {
    Reassembled(prefix, b, suffix, p, s);
    assert a[|a| - s..] == b[|b| - s..];
  }

  lemma TrimKeeps(m: Middle)
    ensures var r := Trimmed(m);
      r.prefix + r.left + r.suffix == m.prefix + Text(m.left) + m.suffix &&
      r.prefix + r.right + r.suffix == m.prefix + Text(m.right) + m.suffix
  {
    hide Text, Shared, StartPlain, EndPlain, Tail;
    var a, b := Text(m.left), Text(m.right);
    var (p, s) := Shared(a, b, StartPlain(m), EndPlain(m));
    EndsFit(m.prefix, a, a, m.suffix, p, s);
    EndsFit(m.prefix, a, b, m.suffix, p, s);
  }

  lemma TrimNothing(m: Middle)
    requires m.left == [] || m.right == []
    ensures Trimmed(m) == Split(m.prefix, m.suffix, Text(m.left), Text(m.right))
  {
    hide Text, Shared, StartPlain, EndPlain, Tail;
    var a, b := Text(m.left), Text(m.right);
    NoTexts(m);
    var (p, s) := Shared(a, b, StartPlain(m), EndPlain(m));
    assert p == 0 && s == 0;
    Seqs.WholeTake(a, |a|);
    Seqs.WholeTake(b, |b|);
    Seqs.AppendNothing(m.prefix, a[..0]);
    Seqs.AppendNothing(m.suffix, a[|a|..]);
  }

  lemma NoTexts(m: Middle)
    requires m.left == [] || m.right == []
    ensures Text(m.left) == "" || Text(m.right) == ""
  {
  }

  lemma Reassembled(prefix: string, a: string, suffix: string, p: nat, s: nat)
    requires p + s <= |a|
    ensures (prefix + a[..p]) + a[p..|a| - s] + (a[|a| - s..] + suffix) == prefix + a + suffix
  {
    Seqs.TakeSlice(a, p, |a| - s);
    Seqs.Split(a, |a| - s);
    Seqs.Associative(prefix, a[..p], a[p..|a| - s]);
    Seqs.Associative(prefix + a[..|a| - s], a[|a| - s..], suffix);
    Seqs.Associative(prefix, a[..|a| - s], a[|a| - s..]);
  }

  lemma {:induction false} TextLength(s: seq<Segment>)
    requires forall i :: 0 <= i < |s| ==> s[i].value != ""
    ensures |Text(s)| >= |s|
  {
    if s != [] {
      TextLength(s[1..]);
    }
  }

  /** One side is two halves, the other the same halves with something between,
      and what follows the first half is again at a border of that something. */
  predicate Doubled(a: seq<Segment>, b: seq<Segment>) {
    var k := |a| / 2;
    0 < |a| == 2 * k < |b| && b[..k] == a[..k] && b[|b| - k..] == a[k..] &&
    if |b| == |a| + 1 then a[k] == b[k] && a[k].Marker? else a[k] == b[k] || a[k] == b[|b| - 1 - k]
  }

  lemma RereadMeans(a: seq<Segment>, b: seq<Segment>, p: nat, q: nat)
    requires Matched(a, b, p, q) && (p + q == Least(|a|, |b|) ==> p == q)
    ensures Reread(a, b, p, q) ==> Doubled(a, b)
  {
    if p + q == |a| < |b| {
      assert |a| / 2 == p && |a| - q == p;
    }
  }

  lemma DoubledMeans(a: seq<Segment>, b: seq<Segment>, p: nat)
    requires Doubled(a, b) && p == |a| / 2
    ensures Reread(a, b, p, p)
  {
  }

  /** The rounds end on a used-up side that is read again exactly when the sides
      are of that kind. */
  lemma RereadIsDoubled(a: seq<Segment>, b: seq<Segment>)
    requires 0 < Least(|a|, |b|)
    ensures var (p, q) := Rounds(a, b, 0, 0);
      Matched(a, b, p, q) && (Reread(a, b, p, q) <==> Doubled(a, b)) && (Reread(b, a, p, q) <==> Doubled(b, a))
  {
    hide Rounds, Reread;
    var (p, q) := Rounds(a, b, 0, 0);
    assert a[|a|..] == b[|b|..];
    RoundsKeep(a, b, 0, 0);
    RoundsFull(a, b, 0, 0);
    RereadMeans(a, b, p, q);
    RereadMeans(b, a, p, q);
    DoubledReached(a, b);
  }

  lemma DoubledReached(a: seq<Segment>, b: seq<Segment>)
    requires 0 < Least(|a|, |b|)
    ensures Doubled(a, b) ==> var r := Rounds(a, b, 0, 0); Reread(a, b, r.0, r.1)
    ensures Doubled(b, a) ==> var r := Rounds(a, b, 0, 0); Reread(b, a, r.0, r.1)
  {
    hide Rounds, Reread;
    if Doubled(a, b) {
      RoundsReach(a, b, 0, |a| / 2);
      DoubledMeans(a, b, |a| / 2);
    } else if Doubled(b, a) {
      RoundsReach(a, b, 0, |b| / 2);
      DoubledMeans(b, a, |b| / 2);
    }
  }

  /** The only way to keep both sides although one was counted twice. */
  predicate Rescued(left: string, right: string) {
    |Segmented(right)| > |Segmented(left)| + 1 && left <= right
  }

  lemma TextLengths(s: string)
    ensures forall i :: 0 <= i < |Segmented(s)| ==> Segmented(s)[i].value != ""
    ensures Text(Segmented(s)) == s && (s == "" <==> Segmented(s) == [])
  {
    SegmentedIsSegmentation(s);
    SegmentsNotEmpty(Segmented(s));
  }

  /** What is left in a side that was not read twice, when the other was. */
  lemma RestOfDoubled(a: seq<Segment>, b: seq<Segment>, p: nat, q: nat)
    requires Matched(a, b, p, q) && (forall i :: 0 <= i < |b| ==> b[i].value != "") && Reread(a, b, p, q)
    ensures var m := Ends(a, b, p, q); m.left == [] && (if |b| == |a| + 1 then m.right == [] else Text(m.right) != "")
  {
    hide Text;
    if |b| > |a| + 1 {
      TextLength(b[p..|b| - 1 - q]);
      TextLength(b[p + 1..|b| - q]);
    }
  }

  lemma RestOfDoubledLeft(a: seq<Segment>, b: seq<Segment>, p: nat, q: nat)
    requires Matched(a, b, p, q) && (forall i :: 0 <= i < |a| ==> a[i].value != "") && Reread(b, a, p, q)
    ensures var m := Ends(a, b, p, q); m.right == [] && (if |a| == |b| + 1 then m.left == [] else Text(m.left) != "")
  {
    hide Text;
    if |a| > |b| + 1 {
      TextLength(a[p..|a| - 1 - q]);
      TextLength(a[p + 1..|a| - q]);
    }
  }

  /** Before the last two corrections. */
  function Uncorrected(a: seq<Segment>, b: seq<Segment>): Split
    requires 0 < Least(|a|, |b|)
  {
    var (p, q) := Rounds(a, b, 0, 0);
    Trimmed(Ends(a, b, p, q))
  }

  predicate NonEmpty(a: seq<Segment>) {
    a != [] && forall i :: 0 <= i < |a| ==> a[i].value != ""
  }

  lemma DoubledLeft(a: seq<Segment>, b: seq<Segment>)
    requires NonEmpty(a) && NonEmpty(b) && Doubled(a, b)
    ensures var r := Uncorrected(a, b);
      r.left == "" && (r.right == "" <==> |b| == |a| + 1) && |r.prefix + r.suffix| > |Text(a)| &&
      r.prefix + r.right + r.suffix == Text(b)
  {
    hide Text, Rounds, Reread, Doubled, Ends, Trimmed;
    RereadIsDoubled(a, b);
    var (p, q) := Rounds(a, b, 0, 0);
    var m := Ends(a, b, p, q);
    assert |a| < |b| && !Doubled(b, a) && p + q == |a| && p < |a| by { DoubledSizes(a, b, p, q); }
    LeftKept(a, b, p, q);
    RightKept(a, b, p, q);
    RestOfDoubled(a, b, p, q);
    TrimNothing(m);
    NoText(a, 0);
  }

  lemma DoubledRight(a: seq<Segment>, b: seq<Segment>)
    requires NonEmpty(a) && NonEmpty(b) && Doubled(b, a)
    ensures var r := Uncorrected(a, b);
      r.right == "" && (r.left == "" <==> |a| == |b| + 1) && |r.prefix + r.suffix| > |Text(b)| &&
      r.prefix + r.left + r.suffix == Text(a)
  {
    hide Text, Rounds, Reread, Doubled, Ends, Trimmed;
    RereadIsDoubled(a, b);
    var (p, q) := Rounds(a, b, 0, 0);
    var m := Ends(a, b, p, q);
    assert |b| < |a| && !Doubled(a, b) && p + q == |b| && p < |b| by { DoubledSizes(b, a, p, q); }
    LeftKept(a, b, p, q);
    RightKept(a, b, p, q);
    RestOfDoubledLeft(a, b, p, q);
    TrimNothing(m);
    NoText(a, 0);
  }

  lemma DoubledSizes(a: seq<Segment>, b: seq<Segment>, p: nat, q: nat)
    requires Doubled(a, b) && Matched(a, b, p, q) && Reread(a, b, p, q)
    ensures |a| < |b| && !Doubled(b, a) && p + q == |a| && p < |a|
  {
  }

  lemma NotDoubled(a: seq<Segment>, b: seq<Segment>)
    requires NonEmpty(a) && NonEmpty(b) && !Doubled(a, b) && !Doubled(b, a)
    ensures var r := Uncorrected(a, b);
      (r.left == r.right == "" && a == b) ||
      (r.prefix + r.left + r.suffix == Text(a) && r.prefix + r.right + r.suffix == Text(b))
  {
    hide Text, Rounds, Reread, Doubled, Ends, Trimmed;
    RereadIsDoubled(a, b);
    var (p, q) := Rounds(a, b, 0, 0);
    var m := Ends(a, b, p, q);
    LeftKept(a, b, p, q);
    RightKept(a, b, p, q);
    if p + q == |a| == |b| {
      TrimNothing(m);
      NoText(a, 0);
      Seqs.Split(a, p);
      Seqs.Split(b, p);
    } else {
      TrimKeeps(m);
    }
  }

  /** Both sides can be put together again exactly when neither was read twice,
      or the right side begins with the whole left side and is clearly longer. */
  lemma ConservedExactly(left: string, right: string)
    ensures var a, b := Segmented(left), Segmented(right);
      Conserved(left, right, DiffSplit(left, right)) <==> (!Doubled(a, b) || Rescued(left, right)) && !Doubled(b, a)
  {
    hide Segmented, Text, Doubled, Rounds, Ends, Trimmed;
    var a, b := Segmented(left), Segmented(right);
    TextLengths(left);
    TextLengths(right);
    if left == "" || right == "" {
      NeverDoubled(a, b);
    } else {
      assert DiffSplit(left, right) == Settled(left, right, Uncorrected(a, b));
      if Doubled(a, b) {
        DoubledLeft(a, b);
        assert !Doubled(b, a) && |a| < |b| by { OneDoubled(a, b); }
        SettledDoubled(left, right, Uncorrected(a, b), |b| > |a| + 1);
      } else if Doubled(b, a) {
        DoubledRight(a, b);
        SettledDoubledRight(left, right, Uncorrected(a, b));
      } else {
        NotDoubled(a, b);
        SettledKeeps(left, right, Uncorrected(a, b));
      }
    }
  }

  lemma NeverDoubled(a: seq<Segment>, b: seq<Segment>)
    requires a == [] || b == []
    ensures !Doubled(a, b) && !Doubled(b, a)
  {
  }

  lemma OneDoubled(a: seq<Segment>, b: seq<Segment>)
    requires Doubled(a, b)
    ensures !Doubled(b, a) && |a| < |b|
  {
  }

  lemma SettledKeeps(left: string, right: string, r: Split)
    requires Conserved(left, right, r) || (r.left == r.right == "" && left == right)
    ensures Conserved(left, right, Settled(left, right, r))
  {
  }

  lemma SettledDoubled(left: string, right: string, r: Split, rest: bool)
    requires r.left == "" && (r.right == "" <==> !rest) && |r.prefix + r.suffix| > |left|
    requires r.prefix + r.right + r.suffix == right
    ensures Conserved(left, right, Settled(left, right, r)) <==> rest && left <= right
  {
    if rest && left <= right {
      Seqs.Split(right, |left|);
    }
  }

  lemma SettledDoubledRight(left: string, right: string, r: Split)
    requires r.right == "" && |r.prefix + r.suffix| > |right| && r.prefix + r.left + r.suffix == left
    ensures !Conserved(left, right, Settled(left, right, r))
  {
  }

  /** No difference is reported for equal inputs, and for the inputs that differ
      by one repeated marker only. */
  lemma NoDifferenceExactly(left: string, right: string)
    ensures var a, b, r := Segmented(left), Segmented(right), DiffSplit(left, right);
      r.left == "" && r.right == "" <==>
      left == right || (Doubled(a, b) && |b| == |a| + 1) || (Doubled(b, a) && |a| == |b| + 1)
  {
    hide Segmented, Text, Doubled, Rounds, Ends, Trimmed;
    var a, b := Segmented(left), Segmented(right);
    TextLengths(left);
    TextLengths(right);
    if left == "" || right == "" {
      NeverDoubled(a, b);
    } else {
      var r := Uncorrected(a, b);
      assert DiffSplit(left, right) == Settled(left, right, r);
      if Doubled(a, b) {
        DoubledLeft(a, b);
        OneDoubled(a, b);
        SettledReports(left, right, r);
      } else if Doubled(b, a) {
        DoubledRight(a, b);
        OneDoubled(b, a);
        SettledReports(left, right, r);
      } else {
        NotDoubled(a, b);
        if left == right {
          SameSides(a);
        }
        SettledReports(left, right, r);
      }
    }
  }

  lemma SettledReports(left: string, right: string, r: Split)
    requires r.left == "" && r.right != "" ==> r.prefix + r.right + r.suffix == right
    ensures r.left == "" && r.right != "" && left <= right && |left| == |right| ==> |r.prefix + r.suffix| < |left|
    ensures var s := Settled(left, right, r);
      s.left == "" && s.right == "" <==> r.left == "" && (r.right == "" || left == right)
  {
    if r.left == "" && r.right != "" && left <= right {
      assert right[|left|..] == "" <==> |left| == |right|;
    }
  }

  /** A side compared with itself leaves nothing. */
  lemma SameSides(a: seq<Segment>)
    requires a != []
    ensures Uncorrected(a, a).left == "" && Uncorrected(a, a).right == ""
  {
    hide Rounds, Text;
    var k := |a| / 2;
    RoundsReach(a, a, 0, k);
    var m := Ends(a, a, k, k);
    NoText(a, k);
    if |a| == 2 * k {
      TrimNothing(m);
    } else if a[k].Marker? {
      TrimNothing(m);
    } else {
      SameTexts(m);
    }
  }

  lemma SameTexts(m: Middle)
    requires m.left == m.right && |m.left| == 1 && m.left[0].Plain?
    ensures Trimmed(m).left == "" && Trimmed(m).right == ""
  {
    hide Text;
    var a := Text(m.left);
    var (p, s) := Shared(a, a, true, true);
    assert p + s == |a|;
  }

  predicate Distinct(a: seq<Segment>) {
    forall i, j :: 0 <= i < j < |a| ==> a[i] != a[j]
  }

  /** Sides without repeated segments are always kept. */
  lemma DistinctConserved(left: string, right: string)
    requires Distinct(Segmented(left)) && Distinct(Segmented(right))
    ensures Conserved(left, right, DiffSplit(left, right))
  {
    hide Segmented, DiffSplit;
    ConservedExactly(left, right);
    DistinctNotDoubled(Segmented(left), Segmented(right));
    DistinctNotDoubled(Segmented(right), Segmented(left));
  }

  lemma DistinctNotDoubled(a: seq<Segment>, b: seq<Segment>)
    requires Distinct(b)
    ensures !Doubled(a, b)
  {
    var k := |a| / 2;
    if 0 < |a| == 2 * k < |b| && b[|b| - k..] == a[k..] {
      assert b[|b| - k] == b[|b| - k..][0] == a[k..][0] == a[k];
      assert b[k] != b[|b| - k] && (|b| > |a| + 1 ==> b[|b| - 1 - k] != b[|b| - k]);
    }
  }

  /** A segment repeated on the right: the left side is not kept. */
  lemma RepeatedSegmentIsLost()
    ensures var left, right := "<a><b>", "<a><x><b><b>"; !Conserved(left, right, DiffSplit(left, right))
  {
    hide DiffSplit, Segmented;
    var a, x, b := Marker("<a>"), Marker("<x>"), Marker("<b>");
    ThreeMarkers();
    SegmentedExactly("<a><b>", [a, b]);
    SegmentedExactly("<a><x><b><b>", [a, x, b, b]);
    assert Doubled([a, b], [a, x, b, b]);
    assert "<a><b>"[4] != "<a><x><b><b>"[4];
    ConservedExactly("<a><b>", "<a><x><b><b>");
  }

  /** A repeated last marker: reported as no difference at all. */
  lemma RepeatedMarkerIsMissed()
    ensures var r := DiffSplit("<a><b>", "<a><b><b>"); r.left == "" && r.right == ""
  {
    hide DiffSplit, Segmented;
    var a, b := Marker("<a>"), Marker("<b>");
    ThreeMarkers();
    SegmentedExactly("<a><b>", [a, b]);
    SegmentedExactly("<a><b><b>", [a, b, b]);
    assert Doubled([a, b], [a, b, b]);
    NoDifferenceExactly("<a><b>", "<a><b><b>");
  }

  /** One marker put before others. */
  lemma MarkerJoins(value: string, rest: seq<Segment>, text: string, segments: seq<Segment>, whole: string)
    requires IsMarker(value) && IsSegmentation(rest) && Text(rest) == text
    requires segments == [Marker(value)] + rest && whole == value + text
    ensures IsSegmentation(segments) && Text(segments) == whole
  {
    Joins(Marker(value), rest);
  }

  lemma ThreeMarkers()
    ensures var a, x, b := Marker("<a>"), Marker("<x>"), Marker("<b>");
      IsSegmentation([a, b]) && Text([a, b]) == "<a><b>" && IsSegmentation([a, b, b]) && Text([a, b, b]) == "<a><b><b>" &&
      IsSegmentation([a, x, b, b]) && Text([a, x, b, b]) == "<a><x><b><b>"
  {
    hide IsSegmentation, Text, IsMarker;
    var a, x, b := Marker("<a>"), Marker("<x>"), Marker("<b>");
    assert IsMarker("<a>") && IsMarker("<x>") && IsMarker("<b>") by { ShortMarkers(); }
    Joins(b, []);
    MarkerJoins("<b>", [], "", [b], "<b>");
    MarkerJoins("<b>", [b], "<b>", [b, b], "<b><b>");
    MarkerJoins("<a>", [b], "<b>", [a, b], "<a><b>");
    MarkerJoins("<a>", [b, b], "<b><b>", [a, b, b], "<a><b><b>");
    MarkerJoins("<x>", [b, b], "<b><b>", [x, b, b], "<x><b><b>");
    MarkerJoins("<a>", [x, b, b], "<x><b><b>", [a, x, b, b], "<a><x><b><b>");
  }

  lemma ShortMarkers()
    ensures IsMarker("<a>") && IsMarker("<x>") && IsMarker("<b>")
  {
    FirstCloserIs('<', "<a>", 2);
    FirstCloserIs('<', "<x>", 2);
    FirstCloserIs('<', "<b>", 2);
  }

  /** The rounds stop for want of segments or for want of a match at either end. */
  lemma {:induction false} RoundsStop(a: seq<Segment>, b: seq<Segment>, p: nat, q: nat)
    requires p + q <= Least(|a|, |b|)
    ensures var r := Rounds(a, b, p, q);
      r.0 + r.1 + 1 >= Least(|a|, |b|) || (a[r.0] != b[r.0] && a[|a| - 1 - r.1] != b[|b| - 1 - r.1])
    decreases |a| - p - q
  {
    if p + q + 1 >= |a| || p + q + 1 >= |b| {
    } else {
      var p1 := if a[p] == b[p] then p + 1 else p;
      var q1 := if a[|a| - 1 - q] == b[|b| - 1 - q] then q + 1 else q;
      if p1 != p || q1 != q {
        RoundsStop(a, b, p1, q1);
      }
    }
  }

  lemma LeftoversDiffer(a: seq<Segment>, b: seq<Segment>)
    requires a != [] && b != []
    ensures var (p, q) := Rounds(a, b, 0, 0);
      var m := Ends(a, b, p, q);
      m.left != [] && m.right != [] ==>
        (m.left[0] != m.right[0] && m.left[|m.left| - 1] != m.right[|m.right| - 1]) ||
        (m.left == m.right && |m.left| == 1 && m.left[0].Plain?)
  {
    hide Text, Rounds;
    RoundsStop(a, b, 0, 0);
  }

  lemma TextsDiffer(m: Middle)
    ensures var r := Trimmed(m);
      r.left != "" && r.right != "" ==>
        (StartPlain(m) ==> r.left[0] != r.right[0]) &&
        (EndPlain(m) ==> r.left[|r.left| - 1] != r.right[|r.right| - 1])
  {
    hide Text, StartPlain, EndPlain, Tail;
    var x, y := Text(m.left), Text(m.right);
    var (i, j) := Shared(x, y, StartPlain(m), EndPlain(m));
  }

  /** Where both sides keep something of their own, their first and last segments
      differ, and where these are text also the first and last characters. */
  lemma LeftoversKept(a: seq<Segment>, b: seq<Segment>)
    requires a != [] && b != []
    ensures var (p, q) := Rounds(a, b, 0, 0);
      var m, r := Ends(a, b, p, q), Uncorrected(a, b);
      r.left != "" && r.right != "" ==>
        m.left != [] && m.right != [] && m.left[0] != m.right[0] && m.left[|m.left| - 1] != m.right[|m.right| - 1] &&
        (StartPlain(m) ==> r.left[0] != r.right[0]) &&
        (EndPlain(m) ==> r.left[|r.left| - 1] != r.right[|r.right| - 1])
  {
    hide Text, Rounds, Ends, Trimmed, StartPlain, EndPlain;
    var (p, q) := Rounds(a, b, 0, 0);
    var m := Ends(a, b, p, q);
    LeftoversDiffer(a, b);
    TextsDiffer(m);
    if m.left == [] || m.right == [] {
      TrimNothing(m);
      NoText(a, 0);
    } else if m.left == m.right && |m.left| == 1 && m.left[0].Plain? {
      SameTexts(m);
    }
  }

  /** Each side has p segments shared in front, q behind, and between them its
      own: x and y are what text at both ends of those still shares. */
  ghost predicate OwnParts(a: seq<Segment>, b: seq<Segment>, r: Split, p: nat, q: nat, x: string, y: string)
    requires r.left != "" && r.right != ""
  {
    p + q < Least(|a|, |b|) && a[..p] == b[..p] && a[|a| - q..] == b[|b| - q..] &&
    a[p] != b[p] && a[|a| - 1 - q] != b[|b| - 1 - q] &&
    r.prefix == Text(a[..p]) + x && r.suffix == y + Text(a[|a| - q..]) &&
    Text(a[p..|a| - q]) == x + r.left + y && Text(b[p..|b| - q]) == x + r.right + y &&
    (if a[p].Plain? && b[p].Plain? then r.left[0] != r.right[0] else x == "") &&
    (if a[|a| - 1 - q].Plain? && b[|b| - 1 - q].Plain? then r.left[|r.left| - 1] != r.right[|r.right| - 1] else y == "")
  }

  lemma BothKept(a: seq<Segment>, b: seq<Segment>, p: nat, q: nat)
    requires p + q <= Least(|a|, |b|) && 0 < Least(|a|, |b|) && (p + q == Least(|a|, |b|) ==> q > 0)
    ensures var m := Ends(a, b, p, q);
      m.left != [] && m.right != [] ==>
        p + q < Least(|a|, |b|) && m == Middle(Text(a[..p]), Text(a[|a| - q..]), a[p..|a| - q], b[p..|b| - q]) &&
        m.left[0] == a[p] && m.right[0] == b[p] &&
        m.left[|m.left| - 1] == a[|a| - 1 - q] && m.right[|m.right| - 1] == b[|b| - 1 - q]
  {
    hide Text;
  }

  /** What trimming does to two texts, spelled out. */
  lemma TrimmedParts(m: Middle) returns (x: string, y: string)
    ensures var r := Trimmed(m);
      Text(m.left) == x + r.left + y && Text(m.right) == x + r.right + y && r.prefix == m.prefix + x && r.suffix == y + m.suffix &&
      (!StartPlain(m) ==> x == "") && (!EndPlain(m) ==> y == "")
  {
    hide Text, StartPlain, EndPlain, Shared;
    var a, b := Text(m.left), Text(m.right);
    var (p, s) := Shared(a, b, StartPlain(m), EndPlain(m));
    SharedIfText(a, b, StartPlain(m), EndPlain(m));
    x, y := a[..p], a[|a| - s..];
    FrontOwnBack(a, p, s);
    FrontOwnBack(b, p, s);
  }

  lemma SharedIfText(a: string, b: string, front: bool, behind: bool)
    ensures !front ==> Shared(a, b, front, behind).0 == 0
    ensures !behind ==> Shared(a, b, front, behind).1 == 0
  {
  }

  lemma FrontOwnBack(a: string, p: nat, s: nat)
    requires p + s <= |a|
    ensures a == a[..p] + a[p..|a| - s] + a[|a| - s..]
  {
  }

  /** Nothing more is shared: where both sides keep something of their own, the
      split is that of their segments at the first and the last difference, and
      what the two own texts share at their ends is taken off as far as it goes. */
  lemma NothingMoreShared(left: string, right: string)
    requires DiffSplit(left, right).left != "" && DiffSplit(left, right).right != ""
    ensures exists p: nat, q: nat, x, y :: OwnParts(Segmented(left), Segmented(right), DiffSplit(left, right), p, q, x, y)
  {
    hide Text, Segmented, Rounds, Ends, Trimmed, StartPlain, EndPlain, OwnParts;
    var a, b, r := Segmented(left), Segmented(right), DiffSplit(left, right);
    assert a != [] && b != [] && r == Uncorrected(a, b);
    OwnPartsFound(a, b);
  }

  lemma OwnPartsFound(a: seq<Segment>, b: seq<Segment>)
    requires a != [] && b != [] && Uncorrected(a, b).left != "" && Uncorrected(a, b).right != ""
    ensures exists p: nat, q: nat, x, y :: OwnParts(a, b, Uncorrected(a, b), p, q, x, y)
  {
    hide Text, Rounds, Ends, Trimmed;
    var (p, q) := Rounds(a, b, 0, 0);
    var m := Ends(a, b, p, q);
    RoundsKeep(a, b, 0, 0);
    LeftoversKept(a, b);
    BothKept(a, b, p, q);
    var x, y := TrimmedParts(m);
    assert OwnParts(a, b, Uncorrected(a, b), p, q, x, y);
  }

  // When one side is used up

  /** Of a side that is used up some segments count as shared in front, the others
      behind: half of them each, the odd one behind, as far as both ends match. */
  predicate IsEven(a: seq<Segment>, b: seq<Segment>, p: nat, q: nat)
    requires p + q == |a| < |b|
  {
    (q <= p + 1 || a[p] != b[p]) && (p <= q || a[p - 1] != b[|b| - 1 - q])
  }

  /** The side a keeps nothing of its own: p of its segments are shared in front, q
      behind. If some are left, they share their text, x in front and y behind,
      with the other side, as much as there is behind. */
  ghost predicate SharedParts(a: seq<Segment>, b: seq<Segment>, r: Split, own: string, p: nat, q: nat, x: string, y: string)
    requires own != ""
  {
    p + q <= |a| && p + q < |b| && a[..p] == b[..p] && a[|a| - q..] == b[|b| - q..] &&
    r.prefix == Text(a[..p]) + x && r.suffix == y + Text(a[|a| - q..]) &&
    Text(a[p..|a| - q]) == x + y && Text(b[p..|b| - q]) == x + own + y &&
    if p + q == |a| then IsEven(a, b, p, q)
    else
      a[p] != b[p] && a[|a| - 1 - q] != b[|b| - 1 - q] && ((a[p].Plain? && b[p].Plain?) || x == "") &&
      if a[|a| - 1 - q].Plain? && b[|b| - 1 - q].Plain? then x != "" ==> x[|x| - 1] != own[|own| - 1] else y == ""
  }

  /** An end that has fallen behind does not match any more. */
  lemma {:induction false} RoundsEven(a: seq<Segment>, b: seq<Segment>, p: nat, q: nat)
    requires p + q <= Least(|a|, |b|)
    requires p + q < Least(|a|, |b|) ==> (p < q ==> a[p] != b[p]) && (q < p ==> a[|a| - 1 - q] != b[|b| - 1 - q])
    ensures var r := Rounds(a, b, p, q);
      r.0 + r.1 < Least(|a|, |b|) ==>
        (r.0 < r.1 ==> a[r.0] != b[r.0]) && (r.1 < r.0 ==> a[|a| - 1 - r.1] != b[|b| - 1 - r.1])
    decreases |a| - p - q
  {
    if p + q + 1 >= |a| || p + q + 1 >= |b| {
    } else {
      var p1 := if a[p] == b[p] then p + 1 else p;
      var q1 := if a[|a| - 1 - q] == b[|b| - 1 - q] then q + 1 else q;
      if p1 != p || q1 != q {
        RoundsEven(a, b, p1, q1);
      }
    }
  }

  lemma BehindLongest(a: string, b: string, front: bool)
    ensures var s := Shared(a, b, front, true).1; s < Least(|a|, |b|) ==> a[|a| - 1 - s] != b[|b| - 1 - s]
  {
    hide SharedInFront;
  }

  /** The character before a shared end, in a text used up and in a longer one. */
  lemma BeforeEnd(a: string, b: string, p: nat, s: nat)
    requires 0 < p && p + s == |a| < |b| && a[|a| - 1 - s] != b[|b| - 1 - s]
    ensures a[..p][p - 1] != b[p..|b| - s][|b| - s - p - 1]
  {
  }

  /** Text that goes with the shared parts altogether. */
  lemma AllTrimmed(m: Middle) returns (x: string, y: string)
    requires Trimmed(m).left == "" && Trimmed(m).right != ""
    ensures var r := Trimmed(m); var own := r.right;
      Text(m.left) == x + y && Text(m.right) == x + own + y && r.prefix == m.prefix + x && r.suffix == y + m.suffix &&
      (!StartPlain(m) ==> x == "") && (if EndPlain(m) then x != "" ==> x[|x| - 1] != own[|own| - 1] else y == "")
  {
    hide Text, StartPlain, EndPlain, Shared, Tail;
    var a, b := Text(m.left), Text(m.right);
    var (p, s) := Shared(a, b, StartPlain(m), EndPlain(m));
    SharedIfText(a, b, StartPlain(m), EndPlain(m));
    x, y := a[..p], a[|a| - s..];
    SharedMiddles(a, b, p, s);
    assert a == x + y by { Seqs.Split(a, p); }
    if EndPlain(m) && p > 0 {
      BehindLongest(a, b, StartPlain(m));
      BeforeEnd(a, b, p, s);
    }
  }

  lemma SharedMiddles(a: string, b: string, p: nat, s: nat)
    requires p + s <= Least(|a|, |b|) && a[..p] == b[..p] && Tail(a, s) == Tail(b, s)
    ensures b == a[..p] + b[p..|b| - s] + a[|a| - s..]
  {
    FrontOwnBack(b, p, s);
  }

  /** The last segment is found behind. */
  lemma UsedBehind(a: seq<Segment>, b: seq<Segment>, p: nat, q: nat)
    requires Matched(a, b, p, q) && p + q + 1 == |a| < |b| && a[p] == b[|b| - 1 - q] && (p < q ==> a[p] != b[p]) && q >= p
    ensures UsedUpAt(a, b, Middle(Text(a[..p]), b[|b| - 1 - q].value + Text(a[|a| - q..]), [], b[p..|b| - 1 - q]), p, q + 1)
  {
    hide Text;
    Seqs.DropCons(a, p);
    Seqs.DropCons(b, |b| - 1 - q);
    FirstText(a[p], a[p + 1..]);
  }

  /** The last segment is found in front only. */
  lemma UsedInFront(a: seq<Segment>, b: seq<Segment>, p: nat, q: nat)
    requires Matched(a, b, p, q) && p + q + 1 == |a| < |b| && a[p] != b[|b| - 1 - q] && a[p] == b[p] && q <= p
    ensures UsedUpAt(a, b, Middle(Text(a[..p]) + b[p].value, Text(a[|a| - q..]), [], b[p + 1..|b| - q]), p + 1, q)
  {
    hide Text;
    Seqs.TakeSnoc(a, p);
    Seqs.TakeSnoc(b, p);
    LastText(a[..p], a[p]);
  }

  /** The shared segments of a used-up side, as the last comparison leaves them. */
  lemma UsedUp(a: seq<Segment>, b: seq<Segment>, p: nat, q: nat)
    requires Matched(a, b, p, q) && !Reread(a, b, p, q) && (p + q == |a| ==> p == q)
    requires p + q < Least(|a|, |b|) ==> (p < q ==> a[p] != b[p]) && (q < p ==> a[|a| - 1 - q] != b[|b| - 1 - q])
    requires Ends(a, b, p, q).left == [] && Ends(a, b, p, q).right != []
    ensures exists i: nat, j: nat :: UsedUpAt(a, b, Ends(a, b, p, q), i, j)
  {
    hide Text, UsedUpAt;
    if p + q == |a| {
      assert UsedUpAt(a, b, Ends(a, b, p, q), p, q) by { UsedEvenly(a, b, p, q); }
    } else if a[p] == b[|b| - 1 - q] {
      UsedBehind(a, b, p, q);
    } else {
      UsedInFront(a, b, p, q);
    }
  }

  lemma UsedEvenly(a: seq<Segment>, b: seq<Segment>, p: nat, q: nat)
    requires Matched(a, b, p, q) && !Reread(a, b, p, q) && p + q == |a| && p == q && Ends(a, b, p, q).right != []
    ensures UsedUpAt(a, b, Ends(a, b, p, q), p, q)
  {
    hide Text;
  }

  ghost predicate UsedUpAt(a: seq<Segment>, b: seq<Segment>, m: Middle, i: nat, j: nat) {
    i + j == |a| < |b| && a[..i] == b[..i] && a[|a| - j..] == b[|b| - j..] && IsEven(a, b, i, j) &&
    m == Middle(Text(a[..i]), Text(a[i..]), [], b[i..|b| - j])
  }

  lemma FirstText(x: Segment, rest: seq<Segment>)
    ensures Text([x] + rest) == x.value + Text(rest)
  {
  }

  lemma LastText(s: seq<Segment>, x: Segment)
    ensures Text(s + [x]) == Text(s) + x.value
  {
    hide Text;
    TextAppend(s, [x]);
    OneText(x);
  }

  lemma OneSideFound(a: seq<Segment>, b: seq<Segment>)
    requires a != [] && b != [] && !Doubled(a, b) && Uncorrected(a, b).left == "" && Uncorrected(a, b).right != ""
    ensures exists p: nat, q: nat, x, y :: SharedParts(a, b, Uncorrected(a, b), Uncorrected(a, b).right, p, q, x, y)
  {
    hide Text, Rounds, Ends, Trimmed, Reread, Doubled;
    var (p, q) := Rounds(a, b, 0, 0);
    var m, r := Ends(a, b, p, q), Uncorrected(a, b);
    RereadIsDoubled(a, b);
    RoundsEven(a, b, 0, 0);
    RoundsFull(a, b, 0, 0);
    NoText(a, 0);
    if m.left == [] || m.right == [] {
      TrimNothing(m);
    }
    if m.left == [] {
      UsedUp(a, b, p, q);
      var i: nat, j: nat :| UsedUpAt(a, b, m, i, j);
      NoText(a, i);
      Seqs.AppendNothing(r.prefix, "");
      Seqs.AppendNothing(r.suffix, "");
      Seqs.AppendNothing(r.right, "");
      assert SharedParts(a, b, r, r.right, i, j, "", "");
    } else {
      OneSideTrimmed(a, b, p, q);
    }
  }

  lemma OneSideTrimmed(a: seq<Segment>, b: seq<Segment>, p: nat, q: nat)
    requires a != [] && b != [] && Rounds(a, b, 0, 0) == (p, q) && Matched(a, b, p, q)
    requires var m := Ends(a, b, p, q); m.left != [] && m.right != []
    requires Uncorrected(a, b).left == "" && Uncorrected(a, b).right != ""
    ensures exists i: nat, j: nat, x, y :: SharedParts(a, b, Uncorrected(a, b), Uncorrected(a, b).right, i, j, x, y)
  {
    hide Text, Rounds, Ends, Trimmed;
    var m, r := Ends(a, b, p, q), Uncorrected(a, b);
    BothKept(a, b, p, q);
    LeftoversDiffer(a, b);
    if m.left == m.right && |m.left| == 1 && m.left[0].Plain? {
      SameTexts(m);
    }
    var x, y := AllTrimmed(m);
    assert SharedParts(a, b, r, r.right, p, q, x, y);
  }

  // The same seen from the other side

  lemma {:induction false} RoundsTurned(a: seq<Segment>, b: seq<Segment>, p: nat, q: nat)
    requires p + q <= Least(|a|, |b|)
    ensures Rounds(b, a, p, q) == Rounds(a, b, p, q)
    decreases |a| - p - q
  {
    if p + q + 1 >= |a| || p + q + 1 >= |b| {
    } else {
      var p1 := if a[p] == b[p] then p + 1 else p;
      var q1 := if a[|a| - 1 - q] == b[|b| - 1 - q] then q + 1 else q;
      if p1 != p || q1 != q {
        RoundsTurned(a, b, p1, q1);
      }
    }
  }

  lemma EndsTurned(a: seq<Segment>, b: seq<Segment>, p: nat, q: nat)
    requires Matched(a, b, p, q)
    ensures var m := Ends(a, b, p, q); Ends(b, a, p, q) == Middle(m.prefix, m.suffix, m.right, m.left)
  {
    hide Text;
  }

  lemma {:induction false} CommonPrefixTurned(a: string, b: string, n: nat)
    requires n <= Least(|a|, |b|) && a[..n] == b[..n]
    ensures CommonPrefix(b, a, n) == CommonPrefix(a, b, n)
    decreases |a| - n
  {
    if n < Least(|a|, |b|) && a[n] == b[n] {
      Seqs.TakeSnoc(a, n);
      Seqs.TakeSnoc(b, n);
      CommonPrefixTurned(a, b, n + 1);
    }
  }

  lemma {:induction false} CommonSuffixTurned(a: string, b: string, n: nat)
    requires n <= Least(|a|, |b|) && Tail(a, n) == Tail(b, n)
    ensures CommonSuffix(b, a, n) == CommonSuffix(a, b, n)
    decreases |a| - n
  {
    hide Tail;
    if n < Least(|a|, |b|) && a[|a| - 1 - n] == b[|b| - 1 - n] {
      SuffixStep(a, b, n);
      CommonSuffixTurned(a, b, n + 1);
    }
  }

  lemma TrimmedTurned(m: Middle)
    ensures var r := Trimmed(m);
      Trimmed(Middle(m.prefix, m.suffix, m.right, m.left)) == Split(r.prefix, r.suffix, r.right, r.left)
  {
    hide Text, Shared, Tail;
    SharedTurned(Text(m.left), Text(m.right), StartPlain(m), EndPlain(m));
  }

  lemma SharedTurned(a: string, b: string, front: bool, behind: bool)
    ensures var (p, s) := Shared(a, b, front, behind);
      Shared(b, a, front, behind) == (p, s) && a[..p] == b[..p] && a[|a| - s..] == b[|b| - s..]
  {
    hide SharedBehind, SharedInFront;
    BehindTurned(a, b, behind);
    var s := SharedBehind(a, b, behind);
    InFrontTurned(a[..|a| - s], b[..|b| - s], front);
  }

  lemma BehindTurned(a: string, b: string, behind: bool)
    ensures SharedBehind(b, a, behind) == SharedBehind(a, b, behind)
  {
    hide CommonSuffix;
    CommonSuffixTurned(a, b, 0);
  }

  lemma InFrontTurned(a: string, b: string, front: bool)
    ensures SharedInFront(b, a, front) == SharedInFront(a, b, front)
  {
    hide CommonPrefix;
    CommonPrefixTurned(a, b, 0);
  }

  lemma Turned(a: seq<Segment>, b: seq<Segment>)
    requires a != [] && b != []
    ensures var r := Uncorrected(a, b); Uncorrected(b, a) == Split(r.prefix, r.suffix, r.right, r.left)
  {
    hide Text, Rounds, Ends, Trimmed, Doubled, Reread;
    var (p, q) := Rounds(a, b, 0, 0);
    RereadIsDoubled(a, b);
    RoundsTurned(a, b, 0, 0);
    EndsTurned(a, b, p, q);
    TrimmedTurned(Ends(a, b, p, q));
  }

  /** A left side that begins the right is the prefix, and what follows it is all
      there is to the right. Without a difference everything is prefix. */
  lemma LeftBegins(left: string, right: string)
    ensures var r := DiffSplit(left, right);
      (r.left == "" && r.right != "" && left <= right ==> r == Split(left, "", "", right[|left|..])) &&
      (r.left == "" && r.right == "" ==> r == Split(left, "", "", ""))
  {
    hide Segmented, Rounds, Ends, Trimmed;
    TextLengths(left);
    TextLengths(right);
  }

  /** Where only one side keeps something of its own, and the left one does not
      just begin the right, the other is divided among prefix and suffix in one
      way: by segments, half in front and half behind, and what is left by its
      text. The doubled sides, for which nothing fits, are those of
      ConservedExactly. */
  lemma OneSideShared(left: string, right: string)
    ensures var a, b, r := Segmented(left), Segmented(right), DiffSplit(left, right);
      (r.left == "" && r.right != "" && !(left <= right) && !Doubled(a, b) ==>
        exists p: nat, q: nat, x, y :: SharedParts(a, b, r, r.right, p, q, x, y)) &&
      (r.right == "" && r.left != "" && !Doubled(b, a) ==>
        exists p: nat, q: nat, x, y :: SharedParts(b, a, r, r.left, p, q, x, y))
  {
    hide Segmented, Text, Rounds, Ends, Trimmed, Doubled, SharedParts;
    var a, b, r := Segmented(left), Segmented(right), DiffSplit(left, right);
    TextLengths(left);
    TextLengths(right);
    if a != [] && b != [] {
      if r.left == "" && r.right != "" && !(left <= right) && !Doubled(a, b) {
        assert r == Uncorrected(a, b);
        OneSideFound(a, b);
      }
      if r.right == "" && r.left != "" && !Doubled(b, a) {
        assert r == Uncorrected(a, b);
        Turned(a, b);
        OneSideFound(b, a);
        var p: nat, q: nat, x, y :| SharedParts(b, a, Uncorrected(b, a), r.left, p, q, x, y);
        assert SharedParts(b, a, r, r.left, p, q, x, y) by { SameEnds(b, a, Uncorrected(b, a), r, r.left, p, q, x, y); }
      }
    } else if b == [] && a != [] {
      AllOwn(a, left);
    }
  }

  lemma SameEnds(a: seq<Segment>, b: seq<Segment>, r: Split, s: Split, own: string, p: nat, q: nat, x: string, y: string)
    requires own != "" && SharedParts(a, b, r, own, p, q, x, y) && s.prefix == r.prefix && s.suffix == r.suffix
    ensures SharedParts(a, b, s, own, p, q, x, y)
  {
    hide Text;
  }

  lemma AllOwn(a: seq<Segment>, left: string)
    requires a != [] && Text(a) == left != ""
    ensures SharedParts([], a, Split("", "", left, ""), left, 0, 0, "", "")
  {
    assert a[0..] == a[0..|a|] == a;
    assert a[|a|..] == [];
  }

  /** For doubled sides: the segment that was counted twice is in front and behind. */
  lemma DoubledParts(left: string, right: string)
    requires var a, b := Segmented(left), Segmented(right); Doubled(a, b) && |b| > |a| + 1 && !(left <= right)
    ensures var a, b := Segmented(left), Segmented(right); var k := |a| / 2;
      if a[k] == b[|b| - 1 - k] then
        DiffSplit(left, right) == Split(Text(a[..k]), a[k].value + Text(a[k..]), "", Text(b[k..|b| - 1 - k]))
      else
        DiffSplit(left, right) == Split(Text(a[..k]) + a[k].value, Text(a[k..]), "", Text(b[k + 1..|b| - k]))
  {
    hide Segmented, Text, Rounds, Trimmed;
    var a, b := Segmented(left), Segmented(right);
    var k := |a| / 2;
    TextLengths(left);
    TextLengths(right);
    RoundsReach(a, b, 0, k);
    var m := Ends(a, b, k, k);
    TrimNothing(m);
    NoText(a, 0);
    DoubledLeft(a, b);
  }

  // The method

  lemma SliceText(a: seq<Segment>, i: nat, last: nat)
    requires i <= last <= |a|
    ensures i < last ==> Text(a[i..last]) == a[i].value + Text(a[i + 1..last])
    ensures i == last ==> Text(a[i..last]) == ""
  {
    if i < last {
      assert a[i..last][0] == a[i] && a[i..last][1..] == a[i + 1..last];
    }
  }

  method Remainders(a: seq<Segment>, from: nat, end: nat, spent: bool) returns (s: string)
    requires from <= end < |a|
    ensures s == Text(a[from..if spent then end else end + 1])
  {
    hide Text;
    s := "";
    var last := if spent then end else end + 1;
    var i := from;
    while i < last
      invariant from <= i <= last && Text(a[from..last]) == s + Text(a[i..last])
    {
      SliceText(a, i, last);
      Seqs.Associative(s, a[i].value, Text(a[i + 1..last]));
      s := s + a[i].value;
      i := i + 1;
    }
    SliceText(a, i, last);
    Seqs.AppendNothing(s, Text(a[i..last]));
  }

  /** A side as the iterators see it: first and last segment left, and whether
      the last is already used up. */
  predicate At(a: seq<Segment>, start: nat, end: nat, spent: bool, p: nat, q: nat) {
    p + q <= |a| && 0 < |a| && (p + q == |a| ==> q > 0) && start == p && end == EndOf(|a|, p, q) && (spent <==> p + q == |a|)
  }

  /** What one round adds. */
  lemma RoundMatches(a: seq<Segment>, b: seq<Segment>, p: nat, q: nat)
    requires Matched(a, b, p, q) && p + q + 2 <= Least(|a|, |b|)
    ensures var i, j := |a| - 1 - q, |b| - 1 - q;
      Text(a[..p + 1]) == Text(a[..p]) + a[p].value && Text(a[|a| - (q + 1)..]) == a[i].value + Text(a[|a| - q..]) &&
      (a[p] == b[p] ==> Matched(a, b, p + 1, q)) && (a[i] == b[j] ==> Matched(a, b, p, q + 1)) &&
      (a[p] == b[p] && a[i] == b[j] ==> Matched(a, b, p + 1, q + 1))
  {
    hide Text;
    var i, j := |a| - 1 - q, |b| - 1 - q;
    ThreeParts(a, p, p);
    ThreeParts(a, i, i);
    Seqs.TakeSnoc(a, p);
    Seqs.TakeSnoc(b, p);
    Seqs.DropCons(a, i);
    Seqs.DropCons(b, j);
  }

  /** The iterators of both sides, and the text taken so far. */
  class Matcher {
    const left: seq<Segment>
    const right: seq<Segment>
    var leftStart: nat
    var leftEnd: nat
    var rightStart: nat
    var rightEnd: nat
    var leftSpent: bool
    var rightSpent: bool
    var prefix: string
    var suffix: string

    constructor (left: seq<Segment>, right: seq<Segment>)
      requires left != [] && right != []
      ensures this.left == left && this.right == right && MatchedUpTo(0, 0)
    {
      this.left, this.right := left, right;
      leftStart, leftEnd, leftSpent := 0, |left| - 1, false;
      rightStart, rightEnd, rightSpent := 0, |right| - 1, false;
      prefix, suffix := "", "";
      new;
      NoText(left, 0);
      assert left[..0] == [] && left[|left|..] == [] && right[|right|..] == [];
    }

    ghost predicate MatchedUpTo(p: nat, q: nat)
      reads this
    {
      Matched(left, right, p, q) &&
      At(left, leftStart, leftEnd, leftSpent, p, q) && At(right, rightStart, rightEnd, rightSpent, p, q) &&
      prefix == Text(left[..p]) && suffix == Text(left[|left| - q..])
    }

    /** One round: the starts, then the ends, are taken if they are equal. */
    method MatchRound(ghost p: nat, ghost q: nat) returns (advanced: bool, ghost p1: nat, ghost q1: nat)
      requires MatchedUpTo(p, q) && leftStart != leftEnd && rightStart != rightEnd
      modifies this
      ensures p1 == (if left[p] == right[p] then p + 1 else p)
      ensures q1 == (if left[|left| - 1 - q] == right[|right| - 1 - q] then q + 1 else q)
      ensures MatchedUpTo(p1, q1) && (advanced <==> p1 != p || q1 != q)
    {
      hide Text, Matched;
      RoundMatches(left, right, p, q);
      advanced, p1, q1 := false, p, q;
      if left[leftStart] == right[rightStart] {
        prefix := prefix + left[leftStart].value;
        leftStart := leftStart + 1;
        rightStart := rightStart + 1;
        advanced := true;
        p1 := p + 1;
      }
      if left[leftEnd] == right[rightEnd] {
        suffix := left[leftEnd].value + suffix;
        if leftStart != leftEnd {
          leftEnd := leftEnd - 1;
        } else {
          leftSpent := true;
        }
        if rightStart != rightEnd {
          rightEnd := rightEnd - 1;
        } else {
          rightSpent := true;
        }
        advanced := true;
        q1 := q + 1;
      }
    }

    method MatchRounds() returns (ghost p: nat, ghost q: nat)
      requires MatchedUpTo(0, 0)
      modifies this
      ensures (p, q) == Rounds(left, right, 0, 0) && MatchedUpTo(p, q)
    {
      hide Text;
      p, q := 0, 0;
      while leftStart != leftEnd && rightStart != rightEnd
        invariant MatchedUpTo(p, q) && Rounds(left, right, 0, 0) == Rounds(left, right, p, q)
        decreases |left| - p - q
      {
        var advanced;
        ghost var p1, q1;
        advanced, p1, q1 := MatchRound(p, q);
        if !advanced {
          break;
        }
        p, q := p1, q1;
      }
    }

    /** The last segment of a side against the ends of the other. */
    method MatchLast(ghost p: nat, ghost q: nat)
      requires MatchedUpTo(p, q)
      modifies this
      ensures var m := Ends(left, right, p, q);
        prefix == m.prefix && suffix == m.suffix &&
        Holds(left, leftStart, leftEnd, leftSpent, m.left) && Holds(right, rightStart, rightEnd, rightSpent, m.right)
    {
      hide Text;
      OneLeft(left, leftEnd);
      OneLeft(right, rightEnd);
      if leftStart == leftEnd && rightStart != rightEnd {
        if left[leftStart] == right[rightEnd] {
          suffix := right[rightEnd].value + suffix;
          rightEnd := rightEnd - 1;
          leftSpent := true;
        } else if left[leftStart] == right[rightStart] {
          prefix := prefix + right[rightStart].value;
          rightStart := rightStart + 1;
          leftSpent := true;
        }
      } else if rightStart == rightEnd && leftStart != leftEnd {
        if left[leftEnd] == right[rightStart] {
          suffix := left[leftEnd].value + suffix;
          leftEnd := leftEnd - 1;
          rightSpent := true;
        } else if left[leftStart] == right[rightStart] {
          prefix := prefix + left[leftStart].value;
          leftStart := leftStart + 1;
          rightSpent := true;
        }
      } else if leftStart == leftEnd && rightStart == rightEnd && left[leftStart] == right[rightStart] && left[leftStart].Marker? {
        prefix := prefix + right[rightStart].value;
        leftSpent := true;
        rightSpent := true;
      }
    }

    /** Text shared by what is left moves to the shared parts. */
    method TrimText(ghost m: Middle) returns (r: Split)
      requires prefix == m.prefix && suffix == m.suffix
      requires Holds(left, leftStart, leftEnd, leftSpent, m.left) && Holds(right, rightStart, rightEnd, rightSpent, m.right)
      ensures r == Trimmed(m)
    {
      hide Text, Shared, StartPlain, EndPlain, Tail, Parted, Holds;
      HeldText(m.left, left, leftStart, leftEnd, leftSpent);
      HeldText(m.right, right, rightStart, rightEnd, rightSpent);
      var textSuffix := left[leftEnd].Plain? && right[rightEnd].Plain?;
      var textPrefix := right[rightStart].Plain? && left[leftStart].Plain?;
      var restLeft := Remainders(left, leftStart, leftEnd, leftSpent);
      var restRight := Remainders(right, rightStart, rightEnd, rightSpent);
      var prefixLen, suffixLen := SharedLengths(restLeft, restRight, textPrefix, textSuffix);
      r := Parted(prefix, suffix, restLeft, restRight, (prefixLen, suffixLen));
      if m.left == [] || m.right == [] {
        NothingShared(restLeft, restRight, textPrefix, textSuffix);
        NothingShared(restLeft, restRight, StartPlain(m), EndPlain(m));
      } else {
        HeldEnds(m, left, leftStart, leftEnd, leftSpent, right, rightStart, rightEnd, rightSpent);
      }
    }
  }

  method SharedLengths(left: string, right: string, front: bool, behind: bool) returns (prefixLen: nat, suffixLen: nat)
    ensures (prefixLen, suffixLen) == Shared(left, right, front, behind)
  {
    hide CommonPrefix, CommonSuffix, Tail;
    prefixLen, suffixLen := 0, 0;
    if behind {
      suffixLen := CommonSuffixLen(left, right);
    }
    // No overlap between prefix and suffix.
    if front {
      prefixLen := CommonPrefixLen(left[..|left| - suffixLen], right[..|right| - suffixLen]);
    }
  }

  lemma NothingShared(a: string, b: string, front: bool, behind: bool)
    requires a == "" || b == ""
    ensures Shared(a, b, front, behind) == (0, 0)
  {
    var r := Shared(a, b, front, behind);
    assert r.0 + r.1 == 0;
  }

  lemma HeldText(rest: seq<Segment>, a: seq<Segment>, start: nat, end: nat, spent: bool)
    requires Holds(a, start, end, spent, rest)
    ensures start <= end < |a|
    ensures Text(rest) == Text(a[start..if spent then end else end + 1]) && (rest == [] ==> Text(rest) == "")
  {
  }

  /** The iterators enclose these segments; none are left once the last is spent. */
  predicate Holds(a: seq<Segment>, start: nat, end: nat, spent: bool, rest: seq<Segment>) {
    start <= end < |a| && rest == (if spent then [] else a[start..end + 1]) && (spent ==> a[start..end] == [])
  }

  lemma HeldEnds(m: Middle, a: seq<Segment>, i: nat, j: nat, spentA: bool, b: seq<Segment>, k: nat, l: nat, spentB: bool)
    requires Holds(a, i, j, spentA, m.left) && Holds(b, k, l, spentB, m.right)
    ensures m.left != [] && m.right != [] ==>
      (StartPlain(m) <==> b[k].Plain? && a[i].Plain?) && (EndPlain(m) <==> a[j].Plain? && b[l].Plain?)
  {
  }

  method CalculateDiffSplit(left: string, right: string) returns (r: Split)
    ensures r == DiffSplit(left, right)
  {
    hide Segmented, Rounds, Ends, Trimmed, Text;
    var leftSegments := SegmentizeMarkers(left);
    var rightSegments := SegmentizeMarkers(right);
    if leftSegments == [] {
      return Split("", "", "", right);
    }
    if rightSegments == [] {
      return Split("", "", left, "");
    }
    var matcher := new Matcher(leftSegments, rightSegments);
    ghost var p, q := matcher.MatchRounds();
    matcher.MatchLast(p, q);
    r := matcher.TrimText(Ends(leftSegments, rightSegments, p, q));
    if r.left == "" && r.right == "" {
      r := r.(prefix := left, suffix := "");
    }
    if r.left == "" && r.right != "" && left <= right {
      r := r.(prefix := left, suffix := "", right := right[|left|..]);
    }
  }
}
