/** Tokens split into messages at their delimiters. */
module MessageSpans {
  import Seqs

  datatype Role = System | Assistant | User | Tool | Unknown

  datatype Delimiter = Delimiter(role: Role, tokens: seq<int>)

  datatype Span = Span(role: Role, pos: nat, len: nat)

  /** A region to jump over: where it starts and how long it is. */
  datatype Skip = Skip(start: nat, len: nat) {
    function End(): nat {
      start + len
    }
  }

  /** Skips come from a map: in order, one for a start. */
  predicate IsSkips(skips: seq<Skip>) {
    forall j, k :: 0 <= j < k < |skips| ==> skips[j].start < skips[k].start
  }

  /** A skip counts as long as none so far reaches into the one after it. */
  predicate InForce(skips: seq<Skip>, j: nat)
    requires j < |skips|
  {
    forall k :: 0 < k <= j ==> skips[k - 1].End() <= skips[k].start
  }

  predicate IsSkipped(skips: seq<Skip>, p: nat) {
    exists j :: 0 <= j < |skips| && InForce(skips, j) && skips[j].start <= p < skips[j].End()
  }

  predicate MatchesAt(d: Delimiter, tokens: seq<int>, p: nat) {
    p + |d.tokens| <= |tokens| && d.tokens == tokens[p..p + |d.tokens|]
  }

  /** The first delimiter from the k-th on that stands at p. */
  function FirstMatch(ds: seq<Delimiter>, tokens: seq<int>, p: nat, k: nat): (m: nat)
    requires k <= |ds|
    ensures k <= m <= |ds| && (m < |ds| ==> MatchesAt(ds[m], tokens, p))
    ensures forall j :: k <= j < m ==> !MatchesAt(ds[j], tokens, p)
    decreases |ds| - k
  {
    if k == |ds| || MatchesAt(ds[k], tokens, p) then k else FirstMatch(ds, tokens, p, k + 1)
  }

  predicate IsStart(ds: seq<Delimiter>, tokens: seq<int>, skips: seq<Skip>, p: nat) {
    p < |tokens| && !IsSkipped(skips, p) && FirstMatch(ds, tokens, p, 0) < |ds|
  }

  datatype Match = Match(role: Role, pos: nat)

  /** All starts before a place, in order, each with the role of the first
      delimiter that stands there. */
  ghost predicate AreMatches(ms: seq<Match>, ds: seq<Delimiter>, tokens: seq<int>, skips: seq<Skip>, limit: nat) {
    (forall k :: 0 <= k < |ms| ==>
      ms[k].pos < limit && IsStart(ds, tokens, skips, ms[k].pos) && ms[k].role == ds[FirstMatch(ds, tokens, ms[k].pos, 0)].role) &&
    (forall j, k :: 0 <= j < k < |ms| ==> ms[j].pos < ms[k].pos) &&
    forall p: nat :: p < limit && IsStart(ds, tokens, skips, p) ==> exists k :: 0 <= k < |ms| && ms[k].pos == p
  }

  /** A delimiter stands where the tokens are cut into what is before, its own
      tokens and what is after. */
  lemma MatchMeans(d: Delimiter, tokens: seq<int>, p: nat)
    ensures MatchesAt(d, tokens, p) <==> exists before, after :: |before| == p && tokens == before + d.tokens + after
  {
    var n := |d.tokens|;
    if MatchesAt(d, tokens, p) {
      assert tokens == tokens[..p] + d.tokens + tokens[p + n..];
    }
    if before, after :| |before| == p && tokens == before + d.tokens + after {
      assert tokens[p..p + n] == d.tokens;
    }
  }

  /** Of the skips those count that come before the first one that is reached into,
      each for the tokens from its start on. */
  lemma SkipsMean(skips: seq<Skip>, n: nat, p: nat)
    requires n <= |skips| && forall k :: 0 < k < n ==> skips[k - 1].start + skips[k - 1].len <= skips[k].start
    requires n < |skips| ==> n > 0 && skips[n - 1].start + skips[n - 1].len > skips[n].start
    ensures IsSkipped(skips, p) <==> exists j :: 0 <= j < n && skips[j].start <= p < skips[j].start + skips[j].len
  {
    if j :| 0 <= j < n && skips[j].start <= p < skips[j].start + skips[j].len {
      assert InForce(skips, j);
    }
    if j :| 0 <= j < |skips| && InForce(skips, j) && skips[j].start <= p < skips[j].End() {
      assert j < n;
    }
  }

  /** A message starts where any delimiter stands, unless the place is skipped; the
      one that counts is the first of the list. */
  lemma StartMeans(ds: seq<Delimiter>, tokens: seq<int>, skips: seq<Skip>, p: nat)
    ensures IsStart(ds, tokens, skips, p) <==>
      p < |tokens| && !IsSkipped(skips, p) && exists k :: 0 <= k < |ds| && MatchesAt(ds[k], tokens, p)
    ensures forall k :: 0 <= k < |ds| && MatchesAt(ds[k], tokens, p) ==> FirstMatch(ds, tokens, p, 0) <= k
  {
  }

  /** Where the next skip is: still ahead, or behind and never met again. */
  predicate NextSkip(skips: seq<Skip>, j: nat, i: nat) {
    j <= |skips| && (forall k :: 0 <= k < j ==> InForce(skips, k) && skips[k].End() <= i) &&
    (j < |skips| ==> if InForce(skips, j) then i <= skips[j].start else skips[j].start < i)
  }

  lemma NotSkipped(skips: seq<Skip>, j: nat, i: nat)
    requires IsSkips(skips) && NextSkip(skips, j, i) && (j < |skips| ==> i != skips[j].start)
    ensures !IsSkipped(skips, i) && NextSkip(skips, j, i + 1)
  {
    forall k | 0 <= k < |skips| && InForce(skips, k) ensures !(skips[k].start <= i < skips[k].End()) {
      if k > j {
        assert InForce(skips, j);
      }
    }
  }

  lemma JumpedOver(skips: seq<Skip>, j: nat, i: nat)
    requires IsSkips(skips) && NextSkip(skips, j, i) && j < |skips| && i == skips[j].start
    ensures forall p :: i <= p < skips[j].End() ==> IsSkipped(skips, p)
    ensures NextSkip(skips, j + 1, skips[j].End()) && i <= skips[j].End()
  {
    if j + 1 < |skips| && skips[j].End() <= skips[j + 1].start {
      assert InForce(skips, j + 1);
    }
  }

  method FirstDelimiter(ds: seq<Delimiter>, tokens: seq<int>, i: nat) returns (k: nat)
    ensures k == FirstMatch(ds, tokens, i, 0)
  {
    hide FirstMatch, MatchesAt;
    k := 0;
    while k < |ds| && !MatchesAt(ds[k], tokens, i)
      invariant k <= |ds| && FirstMatch(ds, tokens, i, 0) == FirstMatch(ds, tokens, i, k)
    {
      NextMatch(ds, tokens, i, k);
      k := k + 1;
    }
    NextMatch(ds, tokens, i, k);
  }

  method FindMatches(ds: seq<Delimiter>, tokens: seq<int>, skips: seq<Skip>) returns (matches: seq<Match>)
    requires IsSkips(skips)
    ensures AreMatches(matches, ds, tokens, skips, |tokens|)
  {
    hide IsSkipped, InForce, IsSkips, NextSkip, FirstMatch, AreMatches;
    matches := [];
    var skip, i := 0, 0;
    FirstSkip(skips);
    NoMatches(ds, tokens, skips);
    while i < |tokens|
      invariant NextSkip(skips, skip, i) && skip <= |skips| && AreMatches(matches, ds, tokens, skips, i)
      decreases |tokens| - i, |skips| - skip
    {
      if skip < |skips| && i == skips[skip].start {
        JumpedOver(skips, skip, i);
        MatchesAhead(matches, ds, tokens, skips, i, skips[skip].End());
        i := skips[skip].End();
        skip := skip + 1;
      } else {
        NotSkipped(skips, skip, i);
        var k := FirstDelimiter(ds, tokens, i);
        AddMatch(matches, ds, tokens, skips, i);
        if k < |ds| {
          matches := matches + [Match(ds[k].role, i)];
        }
        i := i + 1;
      }
    }
    MatchesWithin(matches, ds, tokens, skips, i);
  }

  lemma NoMatches(ds: seq<Delimiter>, tokens: seq<int>, skips: seq<Skip>)
    ensures AreMatches([], ds, tokens, skips, 0)
  {
  }

  lemma MatchesAhead(ms: seq<Match>, ds: seq<Delimiter>, tokens: seq<int>, skips: seq<Skip>, i: nat, end: nat)
    requires AreMatches(ms, ds, tokens, skips, i) && i <= end && forall p :: i <= p < end ==> IsSkipped(skips, p)
    ensures AreMatches(ms, ds, tokens, skips, end)
  {
    hide IsSkipped, FirstMatch;
  }

  lemma MatchesWithin(ms: seq<Match>, ds: seq<Delimiter>, tokens: seq<int>, skips: seq<Skip>, i: nat)
    requires AreMatches(ms, ds, tokens, skips, i) && |tokens| <= i
    ensures AreMatches(ms, ds, tokens, skips, |tokens|)
  {
    hide IsSkipped, FirstMatch;
  }

  lemma FirstSkip(skips: seq<Skip>)
    ensures NextSkip(skips, 0, 0)
  {
    if skips != [] {
      assert InForce(skips, 0);
    }
  }

  lemma NextMatch(ds: seq<Delimiter>, tokens: seq<int>, p: nat, k: nat)
    requires k <= |ds|
    ensures FirstMatch(ds, tokens, p, k) ==
      if k == |ds| || MatchesAt(ds[k], tokens, p) then k else FirstMatch(ds, tokens, p, k + 1)
  {
  }

  lemma AddMatch(ms: seq<Match>, ds: seq<Delimiter>, tokens: seq<int>, skips: seq<Skip>, i: nat)
    requires AreMatches(ms, ds, tokens, skips, i) && i < |tokens| && !IsSkipped(skips, i)
    ensures var k := FirstMatch(ds, tokens, i, 0);
      AreMatches(if k < |ds| then ms + [Match(ds[k].role, i)] else ms, ds, tokens, skips, i + 1)
  {
    hide IsSkipped, FirstMatch;
    var k := FirstMatch(ds, tokens, i, 0);
    if k < |ds| {
      var more := ms + [Match(ds[k].role, i)];
      forall p: nat | p < i + 1 && IsStart(ds, tokens, skips, p) ensures exists j :: 0 <= j < |more| && more[j].pos == p {
        if p == i {
          assert more[|ms|].pos == p;
        } else {
          var j :| 0 <= j < |ms| && ms[j].pos == p;
          assert more[j].pos == p;
        }
      }
    }
  }

  /** One after the other up to the last token, none of them empty. */
  predicate AreContiguous(spans: seq<Span>, count: nat) {
    forall k :: 0 <= k < |spans| ==>
      spans[k].len > 0 && spans[k].pos + spans[k].len == if k + 1 < |spans| then spans[k + 1].pos else count
  }

  /** Each begins where a message starts, with the role of the first delimiter there. */
  predicate AreStarts(spans: seq<Span>, ds: seq<Delimiter>, tokens: seq<int>, skips: seq<Skip>) {
    forall k :: 0 <= k < |spans| ==>
      IsStart(ds, tokens, skips, spans[k].pos) && spans[k].role == ds[FirstMatch(ds, tokens, spans[k].pos, 0)].role
  }

  ghost predicate CoverStarts(spans: seq<Span>, ds: seq<Delimiter>, tokens: seq<int>, skips: seq<Skip>) {
    forall p: nat :: IsStart(ds, tokens, skips, p) ==> exists k :: 0 <= k < |spans| && spans[k].pos == p
  }

  ghost predicate AreSpans(spans: seq<Span>, ds: seq<Delimiter>, tokens: seq<int>, skips: seq<Skip>) {
    AreContiguous(spans, |tokens|) && AreStarts(spans, ds, tokens, skips) && CoverStarts(spans, ds, tokens, skips)
  }

  /** A match becomes the span up to the next one. */
  function SpanAt(matches: seq<Match>, k: nat): Span
    requires k + 1 < |matches| && matches[k].pos <= matches[k + 1].pos
  {
    Span(matches[k].role, matches[k].pos, matches[k + 1].pos - matches[k].pos)
  }

  method Split(ds: seq<Delimiter>, tokens: seq<int>, skips: seq<Skip>) returns (spans: seq<Span>)
    requires IsSkips(skips)
    ensures AreSpans(spans, ds, tokens, skips)
  {
    hide AreMatches, AreSpans;
    var found := FindMatches(ds, tokens, skips);
    var matches := found + [Match(Unknown, |tokens|)];
    MatchesInOrder(found, ds, tokens, skips);
    spans := [];
    var i := 0;
    while i + 1 < |matches|
      invariant i < |matches| && |spans| == i && forall k :: 0 <= k < i ==> spans[k] == SpanAt(matches, k)
    {
      spans := spans + [Span(matches[i].role, matches[i].pos, matches[i + 1].pos - matches[i].pos)];
      i := i + 1;
    }
    SpansOfMatches(found, spans, ds, tokens, skips);
  }

  lemma MatchesInOrder(found: seq<Match>, ds: seq<Delimiter>, tokens: seq<int>, skips: seq<Skip>)
    requires AreMatches(found, ds, tokens, skips, |tokens|)
    ensures var ms := found + [Match(Unknown, |tokens|)]; forall k :: 0 <= k < |found| ==> ms[k].pos < ms[k + 1].pos
  {
    hide IsStart, FirstMatch;
  }

  /** The spans that some matches become. */
  predicate Become(found: seq<Match>, spans: seq<Span>, count: nat) {
    var ms := found + [Match(Unknown, count)];
    |spans| == |found| && forall k :: 0 <= k < |found| ==> ms[k].pos < ms[k + 1].pos && spans[k] == SpanAt(ms, k)
  }

  lemma SpansFollow(found: seq<Match>, spans: seq<Span>, count: nat)
    requires Become(found, spans, count)
    ensures AreContiguous(spans, count) && |spans| == |found|
    ensures forall k :: 0 <= k < |found| ==> spans[k].pos == found[k].pos && spans[k].role == found[k].role
  {
    var ms := found + [Match(Unknown, count)];
    forall k | 0 <= k < |found| ensures ms[k] == found[k] {
    }
  }

  lemma SpansOfMatches(found: seq<Match>, spans: seq<Span>, ds: seq<Delimiter>, tokens: seq<int>, skips: seq<Skip>)
    requires AreMatches(found, ds, tokens, skips, |tokens|) && Become(found, spans, |tokens|)
    ensures AreSpans(spans, ds, tokens, skips)
  {
    hide IsStart, FirstMatch, Become, AreContiguous;
    SpansFollow(found, spans, |tokens|);
    forall p: nat | IsStart(ds, tokens, skips, p) ensures exists k :: 0 <= k < |spans| && spans[k].pos == p {
      StartsWithin(ds, tokens, skips, p);
      var k :| 0 <= k < |found| && found[k].pos == p;
      assert spans[k].pos == p;
    }
  }

  lemma StartsWithin(ds: seq<Delimiter>, tokens: seq<int>, skips: seq<Skip>, p: nat)
    requires IsStart(ds, tokens, skips, p)
    ensures p < |tokens|
  {
  }

  lemma {:induction false} PositionsGrow(spans: seq<Span>, count: nat, j: nat, k: nat)
    requires AreContiguous(spans, count) && j < k < |spans|
    ensures spans[j].pos < spans[k].pos
    decreases k - j
  {
    if j + 1 < k {
      PositionsGrow(spans, count, j + 1, k);
    }
  }

  /** No span of one list can begin before its counterpart in another. */
  lemma NotLater(a: seq<Span>, b: seq<Span>, ds: seq<Delimiter>, tokens: seq<int>, skips: seq<Skip>, k: nat)
    requires AreSpans(a, ds, tokens, skips) && AreSpans(b, ds, tokens, skips) && k < |a|
    requires forall j :: 0 <= j < k ==> j < |b| && a[j].pos == b[j].pos
    ensures k < |b| && b[k].pos <= a[k].pos
  {
    hide IsStart, FirstMatch;
    assert IsStart(ds, tokens, skips, a[k].pos);
    var i :| 0 <= i < |b| && b[i].pos == a[k].pos;
    if i < k {
      PositionsGrow(a, |tokens|, i, k);
    } else if k < i {
      PositionsGrow(b, |tokens|, k, i);
    }
  }

  lemma {:induction false} SamePositions(a: seq<Span>, b: seq<Span>, ds: seq<Delimiter>, tokens: seq<int>, skips: seq<Skip>, k: nat)
    requires AreSpans(a, ds, tokens, skips) && AreSpans(b, ds, tokens, skips) && k <= |a|
    ensures k <= |b| && forall j :: 0 <= j < k ==> a[j].pos == b[j].pos
  {
    hide AreSpans;
    if k > 0 {
      SamePositions(a, b, ds, tokens, skips, k - 1);
      NotLater(a, b, ds, tokens, skips, k - 1);
      NotLater(b, a, ds, tokens, skips, k - 1);
    }
  }

  /** There is only one way to split. */
  lemma SpansAreUnique(a: seq<Span>, b: seq<Span>, ds: seq<Delimiter>, tokens: seq<int>, skips: seq<Skip>)
    requires AreSpans(a, ds, tokens, skips) && AreSpans(b, ds, tokens, skips)
    ensures a == b
  {
    hide IsStart, FirstMatch, CoverStarts;
    SamePositions(a, b, ds, tokens, skips, |a|);
    SamePositions(b, a, ds, tokens, skips, |b|);
    forall k | 0 <= k < |a| ensures a[k] == b[k] {
      assert a[k].pos == b[k].pos && (k + 1 < |a| ==> a[k + 1].pos == b[k + 1].pos);
      assert a[k].len == b[k].len && a[k].role == b[k].role;
    }
  }
}
