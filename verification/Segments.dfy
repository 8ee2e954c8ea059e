/** Template output cut into markers, <...> and [...], and the text between. */
module Segments {
  import Seqs

  datatype Segment = Plain(value: string) | Marker(value: string)

  predicate IsOpener(c: char) {
    c == '<' || c == '['
  }

  predicate IsCloser(opener: char, c: char) {
    (opener == '<' && c == '>') || (opener == '[' && c == ']')
  }

  function FirstOpener(s: string): (n: nat)
    ensures n <= |s| && (n < |s| ==> IsOpener(s[n])) && forall i :: 0 <= i < n ==> !IsOpener(s[i])
  {
    if s == "" || IsOpener(s[0]) then 0 else 1 + FirstOpener(s[1..])
  }

  function FirstCloser(opener: char, s: string): (n: nat)
    ensures n <= |s| && (n < |s| ==> IsCloser(opener, s[n])) && forall i :: 0 <= i < n ==> !IsCloser(opener, s[i])
  {
    if s == "" || IsCloser(opener, s[0]) then 0 else 1 + FirstCloser(opener, s[1..])
  }

  function Segmented(s: string): seq<Segment>
    decreases |s|
  {
    if s == "" then []
    else if !IsOpener(s[0]) then
      [Plain(s[..FirstOpener(s)])] + Segmented(s[FirstOpener(s)..])
    else
      var n := FirstCloser(s[0], s);
      if n == |s| then [Plain(s)] else [Marker(s[..n + 1])] + Segmented(s[n + 1..])
  }

  function Text(segments: seq<Segment>): string {
    if segments == [] then "" else segments[0].value + Text(segments[1..])
  }

  lemma {:induction false} TextAppend(a: seq<Segment>, b: seq<Segment>)
    ensures Text(a + b) == Text(a) + Text(b)
  {
    if a == [] {
      Seqs.AppendNothing(b, a);
    } else {
      Seqs.FirstOfAppend(a, b);
      TextAppend(a[1..], b);
    }
  }

  /** A bracket pair whose closer is the first one. */
  predicate IsMarker(s: string) {
    |s| > 1 && IsOpener(s[0]) && FirstCloser(s[0], s) == |s| - 1
  }

  /** An opener that is never closed. */
  predicate IsUnclosed(s: string) {
    s != "" && IsOpener(s[0]) && FirstCloser(s[0], s) == |s|
  }

  predicate IsPlain(s: string) {
    s != "" && FirstOpener(s) == |s|
  }

  /** Markers, stretches of text without openers and never two of them in a row,
      and at the very end perhaps an unclosed bracket. */
  predicate IsSegmentation(segments: seq<Segment>) {
    segments == [] ||
    (segments[0].Marker? && IsMarker(segments[0].value) && IsSegmentation(segments[1..])) ||
    (segments[0].Plain? && IsPlain(segments[0].value) && IsSegmentation(segments[1..]) &&
     (|segments| > 1 && segments[1].Plain? ==> IsUnclosed(segments[1].value))) ||
    (segments[0].Plain? && IsUnclosed(segments[0].value) && |segments| == 1)
  }

  /** The three shapes, spelled out: a marker is a pair of like brackets whose
      closer is its last character only; plain text has no opening bracket. */
  lemma ShapesMean(s: string)
    ensures IsPlain(s) <==> s != "" && '<' !in s && '[' !in s
    ensures IsUnclosed(s) <==> s != "" && ((s[0] == '<' && '>' !in s) || (s[0] == '[' && ']' !in s))
    ensures var n := |s| - 1;
      IsMarker(s) <==> n > 0 && ((s[0] == '<' && s[n] == '>' && '>' !in s[..n]) || (s[0] == '[' && s[n] == ']' && ']' !in s[..n]))
  {
    if s != "" {
      var n := FirstCloser(s[0], s);
      var m := FirstOpener(s);
      if n < |s| - 1 {
        assert s[n] in s[..|s| - 1];
      }
      if n < |s| {
        assert s[n] in s;
      }
      if m < |s| {
        assert s[m] in s;
      }
    }
  }

  lemma {:induction false} SegmentedIsSegmentation(s: string)
    ensures IsSegmentation(Segmented(s)) && Text(Segmented(s)) == s
    decreases |s|
  {
    hide IsSegmentation, Text, IsOpener, IsCloser;
    if s == "" {
      Joins(Marker(""), []);
    } else if !IsOpener(s[0]) {
      var n := FirstOpener(s);
      SegmentedIsSegmentation(s[n..]);
      Seqs.Split(s, n);
      FirstOpenerIs(s[..n], n);
      AfterPlain(s[n..]);
      Joins(Plain(s[..n]), Segmented(s[n..]));
    } else {
      var n := FirstCloser(s[0], s);
      if n < |s| {
        SegmentedIsSegmentation(s[n + 1..]);
        Seqs.Split(s, n + 1);
        FirstCloserIs(s[0], s[..n + 1], n);
        CloserIsNoOpener(s[0]);
        Joins(Marker(s[..n + 1]), Segmented(s[n + 1..]));
      } else {
        Joins(Plain(s), []);
        Seqs.AppendNothing([Plain(s)], []);
        Seqs.AppendNothing(s, "");
      }
    }
  }

  lemma CloserIsNoOpener(c: char)
    ensures !IsCloser(c, c)
  {
  }

  lemma Joins(first: Segment, rest: seq<Segment>)
    ensures Text([first] + rest) == first.value + Text(rest) && Text([]) == "" && IsSegmentation([])
    ensures IsSegmentation(rest) && first.Marker? && IsMarker(first.value) ==> IsSegmentation([first] + rest)
    ensures IsSegmentation(rest) && first.Plain? && IsPlain(first.value) && (rest != [] && rest[0].Plain? ==> IsUnclosed(rest[0].value)) ==>
      IsSegmentation([first] + rest)
    ensures first.Plain? && IsUnclosed(first.value) && rest == [] ==> IsSegmentation([first] + rest)
  {
    Seqs.FirstOfAppend([first], rest);
    Seqs.AppendNothing(rest, [first][1..]);
  }

  lemma AfterPlain(s: string)
    requires s == "" || IsOpener(s[0])
    ensures var t := Segmented(s); t != [] && t[0].Plain? ==> IsUnclosed(t[0].value)
  {
  }

  lemma FirstOpenerIs(s: string, n: nat)
    requires n <= |s| && (n < |s| ==> IsOpener(s[n])) && forall i :: 0 <= i < n ==> !IsOpener(s[i])
    ensures FirstOpener(s) == n
  {
  }

  lemma FirstCloserIs(opener: char, s: string, n: nat)
    requires n <= |s| && (n < |s| ==> IsCloser(opener, s[n])) && forall i :: 0 <= i < n ==> !IsCloser(opener, s[i])
    ensures FirstCloser(opener, s) == n
  {
  }

  /** No other list of segments with the same text has that shape. */
  lemma {:induction false} SegmentationIsUnique(segments: seq<Segment>)
    requires IsSegmentation(segments)
    ensures Segmented(Text(segments)) == segments
    decreases |segments|
  {
    if segments != [] {
      var s, first, rest := Text(segments), segments[0].value, Text(segments[1..]);
      Seqs.Border(first, rest);
      Seqs.DropCons(segments, 0);
      assert s[0] == first[0];
      if segments[0].Marker? {
        SegmentationIsUnique(segments[1..]);
        CloserFirst(s[0], first, rest);
      } else if IsPlain(first) {
        SegmentationIsUnique(segments[1..]);
        RestStarts(segments[1..]);
        OpenerFirst(first, rest);
      } else {
        Seqs.AppendNothing(first, rest);
      }
    }
  }

  lemma OpenerFirst(a: string, b: string)
    requires FirstOpener(a) == |a| && (b == "" || IsOpener(b[0]))
    ensures FirstOpener(a + b) == |a|
  {
    forall i | 0 <= i < |a| ensures !IsOpener((a + b)[i]) {
      assert (a + b)[i] == a[i];
    }
    FirstOpenerIs(a + b, |a|);
  }

  lemma CloserFirst(opener: char, a: string, b: string)
    requires a != "" && FirstCloser(opener, a) == |a| - 1
    ensures FirstCloser(opener, a + b) == |a| - 1
  {
    forall i | 0 <= i < |a| ensures (a + b)[i] == a[i] {
    }
    FirstCloserIs(opener, a + b, |a| - 1);
  }

  lemma RestStarts(segments: seq<Segment>)
    requires IsSegmentation(segments) && (segments != [] && segments[0].Plain? ==> IsUnclosed(segments[0].value))
    ensures Text(segments) == "" || IsOpener(Text(segments)[0])
  {
    if segments != [] {
      assert (segments[0].value + Text(segments[1..]))[0] == segments[0].value[0];
    }
  }

  /** The segments are exactly the one list of that shape with that text. */
  lemma SegmentedExactly(s: string, segments: seq<Segment>)
    ensures segments == Segmented(s) <==> IsSegmentation(segments) && Text(segments) == s
  {
    SegmentedIsSegmentation(s);
    if IsSegmentation(segments) {
      SegmentationIsUnique(segments);
    }
  }

  lemma {:induction false} SegmentsNotEmpty(segments: seq<Segment>)
    requires IsSegmentation(segments)
    ensures forall i :: 0 <= i < |segments| ==> segments[i].value != ""
  {
    if segments != [] {
      SegmentsNotEmpty(segments[1..]);
    }
  }

  method SegmentizeMarkers(text: string) returns (segments: seq<Segment>)
    ensures segments == Segmented(text)
  {
    hide Segmented, IsOpener;
    segments := [];
    Seqs.AppendNothing(Segmented(text), []);
    var inMarker, markerOpener := false, '\0';
    var lastBorder, pos := 0, 0;
    while pos < |text|
      invariant lastBorder <= pos <= |text|
      invariant Segmented(text) == segments + Segmented(text[lastBorder..])
      invariant !inMarker ==> forall i :: lastBorder <= i < pos ==> !IsOpener(text[i])
      invariant inMarker ==> lastBorder < pos && IsOpener(markerOpener) && text[lastBorder] == markerOpener
      invariant inMarker ==> forall i :: lastBorder <= i < pos ==> !IsCloser(markerOpener, text[i])
    {
      if !inMarker && IsOpener(text[pos]) {
        if lastBorder < pos {
          PlainEnds(text, lastBorder, pos);
          Seqs.Associative(segments, [Plain(text[lastBorder..pos])], Segmented(text[pos..]));
          segments := segments + [Plain(text[lastBorder..pos])];
        }
        lastBorder := pos;
        inMarker := true;
        markerOpener := text[pos];
      } else if inMarker && IsCloser(markerOpener, text[pos]) {
        MarkerEnds(text, lastBorder, pos);
        Seqs.Associative(segments, [Marker(text[lastBorder..pos + 1])], Segmented(text[pos + 1..]));
        segments := segments + [Marker(text[lastBorder..pos + 1])];
        lastBorder := pos + 1;
        inMarker := false;
        markerOpener := '\0';
      }
      pos := pos + 1;
    }
    if lastBorder < |text| {
      LastEnds(text, lastBorder);
      segments := segments + [Plain(text[lastBorder..])];
    } else {
      NothingSegmented(text[lastBorder..]);
      Seqs.AppendNothing(segments, Segmented(text[lastBorder..]));
    }
  }

  lemma NothingSegmented(s: string)
    requires s == ""
    ensures Segmented(s) == []
  {
  }

  lemma Within(text: string, from: nat, n: nat)
    requires from + n <= |text|
    ensures text[from..][..n] == text[from..from + n] && text[from..][n..] == text[from + n..]
    ensures forall i :: 0 <= i < |text| - from ==> text[from..][i] == text[from + i]
  {
  }

  lemma PlainEnds(text: string, from: nat, pos: nat)
    requires from < pos < |text| && IsOpener(text[pos]) && forall i :: from <= i < pos ==> !IsOpener(text[i])
    ensures Segmented(text[from..]) == [Plain(text[from..pos])] + Segmented(text[pos..])
  {
    Within(text, from, pos - from);
    FirstOpenerIs(text[from..], pos - from);
  }

  lemma MarkerEnds(text: string, from: nat, pos: nat)
    requires from < pos < |text| && IsOpener(text[from]) && IsCloser(text[from], text[pos])
    requires forall i :: from <= i < pos ==> !IsCloser(text[from], text[i])
    ensures Segmented(text[from..]) == [Marker(text[from..pos + 1])] + Segmented(text[pos + 1..])
  {
    hide IsCloser, IsOpener, Segmented;
    var s := text[from..];
    Within(text, from, pos + 1 - from);
    assert s[0] == text[from + 0] && s[pos - from] == text[from + (pos - from)];
    forall i | 0 <= i < pos - from ensures !IsCloser(text[from], s[i]) {
      assert s[i] == text[from + i];
    }
    FirstCloserIs(text[from], s, pos - from);
    MarkerFirst(s, pos - from);
  }

  lemma MarkerFirst(s: string, n: nat)
    requires n < |s| && IsOpener(s[0]) && FirstCloser(s[0], s) == n
    ensures Segmented(s) == [Marker(s[..n + 1])] + Segmented(s[n + 1..])
  {
    hide IsCloser, IsOpener, FirstCloser;
  }

  lemma LastEnds(text: string, from: nat)
    requires from < |text|
    requires !IsOpener(text[from]) ==> forall i :: from <= i < |text| ==> !IsOpener(text[i])
    requires IsOpener(text[from]) ==> forall i :: from <= i < |text| ==> !IsCloser(text[from], text[i])
    ensures Segmented(text[from..]) == [Plain(text[from..])]
  {
    var s := text[from..];
    Within(text, from, |s|);
    if !IsOpener(s[0]) {
      FirstOpenerIs(s, |s|);
      Seqs.WholeTake(s, |s|);
      Seqs.AppendNothing([Plain(s)], Segmented(s[|s|..]));
    } else {
      FirstCloserIs(s[0], s, |s|);
    }
  }
}
