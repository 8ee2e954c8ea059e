/** Deltas between successive partial messages, and the client that adds them up. */
module MessageDiff {
  import Seqs
  import opened Wrappers
  import opened ToolCalls

  datatype Diff = Diff(reasoning: string, content: string, index: Option<nat>, call: ToolCall)

  datatype DiffError = InvalidDiff | FewerToolCalls | ToolCallMismatch

  /** What has to be added to the last text. Nothing, if it has shrunk. */
  function StringDiff(last: string, current: string): Result<string, DiffError> {
    if last == "" then Success(current)
    else if !(last <= current) then
      if current <= last then Success("") else Failure(InvalidDiff)
    else Success(current[|last|..])
  }

  predicate Comparable(a: string, b: string) {
    a <= b || b <= a
  }

  lemma StringDiffMeaning(last: string, current: string)
    ensures StringDiff(last, current).Success? <==> Comparable(last, current)
    ensures StringDiff(last, current).Success? ==>
      (last + StringDiff(last, current).value == current <==> last <= current)
    ensures current <= last ==> StringDiff(last, current).value == ""
    ensures StringDiff(last, current).Failure? ==> StringDiff(last, current).error == InvalidDiff
  {
    if StringDiff(last, current).Success? {
      var d := StringDiff(last, current).value;
      if last <= current {
        assert last + d == current;
      } else {
        Seqs.AppendNothing(last, d);
      }
    }
  }

  function TextDiff(last: string, current: string): Result<string, DiffError> {
    if last == current then Success("") else StringDiff(last, current)
  }

  lemma TextDiffMeaning(last: string, current: string)
    ensures TextDiff(last, current).Success? <==> Comparable(last, current)
    ensures TextDiff(last, current).Success? ==>
      (last + TextDiff(last, current).value == current <==> last <= current)
    ensures current <= last ==> TextDiff(last, current).value == ""
    ensures TextDiff(last, current).Failure? ==> TextDiff(last, current).error == InvalidDiff
  {
    StringDiffMeaning(last, current);
    Seqs.AppendNothing(last, "");
  }

  /** A name may appear, disappear or grow. */
  predicate NamesMatch(last: string, current: string) {
    last == current || last == "" || current == "" || last <= current
  }

  function LastCallDiff(last: ToolCall, current: ToolCall, index: nat): Result<seq<Diff>, DiffError> {
    if !NamesMatch(last.name, current.name) then Failure(ToolCallMismatch)
    else
      var args := StringDiff(last.arguments, current.arguments);
      if args.Failure? then Failure(args.error)
      else
        var renamed := last.id != current.id || last.name != current.name;
        if args.value != "" || renamed then
          Success([Diff("", "", Some(index), if renamed then current.(arguments := args.value) else ToolCall("", args.value, ""))])
        else Success([])
  }

  function NewCalls(calls: seq<ToolCall>, start: nat): seq<Diff>
    decreases |calls| - start
  {
    if start >= |calls| then [] else [Diff("", "", Some(start), calls[start])] + NewCalls(calls, start + 1)
  }

  function Texts(prev: Message, next: Message, reasoning: string, content: string): seq<Diff> {
    (if prev.reasoning != next.reasoning then [Diff(reasoning, "", None, NO_CALL)] else []) +
    (if prev.content != next.content then [Diff("", content, None, NO_CALL)] else [])
  }

  function Diffs(prev: Message, next: Message): Result<seq<Diff>, DiffError> {
    var n := |prev.calls|;
    var reasoning, content := TextDiff(prev.reasoning, next.reasoning), TextDiff(prev.content, next.content);
    if reasoning.Failure? then Failure(reasoning.error)
    else if content.Failure? then Failure(content.error)
    else if |next.calls| < n then Failure(FewerToolCalls)
    else
      var last := if n > 0 then LastCallDiff(prev.calls[n - 1], next.calls[n - 1], n - 1) else Success([]);
      if last.Failure? then Failure(last.error)
      else Success(Texts(prev, next, reasoning.value, content.value) + last.value + NewCalls(next.calls, n))
  }

  method DiffLastCall(last: ToolCall, current: ToolCall, index: nat) returns (r: Result<seq<Diff>, DiffError>)
    ensures r == LastCallDiff(last, current, index)
  {
    if last.name != current.name && last.name != "" && current.name != "" {
      if !(last.name <= current.name) {
        return Failure(ToolCallMismatch);
      }
    }
    var args := StringDiff(last.arguments, current.arguments);
    if args.Failure? {
      return Failure(args.error);
    }
    var diffs := [];
    if args.value != "" || last.id != current.id || last.name != current.name {
      var call := NO_CALL;
      if last.id != current.id || last.name != current.name {
        call := call.(id := current.id, name := current.name);
      }
      diffs := [Diff("", "", Some(index), call.(arguments := args.value))];
    }
    return Success(diffs);
  }

  method ComputeDiffs(prev: Message, next: Message) returns (r: Result<seq<Diff>, DiffError>)
    ensures r == Diffs(prev, next)
  {
    hide LastCallDiff, StringDiff;
    var diffs := [];
    if prev.reasoning != next.reasoning {
      var d := StringDiff(prev.reasoning, next.reasoning);
      if d.Failure? {
        return Failure(d.error);
      }
      diffs := diffs + [Diff(d.value, "", None, NO_CALL)];
    }
    if prev.content != next.content {
      var d := StringDiff(prev.content, next.content);
      if d.Failure? {
        return Failure(d.error);
      }
      diffs := diffs + [Diff("", d.value, None, NO_CALL)];
    }
    if |next.calls| < |prev.calls| {
      return Failure(FewerToolCalls);
    }
    assert diffs == Texts(prev, next, TextDiff(prev.reasoning, next.reasoning).value, TextDiff(prev.content, next.content).value);
    var last := [];
    if prev.calls != [] {
      var index := |prev.calls| - 1;
      var d := DiffLastCall(prev.calls[index], next.calls[index], index);
      if d.Failure? {
        return Failure(d.error);
      }
      last := d.value;
    }
    diffs := diffs + last;
    ghost var done := diffs;
    var i := |prev.calls|;
    while i < |next.calls|
      invariant |prev.calls| <= i <= |next.calls|
      invariant done + NewCalls(next.calls, |prev.calls|) == diffs + NewCalls(next.calls, i)
    {
      Seqs.Associative(diffs, [Diff("", "", Some(i), next.calls[i])], NewCalls(next.calls, i + 1));
      diffs := diffs + [Diff("", "", Some(i), next.calls[i])];
      i := i + 1;
    }
    Seqs.AppendNothing(diffs, NewCalls(next.calls, i));
    return Success(diffs);
  }

  /** The last call keeps its name, or the name grows or goes away. */
  predicate LastNameKept(prev: Message, next: Message)
    requires |prev.calls| <= |next.calls|
  {
    prev.calls != [] ==>
      var k := |prev.calls| - 1;
      prev.calls[k].name <= next.calls[k].name || next.calls[k].name == ""
  }

  /** The arguments of the last call grow or shrink at their end. */
  predicate LastArgumentsKept(prev: Message, next: Message)
    requires |prev.calls| <= |next.calls|
  {
    prev.calls != [] ==>
      var k := |prev.calls| - 1;
      Comparable(prev.calls[k].arguments, next.calls[k].arguments)
  }

  predicate TextsKept(prev: Message, next: Message) {
    Comparable(prev.reasoning, next.reasoning) && Comparable(prev.content, next.content)
  }

  /** Exactly which pairs of messages have a diff. */
  predicate Diffable(prev: Message, next: Message) {
    TextsKept(prev, next) && |prev.calls| <= |next.calls| && LastNameKept(prev, next) && LastArgumentsKept(prev, next)
  }

  lemma DiffsExist(prev: Message, next: Message)
    ensures Diffs(prev, next).Success? <==> Diffable(prev, next)
  {
    StringDiffMeaning(prev.reasoning, next.reasoning);
    StringDiffMeaning(prev.content, next.content);
    var k := |prev.calls| - 1;
    if 0 <= k < |next.calls| {
      StringDiffMeaning(prev.calls[k].arguments, next.calls[k].arguments);
    }
  }

  /** Which of the three errors is reported: the texts come before the number of
      calls, and a name before its arguments. */
  lemma DiffErrors(prev: Message, next: Message)
    requires Diffs(prev, next).Failure?
    ensures var e := Diffs(prev, next).error;
      if !TextsKept(prev, next) then e == InvalidDiff
      else if |next.calls| < |prev.calls| then e == FewerToolCalls
      else if !LastNameKept(prev, next) then e == ToolCallMismatch
      else e == InvalidDiff
  {
    TextDiffMeaning(prev.reasoning, next.reasoning);
    TextDiffMeaning(prev.content, next.content);
    var k := |prev.calls| - 1;
    if 0 <= k < |next.calls| {
      StringDiffMeaning(prev.calls[k].arguments, next.calls[k].arguments);
    }
  }

  /** The client's side: calls appear when first mentioned, and names and ids
      are replaced when a delta carries them. */
  function AddDiff(m: Message, d: Diff): Message {
    Message(m.content + d.content, m.reasoning + d.reasoning,
            if d.index.Some? then AddCall(m.calls, d.index.value, d.call) else m.calls)
  }

  function AddCall(calls: seq<ToolCall>, index: nat, d: ToolCall): (r: seq<ToolCall>)
    ensures |r| == if index < |calls| then |calls| else index + 1
  {
    var known := if index < |calls| then calls else calls + seq(index + 1 - |calls|, _ => NO_CALL);
    var t := known[index];
    known[index := ToolCall(if d.name != "" then d.name else t.name, t.arguments + d.arguments, if d.id != "" then d.id else t.id)]
  }

  function AddDiffs(m: Message, ds: seq<Diff>): Message
    decreases |ds|
  {
    if ds == [] then m else AddDiffs(AddDiff(m, ds[0]), ds[1..])
  }

  lemma {:induction false} AddDiffsAppend(m: Message, a: seq<Diff>, b: seq<Diff>)
    ensures AddDiffs(m, a + b) == AddDiffs(AddDiffs(m, a), b)
    decreases |a|
  {
    if a == [] {
      Seqs.AppendNothing(b, a);
    } else {
      Seqs.FirstOfAppend(a, b);
      AddDiffsAppend(AddDiff(m, a[0]), a[1..], b);
    }
  }

  /** A replaced name or id can be seen by the client unless it became empty. */
  predicate Replaceable(last: string, current: string) {
    current == last || current != ""
  }

  /** Of a text that grows or shrinks at its end the longer one is held. */
  predicate TextHeld(last: string, current: string, held: string) {
    (last <= current ==> held == current) && (current <= last ==> held == last)
  }

  /** A name or an id that has become empty is not taken back. */
  predicate CallHeld(last: ToolCall, current: ToolCall, held: ToolCall) {
    TextHeld(last.arguments, current.arguments, held.arguments) &&
    held.name == (if current.name != "" then current.name else last.name) &&
    held.id == if current.id != "" then current.id else last.id
  }

  predicate CallExtends(last: ToolCall, current: ToolCall) {
    last.arguments <= current.arguments && Replaceable(last.name, current.name) && Replaceable(last.id, current.id)
  }

  /** The later message only adds: to the texts, to the last call, and calls
      after it; calls before the last one are settled. */
  predicate Extends(prev: Message, next: Message) {
    prev.reasoning <= next.reasoning && prev.content <= next.content && |prev.calls| <= |next.calls| &&
    (forall i :: 0 <= i < |prev.calls| - 1 ==> prev.calls[i] == next.calls[i]) &&
    (prev.calls != [] ==> CallExtends(prev.calls[|prev.calls| - 1], next.calls[|prev.calls| - 1]))
  }

  lemma {:induction false} AddNewCalls(m: Message, calls: seq<ToolCall>, start: nat)
    requires start == |m.calls| <= |calls|
    ensures AddDiffs(m, NewCalls(calls, start)) == m.(calls := m.calls + calls[start..])
    decreases |calls| - start
  {
    if start == |calls| {
      assert m.calls + calls[start..] == m.calls;
    } else {
      var d := Diff("", "", Some(start), calls[start]);
      var rest := NewCalls(calls, start + 1);
      var next := AddDiff(m, d);
      Seqs.AppendNothing(m.content, "");
      Seqs.AppendNothing(m.reasoning, "");
      Seqs.AppendNothing(calls[start].arguments, "");
      assert next == m.(calls := m.calls + [calls[start]]);
      AddNewCalls(next, calls, start + 1);
      Seqs.DropCons([d] + rest, 0);
      assert ([d] + rest)[1..] == rest;
      Seqs.DropCons(calls, start);
      Seqs.Associative(m.calls, [calls[start]], calls[start + 1..]);
    }
  }

  lemma AddTexts(prev: Message, next: Message, reasoning: string, content: string)
    requires TextDiff(prev.reasoning, next.reasoning) == Success(reasoning)
    requires TextDiff(prev.content, next.content) == Success(content)
    ensures AddDiffs(prev, Texts(prev, next, reasoning, content)) ==
      Message(prev.content + content, prev.reasoning + reasoning, prev.calls)
  {
    Seqs.AppendNothing(prev.content, "");
    Seqs.AppendNothing(prev.reasoning, "");
    var m := Message(prev.content, prev.reasoning + reasoning, prev.calls);
    var a := if prev.reasoning != next.reasoning then [Diff(reasoning, "", None, NO_CALL)] else [];
    var b := if prev.content != next.content then [Diff("", content, None, NO_CALL)] else [];
    AddDiffsAppend(prev, a, b);
    Seqs.AppendNothing(m.content, "");
    Seqs.AppendNothing(m.reasoning, "");
    assert AddDiffs(prev, a) == m by {
      if a != [] { assert AddDiffs(prev, a) == AddDiffs(AddDiff(prev, a[0]), []); }
    }
    assert AddDiffs(m, b) == m.(content := m.content + content) by {
      if b != [] { assert AddDiffs(m, b) == AddDiffs(AddDiff(m, b[0]), []); }
    }
  }

  lemma AddLast(m: Message, current: ToolCall)
    requires m.calls != []
    requires LastCallDiff(m.calls[|m.calls| - 1], current, |m.calls| - 1).Success?
    ensures var k := |m.calls| - 1; var last := m.calls[k];
      var r := AddDiffs(m, LastCallDiff(last, current, k).value);
      r.content == m.content && r.reasoning == m.reasoning && |r.calls| == k + 1 && r.calls[..k] == m.calls[..k] &&
      CallHeld(last, current, r.calls[k])
  {
    var k := |m.calls| - 1;
    var last := m.calls[k];
    var ds := LastCallDiff(last, current, k).value;
    StringDiffMeaning(last.arguments, current.arguments);
    var args := StringDiff(last.arguments, current.arguments).value;
    Seqs.AppendNothing(m.content, "");
    Seqs.AppendNothing(m.reasoning, "");
    Seqs.AppendNothing(last.arguments, "");
    if ds != [] {
      assert AddDiffs(m, ds) == AddDiffs(AddDiff(m, ds[0]), []);
    }
  }

  /** Adding up the diff, whatever has changed: of each text the client holds the
      longer, calls before the last are as they were, new calls are all there. */
  lemma ClientHolds(prev: Message, next: Message)
    requires Diffs(prev, next).Success?
    ensures var r, n := AddDiffs(prev, Diffs(prev, next).value), |prev.calls|;
      TextHeld(prev.content, next.content, r.content) && TextHeld(prev.reasoning, next.reasoning, r.reasoning) &&
      n <= |r.calls| == |next.calls| && r.calls[n..] == next.calls[n..] &&
      (n > 0 ==>
        r.calls[..n - 1] == prev.calls[..n - 1] && CallHeld(prev.calls[n - 1], next.calls[n - 1], r.calls[n - 1]))
  {
    hide TextDiff, StringDiff, Texts, LastCallDiff, NewCalls, AddDiff, AddDiffs, CallHeld;
    var n := |prev.calls|;
    TextDiffMeaning(prev.reasoning, next.reasoning);
    TextDiffMeaning(prev.content, next.content);
    Seqs.AppendNothing(prev.reasoning, "");
    Seqs.AppendNothing(prev.content, "");
    var reasoning, content := TextDiff(prev.reasoning, next.reasoning).value, TextDiff(prev.content, next.content).value;
    var texts := Texts(prev, next, reasoning, content);
    var last := if n > 0 then LastCallDiff(prev.calls[n - 1], next.calls[n - 1], n - 1).value else [];
    AddDiffsAppend(prev, texts + last, NewCalls(next.calls, n));
    AddDiffsAppend(prev, texts, last);
    AddTexts(prev, next, reasoning, content);
    var m1 := Message(prev.content + content, prev.reasoning + reasoning, prev.calls);
    var m2 := AddDiffs(m1, last);
    if n > 0 { AddLast(m1, next.calls[n - 1]); } else { AddNothing(m1); }
    AddNewCalls(m2, next.calls, n);
    Seqs.Border(m2.calls, next.calls[n..]);
    if n > 0 {
      assert (m2.calls + next.calls[n..])[..n - 1] == m2.calls[..n - 1];
    }
  }

  /** Adding up the diff gives the later message exactly when that one extends
      the earlier. In the other cases that have a diff, something has shrunk or
      become empty, or a settled call has changed, and the client keeps the old. */
  lemma DiffsRebuild(prev: Message, next: Message)
    requires Diffs(prev, next).Success?
    ensures AddDiffs(prev, Diffs(prev, next).value) == next <==> Extends(prev, next)
  {
    hide Diffs, AddDiffs;
    var r, n := AddDiffs(prev, Diffs(prev, next).value), |prev.calls|;
    ClientHolds(prev, next);
    DiffsExist(prev, next);
    Seqs.Split(r.calls, n);
    SettledCalls(prev.calls, next.calls, r.calls[..n]);
  }

  /** Something is sent for each text and for the last call that differ, and for
      each new call: the reasoning first, the calls in order, nothing twice. */
  lemma DiffsSent(prev: Message, next: Message)
    requires Diffs(prev, next).Success?
    ensures var ds, n := Diffs(prev, next).value, |prev.calls|;
      var r := if prev.reasoning != next.reasoning then 1 else 0;
      var c := if prev.content != next.content then 1 else 0;
      var l := if n > 0 && CallDiffers(prev.calls[n - 1], next.calls[n - 1]) then 1 else 0;
      |ds| == r + c + l + |next.calls| - n &&
      (forall i :: 0 <= i < r ==> ds[i].index.None? && ds[i].content == "" && ds[i].call == ToolCall("", "", "")) &&
      (forall i :: r <= i < r + c ==> ds[i].index.None? && ds[i].reasoning == "" && ds[i].call == ToolCall("", "", "")) &&
      (forall i :: r + c <= i < |ds| ==>
        ds[i].index == Some(n - l + i - r - c) && ds[i].reasoning == "" && ds[i].content == "") &&
      (l == 1 ==> SentFor(prev.calls[n - 1], next.calls[n - 1], ds[r + c].call))
  {
    hide StringDiff, TextDiff, LastCallDiff, NewCalls;
    var n := |prev.calls|;
    if n > 0 {
      LastSent(prev.calls[n - 1], next.calls[n - 1], n - 1);
    }
    NewSent(next.calls, n);
  }

  /** The last call has something to send: a new name or id, or more arguments. */
  predicate CallDiffers(last: ToolCall, current: ToolCall) {
    last.name != current.name || last.id != current.id || last.arguments < current.arguments
  }

  /** Name and id are sent together, when one of them has changed. */
  predicate SentFor(last: ToolCall, current: ToolCall, sent: ToolCall) {
    var same := last.name == current.name && last.id == current.id;
    sent.name == (if same then "" else current.name) && sent.id == if same then "" else current.id
  }

  lemma LastSent(last: ToolCall, current: ToolCall, index: nat)
    requires LastCallDiff(last, current, index).Success?
    ensures var ds := LastCallDiff(last, current, index).value;
      |ds| == (if CallDiffers(last, current) then 1 else 0) &&
      (ds != [] ==>
        ds[0].index == Some(index) && ds[0].reasoning == "" && ds[0].content == "" && SentFor(last, current, ds[0].call))
  {
    StringDiffMeaning(last.arguments, current.arguments);
    Seqs.AppendNothing(last.arguments, "");
  }

  lemma {:induction false} NewSent(calls: seq<ToolCall>, start: nat)
    requires start <= |calls|
    ensures var ds := NewCalls(calls, start);
      |ds| == |calls| - start &&
      forall i :: 0 <= i < |ds| ==> ds[i].index == Some(start + i) && ds[i].reasoning == "" && ds[i].content == ""
    decreases |calls| - start
  {
    if start < |calls| {
      NewSent(calls, start + 1);
    }
  }

  lemma AddNothing(m: Message)
    ensures AddDiffs(m, []) == m
  {
  }

  /** The rebuilt calls are the later ones exactly when the settled ones agree
      and the last one has been completed. */
  lemma SettledCalls(prev: seq<ToolCall>, next: seq<ToolCall>, rebuilt: seq<ToolCall>)
    requires |rebuilt| == |prev| <= |next|
    requires prev != [] ==> rebuilt[..|prev| - 1] == prev[..|prev| - 1]
    ensures rebuilt + next[|prev|..] == next <==>
      (forall i :: 0 <= i < |prev| - 1 ==> prev[i] == next[i]) && (prev != [] ==> rebuilt[|prev| - 1] == next[|prev| - 1])
  {
    var n := |prev|;
    if n > 0 {
      assert forall i :: 0 <= i < n - 1 ==> rebuilt[i] == rebuilt[..n - 1][i] == prev[..n - 1][i] == prev[i];
    }
    if rebuilt + next[n..] == next {
      forall i | 0 <= i < n ensures rebuilt[i] == next[i] {
        assert (rebuilt + next[n..])[i] == rebuilt[i];
      }
    }
    if (forall i :: 0 <= i < n - 1 ==> prev[i] == next[i]) && (n > 0 ==> rebuilt[n - 1] == next[n - 1]) {
      assert rebuilt == next[..n];
      Seqs.Split(next, n);
    }
  }

  /** Ids are cached by position: one that was handed out stays. */
  function WithIds(calls: seq<ToolCall>, ids: seq<string>): (r: seq<ToolCall>)
    requires |calls| <= |ids|
    ensures |r| == |calls| && forall i :: 0 <= i < |r| ==> r[i] == calls[i].(id := ids[i])
  {
    seq(|calls|, i requires 0 <= i < |calls| => calls[i].(id := ids[i]))
  }

  /** generated holds what the generator of ids would return for each position. */
  method SetToolCallIds(calls: seq<ToolCall>, ids: seq<string>, generated: seq<string>)
    returns (named: seq<ToolCall>, cache: seq<string>)
    requires |calls| <= |generated|
    ensures ids <= cache && |cache| == if |ids| < |calls| then |calls| else |ids|
    ensures named == WithIds(calls, cache)
    ensures forall i :: |ids| <= i < |cache| ==> cache[i] == if calls[i].id != "" then calls[i].id else generated[i]
  {
    named, cache := calls, ids;
    var i := 0;
    while i < |calls|
      invariant i <= |calls| == |named| && ids <= cache && |cache| == if |ids| < i then i else |ids|
      invariant forall k :: 0 <= k < i ==> named[k] == calls[k].(id := cache[k])
      invariant forall k :: i <= k < |calls| ==> named[k] == calls[k]
      invariant forall k :: |ids| <= k < |cache| ==> cache[k] == if calls[k].id != "" then calls[k].id else generated[k]
    {
      if |cache| <= i {
        var id := named[i].id;
        if id == "" {
          id := generated[i];
        }
        cache := cache + [id];
      }
      named := named[i := named[i].(id := cache[i])];
      i := i + 1;
    }
  }

  /** Adding up the diffs between successive messages. */
  function AddChain(start: Message, ms: seq<Message>): Result<Message, DiffError>
    decreases |ms|
  {
    if ms == [] then Success(start)
    else
      var d := Diffs(start, ms[0]);
      if d.Failure? then Failure(d.error) else AddChain(AddDiffs(start, d.value), ms[1..])
  }

  /** The next message extends this one; a name may have appeared or grown. */
  predicate Continues(prev: Message, next: Message) {
    Diffable(prev, next) && Extends(prev, next)
  }

  /** A client that sees only diffs ends up with the last message. */
  lemma {:induction false} ChainRebuilds(start: Message, ms: seq<Message>)
    requires ms != [] ==> Continues(start, ms[0])
    requires forall i :: 0 <= i < |ms| - 1 ==> Continues(ms[i], ms[i + 1])
    ensures AddChain(start, ms) == Success(if ms == [] then start else ms[|ms| - 1])
    decreases |ms|
  {
    hide Diffs, AddDiffs, Extends, Diffable;
    if ms != [] {
      DiffsExist(start, ms[0]);
      DiffsRebuild(start, ms[0]);
      if |ms| > 1 {
        assert ms[1..][0] == ms[1];
        forall i | 0 <= i < |ms[1..]| - 1 ensures Continues(ms[1..][i], ms[1..][i + 1]) {
          assert ms[1..][i] == ms[i + 1] && ms[1..][i + 1] == ms[i + 2];
        }
      }
      ChainRebuilds(ms[0], ms[1..]);
    }
  }
}
