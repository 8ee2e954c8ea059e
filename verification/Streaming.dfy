/** Streaming: the message of a shorter cut of an event stream only grows into
    the message of a longer one, and finished calls are complete JSON objects. */
module Streaming {
  import Seqs
  import Quotes
  import opened Wrappers
  import opened JsonText
  import opened ToolCalls
  import opened MessageDiff

  /** One call has grown into another: same name, and arguments only added to. */
  predicate CallGrows(a: ToolCall, b: ToolCall) {
    a.name == b.name && a.arguments <= b.arguments
  }

  predicate CallsGrow(a: seq<ToolCall>, b: seq<ToolCall>) {
    |a| <= |b| &&
    forall i :: 0 <= i < |a| ==> CallGrows(a[i], b[i]) && (i < |a| - 1 ==> a[i].arguments == b[i].arguments)
  }

  /** Ids aside, nothing was taken back, and only the last call was touched. */
  predicate Grows(a: Message, b: Message) {
    a.reasoning <= b.reasoning && a.content <= b.content && CallsGrow(a.calls, b.calls)
  }

  lemma GrowsTransitive(a: Message, b: Message, c: Message)
    requires Grows(a, b) && Grows(b, c)
    ensures Grows(a, c)
  {
  }

  /** Unnamed calls are pending, visible ones have names. */
  predicate Settled(s: State) {
    s.Valid() && (s.pending.Some? ==> s.pending.value.name == "") &&
    (s.current.Last? ==> s.calls[|s.calls| - 1].name != "")
  }

  /** What the grammars keep to: a call is named once and not with blanks only,
      whole arguments come before any others, an argument has one string value. */
  predicate Orderly(s: State, e: Event)
    requires s.Valid()
  {
    s.HasTool() ==>
      match e
      case ToolName(t) => s.current.Pending? && TrimTrailing(t) != ""
      case ToolArgs(t) => s.ArgsTarget() == "" || s.ArgsTarget() == "{"
      case ArgString(t) => !s.closingQuote
      case _ => true
  }

  lemma BlankPrefix(a: string, b: string)
    requires a <= b
    ensures (if IsBlank(a) then "" else a) <= (if IsBlank(b) then "" else b)
  {
    if !IsBlank(a) {
      var c :| c in a && c !in " \n\r\t";
      assert c in b;
    }
  }

  lemma LastCallGrows(calls: seq<ToolCall>, t: ToolCall)
    requires calls != [] && CallGrows(calls[|calls| - 1], t)
    ensures CallsGrow(calls, calls[..|calls| - 1] + [t])
  {
    var n := |calls| - 1;
    Seqs.Border(calls[..n], [t]);
    forall i | 0 <= i < n ensures (calls[..n] + [t])[i] == calls[i] {
      assert (calls[..n] + [t])[i] == calls[..n][i];
    }
    assert (calls[..n] + [t])[n] == t;
  }

  lemma ShownCalls(s: State)
    requires s.pending.Some? ==> s.pending.value.name == ""
    ensures Visible(s).calls == s.calls
  {
    Seqs.AppendNothing(s.calls, Flushed(s));
  }

  /** The last call is rewritten and nothing else. */
  lemma LastGrows(s: State, r: State, t: ToolCall)
    requires Settled(s) && s.current.Last? && CallGrows(s.Tool(), t)
    requires r.calls == s.calls[..|s.calls| - 1] + [t] && r.content == s.content && r.reasoning == s.reasoning
    requires r.pending == s.pending
    ensures Grows(Visible(s), Visible(r))
  {
    hide IsBlank, CallsGrow, CallGrows;
    ShownCalls(s);
    ShownCalls(r);
    LastCallGrows(s.calls, t);
  }

  /** States that differ in hidden parts only show the same message. */
  predicate SameView(s: State, r: State) {
    r.content == s.content && r.reasoning == s.reasoning && r.calls == s.calls &&
    r.pending == s.pending && r.current == s.current
  }

  /** Setting the arguments to something longer shows on a named call, and
      waits in the buffer of one without a name. */
  lemma TargetGrows(s: State, q: State, text: string)
    requires Settled(s) && s.HasTool() && SameView(s, q) && q.buffer == s.buffer && s.ArgsTarget() <= text
    ensures var r := q.WithTarget(text); Settled(r) && Grows(Visible(s), Visible(r))
  {
    var r := q.WithTarget(text);
    if s.current.Last? {
      LastGrows(s, r, s.Tool().(arguments := text));
    } else {
      Seqs.AppendNothing(s.calls, Flushed(s));
      Seqs.AppendNothing(r.calls, Flushed(r));
    }
  }

  lemma ViewGrows(s: State, r: State)
    requires Settled(s) && (r.pending.Some? ==> r.pending.value.name == "")
    requires s.content <= r.content && s.reasoning <= r.reasoning && r.calls == s.calls
    ensures Grows(Visible(s), Visible(r))
  {
    BlankPrefix(s.reasoning, r.reasoning);
    Seqs.AppendNothing(s.calls, Flushed(s));
    Seqs.AppendNothing(r.calls, Flushed(r));
  }

  lemma NameGrows(s: State, text: string)
    requires Settled(s) && s.current.Pending? && TrimTrailing(text) != ""
    ensures var r := Named(s, TrimTrailing(text)); Settled(r) && Grows(Visible(s), Visible(r))
  {
    var r := Named(s, TrimTrailing(text));
    Seqs.AppendNothing(s.calls, Flushed(s));
    Seqs.AppendNothing(r.calls, Flushed(r));
  }

  lemma CloseGrows(s: State)
    requires Settled(s) && s.HasTool()
    ensures var r := Closed(s); Settled(r) && Grows(Visible(s), Visible(r))
  {
    hide CountAll, Closers;
    var r := Closed(s);
    if s.current.Last? {
      LastGrows(s, r, r.Tool());
    } else {
      ViewGrows(s, r);
    }
  }

  lemma IdGrows(s: State, id: string)
    requires Settled(s) && s.HasTool()
    ensures var r := s.WithTool(s.Tool().(id := id)); Settled(r) && Grows(Visible(s), Visible(r))
  {
    var r := s.WithTool(s.Tool().(id := id));
    if s.current.Last? {
      LastGrows(s, r, s.Tool().(id := id));
    } else {
      ViewGrows(s, r);
    }
  }

  lemma AppendGrows(s: State, q: State, text: string)
    requires Settled(s) && s.HasTool() && SameView(s, q) && q.buffer == s.buffer
    ensures var r := q.Append(text); Settled(r) && Grows(Visible(s), Visible(r))
  {
    TargetGrows(s, q, s.ArgsTarget() + text);
  }

  /** An orderly event takes nothing back. */
  lemma StepGrows(s: State, e: Event)
    requires Settled(s) && Orderly(s, e)
    ensures Settled(Apply(s, e)) && Grows(Visible(s), Visible(Apply(s, e)))
  {
    hide Visible, Grows, Escape, TrimTrailing, Trim, Named, Closed, CountAll, Closers;
    var r := Apply(s, e);
    match e
    case Reasoning(t) => ViewGrows(s, r);
    case Content(t) => ViewGrows(s, r);
    case ToolOpen => ViewGrows(s, r);
    case ArgOpen => ViewGrows(s, r);
    case ToolId(t) => if s.HasTool() { IdGrows(s, Unquote(TrimTrailing(t))); } else { ViewGrows(s, r); }
    case ToolName(t) => if s.HasTool() { NameGrows(s, t); } else { ViewGrows(s, r); }
    case ToolArgs(t) =>
      var text := TrimTrailing(t);
      if s.HasTool() && text != "" && text[0] == '{' { TargetGrows(s, s, text); } else { ViewGrows(s, r); }
    case ArgName(t) =>
      if s.HasTool() {
        var entry := (if s.argCount > 0 then "," else "") + Quoted(Trim(t)) + ":";
        TargetGrows(s, s.(argCount := s.argCount + 1), (if s.ArgsTarget() == "" then "{" else s.ArgsTarget()) + entry);
      } else {
        ViewGrows(s, r);
      }
    case ArgValue(t) => if s.HasTool() { AppendGrows(s, s, Quotes.Normalize(t)); } else { ViewGrows(s, r); }
    case ArgString(t) =>
      if s.HasTool() {
        AppendGrows(s, s.(closingQuote := true), if t == "" then [QUOTE] else (if s.closingQuote then "" else [QUOTE]) + Escape(t));
      } else {
        ViewGrows(s, r);
      }
    case ArgClose => if s.HasTool() && s.closingQuote { AppendGrows(s, s.(closingQuote := false), [QUOTE]); } else { ViewGrows(s, r); }
    case ToolClose => if s.HasTool() { CloseGrows(s); } else { ViewGrows(s, r); }
  }

  lemma PairGrows(s: State, q: State, r: State, shorter: string, longer: string)
    requires Settled(s) && s.HasTool() && SameView(s, q) && SameView(s, r) && q.buffer == r.buffer == s.buffer
    requires shorter <= longer
    ensures Grows(Visible(q.WithTarget(shorter)), Visible(r.WithTarget(longer)))
  {
    hide IsBlank;
    var a, b := q.WithTarget(shorter), r.WithTarget(longer);
    if s.current.Last? {
      Seqs.Border(s.calls[..|s.calls| - 1], [s.Tool().(arguments := shorter)]);
      LastGrows(a, b, b.Tool());
    } else {
      ViewGrows(a, b);
    }
  }

  /** The events whose node is visited while its text is still incomplete. */
  predicate IsPartial(e: Event) {
    e.Reasoning? || e.Content? || e.ToolArgs? || e.ArgValue? || e.ArgString?
  }

  function Truncated(e: Event, n: nat): (t: Event)
    requires IsPartial(e) && n <= |e.text|
    ensures IsPartial(t) && t.text == e.text[..n] && (n == |e.text| ==> t == e)
  {
    var text := e.text[..n];
    if n == |e.text| then e else
    match e
    case Reasoning(_) => Reasoning(text)
    case Content(_) => Content(text)
    case ToolArgs(_) => ToolArgs(text)
    case ArgValue(_) => ArgValue(text)
    case ArgString(_) => ArgString(text)
  }

  /** Cutting a non-string value at n and later at m: only here can the text
      already written depend on what follows. */
  predicate SafePair(e: Event, n: nat, m: nat)
    requires IsPartial(e) && n <= m <= |e.text|
  {
    e.ArgValue? ==> Quotes.SafeCut(Quotes.CutAfter(e.text[..n], Quotes.Outside, false), e.text[n..m])
  }

  lemma {:induction false} TrimTrailingGrows(a: string, b: string)
    requires a <= b
    ensures TrimTrailing(a) <= TrimTrailing(b)
    decreases |b|
  {
    if b != "" && IsSpace(b[|b| - 1]) {
      if |a| == |b| {
        assert a == b;
      } else {
        TrimTrailingGrows(a, b[..|b| - 1]);
      }
    }
  }

  lemma EscapeGrows(t: string, n: nat, m: nat)
    requires n <= m <= |t|
    ensures Escape(t[..n]) <= Escape(t[..m])
  {
    EscapeAppend(t[..n], t[n..m]);
    Seqs.TakeSlice(t, n, m);
  }

  lemma NormalizeGrows(t: string, n: nat, m: nat)
    requires n <= m <= |t|
    ensures Quotes.Normalize(t[..n]) <= Quotes.Normalize(t[..m]) <==>
      Quotes.SafeCut(Quotes.CutAfter(t[..n], Quotes.Outside, false), t[n..m])
    ensures Quotes.Normalize(t[..m]) <= Quotes.Normalize(t[..n]) ==>
      Quotes.SafeCut(Quotes.CutAfter(t[..n], Quotes.Outside, false), t[n..m])
  {
    Quotes.GrowsExactlyAtSafeCuts(t[..n], t[n..m], Quotes.Outside, false);
    Seqs.TakeSlice(t, n, m);
  }

  lemma OrderlyTruncated(s: State, e: Event, n: nat)
    requires s.Valid() && IsPartial(e) && n <= |e.text| && Orderly(s, e)
    ensures Orderly(s, Truncated(e, n))
  {
  }

  /** The same event cut earlier and later. */
  lemma TruncatedGrows(s: State, e: Event, n: nat, m: nat)
    requires Settled(s) && IsPartial(e) && n <= m <= |e.text| && Orderly(s, e) && SafePair(e, n, m)
    ensures Grows(Visible(Apply(s, Truncated(e, n))), Visible(Apply(s, Truncated(e, m))))
  {
    hide Visible, Grows, Escape, TrimTrailing, Orderly;
    var a, b := Truncated(e, n), Truncated(e, m);
    var q, r := Apply(s, a), Apply(s, b);
    assert a.text <= b.text;
    OrderlyTruncated(s, e, n);
    OrderlyTruncated(s, e, m);
    StepGrows(s, a);
    StepGrows(s, b);
    match e
    case Reasoning(t) => ViewGrows(q, r);
    case Content(t) => ViewGrows(q, r);
    case ToolArgs(t) => ArgsTruncated(s, a.text, b.text);
    case ArgValue(t) =>
      if s.HasTool() {
        NormalizeGrows(t, n, m);
        assert s.ArgsTarget() + Quotes.Normalize(a.text) <= s.ArgsTarget() + Quotes.Normalize(b.text);
        PairGrows(s, s, s, s.ArgsTarget() + Quotes.Normalize(a.text), s.ArgsTarget() + Quotes.Normalize(b.text));
      } else {
        ViewGrows(q, r);
      }
    case ArgString(t) =>
      if s.HasTool() {
        EscapeGrows(t, n, m);
        StringTruncated(s, a.text, b.text);
      } else {
        ViewGrows(q, r);
      }
  }

  lemma ArgsTruncated(s: State, a: string, b: string)
    requires Settled(s) && a <= b && Orderly(s, ToolArgs(b))
    ensures Grows(Visible(Apply(s, ToolArgs(a))), Visible(Apply(s, ToolArgs(b))))
  {
    hide Visible, Grows, TrimTrailing;
    TrimTrailingGrows(a, b);
    var shorter, longer := TrimTrailing(a), TrimTrailing(b);
    if s.HasTool() && shorter != "" && shorter[0] == '{' {
      PairGrows(s, s, s, shorter, longer);
    } else {
      StepGrows(s, ToolArgs(b));
    }
  }

  lemma StringTruncated(s: State, a: string, b: string)
    requires Settled(s) && s.HasTool() && !s.closingQuote && a <= b && Escape(a) <= Escape(b)
    ensures Grows(Visible(Apply(s, ArgString(a))), Visible(Apply(s, ArgString(b))))
  {
    hide Visible, Grows, Escape;
    var q := s.(closingQuote := true);
    var x, y := if a == "" then [QUOTE] else [QUOTE] + Escape(a), if b == "" then [QUOTE] else [QUOTE] + Escape(b);
    assert s.ArgsTarget() + x <= s.ArgsTarget() + y;
    PairGrows(s, q, q, s.ArgsTarget() + x, s.ArgsTarget() + y);
  }

  lemma GrowsDiffable(a: Message, b: Message)
    requires Grows(a, b)
    ensures Diffable(a, b)
  {
  }

  /** On a visible call, cutting a non-string value takes nothing back exactly
      when the cut is safe; otherwise the diff fails. */
  lemma ValueCutsExactly(s: State, text: string, n: nat, m: nat)
    requires Settled(s) && s.current.Last? && n <= m <= |text|
    ensures Grows(Visible(Apply(s, ArgValue(text[..n]))), Visible(Apply(s, ArgValue(text[..m])))) <==>
      SafePair(ArgValue(text), n, m)
    ensures Diffs(Visible(Apply(s, ArgValue(text[..n]))), Visible(Apply(s, ArgValue(text[..m])))).Success? <==>
      SafePair(ArgValue(text), n, m)
  {
    hide IsBlank, Diffs, Visible, Quotes.Normalize, Quotes.SafeCut, Quotes.CutAfter;
    var e := ArgValue(text);
    var before, after := Apply(s, ArgValue(text[..n])), Apply(s, ArgValue(text[..m]));
    NormalizeGrows(text, n, m);
    DiffsExist(Visible(before), Visible(after));
    if SafePair(e, n, m) {
      TruncatedGrows(s, e, n, m);
      GrowsDiffable(Visible(before), Visible(after));
    } else {
      var x, y := Quotes.Normalize(text[..n]), Quotes.Normalize(text[..m]);
      Quotes.PrefixUnder(s.ArgsTarget(), x, y);
      Quotes.PrefixUnder(s.ArgsTarget(), y, x);
      LastCallSeen(before);
      LastCallSeen(after);
    }
  }

  lemma LastCallSeen(s: State)
    requires Settled(s) && s.current.Last?
    ensures |Visible(s).calls| == |s.calls| && Visible(s).calls[|s.calls| - 1] == s.Tool()
  {
  }

  /** A second string value in the same argument is where a cut can go wrong:
      before its first character a quote is written that does not stay, and the
      diff fails. */
  lemma SecondStringBreaks(s: State, text: string)
    requires Settled(s) && s.current.Last? && text != ""
    ensures Grows(Visible(Apply(s, ArgString(""))), Visible(Apply(s, ArgString(text)))) <==> !s.closingQuote
    ensures Diffs(Visible(Apply(s, ArgString(""))), Visible(Apply(s, ArgString(text)))).Success? <==> !s.closingQuote
  {
    hide IsBlank, Escape, Diffs, Visible;
    var before, after := Apply(s, ArgString("")), Apply(s, ArgString(text));
    DiffsExist(Visible(before), Visible(after));
    if s.closingQuote {
      LastCallSeen(before);
      LastCallSeen(after);
      QuoteDoesNotStay(s.ArgsTarget(), text);
    } else {
      assert Escape("") <= Escape(text) by { NothingEscaped(); }
      StringTruncated(s, "", text);
      GrowsDiffable(Visible(before), Visible(after));
    }
  }

  lemma NothingEscaped()
    ensures Escape("") == ""
  {
  }

  lemma QuoteDoesNotStay(args: string, text: string)
    requires text != ""
    ensures !Comparable(args + [QUOTE], args + ("" + Escape(text)))
  {
    Seqs.AppendNothing(Escape(text), "");
    Quotes.PrefixUnder(args, [QUOTE], Escape(text));
    Quotes.PrefixUnder(args, Escape(text), [QUOTE]);
    Seqs.FirstOfAppend(EscapeChar(text[0]), Escape(text[1..]));
    assert EscapeChar(text[0])[0] != QUOTE;
  }

  predicate OrderlyRun(s: State, es: seq<Event>)
    requires s.Valid()
    decreases |es|
  {
    es == [] || (Orderly(s, es[0]) && OrderlyRun(Apply(s, es[0]), es[1..]))
  }

  lemma {:induction false} ApplyAppend(s: State, a: seq<Event>, b: seq<Event>)
    requires s.Valid()
    ensures ApplyAll(s, a + b) == ApplyAll(ApplyAll(s, a), b)
    ensures OrderlyRun(s, a + b) <==> OrderlyRun(s, a) && OrderlyRun(ApplyAll(s, a), b)
    decreases |a|
  {
    hide Apply, Orderly;
    if a == [] {
      Seqs.AppendNothing(b, a);
    } else {
      Seqs.FirstOfAppend(a, b);
      ApplyAppend(Apply(s, a[0]), a[1..], b);
    }
  }

  lemma {:induction false} RunGrows(s: State, es: seq<Event>)
    requires Settled(s) && OrderlyRun(s, es)
    ensures Settled(ApplyAll(s, es)) && Grows(Visible(s), Visible(ApplyAll(s, es)))
    decreases |es|
  {
    hide Apply, Orderly, Visible;
    if es != [] {
      StepGrows(s, es[0]);
      RunGrows(Apply(s, es[0]), es[1..]);
      GrowsTransitive(Visible(s), Visible(Apply(s, es[0])), Visible(ApplyAll(s, es)));
    }
  }

  lemma PendingUnnamed(s: State, e: Event)
    requires s.Valid() && (s.pending.Some? ==> s.pending.value.name == "")
    ensures Apply(s, e).pending.Some? ==> Apply(s, e).pending.value.name == ""
  {
    hide CountAll, Closers, Escape, TrimTrailing, Trim, Unquote;
  }

  /** No stream of events, orderly or not, ends with a named call still pending:
      what is handed out at the end are the calls collected on the way. */
  lemma {:induction false} NeverFlushed(s: State, es: seq<Event>)
    requires s.Valid() && (s.pending.Some? ==> s.pending.value.name == "")
    ensures Visible(ApplyAll(s, es)).calls == ApplyAll(s, es).calls
    decreases |es|
  {
    hide Apply;
    if es == [] {
      ShownCalls(s);
    } else {
      PendingUnnamed(s, es[0]);
      NeverFlushed(Apply(s, es[0]), es[1..]);
    }
  }

  /** A place to cut a stream: after some whole events, or within the next one. */
  datatype Cut = Cut(whole: nat, chars: Option<nat>)

  predicate IsCut(es: seq<Event>, c: Cut) {
    c.whole <= |es| &&
    (c.chars.Some? ==> c.whole < |es| && IsPartial(es[c.whole]) && c.chars.value <= |es[c.whole].text|)
  }

  function StateAt(es: seq<Event>, c: Cut): (s: State)
    requires IsCut(es, c)
    ensures s.Valid()
  {
    var s := ApplyAll(INITIAL, es[..c.whole]);
    if c.chars.None? then s else Apply(s, Truncated(es[c.whole], c.chars.value))
  }

  function MessageAt(es: seq<Event>, c: Cut): Message
    requires IsCut(es, c)
  {
    Visible(StateAt(es, c))
  }

  predicate Earlier(c: Cut, d: Cut) {
    c.whole < d.whole ||
    (c.whole == d.whole && (c.chars.None? || (d.chars.Some? && c.chars.value <= d.chars.value)))
  }

  /** If the earlier cut lies in a non-string value, it is a safe one. */
  predicate SafeCuts(es: seq<Event>, c: Cut, d: Cut)
    requires IsCut(es, c) && IsCut(es, d) && Earlier(c, d)
  {
    c.chars.Some? ==>
      SafePair(es[c.whole], c.chars.value, if c.whole == d.whole then d.chars.value else |es[c.whole].text|)
  }

  /** Any earlier cut of an orderly stream grows into any later one. */
  lemma CutsGrow(es: seq<Event>, c: Cut, d: Cut)
    requires OrderlyRun(INITIAL, es) && IsCut(es, c) && IsCut(es, d) && Earlier(c, d) && SafeCuts(es, c, d)
    ensures Grows(MessageAt(es, c), MessageAt(es, d))
  {
    hide Apply, Orderly, Visible, Settled, Grows;
    var s := ApplyAll(INITIAL, es[..c.whole]);
    SplitRun(es, c.whole);
    assert Settled(INITIAL) by { InitialSettled(); }
    RunGrows(INITIAL, es[..c.whole]);
    if c.whole == d.whole {
      if c.chars.Some? {
        TruncatedGrows(s, es[c.whole], c.chars.value, d.chars.value);
      } else if d.chars.Some? {
        CutGrowsFromEvent(s, es[c.whole], d.chars.value);
      } else {
        SameGrows(MessageAt(es, c));
      }
    } else {
      GrowsToEvent(es, c);
      var after := Cut(c.whole + 1, None);
      WholeGrows(es, c.whole + 1, d.whole);
      GrowsTransitive(MessageAt(es, c), MessageAt(es, after), MessageAt(es, Cut(d.whole, None)));
      if d.chars.Some? {
        SplitRun(es, d.whole);
        RunGrows(INITIAL, es[..d.whole]);
        CutGrowsFromEvent(ApplyAll(INITIAL, es[..d.whole]), es[d.whole], d.chars.value);
        GrowsTransitive(MessageAt(es, c), MessageAt(es, Cut(d.whole, None)), MessageAt(es, d));
      }
    }
  }

  lemma InitialSettled()
    ensures Settled(INITIAL)
  {
  }

  lemma SameGrows(m: Message)
    ensures Grows(m, m)
  {
  }

  lemma SplitRun(es: seq<Event>, k: nat)
    requires OrderlyRun(INITIAL, es) && k <= |es|
    ensures OrderlyRun(INITIAL, es[..k]) && OrderlyRun(ApplyAll(INITIAL, es[..k]), es[k..])
    ensures k < |es| ==> Orderly(ApplyAll(INITIAL, es[..k]), es[k])
    ensures k < |es| ==> ApplyAll(INITIAL, es[..k + 1]) == Apply(ApplyAll(INITIAL, es[..k]), es[k])
  {
    hide Apply, Orderly;
    Seqs.Split(es, k);
    ApplyAppend(INITIAL, es[..k], es[k..]);
    if k < |es| {
      Seqs.DropCons(es, k);
      Seqs.TakeSnoc(es, k);
      ApplyAppend(INITIAL, es[..k], [es[k]]);
      OneEvent(ApplyAll(INITIAL, es[..k]), es[k]);
    }
  }

  lemma OneEvent(s: State, e: Event)
    requires s.Valid()
    ensures ApplyAll(s, [e]) == Apply(s, e)
  {
    assert [e][1..] == [];
  }

  lemma CutGrowsFromEvent(s: State, e: Event, n: nat)
    requires Settled(s) && Orderly(s, e) && IsPartial(e) && n <= |e.text|
    ensures Grows(Visible(s), Visible(Apply(s, Truncated(e, n))))
  {
    hide Apply, Orderly, Visible, Settled, Grows;
    assert s.Valid() by { SettledValid(s); }
    OrderlyTruncated(s, e, n);
    StepGrows(s, Truncated(e, n));
  }

  lemma SettledValid(s: State)
    requires Settled(s)
    ensures s.Valid()
  {
  }

  lemma WholeGrows(es: seq<Event>, i: nat, k: nat)
    requires OrderlyRun(INITIAL, es) && i <= k <= |es|
    ensures Grows(MessageAt(es, Cut(i, None)), MessageAt(es, Cut(k, None)))
  {
    hide Apply, Orderly, Visible, Settled, Grows, ApplyAll;
    SplitRun(es, i);
    SplitRun(es, k);
    Seqs.TakeSlice(es, i, k);
    ApplyAppend(INITIAL, es[..i], es[i..k]);
    assert Settled(INITIAL) by { InitialSettled(); }
    RunGrows(INITIAL, es[..i]);
    RunGrows(ApplyAll(INITIAL, es[..i]), es[i..k]);
  }

  lemma GrowsToEvent(es: seq<Event>, c: Cut)
    requires OrderlyRun(INITIAL, es) && IsCut(es, c) && c.whole < |es|
    requires c.chars.Some? ==> SafePair(es[c.whole], c.chars.value, |es[c.whole].text|)
    ensures Grows(MessageAt(es, c), MessageAt(es, Cut(c.whole + 1, None)))
  {
    hide Apply, Orderly, Visible, Settled, Grows;
    var s, e := ApplyAll(INITIAL, es[..c.whole]), es[c.whole];
    SplitRun(es, c.whole);
    assert Settled(INITIAL) by { InitialSettled(); }
    RunGrows(INITIAL, es[..c.whole]);
    if c.chars.Some? {
      TruncatedGrows(s, e, c.chars.value, |e.text|);
    } else {
      StepGrows(s, e);
    }
  }

  /** The message with the ids that the cache gives to its calls. */
  function Identified(m: Message, ids: seq<string>): Message
    requires |m.calls| <= |ids|
  {
    m.(calls := WithIds(m.calls, ids))
  }

  lemma IdentifiedExtends(a: Message, b: Message, ids: seq<string>, jds: seq<string>)
    requires Grows(a, b) && |a.calls| <= |ids| && |b.calls| <= |jds| && ids <= jds
    ensures Continues(Identified(a, ids), Identified(b, jds))
  {
  }

  /** The stream handed out at successive cuts, each with the id cache of its
      moment: no diff ever fails, and a client that adds the diffs up holds the
      last message. */
  lemma StreamRebuilds(es: seq<Event>, cuts: seq<Cut>, caches: seq<seq<string>>)
    requires OrderlyRun(INITIAL, es) && |caches| == |cuts| > 0
    requires forall i :: 0 <= i < |cuts| ==> IsCut(es, cuts[i]) && |MessageAt(es, cuts[i]).calls| <= |caches[i]|
    requires forall i :: 0 <= i < |cuts| - 1 ==>
      Earlier(cuts[i], cuts[i + 1]) && SafeCuts(es, cuts[i], cuts[i + 1]) && caches[i] <= caches[i + 1]
    ensures var ms := seq(|cuts|, i requires 0 <= i < |cuts| => Identified(MessageAt(es, cuts[i]), caches[i]));
      AddChain(EMPTY_MESSAGE, ms) == Success(ms[|cuts| - 1])
  {
    hide MessageAt, IsCut, Earlier, SafeCuts, OrderlyRun, Continues, Identified;
    var ms := seq(|cuts|, i requires 0 <= i < |cuts| => Identified(MessageAt(es, cuts[i]), caches[i]));
    forall i | 0 <= i < |ms| - 1 ensures Continues(ms[i], ms[i + 1]) {
      CutsGrow(es, cuts[i], cuts[i + 1]);
      IdentifiedExtends(MessageAt(es, cuts[i]), MessageAt(es, cuts[i + 1]), caches[i], caches[i + 1]);
    }
    FromNothing(ms[0]);
    ChainRebuilds(EMPTY_MESSAGE, ms);
  }

  lemma FromNothing(m: Message)
    ensures Continues(EMPTY_MESSAGE, m)
  {
  }
}
