/** Events that come twice, or in an unusual order: what each does to the tool call
    under way, whatever was mapped before. */
module StrayEvents {
  import Seqs
  import opened Wrappers
  import opened JsonText
  import opened ToolCalls
  import opened CompleteCalls

  /** A message with a tool call that has been shown, or one still without a name. */
  function Under(s: State, t: ToolCall, shown: bool): State {
    if shown then s.(calls := s.calls + [t], pending := None, current := Last)
    else s.(pending := Some(t), current := Pending)
  }

  lemma UnderTool(s: State, t: ToolCall, u: ToolCall, shown: bool)
    ensures var r := Under(s, t, shown); r.HasTool() && r.Tool() == t && r.WithTool(u) == Under(s, u, shown)
  {
    Seqs.Border(s.calls, [t]);
  }

  /** The last name counts. What was written before the first one becomes the
      arguments; a call that has arguments keeps them. */
  lemma NamedAgain(s: State, t: ToolCall, shown: bool, name: string, blank: string)
    requires !EndsWhite(name) && AllWhite(blank)
    ensures var args := if s.buffer != "" then s.buffer else if t.arguments != "" then t.arguments else "{";
      Under(s, t, shown).Valid() &&
      Apply(Under(s, t, shown), ToolName(name + blank)) == Under(s.(buffer := ""), ToolCall(name, args, t.id), true)
  {
    hide TrimTrailing;
    TrimmedExactly(name, blank);
    var args := if s.buffer != "" then s.buffer else if t.arguments != "" then t.arguments else "{";
    UnderTool(s, t, ToolCall(name, args, t.id), shown);
  }

  /** The last id counts, whether the call has its name or not. */
  lemma IdAgain(s: State, t: ToolCall, shown: bool, id: string, blank: string)
    requires AllWhite(blank)
    ensures Under(s, t, shown).Valid() &&
      Apply(Under(s, t, shown), ToolId("\"" + id + "\"" + blank)) == Under(s, t.(id := id), shown)
  {
    hide TrimTrailing;
    var quoted := "\"" + id + "\"";
    assert quoted[|quoted| - 1] == '"';
    TrimmedExactly(quoted, blank);
    UnquotedExactly(id);
    UnderTool(s, t, t.(id := id), shown);
  }

  /** A name of nothing but white space shows a call without a name. Whole arguments
      after it wait until the call is closed, and then they are its arguments. */
  lemma BlankName(s: State, name: string, text: string, blank: string)
    requires s.Valid() && AllWhite(name) && AllWhite(blank)
    requires text != "" && text[0] == '{' && !EndsWhite(text) && Balanced(text)
    ensures var named := ApplyAll(s, [ToolOpen, ToolName(name), ToolArgs(text + blank)]);
      named.Valid() && named.calls == s.calls + [ToolCall("", "{", "")] &&
      Apply(named, ToolClose).calls == s.calls + [ToolCall("", text, "")] && Apply(named, ToolClose).buffer == ""
  {
    hide TrimTrailing, CountAll;
    var o := Apply(s, ToolOpen);
    var args := ToolArgs(text + blank);
    assert o == Under(o, NO_CALL, false);
    Seqs.AppendNothing(name, "");
    NamedAgain(o, NO_CALL, false, "", name);
    var t := ToolCall("", "{", "");
    var q := Apply(o, ToolName(name));
    assert q == Under(o, t, true);
    TrimmedExactly(text, blank);
    UnderTool(o, t, t.(arguments := text), true);
    var r := Under(o.(buffer := text), t, true);
    assert Apply(q, args) == r;
    ThreeEvents(s, ToolOpen, ToolName(name), args);
    UnderTool(o.(buffer := text), t, t.(arguments := text), true);
    Seqs.AppendNothing(text, "");
    FewClosers();
    assert CountAll(START, text).depth == 0;
  }

  lemma ThreeEvents(s: State, a: Event, b: Event, c: Event)
    requires s.Valid()
    ensures ApplyAll(s, [a, b, c]) == Apply(Apply(Apply(s, a), b), c)
  {
    hide Apply;
    assert [a, b, c][1..] == [b, c] && [b, c][1..] == [c] && [c][1..] == [];
    NothingRuns(Apply(Apply(Apply(s, a), b), c));
    assert ApplyAll(Apply(Apply(s, a), b), [c]) == Apply(Apply(Apply(s, a), b), c);
    assert ApplyAll(Apply(s, a), [b, c]) == Apply(Apply(Apply(s, a), b), c);
  }

  /** Closing a call that has its name: the quote that is open, a brace for each that
      is open, and nothing else of the mapper changes. */
  lemma NamedCloses(s: State, t: ToolCall, depth: nat)
    requires t.name != "" && CountAll(START, t.arguments) == Braces(depth, s.closingQuote, false)
    ensures var braces := seq(depth, i => '}');
      var args := t.arguments + (if s.closingQuote then "\"" else "") + braces;
      Under(s, t, true).Valid() &&
      Apply(Under(s, t, true), ToolClose) == Under(s.(closingQuote := false), t.(arguments := args), true)
  {
    hide CountAll, Closers;
    var args := t.arguments + if s.closingQuote then [QUOTE] else "";
    assert CountAll(START, args) == START.(depth := depth) by {
      if s.closingQuote {
        CountAppend(START, t.arguments, [QUOTE]);
        QuoteCloses(depth);
      } else {
        Seqs.AppendNothing(t.arguments, "");
      }
    }
    assert Closers(depth) == seq(depth, i => '}') by {
      forall i | 0 <= i < depth ensures Closers(depth)[i] == '}' {
        assert Closers(depth)[i] in Closers(depth);
      }
    }
    UnderTool(s, t, t.(arguments := args + Closers(depth)), true);
  }

  /** A call that never got a name is dropped when it is closed, and nothing of it
      is left for the next one. */
  lemma NeverNamed(s: State, args: string, id: string)
    requires s.Valid()
    ensures var u := Under(s, ToolCall("", args, id), false);
      u.Valid() && Apply(u, ToolClose) == s.(pending := None, current := NoTool, buffer := "", closingQuote := false)
  {
    hide CountAll, Closers;
    var t := ToolCall("", args, id);
    UnderTool(s, t, t, false);
  }

  /** Outside of any call the events of a call change no text and no call. */
  lemma OutsideCalls(s: State, e: Event)
    requires s.Valid() && s.current.NoTool? && !e.Reasoning? && !e.Content? && !e.ToolOpen?
    ensures Apply(s, e) == if e.ArgOpen? then s.(closingQuote := false) else s
  {
    hide Named, Closed;
  }

  /** What is handed out of a named call that still waits: the buffered arguments
      if there are any, with the quote that is known to be open. */
  lemma WaitingIsShown(s: State, t: ToolCall)
    requires s.Valid() && t.name != ""
    ensures var calls := Visible(Under(s, t, false)).calls;
      |calls| == |s.calls| + 1 && calls[..|s.calls|] == s.calls &&
      calls[|s.calls|].name == t.name && calls[|s.calls|].id == t.id
    ensures var shown := Visible(Under(s, t, false)).calls[|s.calls|].arguments;
      (s.buffer == "" && !s.closingQuote ==> shown == t.arguments) &&
      (s.buffer == "" && s.closingQuote && t.arguments != "" ==> shown == t.arguments + "\"") &&
      (s.buffer == "" && t.arguments == "" ==> shown == "") &&
      (s.buffer != "" && !s.closingQuote ==> shown == s.buffer) &&
      (s.buffer != "" && s.closingQuote ==> shown == s.buffer + "\"")
  {
    hide IsBlank;
    var u := Under(s, t, false);
    assert |Flushed(u)| == 1;
    Seqs.Border(s.calls, Flushed(u));
  }
}
