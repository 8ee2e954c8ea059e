/** Whole tool calls as the grammars emit them, and what the mapper makes of them. */
module CompleteCalls {
  import Seqs
  import Quotes
  import MessageDiff
  import opened Wrappers
  import opened JsonText
  import opened ToolCalls
  import opened Streaming

  datatype Arg = StringArg(name: string, value: string) | OtherArg(name: string, value: string)

  /** The name may come before, between or after the arguments. */
  datatype Call = Call(name: string, id: Option<string>, before: seq<Arg>, after: seq<Arg>)

  function ValueEvent(a: Arg): Event {
    if a.StringArg? then ArgString(a.value) else ArgValue(a.value)
  }

  function ArgEvents(args: seq<Arg>): seq<Event> {
    if args == [] then []
    else [ArgOpen, ArgName(args[0].name), ValueEvent(args[0]), ArgClose] + ArgEvents(args[1..])
  }

  function NameEvents(name: string, id: Option<string>): seq<Event> {
    [ToolName(name)] + if id.Some? then [ToolId(id.value)] else []
  }

  function CallEvents(c: Call): seq<Event> {
    [ToolOpen] + (ArgEvents(c.before) + (NameEvents(c.name, c.id) + (ArgEvents(c.after) + [ToolClose])))
  }

  function ValueText(a: Arg): string {
    if a.StringArg? then Quoted(a.value) else Quotes.Normalize(a.value)
  }

  function Entry(a: Arg): string {
    Quoted(Trim(a.name)) + ":" + ValueText(a)
  }

  /** The entries of an object, of which some have been written already. */
  function Listed(args: seq<Arg>, written: nat): string
    decreases |args|
  {
    if args == [] then ""
    else (if written > 0 then "," else "") + Entry(args[0]) + Listed(args[1..], written + 1)
  }

  lemma {:induction false} ListedAppend(a: seq<Arg>, b: seq<Arg>, written: nat)
    ensures Listed(a + b, written) == Listed(a, written) + Listed(b, written + |a|)
    decreases |a|
  {
    hide Entry;
    if a == [] {
      Seqs.AppendNothing(b, a);
      Seqs.AppendNothing(Listed(b, written), Listed(a, written));
    } else {
      Seqs.FirstOfAppend(a, b);
      ListedAppend(a[1..], b, written + 1);
      var first := (if written > 0 then "," else "") + Entry(a[0]);
      Seqs.Associative(first, Listed(a[1..], written + 1), Listed(b, written + |a|));
    }
  }

  /** Outside any string of its own: no brace and no quote is left open. */
  predicate Balanced(text: string) {
    CountAll(START, text) == START
  }

  predicate BalancedArgs(args: seq<Arg>) {
    forall i :: 0 <= i < |args| && args[i].OtherArg? ==> Balanced(Quotes.Normalize(args[i].value))
  }

  lemma {:induction false} CountShift(b: Braces, k: int, text: string)
    ensures CountAll(b.(depth := b.depth + k), text) == (var r := CountAll(b, text); r.(depth := r.depth + k))
    decreases |text|
  {
    if text != "" {
      CountShift(Count(b, text[0]), k, text[1..]);
    }
  }

  lemma EntryIsInert(b: Braces, a: Arg)
    requires !b.inString && !b.escaped && (a.OtherArg? ==> Balanced(Quotes.Normalize(a.value)))
    ensures CountAll(b, Entry(a)) == b
  {
    hide Escape, Trim;
    LiteralIsInert(b, Trim(a.name));
    CountAppend(b, Quoted(Trim(a.name)), ":");
    CountAppend(b, Quoted(Trim(a.name)) + ":", ValueText(a));
    assert CountAll(b, ":") == b;
    if a.StringArg? {
      LiteralIsInert(b, a.value);
    } else {
      CountShift(START, b.depth, Quotes.Normalize(a.value));
    }
  }

  lemma {:induction false} ListedIsInert(b: Braces, args: seq<Arg>, written: nat)
    requires !b.inString && !b.escaped && BalancedArgs(args)
    ensures CountAll(b, Listed(args, written)) == b
    decreases |args|
  {
    hide Entry;
    if args != [] {
      var comma := if written > 0 then "," else "";
      CountAppend(b, comma + Entry(args[0]), Listed(args[1..], written + 1));
      CountAppend(b, comma, Entry(args[0]));
      assert CountAll(b, comma) == b;
      EntryIsInert(b, args[0]);
      ListedIsInert(b, args[1..], written + 1);
    }
  }

  /** A state with the arguments, the count and the open string replaced. */
  function With(s: State, text: string, count: nat, open: bool): State
    requires s.HasTool()
  {
    s.(argCount := count, closingQuote := open).WithTarget(text)
  }

  lemma WithAgain(s: State, x: string, count: nat, open: bool)
    requires s.HasTool()
    ensures var u := With(s, x, count, open);
      u.HasTool() && u.ArgsTarget() == x && u.argCount == count && u.closingQuote == open &&
      forall y, n, o {:trigger With(u, y, n, o)} :: With(u, y, n, o) == With(s, y, n, o)
    ensures With(s, s.ArgsTarget(), s.argCount, s.closingQuote) == s
  {
    var u := With(s, x, count, open);
    if s.current.Last? {
      Seqs.Border(s.calls[..|s.calls| - 1], [s.Tool().(arguments := x)]);
      if s.Tool().name != "" {
        assert s.calls[..|s.calls| - 1] + [s.Tool()] == s.calls;
      }
    }
  }

  function NameText(base: string, count: nat, name: string): string {
    (if base == "" then "{" else base) + ((if count > 0 then "," else "") + Quoted(Trim(name)) + ":")
  }

  lemma OpenOn(s: State, x: string, count: nat, open: bool)
    requires s.HasTool()
    ensures With(s, x, count, open).Valid() && Apply(With(s, x, count, open), ArgOpen) == With(s, x, count, false)
  {
    WithAgain(s, x, count, open);
    WithAgain(With(s, x, count, open), x, count, open);
    assert With(With(s, x, count, open), x, count, false) == With(s, x, count, false);
  }

  lemma NameOn(s: State, x: string, count: nat, open: bool, t: string)
    requires s.HasTool()
    ensures With(s, x, count, open).Valid()
    ensures Apply(With(s, x, count, open), ArgName(t)) == With(s, NameText(x, count, t), count + 1, open)
  {
    hide Escape, Trim;
    WithAgain(s, x, count, open);
    assert With(With(s, x, count, open), NameText(x, count, t), count + 1, open) == With(s, NameText(x, count, t), count + 1, open);
  }

  lemma ValueOn(s: State, x: string, count: nat, open: bool, t: string)
    requires s.HasTool()
    ensures With(s, x, count, open).Valid()
    ensures Apply(With(s, x, count, open), ArgValue(t)) == With(s, x + Quotes.Normalize(t), count, open)
  {
    WithAgain(s, x, count, open);
    assert With(With(s, x, count, open), x + Quotes.Normalize(t), count, open) == With(s, x + Quotes.Normalize(t), count, open);
  }

  lemma StringApplied(u: State, t: string)
    requires u.HasTool() && !u.closingQuote
    ensures Apply(u, ArgString(t)) == With(u, u.ArgsTarget() + ([QUOTE] + Escape(t)), u.argCount, true)
  {
    assert (if t == "" then [QUOTE] else [QUOTE] + Escape(t)) == [QUOTE] + Escape(t);
    assert u.(closingQuote := true) == u.(argCount := u.argCount, closingQuote := true);
  }

  lemma StringOn(s: State, x: string, count: nat, t: string)
    requires s.HasTool()
    ensures With(s, x, count, false).Valid()
    ensures Apply(With(s, x, count, false), ArgString(t)) == With(s, x + ([QUOTE] + Escape(t)), count, true)
  {
    hide Escape, Apply, With;
    WithAgain(s, x, count, false);
    var u := With(s, x, count, false);
    StringApplied(u, t);
    assert With(u, x + ([QUOTE] + Escape(t)), count, true) == With(s, x + ([QUOTE] + Escape(t)), count, true);
  }

  lemma CloseOn(s: State, x: string, count: nat, open: bool)
    requires s.HasTool()
    ensures With(s, x, count, open).Valid()
    ensures Apply(With(s, x, count, open), ArgClose) == With(s, if open then x + [QUOTE] else x, count, false)
  {
    WithAgain(s, x, count, open);
    assert With(With(s, x, count, open), x + [QUOTE], count, false) == With(s, x + [QUOTE], count, false);
  }

  lemma FourEvents(s: State, a: Event, b: Event, c: Event, d: Event)
    requires s.Valid()
    ensures ApplyAll(s, [a, b, c, d]) == Apply(Apply(Apply(Apply(s, a), b), c), d)
    ensures OrderlyRun(s, [a, b, c, d]) <==>
      Orderly(s, a) && Orderly(Apply(s, a), b) && Orderly(Apply(Apply(s, a), b), c) && Orderly(Apply(Apply(Apply(s, a), b), c), d)
  {
    hide Apply, Orderly;
    Seqs.DropCons([a, b, c, d], 0);
    assert [a, b, c, d][1..] == [b, c, d];
    assert [b, c, d][1..] == [c, d];
    assert [c, d][1..] == [d];
    assert ApplyAll(s, [a, b, c, d]) == ApplyAll(Apply(s, a), [b, c, d]);
    assert ApplyAll(Apply(s, a), [b, c, d]) == ApplyAll(Apply(Apply(s, a), b), [c, d]);
    OneEvent(Apply(Apply(Apply(s, a), b), c), d);
    assert OrderlyRun(Apply(Apply(Apply(s, a), b), c), [d]) <==> Orderly(Apply(Apply(Apply(s, a), b), c), d);
    assert OrderlyRun(Apply(Apply(s, a), b), [c, d]) <==>
      Orderly(Apply(Apply(s, a), b), c) && OrderlyRun(Apply(Apply(Apply(s, a), b), c), [d]);
  }

  /** The arguments so far, after one more. */
  function WithArg(x: string, count: nat, a: Arg): string {
    (if x == "" then "{" else x) + ((if count > 0 then "," else "") + Entry(a))
  }

  lemma StringArgText(x: string, count: nat, a: Arg)
    requires a.StringArg?
    ensures NameText(x, count, a.name) + ([QUOTE] + Escape(a.value)) + [QUOTE] == WithArg(x, count, a)
  {
    hide Escape, Trim;
    var base, comma := if x == "" then "{" else x, if count > 0 then "," else "";
    var name, literal := Quoted(Trim(a.name)) + ":", Quoted(a.value);
    var named := NameText(x, count, a.name);
    Seqs.Associative(named, [QUOTE] + Escape(a.value), [QUOTE]);
    Seqs.Associative(base, comma + name, literal);
    Seqs.Associative(comma, name, literal);
    assert named == base + (comma + name) by { Seqs.Associative(comma, Quoted(Trim(a.name)), ":"); }
  }

  lemma OtherArgText(x: string, count: nat, a: Arg)
    requires a.OtherArg?
    ensures NameText(x, count, a.name) + Quotes.Normalize(a.value) == WithArg(x, count, a)
  {
    hide Escape, Trim;
    var base, comma := if x == "" then "{" else x, if count > 0 then "," else "";
    var name, value := Quoted(Trim(a.name)) + ":", Quotes.Normalize(a.value);
    var named := NameText(x, count, a.name);
    Seqs.Associative(base, comma + name, value);
    Seqs.Associative(comma, name, value);
    assert named == base + (comma + name) by { Seqs.Associative(comma, Quoted(Trim(a.name)), ":"); }
  }

  lemma ArgIsOrderly(u: State, a: Arg)
    requires u.Valid()
    ensures Orderly(u, ArgOpen) && Orderly(u, ArgName(a.name)) && Orderly(u, ArgClose) && (!u.closingQuote ==> Orderly(u, ValueEvent(a)))
  {
  }

  lemma OneArg(s: State, x: string, count: nat, a: Arg)
    requires s.HasTool()
    ensures var u, es := With(s, x, count, false), [ArgOpen, ArgName(a.name), ValueEvent(a), ArgClose];
      u.Valid() && OrderlyRun(u, es) && ApplyAll(u, es) == With(s, WithArg(x, count, a), count + 1, false)
  {
    hide Escape, Trim, Apply, With, Orderly, WithArg, NameText, OrderlyRun, ApplyAll;
    var u, named := With(s, x, count, false), NameText(x, count, a.name);
    OpenOn(s, x, count, false);
    NameOn(s, x, count, false, a.name);
    WithAgain(s, named, count + 1, false);
    var v := With(s, named, count + 1, false);
    if a.StringArg? {
      StringOn(s, named, count + 1, a.value);
      CloseOn(s, named + ([QUOTE] + Escape(a.value)), count + 1, true);
      StringArgText(x, count, a);
    } else {
      ValueOn(s, named, count + 1, false, a.value);
      CloseOn(s, named + Quotes.Normalize(a.value), count + 1, false);
      OtherArgText(x, count, a);
    }
    FourEvents(u, ArgOpen, ArgName(a.name), ValueEvent(a), ArgClose);
    ArgIsOrderly(u, a);
    ArgIsOrderly(v, a);
    ArgIsOrderly(Apply(v, ValueEvent(a)), a);
  }

  /** The arguments so far, after some more. */
  function WithArgs(x: string, count: nat, args: seq<Arg>): string {
    if args == [] then x else (if x == "" then "{" else x) + Listed(args, count)
  }

  lemma WithArgsStep(x: string, count: nat, args: seq<Arg>)
    requires args != []
    ensures WithArgs(WithArg(x, count, args[0]), count + 1, args[1..]) == WithArgs(x, count, args)
  {
    hide Entry;
    var base, first := if x == "" then "{" else x, (if count > 0 then "," else "") + Entry(args[0]);
    assert WithArg(x, count, args[0]) == base + first;
    Seqs.Associative(base, first, Listed(args[1..], count + 1));
    Seqs.AppendNothing(first, "");
  }

  lemma {:induction false} ManyArgs(s: State, x: string, count: nat, args: seq<Arg>)
    requires s.HasTool()
    ensures var u := With(s, x, count, false);
      u.Valid() && OrderlyRun(u, ArgEvents(args)) &&
      ApplyAll(u, ArgEvents(args)) == With(s, WithArgs(x, count, args), count + |args|, false)
    decreases |args|
  {
    hide Escape, Trim, Apply, With, Orderly, WithArg, OrderlyRun, Listed;
    var u := With(s, x, count, false);
    WithAgain(s, x, count, false);
    if args == [] {
      assert OrderlyRun(u, []) by { NothingRuns(u); }
    } else {
      var y := WithArg(x, count, args[0]);
      var es := [ArgOpen, ArgName(args[0].name), ValueEvent(args[0]), ArgClose];
      OneArg(s, x, count, args[0]);
      ManyArgs(s, y, count + 1, args[1..]);
      ApplyAppend(u, es, ArgEvents(args[1..]));
      WithArgsStep(x, count, args);
    }
  }

  lemma NothingRuns(s: State)
    requires s.Valid()
    ensures OrderlyRun(s, []) && ApplyAll(s, []) == s
  {
  }

  /** The finished arguments: one object with every entry in order. */
  function Arguments(c: Call): string {
    "{" + Listed(c.before + c.after, 0) + "}"
  }

  function IdOf(id: Option<string>): string {
    if id.Some? then Unquote(TrimTrailing(id.value)) else ""
  }

  function Finished(c: Call): ToolCall {
    ToolCall(TrimTrailing(c.name), Arguments(c), IdOf(c.id))
  }

  /** The state once a call has been named. */
  function Begun(s: State, t: ToolCall, count: nat): State {
    State(s.content, s.reasoning, s.calls + [t], None, Last, count, false, "")
  }

  function Opened(s: State): State {
    s.(pending := Some(NO_CALL), current := Pending, argCount := 0, buffer := "", closingQuote := false)
  }

  lemma NamedOn(s: State, x: string, count: nat, name: string, id: Option<string>)
    requires TrimTrailing(name) != ""
    ensures var u := With(Opened(s), x, count, false);
      u.Valid() && OrderlyRun(u, NameEvents(name, id)) &&
      ApplyAll(u, NameEvents(name, id)) == Begun(s, ToolCall(TrimTrailing(name), if x == "" then "{" else x, IdOf(id)), count)
  {
    hide TrimTrailing, Unquote;
    var u := With(Opened(s), x, count, false);
    var first := ToolName(name);
    var v := Apply(u, first);
    var named := ToolCall(TrimTrailing(name), if x == "" then "{" else x, "");
    assert v == Begun(s, named, count);
    NothingRuns(v);
    if id.None? {
      Seqs.AppendNothing([first], []);
      assert NameEvents(name, id) == [first];
      assert [first][1..] == [];
    } else {
      var second := ToolId(id.value);
      assert NameEvents(name, id) == [first, second];
      assert [first, second][1..] == [second];
      assert [second][1..] == [];
      Seqs.Border(s.calls, [named]);
      assert Apply(v, second) == Begun(s, named.(id := IdOf(id)), count);
      NothingRuns(Apply(v, second));
    }
  }

  /** Braces that are still open are closed, and nothing else happens to a call
      in which no string is open. */
  lemma CloseBegun(s: State, t: ToolCall, count: nat, depth: nat)
    requires t.name != "" && CountAll(START, t.arguments) == START.(depth := depth)
    ensures var u := Begun(s, t, count);
      u.Valid() && Orderly(u, ToolClose) && Apply(u, ToolClose) == Begun(s, t.(arguments := t.arguments + Closers(depth)), count)
  {
    hide CountAll, Closers;
    Seqs.Border(s.calls, [t]);
    Seqs.AppendNothing(t.arguments, "");
  }

  lemma FewClosers()
    ensures Closers(0) == "" && Closers(1) == "}"
  {
    assert Closers(1) == ['}'] + Closers(0);
  }

  lemma {:induction false} ClosersClose(depth: nat)
    ensures CountAll(START.(depth := depth), Closers(depth)) == START
  {
    if depth > 0 {
      ClosersClose(depth - 1);
      Seqs.FirstOfAppend(['}'], Closers(depth - 1));
      Seqs.AppendNothing(Closers(depth - 1), ['}'][1..]);
    }
  }

  /** However a call comes to its close: if its open string is known to be open,
      it ends balanced, and what was written stays. */
  lemma CloseBalances(s: State, depth: nat)
    requires s.HasTool() && s.Tool().name != ""
    requires CountAll(START, s.Tool().arguments) == Braces(depth, s.closingQuote, false)
    ensures var r := Closed(s);
      r.calls != [] && Balanced(r.calls[|r.calls| - 1].arguments) && s.Tool().arguments <= r.calls[|r.calls| - 1].arguments
  {
    hide CountAll, Closers;
    var args := s.Tool().arguments + (if s.closingQuote then [QUOTE] else "");
    assert CountAll(START, args) == START.(depth := depth) by {
      if s.closingQuote {
        CountAppend(START, s.Tool().arguments, [QUOTE]);
        QuoteCloses(depth);
      } else {
        Seqs.AppendNothing(s.Tool().arguments, "");
      }
    }
    CountAppend(START, args, Closers(depth));
    ClosersClose(depth);
    Seqs.Associative(s.Tool().arguments, if s.closingQuote then [QUOTE] else "", Closers(depth));
  }

  lemma QuoteCloses(depth: nat)
    ensures CountAll(Braces(depth, true, false), [QUOTE]) == START.(depth := depth)
  {
    assert [QUOTE][1..] == "";
  }

  lemma BegunWith(s: State, t: ToolCall, count: nat, y: string, n: nat)
    requires t.name != ""
    ensures var u := Begun(s, t, count);
      u.HasTool() && With(u, t.arguments, count, false) == u && With(u, y, n, false) == Begun(s, t.(arguments := y), n)
  {
    var u := Begun(s, t, count);
    Seqs.Border(s.calls, [t]);
    WithAgain(u, u.ArgsTarget(), u.argCount, false);
  }

  /** The body of the object before it is closed. */
  lemma WithBoth(c: Call)
    ensures var x := WithArgs("", 0, c.before);
      WithArgs(if x == "" then "{" else x, |c.before|, c.after) + "}" == Arguments(c)
  {
    hide Entry;
    var x := WithArgs("", 0, c.before);
    var base := if x == "" then "{" else x;
    ListedAppend(c.before, c.after, 0);
    Seqs.Associative("{", Listed(c.before, 0), Listed(c.after, |c.before|));
    assert base == "{" + Listed(c.before, 0) by { Seqs.AppendNothing("{", ""); }
    Seqs.AppendNothing("{" + Listed(c.before, 0), "");
  }

  lemma ArgumentsBalanced(c: Call)
    requires BalancedArgs(c.before + c.after)
    ensures Balanced(Arguments(c))
    ensures CountAll(START, "{" + Listed(c.before + c.after, 0)) == START.(depth := 1)
  {
    hide Listed, Entry;
    var one := START.(depth := 1);
    CountAppend(START, "{", Listed(c.before + c.after, 0));
    CountAppend(START, "{" + Listed(c.before + c.after, 0), "}");
    assert CountAll(START, "{") == one;
    assert CountAll(one, "}") == START;
    ListedIsInert(one, c.before + c.after, 0);
  }

  /** Opening a call starts from no arguments. */
  lemma OpenedWith(s: State)
    requires s.Valid()
    ensures var u := Opened(s);
      u.HasTool() && Apply(s, ToolOpen) == u && Orderly(s, ToolOpen) && With(u, "", 0, false) == u
  {
    WithAgain(Opened(s), "", 0, false);
  }

  /** An orderly run from one state to another. */
  predicate Runs(s: State, es: seq<Event>, r: State) {
    s.Valid() && OrderlyRun(s, es) && ApplyAll(s, es) == r
  }

  lemma RunsOn(s: State, a: seq<Event>, q: State, b: seq<Event>, r: State)
    requires Runs(s, a, q) && Runs(q, b, r)
    ensures Runs(s, a + b, r)
  {
    hide ApplyAll, OrderlyRun;
    ApplyAppend(s, a, b);
  }

  lemma RestRuns(s: State, c: Call, t: ToolCall)
    requires t.name != "" && BalancedArgs(c.before + c.after)
    requires WithArgs(t.arguments, |c.before|, c.after) + "}" == Arguments(c)
    ensures Runs(Begun(s, t, |c.before|), ArgEvents(c.after) + [ToolClose],
                 Begun(s, t.(arguments := Arguments(c)), |c.before| + |c.after|))
  {
    hide Apply, With, Orderly, OrderlyRun, ApplyAll, ArgEvents, WithArgs, CountAll, BalancedArgs, Listed;
    var n, m := |c.before|, |c.before| + |c.after|;
    var y := WithArgs(t.arguments, n, c.after);
    var named := t.(arguments := y);
    BegunWith(s, t, n, y, m);
    ManyArgs(Begun(s, t, n), t.arguments, n, c.after);
    ArgumentsBalanced(c);
    OpenBody(c, y);
    FewClosers();
    CloseBegun(s, named, m, 1);
    OneRuns(Begun(s, named, m), ToolClose);
    RunsOn(Begun(s, t, n), ArgEvents(c.after), Begun(s, named, m), [ToolClose], Begun(s, t.(arguments := Arguments(c)), m));
  }

  lemma HeadRuns(s: State, c: Call, x: string)
    requires s.Valid() && TrimTrailing(c.name) != "" && x == WithArgs("", 0, c.before)
    ensures Runs(s, [ToolOpen], Opened(s))
    ensures Opened(s).HasTool()
    ensures Runs(Opened(s), ArgEvents(c.before), With(Opened(s), x, |c.before|, false))
    ensures Runs(With(Opened(s), x, |c.before|, false), NameEvents(c.name, c.id),
                 Begun(s, ToolCall(TrimTrailing(c.name), if x == "" then "{" else x, IdOf(c.id)), |c.before|))
  {
    hide Apply, With, Opened, Begun, Orderly, OrderlyRun, ApplyAll, ArgEvents, NameEvents, WithArgs, TrimTrailing, IdOf;
    OpenedWith(s);
    OneRuns(s, ToolOpen);
    ManyArgs(Opened(s), "", 0, c.before);
    NamedOn(s, x, |c.before|, c.name, c.id);
  }

  /** A whole call, whatever was mapped before it: one more call, its arguments
      a complete JSON object, and nothing left pending. */
  lemma CallCompletes(s: State, c: Call)
    requires s.Valid() && TrimTrailing(c.name) != "" && BalancedArgs(c.before + c.after)
    ensures Runs(s, CallEvents(c), Begun(s, Finished(c), |c.before| + |c.after|))
    ensures Balanced(Arguments(c))
  {
    hide Runs, With, Opened, Begun, ArgEvents, NameEvents, WithArgs, TrimTrailing, Balanced, CountAll, BalancedArgs, IdOf, Arguments;
    var n := |c.before|;
    var x := WithArgs("", 0, c.before);
    var named := ToolCall(TrimTrailing(c.name), if x == "" then "{" else x, IdOf(c.id));
    HeadRuns(s, c, x);
    var s1, s2, s3 := Opened(s), With(Opened(s), x, n, false), Begun(s, named, n);
    var last := Begun(s, Finished(c), n + |c.after|);
    var afterName := ArgEvents(c.after) + [ToolClose];
    WithBoth(c);
    RestRuns(s, c, named);
    ArgumentsBalanced(c);
    RunsOn(s2, NameEvents(c.name, c.id), s3, afterName, last);
    RunsOn(s1, ArgEvents(c.before), s2, NameEvents(c.name, c.id) + afterName, last);
    RunsOn(s, [ToolOpen], s1, ArgEvents(c.before) + (NameEvents(c.name, c.id) + afterName), last);
  }

  /** The name and the id of a call as a model may write them: white space after
      both is dropped, and so are quotes around the id. */
  lemma CallAsSpelled(s: State, name: string, id: string, blanks: (string, string), quoted: bool,
                      before: seq<Arg>, after: seq<Arg>)
    requires s.Valid() && BalancedArgs(before + after)
    requires name != "" && !EndsWhite(name) && AllWhite(blanks.0) && AllWhite(blanks.1)
    requires quoted || (!EndsWhite(id) && forall x :: id != "\"" + x + "\"")
    ensures var written := if quoted then "\"" + id + "\"" else id;
      var c := Call(name + blanks.0, Some(written + blanks.1), before, after);
      Runs(s, CallEvents(c), Begun(s, ToolCall(name, Arguments(c), id), |before| + |after|))
  {
    hide Runs, CallEvents, Begun, Arguments, BalancedArgs, TrimTrailing, Unquote;
    var written := if quoted then "\"" + id + "\"" else id;
    TrimmedExactly(name, blanks.0);
    TrimmedExactly(written, blanks.1);
    UnquotedExactly(id);
    CallCompletes(s, Call(name + blanks.0, Some(written + blanks.1), before, after));
  }

  lemma OpenBody(c: Call, y: string)
    requires y + "}" == Arguments(c)
    ensures y == "{" + Listed(c.before + c.after, 0)
  {
    hide Listed;
    Seqs.Border(y, "}");
    Seqs.Border("{" + Listed(c.before + c.after, 0), "}");
    assert |y| == |"{" + Listed(c.before + c.after, 0)|;
  }

  lemma OneRuns(s: State, e: Event)
    requires s.Valid()
    ensures ApplyAll(s, [e]) == Apply(s, e) && (OrderlyRun(s, [e]) <==> Orderly(s, e))
  {
    hide Apply, Orderly;
    assert [e][1..] == [];
    NothingRuns(Apply(s, e));
  }

  /** A call whose arguments come as one JSON text, before or after its name. */
  datatype WholeCall = WholeCall(name: string, id: Option<string>, text: string, early: bool)

  predicate IsWhole(c: WholeCall) {
    var text := TrimTrailing(c.text);
    TrimTrailing(c.name) != "" && text != "" && text[0] == '{' && Balanced(text)
  }

  function WholeEvents(c: WholeCall): seq<Event> {
    if c.early then [ToolOpen] + ([ToolArgs(c.text)] + (NameEvents(c.name, c.id) + [ToolClose]))
    else [ToolOpen] + (NameEvents(c.name, c.id) + ([ToolArgs(c.text)] + [ToolClose]))
  }

  function FinishedWhole(c: WholeCall): ToolCall {
    ToolCall(TrimTrailing(c.name), TrimTrailing(c.text), IdOf(c.id))
  }

  lemma ArgsOn(u: State, text: string)
    requires u.HasTool() && (u.ArgsTarget() == "" || u.ArgsTarget() == "{") && !u.closingQuote
    requires TrimTrailing(text) != "" && TrimTrailing(text)[0] == '{'
    ensures Runs(u, [ToolArgs(text)], With(u, TrimTrailing(text), u.argCount, false))
  {
    hide TrimTrailing, ApplyAll, OrderlyRun;
    OneRuns(u, ToolArgs(text));
    assert u.(argCount := u.argCount, closingQuote := false) == u;
  }

  lemma WholeCloses(s: State, c: WholeCall)
    requires IsWhole(c)
    ensures Runs(Begun(s, FinishedWhole(c), 0), [ToolClose], Begun(s, FinishedWhole(c), 0))
  {
    hide TrimTrailing, IdOf, Closers, CountAll, Begun, ApplyAll, OrderlyRun, Apply, Orderly;
    FewClosers();
    Seqs.AppendNothing(TrimTrailing(c.text), "");
    CloseBegun(s, FinishedWhole(c), 0, 0);
    OneRuns(Begun(s, FinishedWhole(c), 0), ToolClose);
  }

  /** A call with whole arguments: they stay as they are, but for white space
      at their end. */
  lemma WholeCallCompletes(s: State, c: WholeCall)
    requires s.Valid() && IsWhole(c)
    ensures Runs(s, WholeEvents(c), Begun(s, FinishedWhole(c), 0))
  {
    hide TrimTrailing, IdOf, Runs, With, Begun, NameEvents, Balanced, Apply, Orderly, Opened;
    var text := TrimTrailing(c.text);
    var last := Begun(s, FinishedWhole(c), 0);
    var named := ToolCall(TrimTrailing(c.name), if c.early then text else "{", IdOf(c.id));
    OpenedWith(s);
    assert Runs(s, [ToolOpen], Opened(s)) by { OpensRuns(s); }
    WholeCloses(s, c);
    if c.early {
      var u := With(Opened(s), text, 0, false);
      assert Runs(Opened(s), [ToolArgs(c.text)], u) by { OpenedArgs(s, c.text); }
      NameRuns(s, text, c.name, c.id);
      RunsOn(u, NameEvents(c.name, c.id), last, [ToolClose], last);
      RunsOn(Opened(s), [ToolArgs(c.text)], u, NameEvents(c.name, c.id) + [ToolClose], last);
      RunsOn(s, [ToolOpen], Opened(s), [ToolArgs(c.text)] + (NameEvents(c.name, c.id) + [ToolClose]), last);
    } else {
      var u := Begun(s, named, 0);
      NameRuns(s, "", c.name, c.id);
      assert Runs(u, [ToolArgs(c.text)], last) by { BegunArgs(s, named, c.text); }
      RunsOn(u, [ToolArgs(c.text)], last, [ToolClose], last);
      RunsOn(Opened(s), NameEvents(c.name, c.id), u, [ToolArgs(c.text)] + [ToolClose], last);
      RunsOn(s, [ToolOpen], Opened(s), NameEvents(c.name, c.id) + ([ToolArgs(c.text)] + [ToolClose]), last);
    }
  }

  lemma OpensRuns(s: State)
    requires s.Valid()
    ensures Runs(s, [ToolOpen], Opened(s))
  {
    hide Apply, Orderly, ApplyAll, OrderlyRun, Opened;
    OpenedWith(s);
    OneRuns(s, ToolOpen);
  }

  lemma NameRuns(s: State, x: string, name: string, id: Option<string>)
    requires s.Valid() && TrimTrailing(name) != ""
    ensures Opened(s).HasTool() && With(Opened(s), "", 0, false) == Opened(s)
    ensures Runs(With(Opened(s), x, 0, false), NameEvents(name, id),
                 Begun(s, ToolCall(TrimTrailing(name), if x == "" then "{" else x, IdOf(id)), 0))
  {
    hide TrimTrailing, IdOf, With, Begun, NameEvents, Apply, Orderly, ApplyAll, OrderlyRun, Opened;
    OpenedWith(s);
    NamedOn(s, x, 0, name, id);
  }

  lemma OpenedArgs(s: State, text: string)
    requires s.Valid() && TrimTrailing(text) != "" && TrimTrailing(text)[0] == '{'
    ensures Opened(s).HasTool() && Runs(Opened(s), [ToolArgs(text)], With(Opened(s), TrimTrailing(text), 0, false))
  {
    hide TrimTrailing, With, Apply, Orderly, ApplyAll, OrderlyRun;
    ArgsOn(Opened(s), text);
  }

  lemma BegunArgs(s: State, t: ToolCall, text: string)
    requires t.name != "" && t.arguments == "{" && TrimTrailing(text) != "" && TrimTrailing(text)[0] == '{'
    ensures Runs(Begun(s, t, 0), [ToolArgs(text)], Begun(s, t.(arguments := TrimTrailing(text)), 0))
  {
    hide TrimTrailing, With, Apply, Orderly, ApplyAll, OrderlyRun;
    BegunWith(s, t, 0, TrimTrailing(text), 0);
    Seqs.Border(s.calls, [t]);
    ArgsOn(Begun(s, t, 0), text);
  }

  /** A reply: text, reasoning and calls in any order. */
  datatype Part = Said(text: string) | Thought(text: string) | Called(call: Call) | CalledWhole(whole: WholeCall)

  predicate IsPart(p: Part) {
    (p.Called? ==> TrimTrailing(p.call.name) != "" && BalancedArgs(p.call.before + p.call.after)) &&
    (p.CalledWhole? ==> IsWhole(p.whole))
  }

  predicate IsReply(parts: seq<Part>) {
    forall i :: 0 <= i < |parts| ==> IsPart(parts[i])
  }

  function PartEvents(p: Part): seq<Event> {
    match p
    case Said(t) => [Content(t)]
    case Thought(t) => [Reasoning(t)]
    case Called(c) => CallEvents(c)
    case CalledWhole(c) => WholeEvents(c)
  }

  function PartCalls(p: Part): seq<ToolCall> {
    match p
    case Called(c) => [Finished(c)]
    case CalledWhole(c) => [FinishedWhole(c)]
    case _ => []
  }

  function ReplyEvents(parts: seq<Part>): seq<Event> {
    if parts == [] then [] else PartEvents(parts[0]) + ReplyEvents(parts[1..])
  }

  function AllSaid(parts: seq<Part>): string {
    if parts == [] then "" else (if parts[0].Said? then parts[0].text else "") + AllSaid(parts[1..])
  }

  function AllThought(parts: seq<Part>): string {
    if parts == [] then "" else (if parts[0].Thought? then parts[0].text else "") + AllThought(parts[1..])
  }

  function AllCalled(parts: seq<Part>): seq<ToolCall> {
    if parts == [] then [] else PartCalls(parts[0]) + AllCalled(parts[1..])
  }

  lemma PartMapped(s: State, p: Part)
    requires s.Valid() && s.pending.None? && IsPart(p)
    ensures OrderlyRun(s, PartEvents(p))
    ensures var r := ApplyAll(s, PartEvents(p));
      r.pending.None? &&
      r.content == s.content + (if p.Said? then p.text else "") &&
      r.reasoning == s.reasoning + (if p.Thought? then p.text else "") &&
      r.calls == s.calls + PartCalls(p)
  {
    hide ApplyAll, OrderlyRun, CallEvents, WholeEvents, Finished, FinishedWhole, TrimTrailing, BalancedArgs, IsWhole;
    Seqs.AppendNothing(s.content, "");
    Seqs.AppendNothing(s.reasoning, "");
    Seqs.AppendNothing(s.calls, []);
    if p.Called? {
      CallCompletes(s, p.call);
    } else if p.CalledWhole? {
      WholeCallCompletes(s, p.whole);
    } else {
      OneRuns(s, PartEvents(p)[0]);
    }
  }

  /** A whole reply: the message is made of its parts, every call complete, and
      the events keep to the order under which streaming never goes back. */
  lemma {:induction false} ReplyMapped(s: State, parts: seq<Part>)
    requires s.Valid() && s.pending.None? && IsReply(parts)
    ensures OrderlyRun(s, ReplyEvents(parts))
    ensures var r := ApplyAll(s, ReplyEvents(parts));
      r.pending.None? && r.content == s.content + AllSaid(parts) && r.reasoning == s.reasoning + AllThought(parts) &&
      r.calls == s.calls + AllCalled(parts)
    decreases |parts|
  {
    hide ApplyAll, OrderlyRun, PartEvents, PartCalls, IsPart;
    if parts == [] {
      NothingRuns(s);
      Seqs.AppendNothing(s.content, "");
      Seqs.AppendNothing(s.reasoning, "");
      Seqs.AppendNothing(s.calls, []);
    } else {
      var p, rest := parts[0], parts[1..];
      assert IsReply(rest);
      PartMapped(s, p);
      var r := ApplyAll(s, PartEvents(p));
      ReplyMapped(r, rest);
      ApplyAppend(s, PartEvents(p), ReplyEvents(rest));
      Seqs.Associative(s.content, if p.Said? then p.text else "", AllSaid(rest));
      Seqs.Associative(s.reasoning, if p.Thought? then p.text else "", AllThought(rest));
      Seqs.Associative(s.calls, PartCalls(p), AllCalled(rest));
    }
  }

  lemma ReplyMessage(parts: seq<Part>)
    requires IsReply(parts)
    ensures Visible(ApplyAll(INITIAL, ReplyEvents(parts))) ==
      Message(AllSaid(parts), if IsBlank(AllThought(parts)) then "" else AllThought(parts), AllCalled(parts))
    ensures forall i :: 0 <= i < |AllCalled(parts)| ==> Balanced(AllCalled(parts)[i].arguments)
  {
    hide ApplyAll, ReplyEvents, IsReply, AllCalled, AllSaid, AllThought, Balanced, IsBlank;
    ReplyMapped(INITIAL, parts);
    var r := ApplyAll(INITIAL, ReplyEvents(parts));
    Seqs.AppendNothing(AllSaid(parts), "");
    Seqs.AppendNothing(AllThought(parts), "");
    Seqs.AppendNothing(AllCalled(parts), []);
    Seqs.AppendNothing(r.calls, Flushed(r));
    AllBalanced(parts);
  }

  lemma {:induction false} AllBalanced(parts: seq<Part>)
    requires IsReply(parts)
    ensures forall i :: 0 <= i < |AllCalled(parts)| ==> Balanced(AllCalled(parts)[i].arguments)
    decreases |parts|
  {
    hide Balanced, Arguments, BalancedArgs, TrimTrailing, IdOf;
    if parts != [] {
      assert IsPart(parts[0]);
      assert IsReply(parts[1..]);
      AllBalanced(parts[1..]);
      if parts[0].Called? {
        ArgumentsBalanced(parts[0].call);
      }
    }
  }

  /** A reply streamed through any safe cuts up to its end: the client that adds
      up the diffs ends with the whole message and its complete calls. */
  lemma ReplyStreams(parts: seq<Part>, cuts: seq<Cut>, caches: seq<seq<string>>)
    requires IsReply(parts) && |caches| == |cuts| > 0 && cuts[|cuts| - 1] == Cut(|ReplyEvents(parts)|, None)
    requires forall i :: 0 <= i < |cuts| ==>
      IsCut(ReplyEvents(parts), cuts[i]) && |MessageAt(ReplyEvents(parts), cuts[i]).calls| <= |caches[i]|
    requires forall i :: 0 <= i < |cuts| - 1 ==>
      Earlier(cuts[i], cuts[i + 1]) && SafeCuts(ReplyEvents(parts), cuts[i], cuts[i + 1]) && caches[i] <= caches[i + 1]
    ensures var es := ReplyEvents(parts);
      var whole := Message(AllSaid(parts), if IsBlank(AllThought(parts)) then "" else AllThought(parts), AllCalled(parts));
      var ms := seq(|cuts|, i requires 0 <= i < |cuts| => Identified(MessageAt(es, cuts[i]), caches[i]));
      |AllCalled(parts)| <= |caches[|cuts| - 1]| &&
      MessageDiff.AddChain(EMPTY_MESSAGE, ms) == Success(Identified(whole, caches[|cuts| - 1]))
  {
    hide ReplyEvents, IsReply, AllCalled, AllSaid, AllThought, Visible, ApplyAll, Identified, IsCut, SafeCuts, OrderlyRun;
    hide MessageDiff.AddChain;
    var es := ReplyEvents(parts);
    ReplyMapped(INITIAL, parts);
    ReplyMessage(parts);
    Seqs.WholeTake(es, |es|);
    assert MessageAt(es, cuts[|cuts| - 1]) == Visible(ApplyAll(INITIAL, es));
    StreamRebuilds(es, cuts, caches);
  }
}
