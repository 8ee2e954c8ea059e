/** Tagged parse events turned into a chat message with tool calls. */
module ToolCalls {
  import Seqs
  import opened Wrappers
  import opened JsonText
  import Quotes

  datatype ToolCall = ToolCall(name: string, arguments: string, id: string)

  const NO_CALL := ToolCall("", "", "")

  datatype Message = Message(content: string, reasoning: string, calls: seq<ToolCall>)

  const EMPTY_MESSAGE := Message("", "", [])

  /** The tagged nodes of the syntax tree in the order they are visited. */
  datatype Event =
    | Reasoning(text: string)
    | Content(text: string)
    | ToolOpen
    | ToolClose
    | ToolId(text: string)
    | ToolName(text: string)
    | ToolArgs(text: string)
    | ArgOpen
    | ArgClose
    | ArgName(text: string)
    | ArgValue(text: string)
    | ArgString(text: string)

  predicate IsSpace(c: char) {
    c == ' ' || 0x09 <= c as int <= 0x0D
  }

  function TrimTrailing(s: string): (t: string)
    ensures t <= s
  {
    if s != "" && IsSpace(s[|s| - 1]) then TrimTrailing(s[..|s| - 1]) else s
  }

  /** At most one leading space goes, every trailing one does. */
  function Trim(s: string): string {
    TrimTrailing(if s != "" && IsSpace(s[0]) then s[1..] else s)
  }

  function Unquote(s: string): string {
    if |s| >= 2 && s[0] == QUOTE && s[|s| - 1] == QUOTE then s[1..|s| - 1] else s
  }

  /** The white space of the C locale. */
  const WHITE_SPACE := [' ', '\t', '\n', '\r', 0x0B as char, 0x0C as char]

  predicate AllWhite(s: string) {
    forall c :: c in s ==> c in WHITE_SPACE
  }

  predicate EndsWhite(s: string) {
    s != "" && s[|s| - 1] in WHITE_SPACE
  }

  /** All the white space at the end goes, and nothing else. */
  lemma {:induction false} TrimmedExactly(text: string, blank: string)
    requires !EndsWhite(text) && AllWhite(blank)
    ensures TrimTrailing(text + blank) == text
    decreases |blank|
  {
    if blank == "" {
      Seqs.AppendNothing(text, blank);
    } else {
      var n := |blank| - 1;
      assert blank[n] in blank;
      assert (text + blank)[|text| + n] == blank[n];
      assert (text + blank)[..|text| + n] == text + blank[..n];
      TrimmedExactly(text, blank[..n]);
    }
  }

  /** Every text is one that does not end in white space, and white space. */
  lemma {:induction false} TrimmedAlways(s: string)
    ensures var t := TrimTrailing(s); s == t + s[|t|..] && !EndsWhite(t) && AllWhite(s[|t|..])
    decreases |s|
  {
    var n := |s| - 1;
    if s != "" && IsSpace(s[n]) {
      TrimmedAlways(s[..n]);
      var k := |TrimTrailing(s)|;
      assert s[k..] == s[..n][k..] + [s[n]];
    }
  }

  /** Of the white space in front of a key one character goes, of the white
      space behind it everything. */
  lemma KeyTrimmedExactly(lead: string, key: string, blank: string)
    requires !EndsWhite(key) && AllWhite(blank)
    requires if lead == "" then key != "" && key[0] !in WHITE_SPACE else |lead| == 1 && lead[0] in WHITE_SPACE
    ensures Trim(lead + key + blank) == key
  {
    var s := lead + key + blank;
    if lead == "" {
      assert s == key + blank && s[0] == key[0];
    } else {
      assert s[0] == lead[0] && s[1..] == key + blank;
    }
    TrimmedExactly(key, blank);
  }

  /** One pair of quotes around the whole text goes; any other text stays. */
  lemma UnquotedExactly(s: string)
    ensures Unquote("\"" + s + "\"") == s
    ensures (forall x :: s != "\"" + x + "\"") ==> Unquote(s) == s
  {
    var q := "\"" + s + "\"";
    assert q[1..|q| - 1] == s;
    if Unquote(s) != s {
      assert s == "\"" + s[1..|s| - 1] + "\"";
    }
  }

  /** Which tool call the events apply to. */
  datatype Target = NoTool | Pending | Last

  /** The message so far and the state of the mapper. */
  datatype State = State(content: string, reasoning: string, calls: seq<ToolCall>,
                         pending: Option<ToolCall>, current: Target,
                         argCount: nat, closingQuote: bool, buffer: string)
  {
    predicate Valid() {
      (current.Pending? <==> pending.Some?) && (current.Last? ==> calls != [])
    }

    predicate HasTool() {
      Valid() && !current.NoTool?
    }

    function Tool(): ToolCall
      requires HasTool()
    {
      if current.Pending? then pending.value else calls[|calls| - 1]
    }

    function WithTool(t: ToolCall): State
      requires HasTool()
    {
      if current.Pending? then this.(pending := Some(t)) else this.(calls := calls[..|calls| - 1] + [t])
    }

    /** Arguments go to the tool call once it has a name, to the buffer before. */
    function ArgsTarget(): string
      requires HasTool()
    {
      if Tool().name != "" then Tool().arguments else buffer
    }

    function WithTarget(text: string): State
      requires HasTool()
    {
      if Tool().name != "" then WithTool(Tool().(arguments := text)) else this.(buffer := text)
    }

    function Append(text: string): State
      requires HasTool()
    {
      WithTarget(ArgsTarget() + text)
    }
  }

  const INITIAL := State("", "", [], None, NoTool, 0, false, "")

  function Quoted(s: string): string {
    [QUOTE] + Escape(s) + [QUOTE]
  }

  function Closers(depth: int): (s: string)
    ensures |s| == (if depth > 0 then depth else 0) && forall c :: c in s ==> c == '}'
  {
    if depth > 0 then ['}'] + Closers(depth - 1) else ""
  }

  function Named(s: State, name: string): State
    requires s.HasTool()
  {
    var t := s.Tool().(name := name);
    var u := if s.buffer != "" then t.(arguments := s.buffer) else if t.arguments == "" then t.(arguments := "{") else t;
    var r := s.(buffer := "");
    if s.pending.Some? then r.(calls := s.calls + [u], pending := None, current := Last) else r.WithTool(u)
  }

  /** Closing settles the arguments: the buffered ones if no name came, an open
      string, open braces. A call that never got a name is dropped. */
  function Closed(s: State): State
    requires s.HasTool()
  {
    var unnamed := s.Tool().name == "" && s.buffer != "";
    var args := (if unnamed then s.buffer else s.Tool().arguments) + (if s.closingQuote then [QUOTE] else "");
    var t := s.Tool().(arguments := args + Closers(CountAll(START, args).depth));
    var r := s.(buffer := if unnamed then "" else s.buffer, closingQuote := false);
    if s.pending.Some? then
      r.(calls := if t.name != "" then s.calls + [t] else s.calls, pending := None, current := NoTool)
    else r.WithTool(t)
  }

  function Apply(s: State, e: Event): (r: State)
    requires s.Valid()
    ensures r.Valid()
  {
    match e
    case Reasoning(t) => s.(reasoning := s.reasoning + t)
    case Content(t) => s.(content := s.content + t)
    case ToolOpen => s.(pending := Some(NO_CALL), current := Pending, argCount := 0, buffer := "", closingQuote := false)
    case ToolId(t) => if s.HasTool() then s.WithTool(s.Tool().(id := Unquote(TrimTrailing(t)))) else s
    case ToolName(t) => if s.HasTool() then Named(s, TrimTrailing(t)) else s
    case ToolArgs(t) =>
      var text := TrimTrailing(t);
      if s.HasTool() && text != "" && text[0] == '{' then s.WithTarget(text) else s
    case ArgOpen => s.(closingQuote := false)
    case ArgName(t) =>
      if s.HasTool() then
        var entry := (if s.argCount > 0 then "," else "") + Quoted(Trim(t)) + ":";
        s.(argCount := s.argCount + 1).WithTarget((if s.ArgsTarget() == "" then "{" else s.ArgsTarget()) + entry)
      else s
    case ArgValue(t) => if s.HasTool() then s.Append(Quotes.Normalize(t)) else s
    case ArgString(t) =>
      if s.HasTool() then
        s.(closingQuote := true).Append(if t == "" then [QUOTE] else (if s.closingQuote then "" else [QUOTE]) + Escape(t))
      else s
    case ArgClose => if s.HasTool() && s.closingQuote then s.(closingQuote := false).Append([QUOTE]) else s
    case ToolClose => if s.HasTool() then Closed(s) else s
  }

  function ApplyAll(s: State, es: seq<Event>): (r: State)
    requires s.Valid()
    ensures r.Valid()
    decreases |es|
  {
    if es == [] then s else ApplyAll(Apply(s, es[0]), es[1..])
  }

  predicate IsBlank(s: string) {
    forall c :: c in s ==> c in " \n\r\t"
  }

  /** The message handed out: a named call still pending joins the others, and
      reasoning that is only white space is dropped. */
  function Visible(s: State): Message {
    Message(s.content, if IsBlank(s.reasoning) then "" else s.reasoning, s.calls + Flushed(s))
  }

  function Flushed(s: State): seq<ToolCall> {
    if s.pending.Some? && s.pending.value.name != "" then
      var t := s.pending.value;
      var args := if s.buffer != "" then s.buffer else t.arguments;
      [t.(arguments := if s.closingQuote && args != "" then args + [QUOTE] else args)]
    else []
  }

  method CloseBraces(args: string) returns (closed: string)
    ensures closed == args + Closers(CountAll(START, args).depth)
  {
    var d := BraceDepth(args);
    ghost var depth := d;
    closed := args;
    while d > 0
      invariant args + Closers(depth) == closed + Closers(d)
      decreases d
    {
      Seqs.Associative(closed, ['}'], Closers(d - 1));
      closed := closed + "}";
      d := d - 1;
    }
    Seqs.AppendNothing(closed, Closers(d));
  }

  class Mapper {
    var content: string
    var reasoning: string
    var calls: seq<ToolCall>
    var pending: Option<ToolCall>
    var current: Target
    var argCount: nat
    var closingQuote: bool
    var buffer: string

    constructor ()
      ensures Now() == INITIAL
    {
      content, reasoning, calls := "", "", [];
      pending, current, argCount, closingQuote, buffer := None, NoTool, 0, false, "";
    }

    function Now(): State
      reads this
    {
      State(content, reasoning, calls, pending, current, argCount, closingQuote, buffer)
    }

    /** Writes through the reference to the current tool call. */
    method SetTool(t: ToolCall)
      requires Now().HasTool()
      modifies this`pending, this`calls
      ensures Now() == old(Now()).WithTool(t)
    {
      if current.Pending? {
        pending := Some(t);
      } else {
        calls := calls[..|calls| - 1] + [t];
      }
    }

    method SetTarget(text: string)
      requires Now().HasTool()
      modifies this`pending, this`calls, this`buffer
      ensures Now() == old(Now()).WithTarget(text)
    {
      var tool := Now().Tool();
      if tool.name != "" {
        SetTool(tool.(arguments := text));
      } else {
        buffer := text;
      }
    }

    method MapName(text: string)
      requires Now().HasTool()
      modifies this
      ensures Now() == Named(old(Now()), TrimTrailing(text))
    {
      var tool := Now().Tool().(name := TrimTrailing(text));
      if buffer != "" {
        tool := tool.(arguments := buffer);
        buffer := "";
      } else if tool.arguments == "" {
        tool := tool.(arguments := "{");
      }
      SetTool(tool);
      if pending.Some? {
        calls := calls + [pending.value];
        pending := None;
        current := Last;
      }
    }

    method MapClose()
      requires Now().HasTool()
      modifies this
      ensures Now() == Closed(old(Now()))
    {
      hide CountAll, Closers;
      var tool := Now().Tool();
      if tool.name == "" && buffer != "" {
        tool := tool.(arguments := buffer);
        buffer := "";
      }
      if closingQuote {
        tool := tool.(arguments := tool.arguments + "\"");
        closingQuote := false;
      } else {
        Seqs.AppendNothing(tool.arguments, "");
      }
      var args := CloseBraces(tool.arguments);
      tool := tool.(arguments := args);
      SetTool(tool);
      if pending.Some? {
        if tool.name != "" {
          calls := calls + [pending.value];
        }
        pending := None;
        current := NoTool;
      }
    }

    method Map(e: Event)
      requires Now().Valid()
      modifies this
      ensures Now() == Apply(old(Now()), e)
    {
      hide Named, Closed, Escape, TrimTrailing, Trim, Unquote;
      match e
      case Reasoning(t) => reasoning := reasoning + t;
      case Content(t) => content := content + t;
      case ToolOpen =>
        pending, current, argCount, buffer, closingQuote := Some(NO_CALL), Pending, 0, "", false;
      case ToolId(t) =>
        if Now().HasTool() {
          SetTool(Now().Tool().(id := Unquote(TrimTrailing(t))));
        }
      case ToolName(t) =>
        if Now().HasTool() {
          MapName(t);
        }
      case ToolArgs(t) =>
        var text := TrimTrailing(t);
        if Now().HasTool() && text != "" && text[0] == '{' {
          SetTarget(text);
        }
      case ArgOpen => closingQuote := false;
      case ArgName(t) =>
        if Now().HasTool() {
          MapArgName(t);
        }
      case ArgValue(t) =>
        if Now().HasTool() {
          var value := Quotes.NormalizeQuotes(t);
          SetTarget(Now().ArgsTarget() + value);
        }
      case ArgString(t) =>
        if Now().HasTool() {
          MapArgString(t);
        }
      case ArgClose =>
        if Now().HasTool() && closingQuote {
          SetTarget(Now().ArgsTarget() + "\"");
          closingQuote := false;
        }
      case ToolClose =>
        if Now().HasTool() {
          MapClose();
        }
    }

    method MapArgName(text: string)
      requires Now().HasTool()
      modifies this
      ensures Now() == Apply(old(Now()), ArgName(text))
    {
      hide Escape, TrimTrailing, Trim;
      var argEntry := "";
      if argCount > 0 {
        argEntry := ",";
      }
      argEntry := argEntry + Quoted(Trim(text)) + ":";
      argCount := argCount + 1;
      var target := Now().ArgsTarget();
      if target == "" {
        target := "{";
      }
      SetTarget(target + argEntry);
    }

    method MapArgString(text: string)
      requires Now().HasTool()
      modifies this
      ensures Now() == Apply(old(Now()), ArgString(text))
    {
      hide Escape;
      var value := "";
      if text == "" {
        value := "\"";
        closingQuote := true;
      } else {
        if !closingQuote {
          value := "\"";
          closingQuote := true;
        }
        value := value + Escape(text);
      }
      SetTarget(Now().ArgsTarget() + value);
    }

    /** Maps a whole tree: the visible message is that of the run of events. */
    method FromAst(es: seq<Event>) returns (msg: Message)
      requires Now() == INITIAL
      modifies this
      ensures msg == Visible(ApplyAll(INITIAL, es))
    {
      var i := 0;
      while i < |es|
        invariant i <= |es| && Now().Valid() && ApplyAll(INITIAL, es) == ApplyAll(Now(), es[i..])
      {
        Seqs.DropCons(es, i);
        Map(es[i]);
        i := i + 1;
      }
      if pending.Some? && pending.value.name != "" {
        var tool := pending.value;
        if buffer != "" {
          tool := tool.(arguments := buffer);
        }
        if closingQuote && tool.arguments != "" {
          tool := tool.(arguments := tool.arguments + "\"");
        }
        msg := Message(content, reasoning, calls + [tool]);
      } else {
        Seqs.AppendNothing(calls, []);
        msg := Message(content, reasoning, calls);
      }
      if msg.reasoning != "" && IsBlank(msg.reasoning) {
        msg := msg.(reasoning := "");
      }
    }
  }
}
