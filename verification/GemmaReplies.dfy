/** Whole replies as Gemma 4 writes them, and the message that comes of each: its
    reasoning, its content and its calls, every one with its arguments as JSON. */
module GemmaReplies {
  import Seqs
  import opened Wrappers
  import opened JsonText
  import opened JsonReader
  import opened ToolCalls
  import opened Gemma4
  import opened Gemma4Parser
  import opened Gemma4Reply
  import opened GemmaWritten
  import opened GemmaCuts

  /** Some empty channels, then a thought after white space; without one, neither. */
  datatype Thought = Thought(empty: nat, gap: string, text: string)

  datatype Turn = Turn(thought: Option<Thought>, content: string)

  datatype Called = Called(name: string, args: Gemma)

  datatype UnderWay = UnderWay(name: string, args: Cut)

  /** What ends a reply, or where it is cut: its content, a thought that has not come
      to its end, or calls, the last of them perhaps in the middle of its dict. */
  datatype End = Here | Thinking(thought: Thought) | Calling(calls: seq<Called>, last: Option<UnderWay>)

  datatype Reply = Reply(marked: bool, turns: seq<Turn>, end: End)

  predicate IsThought(t: Thought) {
    AllSpace(t.gap) && IsFreeOf(t.text, REASONING_ENDS) && (t.text != "" ==> !Gemma4Parser.IsSpace(t.text[0]))
  }

  /** Only the first turn may do without a thought. */
  predicate IsTurn(t: Turn, first: bool) {
    IsFreeOf(t.content, CONTENT_ENDS) && if t.thought.Some? then IsThought(t.thought.value) else first && t.content != ""
  }

  predicate AreTurns(ts: seq<Turn>) {
    forall i :: 0 <= i < |ts| ==> IsTurn(ts[i], i == 0)
  }

  predicate IsCalled(c: Called, names: seq<string>) {
    c.name in names && IsWritten(c.args) && c.args.Group? && c.args.dict
  }

  predicate IsUnderWay(u: UnderWay, names: seq<string>) {
    u.name in names && IsCut(u.args) && (u.args.OpenKey? || (u.args.OpenGroup? && u.args.dict))
  }

  predicate AreCalls(cs: seq<Called>, last: Option<UnderWay>, g: Grammar, first: bool) {
    (forall i :: 0 <= i < |cs| ==> IsCalled(cs[i], g.names)) && (last.Some? ==> IsUnderWay(last.value, g.names)) &&
    var n := |cs| + if last.Some? then 1 else 0;
    (first ==> n > 0) && (n > (if first then 1 else 0) ==> g.parallel)
  }

  predicate IsEnd(e: End, ts: seq<Turn>, g: Grammar) {
    match e
    case Here => ts == [] || IsSettled(ts[|ts| - 1].content, CONTENT_ENDS)
    case Thinking(t) => IsThought(t) && t.text != "" && IsSettled(t.text, REASONING_ENDS)
    case Calling(cs, last) => AreCalls(cs, last, g, true)
  }

  predicate IsReply(r: Reply, g: Grammar) {
    AreTurns(r.turns) && IsEnd(r.end, r.turns, g) && (r.marked || IsUnmarked(ShowTurns(r.turns) + ShowEnd(r.end)))
  }

  /** What cannot be taken for the mark of a turn, nor for a part of it. */
  predicate IsUnmarked(s: string) {
    s == "" || (!("<|turn>model\n" <= s) && !(s <= "<|turn>model\n"))
  }

  // The text

  function ShowEmpty(n: nat): string {
    if n == 0 then "" else "<|channel>" + ShowEmpty(n - 1)
  }

  /** A thought up to the end of its text. */
  function ShowOpen(t: Thought): string {
    "<|channel>thought" + (t.gap + t.text)
  }

  function ShowTurn(t: Turn): string {
    (if t.thought.Some? then ShowEmpty(t.thought.value.empty) + (ShowOpen(t.thought.value) + "<channel|>") else "") + t.content
  }

  function ShowTurns(ts: seq<Turn>): string {
    if ts == [] then "" else ShowTurn(ts[0]) + ShowTurns(ts[1..])
  }

  function ShowCall(c: Called): string {
    "<|tool_call>call:" + (c.name + (Show(c.args) + "<tool_call|>"))
  }

  function ShowCalls(cs: seq<Called>): string {
    if cs == [] then "" else ShowCall(cs[0]) + ShowCalls(cs[1..])
  }

  function ShowLast(last: Option<UnderWay>): string {
    if last.None? then "" else "<|tool_call>call:" + (last.value.name + ShowCut(last.value.args))
  }

  function ShowEnd(e: End): string {
    match e
    case Here => ""
    case Thinking(t) => ShowEmpty(t.empty) + ShowOpen(t)
    case Calling(cs, last) => ShowCalls(cs) + ShowLast(last)
  }

  function ShowReply(r: Reply): string {
    (if r.marked then "<|turn>model\n" else "") + (ShowTurns(r.turns) + ShowEnd(r.end))
  }

  // The message

  /** Reasoning that is not kept apart is shown as it was written. */
  function ContentOfTurn(t: Turn, extract: bool): string {
    if t.thought.Some? && !extract then ShowOpen(t.thought.value) + "<channel|>" + t.content else t.content
  }

  function Contents(ts: seq<Turn>, extract: bool): string {
    if ts == [] then "" else ContentOfTurn(ts[0], extract) + Contents(ts[1..], extract)
  }

  function Thoughts(ts: seq<Turn>): string {
    if ts == [] then "" else (if ts[0].thought.Some? then ts[0].thought.value.text else "") + Thoughts(ts[1..])
  }

  function Made(cs: seq<Called>, last: Option<UnderWay>): seq<ToolCall> {
    if cs != [] then [ToolCall(cs[0].name, AsJson(cs[0].args), "")] + Made(cs[1..], last)
    else if last.Some? then [ToolCall(last.value.name, CutAsJson(last.value.args), "")]
    else []
  }

  function MessageMeant(r: Reply, extract: bool): Message {
    Message(Contents(r.turns, extract) + (if r.end.Thinking? && !extract then ShowOpen(r.end.thought) else ""),
            if extract then Thoughts(r.turns) + (if r.end.Thinking? then r.end.thought.text else "") else "",
            if r.end.Calling? then Made(r.end.calls, r.end.last) else [])
  }

  // Words

  lemma OurWords()
    ensures AreDelimiters(CONTENT_ENDS) && AreDelimiters(REASONING_ENDS) && AreDelimiters(TOOL_CALLS)
  {
  }

  lemma WordEnds(words: seq<string>, i: nat, rest: string)
    requires i < |words| && AreDelimiters(words)
    ensures Ends(words, words[i] + rest) && words[i] + rest != "" && (words[i] + rest)[0] == '<'
  {
    assert words[i] <= words[i] + rest;
  }

  // Thoughts

  /** The empty channels before a thought are passed over. */
  lemma {:induction false} ChannelsPassed(n: nat, s: string)
    requires Literal(CHANNEL + THOUGHT, s).To?
    ensures Channels(ShowEmpty(n) + s) == To(s)
    decreases n
  {
    hide ShowEmpty, Literal;
    if n == 0 {
      assert ShowEmpty(0) + s == s by { NoneEmpty(); }
      ChannelThought(s);
    } else {
      var more := ShowEmpty(n - 1) + s;
      assert ShowEmpty(n) + s == CHANNEL + more by { OneEmpty(n); }
      ChannelsPassed(n - 1, s);
      WordTaken(CHANNEL, more);
      MoreStarts(n - 1, s);
      OtherSign(THOUGHT, more);
    }
  }

  lemma NoneEmpty()
    ensures ShowEmpty(0) == ""
  {
  }

  lemma OneEmpty(n: nat)
    requires n > 0
    ensures ShowEmpty(n) == CHANNEL + ShowEmpty(n - 1)
  {
  }

  lemma ChannelThought(s: string)
    requires Literal(CHANNEL + THOUGHT, s).To?
    ensures Channels(s) == To(s) && s != "" && s[0] == '<' && Literal(CHANNEL, s).To?
  {
    var word := CHANNEL + THOUGHT;
    assert s[..|word|] == word;
    assert CHANNEL <= s && s[|CHANNEL|..][..|THOUGHT|] == THOUGHT;
  }

  lemma MoreStarts(n: nat, s: string)
    requires Literal(CHANNEL + THOUGHT, s).To?
    ensures ShowEmpty(n) + s != "" && (ShowEmpty(n) + s)[0] == '<' && Literal(CHANNEL, ShowEmpty(n) + s).To?
  {
    hide ShowEmpty, Literal, Channels;
    if n == 0 {
      ChannelThought(s);
      assert ShowEmpty(n) + s == s by { NoneEmpty(); }
    } else {
      var more := ShowEmpty(n - 1) + s;
      assert ShowEmpty(n) + s == CHANNEL + more by { OneEmpty(n); }
      WordTaken(CHANNEL, more);
    }
  }

  lemma GapSkipped(t: Thought, rest: string)
    requires IsThought(t) && (rest == "" || rest[0] == '<')
    ensures SkipSpace(t.gap + (t.text + rest)) == t.text + rest
  {
    hide IsFreeOf;
    if t.text == "" {
      assert t.text + rest == rest;
    }
    SpaceSkipped(t.gap, t.text + rest);
  }

  lemma ReasoningRead(text: string, rest: string)
    requires IsFreeOf(text, REASONING_ENDS)
    ensures Reasoned(text + ("<channel|>" + rest)) == (Tagged(ReasoningTag, text, [], "", false), To(rest))
  {
    hide Until, IsFreeOf, Literal, AreDelimiters, Ends;
    var end := CHANNEL_END + rest;
    OurWords();
    assert REASONING_ENDS[0] == CHANNEL_END;
    WordEnds(REASONING_ENDS, 0, rest);
    TextTaken(text, REASONING_ENDS, end);
    Seqs.Border(text, end);
    WordTaken(CHANNEL_END, rest);
    BeforeRest(text, end);
    assert text[..|text|] == text;
  }

  /** What a thought that is over becomes. */
  lemma ThoughtRead(g: Grammar, t: Thought, rest: string)
    requires IsThought(t)
    ensures var s := ShowOpen(t) + "<channel|>";
      var reasoning := Tagged(ReasoningTag, t.text, [], "", false);
      Gemma4Reply.Thought(g, ShowEmpty(t.empty) + (s + rest)) ==
      Done([RuleNode(OtherRule("thought"), s, [if g.extract then reasoning else Tagged(ContentTag, s, [], "", false)], "", false)], rest)
  {
    hide Channels, Literal, Reasoned, SkipSpace, IsFreeOf, ShowEmpty, Block, ShowOpen;
    var s := ShowOpen(t) + "<channel|>";
    var word, end := CHANNEL + THOUGHT, CHANNEL_END + rest;
    var inside := t.gap + (t.text + end);
    var all := s + rest;
    assert all == word + inside by { OpenText(t, rest); }
    WordTaken(word, inside);
    MoreStarts(t.empty, all);
    ChannelsPassed(t.empty, all);
    GapSkipped(t, end);
    ReasoningRead(t.text, rest);
    BlockUnfold(g, all, inside);
    BeforeRest(s, rest);
    assert s[..|s|] == s;
  }

  lemma OpenText(t: Thought, rest: string)
    ensures ShowOpen(t) + "<channel|>" + rest == "<|channel>thought" + (t.gap + (t.text + ("<channel|>" + rest)))
  {
  }

  lemma ReasoningUnderWay(text: string)
    requires text != "" && IsSettled(text, REASONING_ENDS)
    ensures Reasoned(text) == (Tagged(ReasoningTag, text, [], "", true), Open)
  {
    hide Until, IsSettled;
    SettledTaken(text, REASONING_ENDS);
    assert text[|text|..] == "" && text[..|text|] == text;
  }

  /** What a thought becomes that may still go on. */
  lemma ThoughtUnderWay(g: Grammar, t: Thought)
    requires IsThought(t) && t.text != "" && IsSettled(t.text, REASONING_ENDS)
    ensures var s := ShowOpen(t);
      var reasoning := Tagged(ReasoningTag, t.text, [], "", true);
      Gemma4Reply.Thought(g, ShowEmpty(t.empty) + s) ==
      More([RuleNode(OtherRule("thought"), s, [if g.extract then reasoning else Tagged(ContentTag, s, [], "", true)], "", true)])
  {
    hide Channels, Literal, Reasoned, SkipSpace, IsFreeOf, ShowEmpty, IsSettled, Block;
    var s := ShowOpen(t);
    var word := CHANNEL + THOUGHT;
    var inside := t.gap + t.text;
    assert s == word + inside;
    WordTaken(word, inside);
    MoreStarts(t.empty, s);
    ChannelsPassed(t.empty, s);
    Seqs.AppendNothing(t.text, "");
    GapSkipped(t, "");
    ReasoningUnderWay(t.text);
    BlockUnfold(g, s, inside);
  }

  // What the nodes show

  lemma ShownThought(m: Message, g: Grammar, s: string, text: string, partial: bool)
    ensures var node := RuleNode(OtherRule("thought"), s,
        [if g.extract then Tagged(ReasoningTag, text, [], "", partial) else Tagged(ContentTag, s, [], "", partial)], "", partial);
      VisitedAll(m, [node]) ==
      if g.extract then m.(reasoning := m.reasoning + text) else m.(content := m.content + s)
  {
    var leaf := if g.extract then Tagged(ReasoningTag, text, [], "", partial) else Tagged(ContentTag, s, [], "", partial);
    var node := RuleNode(OtherRule("thought"), s, [leaf], "", partial);
    assert text[..|text|] == text && s[..|s|] == s;
    assert Visited(m, node) == VisitedFrom(m, node, 0);
    assert VisitedFrom(m, node, 0) == VisitedFrom(Visited(m, leaf), node, 1);
    OnlyOne(m, node);
  }

  lemma ShownContent(m: Message, s: string, partial: bool)
    ensures Visited(m, ContentRule(s, "", partial)) == m.(content := m.content + s)
  {
    var leaf := Tagged(ContentTag, s, [], "", partial);
    var node := ContentRule(s, "", partial);
    assert s[..|s|] == s;
    assert VisitedFrom(m, node, 0) == VisitedFrom(Visited(m, leaf), node, 1);
  }

  /** A node that only holds others shows what they show. */
  lemma ShownWithin(m: Message, name: string, s: string, children: seq<Node>, rest: string, partial: bool)
    requires |rest| <= |s|
    ensures Visited(m, RuleNode(OtherRule(name), s, children, rest, partial)) == VisitedAll(m, children)
  {
    hide VisitedFrom;
    var node := RuleNode(OtherRule(name), s, children, rest, partial);
    VisitedFromAll(m, node, 0);
    assert children[0..] == children;
  }

  // Messages

  lemma NotAWord(words: seq<string>, i: nat, s: string)
    requires i < |words| && !MayEnd(words, s)
    ensures Literal(words[i], s).Stuck? && s != ""
  {
  }

  /** Something that ends content, or the end of the input and content that no word
      may have begun in. */
  predicate EndsContent(content: string, rest: string) {
    if rest == "" then IsSettled(content, CONTENT_ENDS) else rest[0] == '<' && Ends(CONTENT_ENDS, rest)
  }

  lemma NoThoughtHere(g: Grammar, content: string, rest: string)
    requires content != "" && IsFreeOf(content, CONTENT_ENDS) && EndsContent(content, rest)
    ensures Gemma4Reply.Thought(g, content + rest) == Done([], content + rest)
  {
    hide Channels, Block, MayEnd, IsFreeOf, Literal, Ends, IsSettled;
    OurWords();
    if rest == "" {
      Seqs.AppendNothing(content, rest);
      SettledNow(content);
    } else {
      NotBefore(content, CONTENT_ENDS, rest);
    }
    assert CONTENT_ENDS[0] == CHANNEL;
    NotAWord(CONTENT_ENDS, 0, content + rest);
  }

  lemma SettledNow(content: string)
    requires content != "" && IsSettled(content, CONTENT_ENDS)
    ensures !MayEnd(CONTENT_ENDS, content)
  {
    hide MayEnd;
    assert content[0..] == content;
  }

  lemma ContentRead(content: string, rest: string)
    requires IsFreeOf(content, CONTENT_ENDS) && EndsContent(content, rest)
    ensures Gemma4Reply.ContentOf(content + rest) ==
      if rest == "" then More(ContentRule(content, "", true)) else Done(ContentRule(content, "", false), rest)
  {
    hide Until, IsFreeOf, Ends, IsSettled, MayEnd;
    OurWords();
    if rest == "" {
      Seqs.AppendNothing(content, rest);
      SettledTaken(content, CONTENT_ENDS);
    } else {
      TextTaken(content, CONTENT_ENDS, rest);
    }
    Seqs.Border(content, rest);
    BeforeRest(content, rest);
    assert content[..|content|] == content;
  }

  function ThoughtNodes(g: Grammar, t: Turn): seq<Node> {
    if t.thought.None? then []
    else
      var s := ShowOpen(t.thought.value) + "<channel|>";
      var reasoning := Tagged(ReasoningTag, t.thought.value.text, [], "", false);
      [RuleNode(OtherRule("thought"), s, [if g.extract then reasoning else Tagged(ContentTag, s, [], "", false)], "", false)]
  }

  lemma TurnThought(g: Grammar, t: Turn, first: bool, rest: string)
    requires IsTurn(t, first) && EndsContent(t.content, rest)
    ensures Gemma4Reply.Thought(g, ShowTurn(t) + rest) == Done(ThoughtNodes(g, t), t.content + rest)
  {
    hide IsThought, ShowEmpty, ShowOpen, IsFreeOf, EndsContent, Gemma4Reply.Thought, RuleNode, Tagged;
    if t.thought.Some? {
      var th := t.thought.value;
      assert ShowTurn(t) + rest == ShowEmpty(th.empty) + ((ShowOpen(th) + "<channel|>") + (t.content + rest));
      ThoughtRead(g, th, t.content + rest);
    } else {
      assert ShowTurn(t) == t.content;
      NoThoughtHere(g, t.content, rest);
    }
  }

  /** A message: it is all taken, and shows its reasoning and its content. */
  lemma TurnRead(g: Grammar, t: Turn, first: bool, rest: string, m: Message)
    requires IsTurn(t, first) && EndsContent(t.content, rest)
    ensures var r := ParseMessage(g, ShowTurn(t) + rest);
      !r.Failed? && (r.More? <==> rest == "") && (r.Done? ==> r.rest == rest) &&
      Visited(m, r.value) ==
        Message(m.content + ContentOfTurn(t, g.extract),
                m.reasoning + (if t.thought.Some? && g.extract then t.thought.value.text else ""), m.calls)
  {
    hide Gemma4Reply.Thought, Gemma4Reply.ContentOf, ShowTurn, IsFreeOf, EndsContent, ContentRule, ThoughtNodes, Visited;
    var s := ShowTurn(t) + rest;
    TurnThought(g, t, first, rest);
    ContentRead(t.content, rest);
    MessageUnfold(g, s);
    var children := ThoughtNodes(g, t) + [ContentRule(t.content, "", rest == "")];
    ShownWithin(m, "message", s, children, rest, rest == "");
    ChildrenShown(g, t, m, rest == "");
  }

  lemma ChildrenShown(g: Grammar, t: Turn, m: Message, partial: bool)
    ensures VisitedAll(m, ThoughtNodes(g, t) + [ContentRule(t.content, "", partial)]) ==
      Message(m.content + ContentOfTurn(t, g.extract),
              m.reasoning + (if t.thought.Some? && g.extract then t.thought.value.text else ""), m.calls)
  {
    hide VisitedAll, Visited, ShowOpen, RuleNode, Tagged, ContentRule;
    var content := ContentRule(t.content, "", partial);
    VisitedAllAppend(m, ThoughtNodes(g, t), [content]);
    Seqs.AppendNothing(m.reasoning, "");
    var q := VisitedAll(m, ThoughtNodes(g, t));
    if t.thought.Some? {
      var s := ShowOpen(t.thought.value) + "<channel|>";
      ShownThought(m, g, s, t.thought.value.text, false);
      Seqs.Associative(m.content, s, t.content);
    } else {
      NoneVisited(m);
    }
    OnlyOne(q, content);
    ShownContent(q, t.content, partial);
  }

  // Calls

  lemma ShownTool(m: Message, name: string, s: string, after: string, dict: Node, rest: string, partial: bool)
    requires |rest| <= |after| && s == name + after
    ensures Visited(m, WholeTool(name, s, after, dict, rest, partial)) ==
      m.(calls := m.calls + [ToolCall(name, Render(dict), "")])
  {
    hide Render;
    var n := WholeTool(name, s, after, dict, rest, partial);
    var tool := n.children[0];
    BeforeRest(name, after);
    OneCallOf(tool);
    assert VisitedFrom(m, n, 0) == VisitedFrom(Visited(m, tool), n, 1);
  }

  lemma DictStarts(c: Called, rest: string)
    requires IsWritten(c.args) && c.args.Group? && c.args.dict
    ensures var after := Show(c.args) + rest; after != "" && after[0] == '{'
  {
    hide ShowItems, IsItem;
  }

  lemma NamedToolRead(c: Called, rest: string, m: Message)
    requires IsWritten(c.args) && c.args.Group? && c.args.dict
    ensures var r := NamedTool(c.name, c.name + (Show(c.args) + rest));
      r.Done? && r.rest == rest && Visited(m, r.value) == m.(calls := m.calls + [ToolCall(c.name, AsJson(c.args), "")])
  {
    hide ParseDict, Show, AsJson, IsWritten, Render, Visited, WholeTool, Literal;
    var after := Show(c.args) + rest;
    var s := c.name + after;
    WordTaken(c.name, after);
    DictStarts(c, rest);
    ToolUnfold(c.name, s, after);
    WrittenIsShown(c.args, rest);
    ShownTool(m, c.name, s, after, ParseDict(after).value, rest, false);
  }

  /** The tool that is named is found, wherever it is among the others. */
  lemma {:induction false} ToolFound(names: seq<string>, name: string, s: string)
    requires NamesFit(names) && name in names && '{' !in name && Opened(name, s) && !NamedTool(name, s).Failed?
    ensures AnyTool(names, s) == NamedTool(name, s)
    decreases |names|
  {
    hide NamedTool, Opened;
    if names[0] != name {
      OtherNameFails(name, names[0], s);
      assert name in names[1..];
      ToolFound(names[1..], name, s);
    }
  }

  lemma CallRead(g: Grammar, c: Called, rest: string, m: Message)
    requires NamesFit(g.names) && IsCalled(c, g.names)
    ensures var r := Call(g, ShowCall(c) + rest);
      r.Done? && r.rest == rest && VisitedAll(m, r.value) == m.(calls := m.calls + [ToolCall(c.name, AsJson(c.args), "")])
  {
    hide Show, AsJson, IsWritten, Visited, VisitedAll, Literal, AnyTool, NamedTool;
    var after := CALL_CLOSE + rest;
    var inside := c.name + (Show(c.args) + after);
    assert ShowCall(c) + rest == CALL_OPEN + inside;
    WordTaken(CALL_OPEN, inside);
    WordTaken(CALL_CLOSE, rest);
    NamedToolRead(c, after, m);
    DictStarts(c, after);
    Seqs.Border(c.name, Show(c.args) + after);
    assert Opened(c.name, inside);
    ToolFound(g.names, c.name, inside);
    OnlyOne(m, NamedTool(c.name, inside).value);
  }

  lemma CutStartsDict(c: Cut)
    requires IsCut(c) && (c.OpenKey? || (c.OpenGroup? && c.dict))
    ensures ShowCut(c) != "" && ShowCut(c)[0] == '{'
  {
    hide ShowBefore, GemmaCuts.ShowLast, AreItems;
  }

  lemma ToolUnderWay(u: UnderWay, m: Message)
    requires IsCut(u.args) && (u.args.OpenKey? || (u.args.OpenGroup? && u.args.dict))
    ensures var r := NamedTool(u.name, u.name + ShowCut(u.args));
      r.More? && Visited(m, r.value) == m.(calls := m.calls + [ToolCall(u.name, CutAsJson(u.args), "")])
  {
    hide ParseDict, ShowCut, CutAsJson, IsCut, Render, Visited, WholeTool, Literal, Alternatives;
    var after := ShowCut(u.args);
    var s := u.name + after;
    WordTaken(u.name, after);
    CutStartsDict(u.args);
    ToolUnfold(u.name, s, after);
    CutIsShown(u.args);
    ShownTool(m, u.name, s, after, ParseDict(after).value, "", true);
  }

  /** A call whose dict is still being written is shown with what has come of it. */
  lemma CallUnderWay(g: Grammar, u: UnderWay, m: Message)
    requires NamesFit(g.names) && IsUnderWay(u, g.names)
    ensures var r := Call(g, ShowLast(Some(u)));
      r.More? && VisitedAll(m, r.value) == m.(calls := m.calls + [ToolCall(u.name, CutAsJson(u.args), "")])
  {
    hide ShowCut, CutAsJson, IsCut, Visited, VisitedAll, Literal, AnyTool, NamedTool;
    var inside := u.name + ShowCut(u.args);
    WordTaken(CALL_OPEN, inside);
    ToolUnderWay(u, m);
    CutStartsDict(u.args);
    Seqs.Border(u.name, ShowCut(u.args));
    assert Opened(u.name, inside);
    ToolFound(g.names, u.name, inside);
    OnlyOne(m, NamedTool(u.name, inside).value);
  }

  lemma {:induction false} CallsRead(g: Grammar, cs: seq<Called>, last: Option<UnderWay>, first: bool, m: Message)
    requires NamesFit(g.names) && AreCalls(cs, last, g, first)
    ensures var r := Calls(g, ShowCalls(cs) + ShowLast(last), first);
      (if last.None? then r.Done? && r.rest == "" else r.More?) &&
      VisitedAll(m, r.value) == m.(calls := m.calls + Made(cs, last))
    decreases |cs|
  {
    hide Call, AsJson, IsCalled, VisitedAll, ShowCall, ShowLast, IsUnderWay, CutAsJson;
    if cs == [] {
      Seqs.AppendNothing(ShowLast(last), ShowCalls(cs));
      if last.None? {
        NoneVisited(m);
        Seqs.AppendNothing(m.calls, Made(cs, last));
        assert ShowLast(last) == "" by { NoLast(); }
      } else {
        CallUnderWay(g, last.value, m);
        LastNotEmpty(last.value);
      }
    } else {
      var c, rest := cs[0], ShowCalls(cs[1..]) + ShowLast(last);
      assert ShowCalls(cs) + ShowLast(last) == ShowCall(c) + rest;
      CallRead(g, c, rest, m);
      CallNotEmpty(c, rest);
      var q := m.(calls := m.calls + [ToolCall(c.name, AsJson(c.args), "")]);
      CallsRead(g, cs[1..], last, false, q);
      VisitedAllAppend(m, Call(g, ShowCall(c) + rest).value, Calls(g, rest, false).value);
      Seqs.Associative(m.calls, [ToolCall(c.name, AsJson(c.args), "")], Made(cs[1..], last));
    }
  }

  lemma NoLast()
    ensures ShowLast(None) == ""
  {
  }

  lemma LastNotEmpty(u: UnderWay)
    ensures var s := ShowLast(Some(u)); s != "" && TOOL_CALL <= s && s[0] == '<'
  {
    hide ShowCut;
    assert ShowLast(Some(u)) == "<|tool_call>" + ("call:" + (u.name + ShowCut(u.args)));
  }

  /** The calls begin with the word for a call. */
  lemma CallsStart(cs: seq<Called>, last: Option<UnderWay>)
    requires cs != [] || last.Some?
    ensures var s := ShowCalls(cs) + ShowLast(last); s != "" && TOOL_CALL <= s && s[0] == '<'
  {
    hide ShowCall, ShowLast;
    if cs == [] {
      Seqs.AppendNothing(ShowLast(last), ShowCalls(cs));
      LastNotEmpty(last.value);
    } else {
      assert ShowCalls(cs) + ShowLast(last) == ShowCall(cs[0]) + (ShowCalls(cs[1..]) + ShowLast(last));
      CallNotEmpty(cs[0], ShowCalls(cs[1..]) + ShowLast(last));
    }
  }

  lemma CallNotEmpty(c: Called, rest: string)
    ensures ShowCall(c) + rest != "" && TOOL_CALL <= ShowCall(c) + rest && (ShowCall(c) + rest)[0] == '<'
  {
    var s := ShowCall(c) + rest;
    assert s == "<|tool_call>" + ("call:" + (c.name + (Show(c.args) + "<tool_call|>")) + rest);
  }

  /** Where the calls begin no message takes anything. */
  lemma NoMessageHere(g: Grammar, s: string)
    requires TOOL_CALL <= s && s != "" && s[0] == '<'
    ensures ParseMessage(g, s).Done? && ParseMessage(g, s).rest == s && Until(TOOL_CALLS, s) == 0
  {
    hide Gemma4Reply.Thought, Gemma4Reply.ContentOf, Until, Ends;
    assert CONTENT_ENDS[2] == TOOL_CALL && TOOL_CALLS[0] == TOOL_CALL;
    WordHere(CONTENT_ENDS, 2, s);
    WordHere(TOOL_CALLS, 0, s);
    NothingUntil(CONTENT_ENDS, s);
    NothingUntil(TOOL_CALLS, s);
    NoChannelHere(g, s);
    assert s[0..] == s;
    MessageUnfold(g, s);
    NothingTaken(s);
  }

  lemma NothingUntil(words: seq<string>, s: string)
    requires Ends(words, s)
    ensures Until(words, s) == 0
  {
    hide Ends;
  }

  lemma NothingTaken(s: string)
    requires s != "" && Until(CONTENT_ENDS, s) == 0
    ensures var r := Gemma4Reply.ContentOf(s); r.Done? && r.rest == s
  {
    hide Until;
    assert s[0..] == s;
  }

  lemma NoChannelHere(g: Grammar, s: string)
    requires TOOL_CALL <= s
    ensures Gemma4Reply.Thought(g, s) == Done([], s)
  {
    hide Channels, Block;
    assert s[2] == TOOL_CALL[2] && CHANNEL[2] == 'c';
    assert Literal(CHANNEL, s).Stuck? by { assert !(CHANNEL <= s) && !(s <= CHANNEL); }
  }

  /** Where one call is allowed the text behind it is left, calls and all. */
  lemma OnlyOneCall(g: Grammar, c: Called, rest: string, m: Message)
    requires NamesFit(g.names) && IsCalled(c, g.names) && !g.parallel
    ensures var r := Calls(g, ShowCall(c) + rest, true);
      r.Done? && r.rest == rest && VisitedAll(m, r.value) == m.(calls := m.calls + [ToolCall(c.name, AsJson(c.args), "")])
  {
    hide Call, AsJson, IsCalled, VisitedAll, ShowCall;
    CallNotEmpty(c, rest);
    CallRead(g, c, rest, m);
    var call := Call(g, ShowCall(c) + rest).value;
    Seqs.AppendNothing(call, []);
    assert Calls(g, rest, false) == Done([], rest);
  }

  /** The word for a call without a call behind it: the reply does not match if a
      call is required, and shows nothing otherwise. */
  lemma NoCallHere(g: Grammar, text: string, m: Message)
    requires text != "" && text[0] != 'c'
    ensures var r := Body(g, "<|tool_call>" + text);
      (r.Failed? <==> g.required) && (!g.required ==> r.Done? && r.rest == "<|tool_call>" + text && VisitedAll(m, r.value) == m)
  {
    hide Until, ParseMessage, VisitedAll, Visited, AnyTool;
    var s := "<|tool_call>" + text;
    assert TOOL_CALL <= s && s[0] == '<' && s[|TOOL_CALL|] == text[0];
    assert Literal(CALL_OPEN, s).Stuck? by { assert CALL_OPEN[|TOOL_CALL|] == 'c'; }
    assert Calls(g, s, true) == if g.required then Failed else Done([], s);
    NoMessageHere(g, s);
    ScanUnfold(g, s);
    assert s[0..] == s;
    if !g.required {
      var scan, calls := ScanNode(s, s), CallsNode(s, [], s, false);
      ShownWithin(m, "scan-to-toolcall", s, [], s, false);
      NoneVisited(m);
      OnlyOne(m, scan);
      VisitedAllAppend(m, [scan], [calls]);
      ShownWithin(m, "tool-call", s, [], s, false);
      OnlyOne(m, calls);
      assert [scan] + [calls] == [scan, calls];
    }
  }

  // Replies

  predicate AreTurnsFrom(ts: seq<Turn>, first: bool) {
    forall i :: 0 <= i < |ts| ==> IsTurn(ts[i], first && i == 0)
  }

  function EndMeant(e: End, extract: bool): Message {
    Message(if e.Thinking? && !extract then ShowOpen(e.thought) else "",
            if e.Thinking? && extract then e.thought.text else "",
            if e.Calling? then Made(e.calls, e.last) else [])
  }

  function Plus(a: Message, b: Message): Message {
    Message(a.content + b.content, a.reasoning + b.reasoning, a.calls + b.calls)
  }

  lemma EndRead(g: Grammar, e: End, ts: seq<Turn>, m: Message)
    requires NamesFit(g.names) && IsEnd(e, ts, g)
    ensures var r := Body(g, ShowEnd(e)); !r.Failed? && VisitedAll(m, r.value) == Plus(m, EndMeant(e, g.extract))
  {
    hide VisitedAll, ShowOpen, ShowEmpty, Made, Calls, ParseMessage, IsThought, AreCalls, IsSettled, ShowCalls, ShowLast;
    Seqs.AppendNothing(m.content, "");
    Seqs.AppendNothing(m.reasoning, "");
    Seqs.AppendNothing(m.calls, []);
    match e
    case Here => NothingRead(g, m);
    case Thinking(t) => ThinkingRead(g, t, m);
    case Calling(cs, last) =>
      CallsRead(g, cs, last, true, m);
      assert cs != [] || last.Some? by { NotNone(g, cs, last); }
      CallingRead(g, cs, last, m);
  }

  lemma NothingRead(g: Grammar, m: Message)
    ensures Body(g, "").More? && VisitedAll(m, Body(g, "").value) == m
  {
    var scan := ScanNode("", "");
    assert Until(TOOL_CALLS, "") == 0;
    assert Body(g, "") == More([scan]);
    OnlyOne(m, scan);
  }

  lemma ThinkingRead(g: Grammar, t: Thought, m: Message)
    requires IsThought(t) && t.text != "" && IsSettled(t.text, REASONING_ENDS)
    ensures var s := ShowEmpty(t.empty) + ShowOpen(t);
      Body(g, s).More? && VisitedAll(m, Body(g, s).value) ==
      if g.extract then m.(reasoning := m.reasoning + t.text) else m.(content := m.content + ShowOpen(t))
  {
    hide Gemma4Reply.Thought, ShowOpen, ShowEmpty, IsThought, IsSettled, RuleNode, Tagged, VisitedAll, Visited;
    var s := ShowEmpty(t.empty) + ShowOpen(t);
    ThoughtUnderWay(g, t);
    MessageUnfold(g, s);
    OpenNotEmpty(t);
    var leaf := if g.extract then Tagged(ReasoningTag, t.text, [], "", true) else Tagged(ContentTag, ShowOpen(t), [], "", true);
    var thought := [RuleNode(OtherRule("thought"), ShowOpen(t), [leaf], "", true)];
    ShownThought(m, g, ShowOpen(t), t.text, true);
    ShownWithin(m, "message", s, thought, "", true);
    OnlyOne(m, MessageNode(thought, s, "", true));
  }

  lemma OpenNotEmpty(t: Thought)
    ensures ShowEmpty(t.empty) + ShowOpen(t) != ""
  {
    assert |ShowOpen(t)| >= 9;
  }

  lemma NotNone(g: Grammar, cs: seq<Called>, last: Option<UnderWay>)
    requires AreCalls(cs, last, g, true)
    ensures cs != [] || last.Some?
  {
    hide IsCalled, IsUnderWay;
  }

  lemma CallingRead(g: Grammar, cs: seq<Called>, last: Option<UnderWay>, m: Message)
    requires (cs != [] || last.Some?) && !Calls(g, ShowCalls(cs) + ShowLast(last), true).Failed?
    ensures var s := ShowCalls(cs) + ShowLast(last);
      !Body(g, s).Failed? && VisitedAll(m, Body(g, s).value) == VisitedAll(m, Calls(g, s, true).value)
  {
    hide Calls, ShowCalls, ShowLast, ParseMessage, Until, VisitedAll, Visited;
    var s := ShowCalls(cs) + ShowLast(last);
    CallsStart(cs, last);
    NoMessageHere(g, s);
    ScanUnfold(g, s);
    assert s[0..] == s;
    var r := Calls(g, s, true);
    var rest := if r.Done? then r.rest else "";
    var scan, calls := ScanNode(s, s), CallsNode(s, r.value, rest, r.More?);
    ShownWithin(m, "scan-to-toolcall", s, [], s, false);
    NoneVisited(m);
    OnlyOne(m, scan);
    VisitedAllAppend(m, [scan], [calls]);
    ShownWithin(m, "tool-call", s, r.value, rest, r.More?);
    OnlyOne(m, calls);
    assert [scan] + [calls] == [scan, calls];
  }

  /** What follows a turn begins with a word that ends content. */
  lemma NextStarts(g: Grammar, ts: seq<Turn>, e: End, all: seq<Turn>)
    requires AreTurnsFrom(ts, false) && IsEnd(e, all, g)
    ensures var rest := ShowTurns(ts) + ShowEnd(e);
      if ts == [] && e.Here? then rest == "" else rest != "" && rest[0] == '<' && Ends(CONTENT_ENDS, rest)
  {
    hide ShowOpen, ShowCalls, ShowLast, IsThought, AreCalls, IsFreeOf, IsSettled, Ends, ShowEmpty;
    var rest := ShowTurns(ts) + ShowEnd(e);
    if ts != [] {
      var th := ts[0].thought.value;
      ThoughtStarts(th, "<channel|>" + ts[0].content + (ShowTurns(ts[1..]) + ShowEnd(e)));
      assert rest == ShowEmpty(th.empty) + (ShowOpen(th) + ("<channel|>" + ts[0].content + (ShowTurns(ts[1..]) + ShowEnd(e))));
    } else if e.Thinking? {
      ThoughtStarts(e.thought, "");
      Seqs.AppendNothing(ShowOpen(e.thought), "");
      assert rest == ShowEmpty(e.thought.empty) + ShowOpen(e.thought);
    } else if e.Calling? {
      NotNone(g, e.calls, e.last);
      CallsStart(e.calls, e.last);
      assert rest == ShowCalls(e.calls) + ShowLast(e.last);
      assert CONTENT_ENDS[2] == TOOL_CALL;
      WordHere(CONTENT_ENDS, 2, rest);
    }
  }

  lemma WordHere(words: seq<string>, i: nat, s: string)
    requires i < |words| && words[i] <= s
    ensures Ends(words, s)
  {
  }

  lemma ThoughtStarts(t: Thought, rest: string)
    ensures var s := ShowEmpty(t.empty) + (ShowOpen(t) + rest); s != "" && s[0] == '<' && Ends(CONTENT_ENDS, s)
  {
    hide ShowEmpty, Ends, Literal;
    var s := ShowOpen(t) + rest;
    assert s == (CHANNEL + THOUGHT) + (t.gap + t.text + rest);
    WordTaken(CHANNEL + THOUGHT, t.gap + t.text + rest);
    MoreStarts(t.empty, s);
    assert CONTENT_ENDS[0] == CHANNEL;
    assert CHANNEL <= ShowEmpty(t.empty) + s by { TakenIsPrefix(CHANNEL, ShowEmpty(t.empty) + s); }
    WordHere(CONTENT_ENDS, 0, ShowEmpty(t.empty) + s);
  }

  lemma TakenIsPrefix(word: string, s: string)
    requires Literal(word, s).To?
    ensures word <= s
  {
  }

  function TurnsMeant(ts: seq<Turn>, extract: bool): Message {
    Message(Contents(ts, extract), if extract then Thoughts(ts) else "", [])
  }

  lemma {:induction false} TurnsRead(g: Grammar, ts: seq<Turn>, e: End, first: bool, m: Message)
    requires NamesFit(g.names) && AreTurnsFrom(ts, first) && IsEnd(e, ts, g)
    ensures var r := Body(g, ShowTurns(ts) + ShowEnd(e));
      !r.Failed? && VisitedAll(m, r.value) == Plus(Plus(m, TurnsMeant(ts, g.extract)), EndMeant(e, g.extract))
    decreases |ts|
  {
    hide VisitedAll, Visited, ParseMessage, ShowTurn, ShowEnd, EndMeant, ContentOfTurn, IsTurn, EndsContent;
    if ts == [] {
      Seqs.AppendNothing(ShowEnd(e), ShowTurns(ts));
      Seqs.AppendNothing(m.content, "");
      Seqs.AppendNothing(m.reasoning, "");
      Seqs.AppendNothing(m.calls, []);
      EndRead(g, e, ts, m);
    } else {
      var t, rest := ts[0], ShowTurns(ts[1..]) + ShowEnd(e);
      assert AreTurnsFrom(ts[1..], false) by { RestAreTurns(ts, first); }
      assert IsEnd(e, ts[1..], g) by { RestOfEnd(e, ts, g); }
      NextStarts(g, ts[1..], e, ts[1..]);
      assert EndsContent(t.content, rest) by { hide Ends, IsSettled; LastContent(e, ts, g, rest); }
      TurnRead(g, t, first, rest, m);
      TurnNotEmpty(t, first);
      assert ShowTurns(ts) + ShowEnd(e) == ShowTurn(t) + rest;
      var q := Visited(m, ParseMessage(g, ShowTurn(t) + rest).value);
      MeantTogether(m, t, ts[1..], g.extract);
      if rest == "" {
        OnlyOne(m, ParseMessage(g, ShowTurn(t) + rest).value);
        LastMeant(q, e, ts[1..], g.extract);
      } else {
        TurnsRead(g, ts[1..], e, false, q);
        VisitedAllAppend(m, [ParseMessage(g, ShowTurn(t) + rest).value], Body(g, rest).value);
        OnlyOne(m, ParseMessage(g, ShowTurn(t) + rest).value);
      }
    }
  }

  lemma RestAreTurns(ts: seq<Turn>, first: bool)
    requires ts != [] && AreTurnsFrom(ts, first)
    ensures IsTurn(ts[0], first) && AreTurnsFrom(ts[1..], false)
  {
    hide IsTurn;
    forall i | 0 <= i < |ts| - 1 ensures IsTurn(ts[1..][i], false) {
      assert ts[1..][i] == ts[i + 1];
    }
  }

  lemma RestOfEnd(e: End, ts: seq<Turn>, g: Grammar)
    requires ts != [] && IsEnd(e, ts, g)
    ensures IsEnd(e, ts[1..], g)
  {
    hide IsSettled, IsThought, AreCalls;
  }

  lemma LastContent(e: End, ts: seq<Turn>, g: Grammar, rest: string)
    requires ts != [] && IsEnd(e, ts, g) && (rest == "" ==> |ts| == 1 && e.Here?)
    requires rest != "" ==> rest[0] == '<' && Ends(CONTENT_ENDS, rest)
    ensures EndsContent(ts[0].content, rest)
  {
    hide IsThought, AreCalls;
  }

  lemma TurnNotEmpty(t: Turn, first: bool)
    requires IsTurn(t, first)
    ensures ShowTurn(t) != ""
  {
    hide IsFreeOf, IsThought, ShowEmpty;
    if t.thought.Some? {
      assert |ShowOpen(t.thought.value) + "<channel|>"| >= 10;
    }
  }

  lemma LastMeant(m: Message, e: End, ts: seq<Turn>, extract: bool)
    requires ts == [] && e.Here?
    ensures Plus(Plus(m, TurnsMeant(ts, extract)), EndMeant(e, extract)) == m
  {
    Seqs.AppendNothing(m.content, "");
    Seqs.AppendNothing(m.reasoning, "");
    Seqs.AppendNothing(m.calls, []);
  }

  lemma MeantTogether(m: Message, t: Turn, ts: seq<Turn>, extract: bool)
    ensures var q := Message(m.content + ContentOfTurn(t, extract),
        m.reasoning + (if t.thought.Some? && extract then t.thought.value.text else ""), m.calls);
      Plus(m, TurnsMeant([t] + ts, extract)) == Plus(q, TurnsMeant(ts, extract))
  {
    hide ContentOfTurn;
    assert ([t] + ts)[1..] == ts;
    var thought := if t.thought.Some? then t.thought.value.text else "";
    Seqs.Associative(m.content, ContentOfTurn(t, extract), Contents(ts, extract));
    Seqs.Associative(m.reasoning, thought, Thoughts(ts));
    Seqs.AppendNothing(m.reasoning, "");
    Seqs.AppendNothing(m.calls, []);
  }

  /** A reply as Gemma 4 writes it, whole or cut in its content or in a thought: the
      message has just the reasoning, the content and the calls that were written,
      the arguments of each as the JSON text of its dict. */
  lemma ReplyAsWritten(g: Grammar, r: Reply)
    requires NamesFit(g.names) && IsReply(r, g)
    ensures var p := ParseReply(g, ShowReply(r)); !p.Failed? && MessageOf(p.value) == MessageMeant(r, g.extract)
  {
    hide VisitedAll, Visited, VisitedFrom, ShowTurns, ShowEnd, Body, IsEnd, Contents, Thoughts, Made, ShowOpen, IsTurn;
    var text := ShowTurns(r.turns) + ShowEnd(r.end);
    var s := ShowReply(r);
    var start := RuleNode(OtherRule("start"), s, [], text, false);
    assert AreTurnsFrom(r.turns, true);
    ShownWithin(EMPTY_MESSAGE, "start", s, [], text, false);
    NoneVisited(EMPTY_MESSAGE);
    TurnsRead(g, r.turns, r.end, true, EMPTY_MESSAGE);
    StartRead(g, r);
    OnlyOne(EMPTY_MESSAGE, start);
    VisitedAllAppend(EMPTY_MESSAGE, [start], Body(g, text).value);
    MessageOfAll([start] + Body(g, text).value);
    assert Plus(Plus(EMPTY_MESSAGE, TurnsMeant(r.turns, g.extract)), EndMeant(r.end, g.extract)) == MessageMeant(r, g.extract) by {
      SumMeant(r, g.extract);
    }
  }

  lemma SumMeant(r: Reply, extract: bool)
    ensures Plus(Plus(EMPTY_MESSAGE, TurnsMeant(r.turns, extract)), EndMeant(r.end, extract)) == MessageMeant(r, extract)
  {
    hide Contents, Thoughts, Made, ShowOpen;
    var turns, end := TurnsMeant(r.turns, extract), EndMeant(r.end, extract);
    assert turns.calls == [];
    NothingBefore(turns);
    Seqs.AppendNothing(end.calls, turns.calls);
    if extract {
      Seqs.AppendNothing(turns.content, "");
    } else {
      Seqs.AppendNothing(turns.reasoning, "");
    }
  }

  lemma NothingBefore(m: Message)
    ensures Plus(EMPTY_MESSAGE, m) == m
  {
    Seqs.AppendNothing(m.content, "");
    Seqs.AppendNothing(m.reasoning, "");
    Seqs.AppendNothing(m.calls, []);
  }

  /** The mark of a turn is passed over if it is there. */
  lemma StartRead(g: Grammar, r: Reply)
    requires IsReply(r, g)
    ensures var text := ShowTurns(r.turns) + ShowEnd(r.end);
      ParseReply(g, ShowReply(r)) == AllPrepended([RuleNode(OtherRule("start"), ShowReply(r), [], text, false)], Body(g, text))
  {
    hide Body, ShowTurns, ShowEnd, IsEnd, AreTurns;
    var text := ShowTurns(r.turns) + ShowEnd(r.end);
    if r.marked {
      WordTaken(TURN, text);
    } else {
      assert ShowReply(r) == text;
    }
  }
}
