/** The lenient parsing of a whole Gemma 4 reply: messages with reasoning and
    content, and then the tool calls. The messages of longer and longer beginnings
    of a reply grow, unless a call that has been shown is rejected. */
module Gemma4Reply {
  import Seqs
  import opened Wrappers
  import JsonReader
  import opened ToolCalls
  import opened Streaming
  import opened Gemma4
  import opened Gemma4Parser
  import MessageDiff

  const TURN := "<|turn>model\n"
  const CHANNEL := "<|channel>"
  const THOUGHT := "thought"
  const CHANNEL_END := "<channel|>"
  const TOOL_CALL := "<|tool_call>"
  const CALL_OPEN := "<|tool_call>call:"
  const CALL_CLOSE := "<tool_call|>"
  const CONTENT_ENDS := [CHANNEL, CHANNEL_END, TOOL_CALL]
  const REASONING_ENDS := [CHANNEL_END]
  const TOOL_CALLS := [TOOL_CALL]

  /** What the request settles: the names of the tools, whether reasoning is kept
      apart, whether a call is required and whether there may be several. */
  datatype Grammar = Grammar(names: seq<string>, extract: bool, required: bool, parallel: bool)

  /** A node without a rule that is rendered; what it has taken is read only where
      it is tagged. */
  function Tagged(tag: Tag, s: string, children: seq<Node>, rest: string, partial: bool): Node
    requires |rest| <= |s|
  {
    Node(OtherRule(""), tag, s[..|s| - |rest|], children, partial)
  }

  // Messages

  /** Past the channels that hold nothing. */
  function Channels(s: string): (r: Scan)
    ensures !r.Stuck? && (r.To? ==> |r.rest| <= |s|)
    decreases |s|
  {
    if s == "" then To(s)
    else
      match Literal(CHANNEL, s)
      case Stuck => To(s)
      case Open => Open
      case To(rest) =>
        match Literal(THOUGHT, rest)
        case To(_) => To(s)
        case Open => Open
        case Stuck => Channels(rest)
  }

  function ThoughtNode(children: seq<Node>, s: string, rest: string, partial: bool): Node
    requires |rest| <= |s|
  {
    RuleNode(OtherRule("thought"), s, children, rest, partial)
  }

  /** The text up to the end of the channel, and the end itself. */
  function Reasoned(y: string): (r: (Node, Scan))
    ensures r.1.To? ==> |r.1.rest| < |y|
  {
    var n := Until(REASONING_ENDS, y);
    (Tagged(ReasoningTag, y, [], y[n..], n == |y|), if n == |y| then Open else Literal(CHANNEL_END, y[n..]))
  }

  /** The children of a thought. */
  function ThoughtChildren(g: Grammar, s: string, reasoning: Node, rest: string, partial: bool): seq<Node>
    requires |rest| <= |s|
  {
    if g.extract then [reasoning] else [Tagged(ContentTag, s, [], rest, partial)]
  }

  function Block(g: Grammar, s: string): (r: Parsed<seq<Node>>)
    ensures r.Done? ==> |r.rest| < |s|
  {
    match Literal(CHANNEL + THOUGHT, s)
    case Stuck => Failed
    case Open => More([ThoughtNode(if g.extract then [] else [Tagged(ContentTag, s, [], "", true)], s, "", true)])
    case To(inside) =>
      var (reasoning, end) := Reasoned(SkipSpace(inside));
      match end
      case To(rest) => Done([ThoughtNode(ThoughtChildren(g, s, reasoning, rest, false), s, rest, false)], rest)
      case Open => More([ThoughtNode(ThoughtChildren(g, s, reasoning, "", true), s, "", true)])
      case Stuck => Failed
  }

  function Thought(g: Grammar, s: string): (r: Parsed<seq<Node>>)
    ensures r.Done? ==> |r.rest| <= |s|
  {
    match Literal(CHANNEL, s)
    case Stuck => Done([], s)
    case Open => More([])
    case To(_) =>
      match Channels(s)
      case Open => More([])
      case To(rest) => Block(g, rest)
      case Stuck => Failed
  }

  function ContentRule(s: string, rest: string, partial: bool): Node
    requires |rest| <= |s|
  {
    RuleNode(OtherRule("content"), s, [Tagged(ContentTag, s, [], rest, partial)], rest, partial)
  }

  function ContentOf(s: string): (r: Parsed<Node>)
    ensures !r.Failed? && (r.Done? ==> |r.rest| <= |s| && r.rest == s[Until(CONTENT_ENDS, s)..])
  {
    var n := Until(CONTENT_ENDS, s);
    if n == |s| then More(ContentRule(s, s[n..], true)) else Done(ContentRule(s, s[n..], false), s[n..])
  }

  function MessageNode(children: seq<Node>, s: string, rest: string, partial: bool): Node
    requires |rest| <= |s|
  {
    RuleNode(OtherRule("message"), s, children, rest, partial)
  }

  function ParseMessage(g: Grammar, s: string): (r: Parsed<Node>)
    ensures r.Done? ==> |r.rest| <= |s|
  {
    match Thought(g, s)
    case Failed => Failed
    case More(thought) => More(MessageNode(thought, s, "", true))
    case Done(thought, after) =>
      var content := ContentOf(after);
      if content.Done? then Done(MessageNode(thought + [content.value], s, content.rest, false), content.rest)
      else More(MessageNode(thought + [content.value], s, "", true))
  }

  // Calls

  function OpenNode(s: string, after: string): Node
    requires |after| <= |s|
  {
    Tagged(OtherTag("tool-open"), s, [Tagged(NameTag, s, [], after, false)], after, false)
  }

  /** One tool by its name; nothing is kept of an opening that is not whole. */
  function NamedTool(name: string, s: string): (r: Parsed<Node>)
    ensures r.Done? ==> |r.rest| < |s|
  {
    match Literal(name, s)
    case Stuck => Failed
    case Open => More(ToolNode(name, s, [], "", true))
    case To(after) =>
      if after == "" then More(ToolNode(name, s, [], "", true))
      else if after[0] != '{' then Failed
      else
        match ParseDict(after)
        case Failed => Failed
        case More(dict) => More(WholeTool(name, s, after, dict, "", true))
        case Done(dict, rest) => Done(WholeTool(name, s, after, dict, rest, false), rest)
  }

  function ToolNode(name: string, s: string, children: seq<Node>, rest: string, partial: bool): Node
    requires |rest| <= |s|
  {
    RuleNode(OtherRule("tool-" + name), s, [Tagged(ToolTag, s, children, rest, partial)], rest, partial)
  }

  function WholeTool(name: string, s: string, after: string, dict: Node, rest: string, partial: bool): Node
    requires |after| <= |s| && |rest| <= |after|
  {
    ToolNode(name, s, [OpenNode(s, after), Tagged(ArgsTag, after, [dict], rest, partial)], rest, partial)
  }

  /** The first tool that does not fail. */
  function AnyTool(names: seq<string>, s: string): (r: Parsed<Node>)
    ensures r.Done? ==> |r.rest| < |s|
  {
    if names == [] then Failed
    else if !NamedTool(names[0], s).Failed? then NamedTool(names[0], s)
    else AnyTool(names[1..], s)
  }

  function Call(g: Grammar, s: string): (r: Parsed<seq<Node>>)
    ensures r.Done? ==> |r.rest| < |s|
  {
    match Literal(CALL_OPEN, s)
    case Stuck => Failed
    case Open => More([])
    case To(inside) =>
      match AnyTool(g.names, inside)
      case Failed => Failed
      case More(tool) => More([tool])
      case Done(tool, after) =>
        match Literal(CALL_CLOSE, after)
        case Stuck => Failed
        case Open => More([tool])
        case To(rest) => Done([tool], rest)
  }

  /** The calls from here on; first tells that there was none before. */
  function Calls(g: Grammar, s: string, first: bool): (r: Parsed<seq<Node>>)
    ensures r.Done? ==> |r.rest| <= |s|
    decreases |s|
  {
    if !first && !g.parallel then Done([], s)
    else if s == "" then if first && g.required then More([]) else Done([], s)
    else
      match Call(g, s)
      case Failed => if first && g.required then Failed else Done([], s)
      case More(call) => More(call)
      case Done(call, rest) => AllPrepended(call, Calls(g, rest, false))
  }

  function AllPrepended(nodes: seq<Node>, r: Parsed<seq<Node>>): (q: Parsed<seq<Node>>)
    ensures q.Done? ==> r.Done? && q.rest == r.rest
  {
    match r
    case Failed => Failed
    case More(more) => More(nodes + more)
    case Done(more, rest) => Done(nodes + more, rest)
  }

  function ScanNode(s: string, rest: string): Node
    requires |rest| <= |s|
  {
    RuleNode(OtherRule("scan-to-toolcall"), s, [], rest, rest == "")
  }

  function CallsNode(s: string, calls: seq<Node>, rest: string, partial: bool): Node
    requires |rest| <= |s|
  {
    RuleNode(OtherRule("tool-call"), s, calls, rest, partial)
  }

  /** Everything up to the first call is passed over. */
  function ScanAndCalls(g: Grammar, s: string): Parsed<seq<Node>> {
    var n := Until(TOOL_CALLS, s);
    if n == |s| then More([ScanNode(s, s[n..])])
    else
      match Calls(g, s[n..], true)
      case Failed => Failed
      case More(calls) => More([ScanNode(s, s[n..]), CallsNode(s[n..], calls, "", true)])
      case Done(calls, rest) => Done([ScanNode(s, s[n..]), CallsNode(s[n..], calls, rest, false)], rest)
  }

  /** Messages as long as they match and take something, and then the rest. */
  function Body(g: Grammar, s: string): Parsed<seq<Node>>
    decreases |s|
  {
    if s == "" then ScanAndCalls(g, s)
    else
      match ParseMessage(g, s)
      case Failed => ScanAndCalls(g, s)
      case More(message) => More([message])
      case Done(message, rest) =>
        if |rest| == |s| then ScanAndCalls(g, s) else AllPrepended([message], Body(g, rest))
  }

  function ParseReply(g: Grammar, s: string): Parsed<seq<Node>> {
    var start := Literal(TURN, s);
    if s != "" && start.Open? then More([RuleNode(OtherRule("start"), s, [], "", true)])
    else
      var rest := if start.To? then start.rest else s;
      AllPrepended([RuleNode(OtherRule("start"), s, [], rest, false)], Body(g, rest))
  }

  /** The nodes under one root, as the mapper visits them. */
  function Root(nodes: seq<Node>): Node {
    Node(OtherRule(""), NoTag, "", nodes, false)
  }

  function MessageOf(nodes: seq<Node>): Message {
    VisitedFrom(EMPTY_MESSAGE, Root(nodes), 0)
  }

  // Lists of nodes

  predicate AllSilent(xs: seq<Node>) {
    forall i :: 0 <= i < |xs| ==> IsSilent(xs[i])
  }

  /** Equal up to a node that is cut off, and nothing shown after it. */
  predicate NodesCut(xs: seq<Node>, ys: seq<Node>)
    decreases |xs|
  {
    AllSilent(xs) ||
    (xs != [] && ys != [] &&
     ((xs[0] == ys[0] && NodesCut(xs[1..], ys[1..])) || (IsCutOf(xs[0], ys[0]) && AllSilent(xs[1..]))))
  }

  lemma {:induction false} NodesCutShape(xs: seq<Node>, ys: seq<Node>, k: nat)
    requires NodesCut(xs, ys) && k <= |xs| && (k > 0 ==> !IsSilent(xs[k - 1])) && AllSilent(xs[k..])
    ensures k <= |ys| && (forall i :: 0 <= i < k - 1 ==> xs[i] == ys[i]) && (k > 0 ==> IsCutOf(xs[k - 1], ys[k - 1]))
    decreases |xs|
  {
    hide IsSilent, IsCutOf;
    if AllSilent(xs) {
    } else if xs[0] == ys[0] && NodesCut(xs[1..], ys[1..]) {
      if k > 0 {
        assert xs[1..][k - 1..] == xs[k..];
        NodesCutShape(xs[1..], ys[1..], k - 1);
        if k == 1 {
          SameIsCut(xs[0]);
        }
      }
    } else {
      assert forall i :: 1 <= i < |xs| ==> xs[i] == xs[1..][i - 1];
      assert k <= 1;
    }
  }

  /** Rules that only hold others together are cut where their children are. */
  lemma WrapperCut(rule: Rule, tag: Tag, x: string, y: string, xs: seq<Node>, ys: seq<Node>, p: bool, q: bool)
    requires rule.OtherRule? && tag != NameTag && NodesCut(xs, ys) && (tag in {ReasoningTag, ContentTag} ==> x <= y)
    ensures IsCutOf(Node(rule, tag, x, xs, p), Node(rule, tag, y, ys, q))
  {
    hide IsSilent;
    var a, b := Node(rule, tag, x, xs, p), Node(rule, tag, y, ys, q);
    var k := Core(a);
    assert k == ShownUpTo(a, |xs|);
    assert AllSilent(xs[k..]);
    NodesCutShape(xs, ys, k);
  }

  lemma SilentCut(xs: seq<Node>, ys: seq<Node>)
    requires AllSilent(xs)
    ensures NodesCut(xs, ys)
  {
  }

  lemma SameNodesCut(xs: seq<Node>)
    ensures NodesCut(xs, xs)
  {
    hide IsSilent;
  }

  lemma PrependedCut(ns: seq<Node>, xs: seq<Node>, ys: seq<Node>)
    requires |ns| == 1 && NodesCut(xs, ys)
    ensures NodesCut(ns + xs, ns + ys)
  {
    hide IsSilent, IsCutOf, AllSilent;
    Seqs.FirstOfAppend(ns, xs);
    Seqs.FirstOfAppend(ns, ys);
    Seqs.AppendNothing(xs, ns[1..]);
    Seqs.AppendNothing(ys, ns[1..]);
  }

  lemma LastCut(x: Node, xs: seq<Node>, ys: seq<Node>)
    requires AllSilent(xs) && ys != [] && IsCutOf(x, ys[0])
    ensures NodesCut([x] + xs, ys)
  {
    hide IsSilent, IsCutOf;
    assert ([x] + xs)[1..] == xs;
  }

  /** What is cut from a silent node is silent. */
  lemma {:induction false} CutOfSilent(a: Node, b: Node)
    requires IsCutOf(a, b) && IsSilent(b)
    ensures IsSilent(a)
    decreases a
  {
    if a == b || IsSilent(a) {
    } else {
      forall i | 0 <= i < |a.children| ensures IsSilent(a.children[i]) {
        if i == Core(a) - 1 {
          CutOfSilent(a.children[i], b.children[i]);
        }
      }
    }
  }

  // Reasoning

  /** Where the channels end there is nothing more, or no channel, or a thought. */
  lemma ChannelsEnd(s: string)
    ensures Channels(s).To? ==>
      var r := Channels(s).rest; r == "" || Literal(CHANNEL, r).Stuck? || (CHANNEL <= r && THOUGHT <= r[|CHANNEL|..])
    decreases |s|
  {
    if s != "" && CHANNEL <= s && Literal(THOUGHT, s[|CHANNEL|..]).Stuck? {
      ChannelsEnd(s[|CHANNEL|..]);
    }
  }

  lemma ChannelsMore(s: string, u: string)
    ensures Channels(s).To? && Channels(s).rest != "" ==> Channels(s + u) == To(Channels(s).rest + u)
    ensures Channels(s + u).To? ==> Channels(s).Open? || Channels(s).rest != "" || |Channels(s + u).rest| <= |u|
    decreases |s|
  {
    hide Literal;
    if s == "" {
      Seqs.AppendNothing(u, s);
    } else {
      LiteralMore(CHANNEL, s, u);
      if Literal(CHANNEL, s).To? {
        var rest := Literal(CHANNEL, s).rest;
        assert |rest| < |s| by { LiteralRest(CHANNEL, s); }
        LiteralMore(THOUGHT, rest, u);
        ChannelsMore(rest, u);
      }
    }
  }

  lemma LiteralRest(word: string, s: string)
    ensures Literal(word, s).To? ==> |Literal(word, s).rest| + |word| == |s|
  {
  }

  /** What more input does to a list: the same once matched; otherwise nothing was
      shown, or the list is cut from what is there now. */
  predicate NodesGrown(a: Parsed<seq<Node>>, b: Parsed<seq<Node>>, u: string) {
    match a
    case Failed => b.Failed?
    case Done(xs, rest) => b == Done(xs, rest + u)
    case More(xs) => AllSilent(xs) || (!b.Failed? && NodesCut(xs, b.value) && (b.Done? ==> |b.rest| <= |u|))
  }

  lemma TaggedCut(tag: Tag, x: string, y: string, p: bool, q: bool)
    requires x <= y && tag != NameTag
    ensures IsCutOf(Node(OtherRule(""), tag, x, [], p), Node(OtherRule(""), tag, y, [], q))
  {
    hide NodesCut, IsCutOf;
    SilentCut([], []);
    WrapperCut(OtherRule(""), tag, x, y, [], [], p, q);
  }

  lemma OneCut(x: Node, y: Node)
    requires IsCutOf(x, y)
    ensures NodesCut([x], [y])
  {
    hide IsCutOf, IsSilent;
    assert [x][1..] == [];
  }

  /** Text up to one of some words: the same once a word is there. */
  lemma TextMore(words: seq<string>, s: string, u: string)
    ensures var n, m := Until(words, s), Until(words, s + u);
      n <= m && s[..n] <= (s + u)[..m] && (Ends(words, s[n..]) ==> m == n && (s + u)[m..] == s[n..] + u)
    ensures Ends(words, s[Until(words, s)..]) ==> (s + u)[..Until(words, s + u)] == s[..Until(words, s)]
  {
    hide Until, Ends;
    UntilMore(words, s, u);
  }

  lemma OneWordEnds(words: seq<string>, word: string, s: string)
    requires words == [word] && word != "" && MayEnd(words, s)
    ensures Ends(words, s) <==> Literal(word, s).To?
    ensures s != "" ==> !Literal(word, s).Stuck?
  {
    assert words[0] == word;
  }

  lemma ReasonedMore(y: string, u: string)
    ensures !Reasoned(y).1.Stuck?
    ensures if Reasoned(y).1.To? then Reasoned(y + u) == (Reasoned(y).0, To(Reasoned(y).1.rest + u))
      else IsCutOf(Reasoned(y).0, Reasoned(y + u).0) && (Reasoned(y + u).1.To? ==> |Reasoned(y + u).1.rest| <= |u|)
  {
    hide Until, Ends, MayEnd, IsCutOf, Literal;
    var n, m := Until(REASONING_ENDS, y), Until(REASONING_ENDS, y + u);
    TextMore(REASONING_ENDS, y, u);
    OneWordEnds(REASONING_ENDS, CHANNEL_END, y[n..]);
    OneWordEnds(REASONING_ENDS, CHANNEL_END, (y + u)[m..]);
    LiteralMore(CHANNEL_END, y[n..], u);
    LiteralRest(CHANNEL_END, y[n..]);
    LiteralRest(CHANNEL_END, (y + u)[m..]);
    if Reasoned(y).1.To? {
      assert n < |y|;
    } else {
      TaggedCut(ReasoningTag, y[..n], (y + u)[..m], n == |y|, m == |y + u|);
      OpenIsShort(CHANNEL_END, y[n..]);
    }
  }

  lemma OpenIsShort(word: string, s: string)
    ensures Literal(word, s).Open? ==> |s| < |word|
  {
  }

  lemma ThoughtStarts(s: string)
    requires s == "" || Literal(CHANNEL, s).Stuck? || (CHANNEL <= s && THOUGHT <= s[|CHANNEL|..])
    ensures var l := Literal(CHANNEL + THOUGHT, s);
      if s == "" then l.Open? else if Literal(CHANNEL, s).Stuck? then l.Stuck? else l.To?
  {
    Seqs.Border(CHANNEL, THOUGHT);
    if s != "" && !Literal(CHANNEL, s).Stuck? {
      Seqs.Split(s, |CHANNEL|);
    }
  }

  lemma BlockMore(g: Grammar, s: string, u: string)
    requires s == "" || Literal(CHANNEL, s).Stuck? || (CHANNEL <= s && THOUGHT <= s[|CHANNEL|..])
    ensures NodesGrown(Block(g, s), Block(g, s + u), u)
  {
    hide NodesCut, IsCutOf, IsSilent, Reasoned, Literal;
    ThoughtStarts(s);
    LiteralMore(CHANNEL + THOUGHT, s, u);
    LiteralRest(CHANNEL + THOUGHT, s);
    match Literal(CHANNEL + THOUGHT, s)
    case Stuck =>
    case Open => NothingThought(g);
    case To(inside) => ThoughtGoesOn(g, s, inside, u);
  }

  lemma NothingThought(g: Grammar)
    ensures Block(g, "").More? && AllSilent(Block(g, "").value)
  {
    var n := ThoughtNode(if g.extract then [] else [Tagged(ContentTag, "", [], "", true)], "", "", true);
    assert Block(g, "") == More([n]);
    assert IsSilent(n);
  }

  lemma BlockUnfold(g: Grammar, s: string, inside: string)
    requires Literal(CHANNEL + THOUGHT, s) == To(inside)
    ensures |inside| <= |s|
    ensures var (reasoning, end) := Reasoned(SkipSpace(inside));
      match end
      case To(rest) => |rest| <= |s| && Block(g, s) == Done([ThoughtNode(ThoughtChildren(g, s, reasoning, rest, false), s, rest, false)], rest)
      case Open => Block(g, s) == More([ThoughtNode(ThoughtChildren(g, s, reasoning, "", true), s, "", true)])
      case Stuck => true
  {
    hide Reasoned, Literal, SkipSpace;
    LiteralRest(CHANNEL + THOUGHT, s);
  }

  lemma ThoughtGoesOn(g: Grammar, s: string, inside: string, u: string)
    requires Literal(CHANNEL + THOUGHT, s) == To(inside) && Literal(CHANNEL + THOUGHT, s + u) == To(inside + u)
    ensures NodesGrown(Block(g, s), Block(g, s + u), u)
  {
    hide NodesCut, IsCutOf, IsSilent, AllSilent, Reasoned, Literal, Block, SkipSpace, ThoughtNode, ThoughtChildren;
    BlockUnfold(g, s, inside);
    BlockUnfold(g, s + u, inside + u);
    SkipMore(inside, u);
    var y, z := SkipSpace(inside), SkipSpace(inside + u);
    ReasonedMore(z, "");
    if y != "" {
      ReasonedMore(y, u);
    } else {
      NoReasoning(Reasoned(z).0);
    }
    var (a, end) := Reasoned(y);
    var (b, later) := Reasoned(z);
    if end.To? {
      SameThought(g, s, u, a, end.rest);
    } else {
      assert later.To? ==> |later.rest| <= |u|;
      ThoughtCut(g, s, u, a, b, if later.To? then later.rest else "", !later.To?);
    }
  }

  lemma SameThought(g: Grammar, s: string, u: string, reasoning: Node, rest: string)
    requires |rest| <= |s|
    ensures ThoughtNode(ThoughtChildren(g, s + u, reasoning, rest + u, false), s + u, rest + u, false) ==
      ThoughtNode(ThoughtChildren(g, s, reasoning, rest, false), s, rest, false)
  {
    TakenMore(s, u, rest);
  }

  lemma NoReasoning(b: Node)
    ensures Reasoned("").1.Open? && IsCutOf(Reasoned("").0, b)
  {
    assert Reasoned("").0 == Node(OtherRule(""), ReasoningTag, "", [], true);
    SilentIsCut(Reasoned("").0, b);
  }

  lemma ThoughtCut(g: Grammar, s: string, u: string, a: Node, b: Node, rest: string, partial: bool)
    requires IsCutOf(a, b) && |rest| <= |u|
    ensures NodesCut(
      [ThoughtNode(ThoughtChildren(g, s, a, "", true), s, "", true)],
      [ThoughtNode(ThoughtChildren(g, s + u, b, rest, partial), s + u, rest, partial)])
  {
    hide NodesCut, IsCutOf, IsSilent, Tagged;
    SilentCut([], []);
    TaggedNodesCut(ContentTag, s, u, [], [], rest, partial);
    var xs, ys := ThoughtChildren(g, s, a, "", true), ThoughtChildren(g, s + u, b, rest, partial);
    OneCut(xs[0], ys[0]);
    var x, y := ThoughtNode(xs, s, "", true), ThoughtNode(ys, s + u, rest, partial);
    WrapperCut(OtherRule("thought"), NoTag, x.text, y.text, xs, ys, true, partial);
    OneCut(x, y);
  }

  lemma ThoughtMore(g: Grammar, s: string, u: string)
    requires s != ""
    ensures NodesGrown(Thought(g, s), Thought(g, s + u), u)
  {
    hide NodesCut, Literal, Block, Channels;
    LiteralMore(CHANNEL, s, u);
    ChannelsMore(s, u);
    ChannelsEnd(s);
    if Literal(CHANNEL, s).To? && Channels(s).To? {
      if Channels(s).rest == "" {
        NothingThought(g);
      } else {
        BlockMore(g, Channels(s).rest, u);
      }
    }
  }

  // Messages

  lemma ContentUnfold(s: string)
    ensures var n := Until(CONTENT_ENDS, s);
      ContentOf(s) == if n == |s| then More(ContentRule(s, s[n..], true)) else Done(ContentRule(s, s[n..], false), s[n..])
  {
    hide Until;
  }

  lemma ContentCut(s: string, u: string, rest: string, later: string, p: bool, q: bool)
    requires |rest| <= |s| && |later| <= |rest| + |u|
    ensures IsCutOf(ContentRule(s, rest, p), ContentRule(s + u, later, q))
  {
    hide NodesCut, IsCutOf;
    var x, y := s[..|s| - |rest|], (s + u)[..|s + u| - |later|];
    TakenGrows(s, u, rest, later);
    TaggedCut(ContentTag, x, y, p, q);
    var xs, ys := [Tagged(ContentTag, s, [], rest, p)], [Tagged(ContentTag, s + u, [], later, q)];
    OneCut(xs[0], ys[0]);
    WrapperCut(OtherRule("content"), NoTag, x, y, xs, ys, p, q);
  }

  lemma ContentMore(s: string, u: string)
    ensures var a, b := ContentOf(s), ContentOf(s + u); var n, m := Until(CONTENT_ENDS, s), Until(CONTENT_ENDS, s + u);
      n <= m && (Ends(CONTENT_ENDS, s[n..]) ==> a.Done? && b == Done(a.value, a.rest + u)) && IsCutOf(a.value, b.value)
  {
    hide Until, Ends, IsCutOf, ContentOf, ContentRule;
    var n, m := Until(CONTENT_ENDS, s), Until(CONTENT_ENDS, s + u);
    TextMore(CONTENT_ENDS, s, u);
    ContentUnfold(s);
    ContentUnfold(s + u);
    ContentCut(s, u, s[n..], (s + u)[m..], n == |s|, m == |s + u|);
    if Ends(CONTENT_ENDS, s[n..]) {
      NoWordInNothing(s[n..]);
      SameContent(s, u, s[n..]);
    }
  }

  lemma SameContent(s: string, u: string, rest: string)
    requires |rest| <= |s|
    ensures ContentRule(s + u, rest + u, false) == ContentRule(s, rest, false)
  {
    TakenMore(s, u, rest);
  }

  lemma NoWordInNothing(s: string)
    requires Ends(CONTENT_ENDS, s)
    ensures s != ""
  {
    var i :| 0 <= i < |CONTENT_ENDS| && CONTENT_ENDS[i] <= s;
    assert i == 0 || i == 1 || i == 2;
  }

  lemma {:induction false} NodesCutLonger(xs: seq<Node>, ys: seq<Node>, zs: seq<Node>)
    requires NodesCut(xs, ys)
    ensures NodesCut(xs, ys + zs)
    decreases |xs|
  {
    hide IsCutOf, AllSilent;
    if !AllSilent(xs) {
      Seqs.FirstOfAppend(ys, zs);
      if xs[0] == ys[0] && NodesCut(xs[1..], ys[1..]) {
        NodesCutLonger(xs[1..], ys[1..], zs);
      }
    }
  }

  /** A message that is not finished by a word that ends its content. */
  predicate MessageGrown(a: Parsed<Node>, b: Parsed<Node>, u: string) {
    match a
    case Failed => b.Failed?
    case Done(n, rest) => !b.Failed? && IsCutOf(n, b.value) && (Ends(CONTENT_ENDS, rest) ==> b == Done(n, rest + u))
    case More(n) => IsSilent(n) || (!b.Failed? && IsCutOf(n, b.value))
  }

  lemma MessageUnfold(g: Grammar, s: string)
    ensures var r := ParseMessage(g, s);
      match Thought(g, s)
      case Failed => r.Failed?
      case More(thought) => r == More(MessageNode(thought, s, "", true))
      case Done(thought, after) =>
        var content := ContentOf(after);
        r == if content.Done? then Done(MessageNode(thought + [content.value], s, content.rest, false), content.rest)
             else More(MessageNode(thought + [content.value], s, "", true))
  {
    hide Thought, ContentOf;
  }

  lemma MessageMore(g: Grammar, s: string, u: string)
    requires s != ""
    ensures MessageGrown(ParseMessage(g, s), ParseMessage(g, s + u), u)
  {
    hide NodesCut, IsCutOf, IsSilent, Thought, ContentOf, Ends, ParseMessage;
    ThoughtMore(g, s, u);
    MessageUnfold(g, s);
    MessageUnfold(g, s + u);
    match Thought(g, s)
    case Failed =>
    case More(thought) =>
      if AllSilent(thought) {
        SilentMessage(thought, s);
      } else {
        OpenThought(g, s, thought, u);
      }
    case Done(thought, after) => ContentFollows(g, s, thought, after, u);
  }

  lemma SilentMessage(children: seq<Node>, s: string)
    requires AllSilent(children)
    ensures IsSilent(MessageNode(children, s, "", true))
  {
  }

  /** What a rule has taken grows with what it leaves. */
  lemma TakenGrows(s: string, u: string, rest: string, later: string)
    requires |rest| <= |s| && |later| <= |rest| + |u|
    ensures s[..|s| - |rest|] <= (s + u)[..|s + u| - |later|]
  {
  }

  lemma MessageCut(s: string, u: string, xs: seq<Node>, ys: seq<Node>, rest: string, later: string, p: bool, q: bool)
    requires NodesCut(xs, ys) && |rest| <= |s| && |later| <= |rest| + |u|
    ensures IsCutOf(MessageNode(xs, s, rest, p), MessageNode(ys, s + u, later, q))
  {
    hide NodesCut, IsCutOf;
    TakenGrows(s, u, rest, later);
    WrapperCut(OtherRule("message"), NoTag, s[..|s| - |rest|], (s + u)[..|s + u| - |later|], xs, ys, p, q);
  }

  lemma OpenThought(g: Grammar, s: string, thought: seq<Node>, u: string)
    requires Thought(g, s) == More(thought) && !AllSilent(thought) && NodesGrown(Thought(g, s), Thought(g, s + u), u)
    ensures MessageGrown(ParseMessage(g, s), ParseMessage(g, s + u), u)
  {
    hide NodesCut, IsCutOf, IsSilent, Thought, ContentOf, Ends, ParseMessage, AllSilent, MessageNode;
    MessageUnfold(g, s);
    MessageUnfold(g, s + u);
    var later := Thought(g, s + u);
    if later.More? {
      MessageCut(s, u, thought, later.value, "", "", true, true);
    } else {
      var content := ContentOf(later.rest);
      NodesCutLonger(thought, later.value, [content.value]);
      MessageCut(s, u, thought, later.value + [content.value], "", if content.Done? then content.rest else "", true, content.More?);
    }
  }

  lemma {:induction false} SameThen(ns: seq<Node>, xs: seq<Node>, ys: seq<Node>)
    requires NodesCut(xs, ys)
    ensures NodesCut(ns + xs, ns + ys)
    decreases |ns|
  {
    hide IsCutOf, AllSilent, NodesCut;
    if ns == [] {
      Seqs.AppendNothing(xs, ns);
      Seqs.AppendNothing(ys, ns);
    } else {
      SameThen(ns[1..], xs, ys);
      PrependedCut([ns[0]], ns[1..] + xs, ns[1..] + ys);
      Seqs.DropCons(ns, 0);
      Seqs.Associative([ns[0]], ns[1..], xs);
      Seqs.Associative([ns[0]], ns[1..], ys);
    }
  }

  /** How much of the text the content leaves, none being left while it is open. */
  lemma ContentLeaves(s: string)
    ensures var n, c := Until(CONTENT_ENDS, s), ContentOf(s);
      if c.Done? then c.rest == s[n..] else n == |s|
  {
    hide Until;
  }

  lemma ContentFollows(g: Grammar, s: string, thought: seq<Node>, after: string, u: string)
    requires Thought(g, s) == Done(thought, after) && Thought(g, s + u) == Done(thought, after + u)
    ensures MessageGrown(ParseMessage(g, s), ParseMessage(g, s + u), u)
  {
    hide NodesCut, IsCutOf, IsSilent, Thought, ContentOf, Ends, ParseMessage, Until, MessageNode;
    MessageUnfold(g, s);
    MessageUnfold(g, s + u);
    ContentMore(after, u);
    ContentLeaves(after);
    ContentLeaves(after + u);
    var a, b := ContentOf(after), ContentOf(after + u);
    var rest, later := if a.Done? then a.rest else "", if b.Done? then b.rest else "";
    OneCut(a.value, b.value);
    SameThen(thought, [a.value], [b.value]);
    MessageCut(s, u, thought + [a.value], thought + [b.value], rest, later, a.More?, b.More?);
    if a.Done? && Ends(CONTENT_ENDS, a.rest) {
      SameMessage(thought + [a.value], s, u, a.rest);
    }
  }

  lemma SameMessage(xs: seq<Node>, s: string, u: string, rest: string)
    requires |rest| <= |s|
    ensures MessageNode(xs, s + u, rest + u, false) == MessageNode(xs, s, rest, false)
  {
    TakenMore(s, u, rest);
  }

  /** A message over nothing shows nothing. */
  lemma EmptyMessage(g: Grammar, s: string)
    requires ParseMessage(g, s).Done? && |ParseMessage(g, s).rest| == |s|
    ensures IsSilent(ParseMessage(g, s).value)
  {
    hide Until, Channels, Block;
    var thought := Thought(g, s);
    assert thought.Done? && thought.value == [] by { NoThought(g, s); }
    var content := ContentOf(s).value;
    assert content.children[0].text == "";
    assert IsSilent(content.children[0]);
    assert IsSilent(content);
    assert [] + [content] == [content];
  }

  lemma NoThought(g: Grammar, s: string)
    requires ParseMessage(g, s).Done? && |ParseMessage(g, s).rest| == |s|
    ensures Thought(g, s) == Done([], s)
  {
    hide Until, Channels, Block;
    MessageUnfold(g, s);
  }

  // Tools

  /** Tools grow like messages, but one that has been shown may be rejected. */
  predicate ToolGrown(a: Parsed<Node>, b: Parsed<Node>, u: string) {
    match a
    case Failed => b.Failed?
    case Done(n, rest) => b == Done(n, rest + u)
    case More(n) => IsSilent(n) || b.Failed? || IsCutOf(n, b.value)
  }

  lemma ToolUnfold(name: string, s: string, after: string)
    requires Literal(name, s) == To(after) && after != "" && after[0] == '{'
    ensures |after| <= |s|
    ensures match ParseDict(after)
      case Failed => NamedTool(name, s).Failed?
      case More(dict) => NamedTool(name, s) == More(WholeTool(name, s, after, dict, "", true))
      case Done(dict, rest) => |rest| <= |after| && NamedTool(name, s) == Done(WholeTool(name, s, after, dict, rest, false), rest)
  {
    hide ParseDict;
    LiteralRest(name, s);
  }

  lemma NoTool(name: string, s: string)
    ensures IsSilent(ToolNode(name, s, [], "", true))
  {
    assert IsSilent(Tagged(ToolTag, s, [], "", true));
  }

  lemma TaggedNodesCut(tag: Tag, s: string, u: string, xs: seq<Node>, ys: seq<Node>, rest: string, partial: bool)
    requires tag != NameTag && NodesCut(xs, ys) && |rest| <= |u|
    ensures IsCutOf(Tagged(tag, s, xs, "", true), Tagged(tag, s + u, ys, rest, partial))
  {
    hide NodesCut, IsCutOf;
    TakenGrows(s, u, "", rest);
    WrapperCut(OtherRule(""), tag, s[..|s| - 0], (s + u)[..|s + u| - |rest|], xs, ys, true, partial);
  }

  lemma ToolNodeCut(name: string, s: string, u: string, xs: seq<Node>, ys: seq<Node>, rest: string, partial: bool)
    requires NodesCut(xs, ys) && |rest| <= |u|
    ensures IsCutOf(ToolNode(name, s, xs, "", true), ToolNode(name, s + u, ys, rest, partial))
  {
    hide NodesCut, IsCutOf, Tagged;
    var v, w := Tagged(ToolTag, s, xs, "", true), Tagged(ToolTag, s + u, ys, rest, partial);
    TaggedNodesCut(ToolTag, s, u, xs, ys, rest, partial);
    OneCut(v, w);
    TakenGrows(s, u, "", rest);
    WrapperCut(OtherRule("tool-" + name), NoTag, s[..|s| - 0], (s + u)[..|s + u| - |rest|], [v], [w], true, partial);
  }

  lemma ToolCut(name: string, s: string, u: string, after: string, a: Node, b: Node, rest: string, partial: bool)
    requires IsCutOf(a, b) && |after| <= |s| && |rest| <= |u|
    ensures IsCutOf(WholeTool(name, s, after, a, "", true), WholeTool(name, s + u, after + u, b, rest, partial))
  {
    hide NodesCut, IsCutOf, IsSilent, Tagged, ToolNode, OpenNode;
    OneCut(a, b);
    var x, y := Tagged(ArgsTag, after, [a], "", true), Tagged(ArgsTag, after + u, [b], rest, partial);
    TaggedNodesCut(ArgsTag, after, u, [a], [b], rest, partial);
    OneCut(x, y);
    var open := OpenNode(s, after);
    SameOpening(s, u, after);
    SameThen([open], [x], [y]);
    assert [open] + [x] == [open, x] && [open] + [y] == [open, y];
    ToolNodeCut(name, s, u, [open, x], [open, y], rest, partial);
  }

  lemma SameOpening(s: string, u: string, after: string)
    requires |after| <= |s|
    ensures OpenNode(s + u, after + u) == OpenNode(s, after)
  {
    TakenMore(s, u, after);
  }

  lemma SameTool(name: string, s: string, u: string, after: string, dict: Node, rest: string)
    requires |after| <= |s| && |rest| <= |after|
    ensures WholeTool(name, s + u, after + u, dict, rest + u, false) == WholeTool(name, s, after, dict, rest, false)
  {
    TakenMore(s, u, after);
    TakenMore(s, u, rest);
    TakenMore(after, u, rest);
  }

  lemma NamedToolMore(name: string, s: string, u: string)
    ensures ToolGrown(NamedTool(name, s), NamedTool(name, s + u), u)
  {
    hide IsCutOf, IsSilent, ParseDict, Literal, ToolNode;
    LiteralMore(name, s, u);
    LiteralRest(name, s);
    NoTool(name, s);
    if Literal(name, s).To? && Literal(name, s).rest != "" {
      var after := Literal(name, s).rest;
      assert (after + u)[0] == after[0];
      if after[0] == '{' {
        ArgsFollow(name, s, u, after);
      }
    }
  }

  lemma ArgsFollow(name: string, s: string, u: string, after: string)
    requires Literal(name, s) == To(after) && Literal(name, s + u) == To(after + u) && after != "" && after[0] == '{'
    ensures ToolGrown(NamedTool(name, s), NamedTool(name, s + u), u)
  {
    hide IsCutOf, IsSilent, ParseDict, Literal, NamedTool, WholeTool, Grown;
    ToolUnfold(name, s, after);
    ToolUnfold(name, s + u, after + u);
    DictMore(after, u);
    var a, b := ParseDict(after), ParseDict(after + u);
    match a
    case Failed =>
    case Done(dict, rest) => SameTool(name, s, u, after, dict, rest);
    case More(dict) =>
      if !b.Failed? {
        ToolCut(name, s, u, after, dict, b.value, if b.Done? then b.rest else "", b.More?);
      }
  }

  lemma DictMore(s: string, u: string)
    requires s != ""
    ensures var a, b := ParseDict(s), ParseDict(s + u);
      (a.Failed? ==> b.Failed?) && (a.Done? ==> b == Done(a.value, a.rest + u)) &&
      (a.More? ==> b.Failed? || (IsCutOf(a.value, b.value) && (b.Done? ==> |b.rest| <= |u|)))
  {
    hide IsCutOf, ParseGroup;
    GroupMore(s, true, u);
  }

  /** Names do not hold the brace that follows them. */
  predicate NamesFit(names: seq<string>) {
    forall i :: 0 <= i < |names| ==> '{' !in names[i]
  }

  /** The opening of a call has come. */
  predicate Opened(name: string, s: string) {
    name <= s && |name| < |s| && s[|name|] == '{'
  }

  lemma OtherNameFails(name: string, other: string, s: string)
    requires '{' !in name && '{' !in other && Opened(name, s) && name != other
    ensures NamedTool(other, s).Failed?
  {
    hide ParseDict;
    if other <= s && |other| < |name| {
      assert s[|other|] == name[|other|];
      assert s[|other|] in name;
    }
  }

  lemma {:induction false} NoOtherTool(names: seq<string>, name: string, s: string)
    requires NamesFit(names) && '{' !in name && Opened(name, s) && NamedTool(name, s).Failed?
    ensures AnyTool(names, s).Failed?
    decreases |names|
  {
    hide NamedTool, Opened;
    if names != [] {
      if names[0] != name {
        OtherNameFails(name, names[0], s);
      }
      NoOtherTool(names[1..], name, s);
    }
  }

  lemma ShownIsOpened(name: string, s: string)
    requires NamedTool(name, s).More? && !IsSilent(NamedTool(name, s).value)
    ensures Opened(name, s)
  {
    hide ParseDict;
    NoTool(name, s);
  }

  lemma {:induction false} AnyToolMore(names: seq<string>, s: string, u: string)
    requires NamesFit(names)
    ensures ToolGrown(AnyTool(names, s), AnyTool(names, s + u), u)
    decreases |names|
  {
    hide NamedTool, IsCutOf, IsSilent;
    if names != [] {
      NamedToolMore(names[0], s, u);
      if NamedTool(names[0], s).Failed? {
        AnyToolMore(names[1..], s, u);
      } else if NamedTool(names[0], s).More? && !IsSilent(NamedTool(names[0], s).value) && NamedTool(names[0], s + u).Failed? {
        ShownIsOpened(names[0], s);
        assert Opened(names[0], s + u);
        NoOtherTool(names[1..], names[0], s + u);
      }
    }
  }

  // Calls

  /** Calls grow, but one that has been shown may be rejected. */
  predicate CallGrown(a: Parsed<seq<Node>>, b: Parsed<seq<Node>>, u: string) {
    match a
    case Failed => b.Failed?
    case Done(xs, rest) => b == Done(xs, rest + u)
    case More(xs) => AllSilent(xs) || b.Failed? || NodesCut(xs, b.value)
  }

  lemma CallMore(g: Grammar, s: string, u: string)
    requires NamesFit(g.names)
    ensures CallGrown(Call(g, s), Call(g, s + u), u)
  {
    hide AnyTool, IsCutOf, IsSilent, Literal, NodesCut;
    LiteralMore(CALL_OPEN, s, u);
    if Literal(CALL_OPEN, s).To? {
      var inside := Literal(CALL_OPEN, s).rest;
      AnyToolMore(g.names, inside, u);
      var a, b := AnyTool(g.names, inside), AnyTool(g.names, inside + u);
      if a.Done? {
        LiteralMore(CALL_CLOSE, a.rest, u);
        SameNodesCut([a.value]);
      } else if a.More? && !b.Failed? && !IsSilent(a.value) {
        OneCut(a.value, b.value);
      }
    }
  }

  /** The beginning of the call under way at the end, if it has been shown. */
  function PendingCall(g: Grammar, s: string, first: bool): Option<string>
    decreases |s|
  {
    if (!first && !g.parallel) || s == "" then None
    else
      match Call(g, s)
      case Failed => None
      case More(call) => if AllSilent(call) then None else Some(s)
      case Done(_, rest) => PendingCall(g, rest, false)
  }

  /** With more input that call is none. */
  predicate IsRejected(g: Grammar, pending: Option<string>, u: string) {
    pending.Some? && Call(g, pending.value + u).Failed?
  }

  function VisitedAll(m: Message, xs: seq<Node>): Message
    decreases |xs|
  {
    if xs == [] then m else VisitedAll(Visited(m, xs[0]), xs[1..])
  }

  lemma {:induction false} VisitedFromAll(m: Message, n: Node, k: nat)
    requires k <= |n.children|
    ensures VisitedFrom(m, n, k) == VisitedAll(m, n.children[k..])
    decreases |n.children| - k
  {
    hide Visited;
    if k < |n.children| {
      VisitedFromAll(Visited(m, n.children[k]), n, k + 1);
      Seqs.DropCons(n.children, k);
    }
  }

  /** A list shows one call more than another. */
  ghost predicate OneMore(xs: seq<Node>, ys: seq<Node>) {
    forall m: Message :: |VisitedAll(m, xs).calls| == |VisitedAll(m, ys).calls| + 1
  }

  lemma {:induction false} VisitedAllAppend(m: Message, xs: seq<Node>, ys: seq<Node>)
    ensures VisitedAll(m, xs + ys) == VisitedAll(VisitedAll(m, xs), ys)
    decreases |xs|
  {
    hide Visited;
    if xs == [] {
      Seqs.AppendNothing(ys, xs);
    } else {
      Seqs.FirstOfAppend(xs, ys);
      VisitedAllAppend(Visited(m, xs[0]), xs[1..], ys);
    }
  }

  lemma OneMoreAfter(ns: seq<Node>, xs: seq<Node>, ys: seq<Node>)
    requires OneMore(xs, ys)
    ensures OneMore(ns + xs, ns + ys)
  {
    hide VisitedAll;
    forall m: Message ensures |VisitedAll(m, ns + xs).calls| == |VisitedAll(m, ns + ys).calls| + 1 {
      VisitedAllAppend(m, ns, xs);
      VisitedAllAppend(m, ns, ys);
    }
  }

  lemma OneMoreWithin(x: Node, y: Node)
    requires x.tag == NoTag && y.tag == NoTag && OneMore(x.children, y.children)
    ensures OneMore([x], [y])
  {
    hide VisitedFrom;
    forall m: Message ensures |VisitedAll(m, [x]).calls| == |VisitedAll(m, [y]).calls| + 1 {
      OnlyOne(m, x);
      OnlyOne(m, y);
      assert x.children[0..] == x.children && y.children[0..] == y.children;
      VisitedFromAll(m, x, 0);
      VisitedFromAll(m, y, 0);
    }
  }

  lemma OnlyOne(m: Message, x: Node)
    ensures VisitedAll(m, [x]) == Visited(m, x)
  {
    hide Visited;
    assert [x][1..] == [];
  }

  lemma ShownIsCall(m: Message, name: string, s: string, after: string, dict: Node, rest: string, partial: bool)
    requires |after| <= |s| && |rest| <= |after|
    ensures |Visited(m, WholeTool(name, s, after, dict, rest, partial)).calls| == |m.calls| + 1
  {
    hide Render;
    var n := WholeTool(name, s, after, dict, rest, partial);
    var tool := n.children[0];
    OneCallOf(tool);
    assert VisitedFrom(m, n, 0) == VisitedFrom(Visited(m, tool), n, 1);
  }

  lemma OneCallOf(tool: Node)
    requires |tool.children| == 2 && tool.children[0].tag == OtherTag("tool-open") && tool.children[1].tag == ArgsTag
    requires |tool.children[0].children| == 1 && tool.children[0].children[0].tag == NameTag
    requires tool.children[0].children[0].children == [] && !tool.children[0].children[0].partial
    ensures CallOf(tool) == [ToolCall(tool.children[0].children[0].text,
                                      if tool.children[1].children == [] then "" else Render(tool.children[1].children[0]), "")]
  {
    hide Render;
    var open := tool.children[0];
    var name := open.children[0];
    assert FindByTag(open, NameTag, 2, 0) == Some(name);
    assert FindByTag(name, ArgsTag, 1, 0) == None;
    assert FindByTag(open, ArgsTag, 2, 1) == None;
    assert FindByTag(open, ArgsTag, 2, 0) == None;
    assert FindByTag(tool, ArgsTag, 3, 1) == Some(tool.children[1]);
  }

  /** A tool that shows anything is a call. */
  lemma NamedIsCall(m: Message, name: string, s: string)
    requires !NamedTool(name, s).Failed? && !IsSilent(NamedTool(name, s).value)
    ensures |Visited(m, NamedTool(name, s).value).calls| == |m.calls| + 1
  {
    hide ParseDict, Visited, IsSilent, WholeTool, ToolNode, Literal;
    NoTool(name, s);
    var after := Literal(name, s).rest;
    ToolUnfold(name, s, after);
    var dict := ParseDict(after);
    ShownIsCall(m, name, s, after, dict.value, if dict.Done? then dict.rest else "", dict.More?);
  }

  lemma {:induction false} AnyIsCall(m: Message, names: seq<string>, s: string)
    requires !AnyTool(names, s).Failed? && !IsSilent(AnyTool(names, s).value)
    ensures |Visited(m, AnyTool(names, s).value).calls| == |m.calls| + 1
    decreases |names|
  {
    hide NamedTool, Visited, IsSilent;
    if names != [] {
      if NamedTool(names[0], s).Failed? {
        AnyIsCall(m, names[1..], s);
      } else {
        NamedIsCall(m, names[0], s);
      }
    }
  }

  lemma CallIsOne(g: Grammar, s: string)
    requires Call(g, s).More? && !AllSilent(Call(g, s).value)
    ensures OneMore(Call(g, s).value, [])
  {
    hide AnyTool, IsSilent, Literal, VisitedAll, Visited;
    var call := Call(g, s).value;
    var tool := AnyTool(g.names, Literal(CALL_OPEN, s).rest).value;
    assert call == [tool];
    forall m: Message ensures |VisitedAll(m, call).calls| == |VisitedAll(m, []).calls| + 1 {
      AnyIsCall(m, g.names, Literal(CALL_OPEN, s).rest);
      OnlyOne(m, tool);
      assert VisitedAll(m, []) == m by { NoneVisited(m); }
    }
  }

  lemma NoneVisited(m: Message)
    ensures VisitedAll(m, []) == m
  {
  }

  /** What more input does to a list that may end in a call under way. */
  ghost predicate ListGrown(a: Parsed<seq<Node>>, b: Parsed<seq<Node>>, rejected: bool) {
    (a.Failed? ==> b.Failed?) &&
    (!a.Failed? && !b.Failed? ==> if rejected then OneMore(a.value, b.value) else NodesCut(a.value, b.value))
  }

  lemma PrependedGrown(ns: seq<Node>, a: Parsed<seq<Node>>, b: Parsed<seq<Node>>, rejected: bool)
    requires ListGrown(a, b, rejected)
    ensures ListGrown(AllPrepended(ns, a), AllPrepended(ns, b), rejected)
  {
    hide NodesCut, OneMore;
    if !a.Failed? && !b.Failed? {
      if rejected {
        OneMoreAfter(ns, a.value, b.value);
      } else {
        SameThen(ns, a.value, b.value);
      }
    }
  }

  lemma {:induction false} CallsMore(g: Grammar, s: string, first: bool, u: string)
    requires NamesFit(g.names)
    ensures ListGrown(Calls(g, s, first), Calls(g, s + u, first), IsRejected(g, PendingCall(g, s, first), u))
    decreases |s|
  {
    hide Call, NodesCut, OneMore, AllSilent;
    var b := Calls(g, s + u, first);
    if (!first && !g.parallel) || s == "" {
      NothingCut(if b.Failed? then [] else b.value);
    } else {
      CallMore(g, s, u);
      match Call(g, s)
      case Failed => NothingCut([]);
      case More(call) => LastCallMore(g, s, first, u);
      case Done(call, rest) =>
        CallsMore(g, rest, false, u);
        PrependedGrown(call, Calls(g, rest, false), Calls(g, rest + u, false), IsRejected(g, PendingCall(g, rest, false), u));
    }
  }

  lemma NothingCut(ys: seq<Node>)
    ensures NodesCut([], ys)
  {
  }

  lemma LastCallMore(g: Grammar, s: string, first: bool, u: string)
    requires s != "" && (first || g.parallel) && Call(g, s).More? && CallGrown(Call(g, s), Call(g, s + u), u)
    ensures ListGrown(Calls(g, s, first), Calls(g, s + u, first), IsRejected(g, PendingCall(g, s, first), u))
  {
    hide Call, NodesCut, OneMore, AllSilent;
    var a, b := Call(g, s), Call(g, s + u);
    if AllSilent(a.value) {
      SilentCut(a.value, if Calls(g, s + u, first).Failed? then [] else Calls(g, s + u, first).value);
    } else if b.Failed? {
      CallIsOne(g, s);
    } else if b.Done? && !Calls(g, b.rest, false).Failed? {
      NodesCutLonger(a.value, b.value, Calls(g, b.rest, false).value);
    }
  }

  function PendingScan(g: Grammar, s: string): Option<string> {
    var n := Until(TOOL_CALLS, s);
    if n == |s| then None else PendingCall(g, s[n..], true)
  }

  lemma ScanUnfold(g: Grammar, s: string)
    ensures var rest := s[Until(TOOL_CALLS, s)..]; var r := ScanAndCalls(g, s);
      if rest == "" then r == More([ScanNode(s, rest)])
      else
        match Calls(g, rest, true)
        case Failed => r.Failed?
        case More(calls) => r == More([ScanNode(s, rest), CallsNode(rest, calls, "", true)])
        case Done(calls, after) => r == Done([ScanNode(s, rest), CallsNode(rest, calls, after, false)], after)
  {
    hide Until, Calls;
  }

  lemma ScanShowsNothing(s: string, rest: string)
    requires |rest| <= |s|
    ensures IsSilent(ScanNode(s, rest))
  {
  }

  /** Less text than it takes to begin a call: nothing is shown. */
  lemma ShortScan(g: Grammar, s: string)
    requires !Literal(TOOL_CALL, s[Until(TOOL_CALLS, s)..]).To?
    ensures !ScanAndCalls(g, s).Failed? && AllSilent(ScanAndCalls(g, s).value) && PendingScan(g, s) == None
  {
    hide Until, Ends, MayEnd;
    var rest := s[Until(TOOL_CALLS, s)..];
    OneWordEnds(TOOL_CALLS, TOOL_CALL, rest);
    ScanUnfold(g, s);
    ScanShowsNothing(s, rest);
    if rest != "" {
      assert rest <= TOOL_CALL <= CALL_OPEN by { CallOpens(); }
      assert Literal(CALL_OPEN, rest).Open? by { StillOpen(rest); }
      assert Calls(g, rest, true) == More([]);
      assert IsSilent(CallsNode(rest, [], "", true));
    }
  }

  lemma CallOpens()
    ensures TOOL_CALL <= CALL_OPEN
  {
  }

  lemma StillOpen(s: string)
    requires s <= TOOL_CALL
    ensures Literal(CALL_OPEN, s).Open?
  {
    CallOpens();
  }

  lemma ScanMore(g: Grammar, s: string, u: string)
    requires NamesFit(g.names)
    ensures ListGrown(ScanAndCalls(g, s), ScanAndCalls(g, s + u), IsRejected(g, PendingScan(g, s), u))
  {
    hide Until, Ends, MayEnd, NodesCut, OneMore, Calls, ScanAndCalls, AllSilent, Literal, IsSilent;
    var n := Until(TOOL_CALLS, s);
    if Literal(TOOL_CALL, s[n..]).To? {
      OneWordEnds(TOOL_CALLS, TOOL_CALL, s[n..]);
      TextMore(TOOL_CALLS, s, u);
      LiteralRest(TOOL_CALL, s[n..]);
      CallsFollow(g, s, u, s[n..]);
    } else {
      ShortScan(g, s);
      var b := ScanAndCalls(g, s + u);
      SilentCut(ScanAndCalls(g, s).value, if b.Failed? then [] else b.value);
    }
  }

  lemma CallsFollow(g: Grammar, s: string, u: string, rest: string)
    requires NamesFit(g.names) && rest != "" && rest == s[Until(TOOL_CALLS, s)..]
    requires rest + u == (s + u)[Until(TOOL_CALLS, s + u)..]
    ensures ListGrown(ScanAndCalls(g, s), ScanAndCalls(g, s + u), IsRejected(g, PendingScan(g, s), u))
  {
    hide Until, NodesCut, OneMore, Calls, ScanAndCalls, Call, ScanNode, CallsNode, PendingCall;
    ScanUnfold(g, s);
    ScanUnfold(g, s + u);
    CallsMore(g, rest, true, u);
    var a, b := Calls(g, rest, true), Calls(g, rest + u, true);
    var rejected := IsRejected(g, PendingCall(g, rest, true), u);
    assert PendingScan(g, s) == PendingCall(g, rest, true) by { PendingUnfold(g, s); }
    if !a.Failed? && !b.Failed? {
      var left, later := if a.Done? then a.rest else "", if b.Done? then b.rest else "";
      SameScan(s, u, rest);
      var scan, x, y := ScanNode(s, rest), CallsNode(rest, a.value, left, a.More?), CallsNode(rest + u, b.value, later, b.More?);
      assert [scan] + [x] == [scan, x] && [scan] + [y] == [scan, y];
      if rejected {
        CallsShape(rest, a.value, left, a.More?);
        CallsShape(rest + u, b.value, later, b.More?);
        OneMoreWithin(x, y);
        OneMoreAfter([scan], [x], [y]);
      } else {
        CallsCut(rest, u, a.value, b.value, left, later, a.More?, b.More?);
        OneCut(x, y);
        SameThen([scan], [x], [y]);
      }
    }
  }

  lemma PendingUnfold(g: Grammar, s: string)
    requires s[Until(TOOL_CALLS, s)..] != ""
    ensures PendingScan(g, s) == PendingCall(g, s[Until(TOOL_CALLS, s)..], true)
  {
    hide Until, PendingCall;
  }

  lemma CallsShape(s: string, calls: seq<Node>, rest: string, partial: bool)
    requires |rest| <= |s|
    ensures var n := CallsNode(s, calls, rest, partial); n.tag == NoTag && n.children == calls
  {
  }

  lemma SameScan(s: string, u: string, rest: string)
    requires rest != "" && |rest| <= |s|
    ensures ScanNode(s + u, rest + u) == ScanNode(s, rest)
  {
    TakenMore(s, u, rest);
  }

  lemma CallsCut(s: string, u: string, xs: seq<Node>, ys: seq<Node>, rest: string, later: string, p: bool, q: bool)
    requires NodesCut(xs, ys) && |rest| <= |s| && |later| <= |s + u|
    ensures IsCutOf(CallsNode(s, xs, rest, p), CallsNode(s + u, ys, later, q))
  {
    hide NodesCut, IsCutOf;
    WrapperCut(OtherRule("tool-call"), NoTag, s[..|s| - |rest|], (s + u)[..|s + u| - |later|], xs, ys, p, q);
  }

  // Replies

  function PendingBody(g: Grammar, s: string): Option<string>
    decreases |s|
  {
    if s == "" then PendingScan(g, s)
    else
      match ParseMessage(g, s)
      case Failed => PendingScan(g, s)
      case More(_) => None
      case Done(_, rest) => if |rest| == |s| then PendingScan(g, s) else PendingBody(g, rest)
  }

  /** The beginning of the call that has been shown and is not finished yet. */
  function Pending(g: Grammar, s: string): Option<string> {
    var start := Literal(TURN, s);
    if s != "" && start.Open? then None else PendingBody(g, if start.To? then start.rest else s)
  }

  lemma PartOfWord(s: string)
    requires MayEnd(CONTENT_ENDS, s) && !Ends(CONTENT_ENDS, s)
    ensures |s| < |TOOL_CALL| && !(CHANNEL <= s)
  {
    if s != "" {
      var i :| 0 <= i < |CONTENT_ENDS| && s <= CONTENT_ENDS[i];
      assert CONTENT_ENDS[0] == CHANNEL;
      assert s != CONTENT_ENDS[i];
      assert i == 0 || i == 1 || i == 2;
    }
  }

  lemma ShortRest(s: string, n: nat)
    requires n <= |s| < |TOOL_CALL|
    ensures !Literal(TOOL_CALL, s[n..]).To?
  {
  }

  lemma OpenOrStuck(s: string)
    requires !(CHANNEL <= s)
    ensures !Literal(CHANNEL, s).To?
  {
  }

  /** Where no more than a part of a word is left, nothing more is shown. */
  lemma PartShowsNothing(g: Grammar, s: string)
    requires MayEnd(CONTENT_ENDS, s) && !Ends(CONTENT_ENDS, s)
    ensures !ScanAndCalls(g, s).Failed? && AllSilent(ScanAndCalls(g, s).value) && PendingScan(g, s) == None
    ensures !Body(g, s).Failed? && AllSilent(Body(g, s).value) && PendingBody(g, s) == None
  {
    hide Until, Ends, MayEnd, ScanAndCalls, ParseMessage, Literal, AllSilent, PendingScan;
    PartOfWord(s);
    ShortRest(s, Until(TOOL_CALLS, s));
    ShortScan(g, s);
    if s != "" {
      OpenOrStuck(s);
      MessageOfPart(g, s);
      if ParseMessage(g, s).More? {
        OneSilent(ParseMessage(g, s).value);
      }
    }
  }

  lemma OneSilent(n: Node)
    requires IsSilent(n)
    ensures AllSilent([n])
  {
    hide IsSilent;
  }

  lemma MessageOfPart(g: Grammar, s: string)
    requires s != "" && MayEnd(CONTENT_ENDS, s) && !Literal(CHANNEL, s).To?
    ensures var r := ParseMessage(g, s);
      !r.Failed? && (r.More? ==> IsSilent(r.value)) && (r.Done? ==> |r.rest| == |s|)
  {
    hide MayEnd, Ends, ContentOf, IsSilent, Literal;
    MessageUnfold(g, s);
    if Literal(CHANNEL, s).Open? {
      SilentMessage([], s);
    } else {
      assert Thought(g, s) == Done([], s);
      assert Until(CONTENT_ENDS, s) == 0;
      NothingTakenYet(s);
    }
  }

  lemma NothingTakenYet(s: string)
    requires s != "" && Until(CONTENT_ENDS, s) == 0
    ensures ContentOf(s).Done? && |ContentOf(s).rest| == |s|
  {
    hide Until;
  }

  /** Where a message is done, a word or a part of one is left. */
  lemma WordLeft(g: Grammar, s: string)
    requires ParseMessage(g, s).Done?
    ensures var rest := ParseMessage(g, s).rest; MayEnd(CONTENT_ENDS, rest) && (|rest| == |s| ==> rest == s)
  {
    hide Until, Thought, MayEnd;
    MessageUnfold(g, s);
    if |ParseMessage(g, s).rest| == |s| {
      NoThought(g, s);
    }
  }

  lemma {:induction false} BodyMore(g: Grammar, s: string, u: string)
    requires NamesFit(g.names)
    ensures ListGrown(Body(g, s), Body(g, s + u), IsRejected(g, PendingBody(g, s), u))
    decreases |s|
  {
    hide ParseMessage, ScanAndCalls, IsRejected, ListGrown, Ends, MayEnd, IsSilent, IsCutOf, PendingScan;
    if s == "" {
      NothingComes(g, u);
    } else {
      MessageMore(g, s, u);
      match ParseMessage(g, s)
      case Failed => ScanMore(g, s, u);
      case More(n) => OpenMessage(g, s, u);
      case Done(n, rest) =>
        WordLeft(g, s);
        if !Ends(CONTENT_ENDS, rest) {
          MessageAtPart(g, s, u);
        } else if |rest| == |s| {
          ScanMore(g, s, u);
        } else {
          BodyMore(g, rest, u);
          PrependedGrown([n], Body(g, rest), Body(g, rest + u), IsRejected(g, PendingBody(g, rest), u));
        }
    }
  }

  lemma NothingComes(g: Grammar, u: string)
    ensures ListGrown(Body(g, ""), Body(g, "" + u), IsRejected(g, PendingBody(g, ""), u))
  {
    hide NodesCut, OneMore, AllSilent;
    assert MayEnd(CONTENT_ENDS, "") && !Ends(CONTENT_ENDS, "") by { NoWordYet(); }
    PartShowsNothing(g, "");
    var b := Body(g, "" + u);
    SilentCut(Body(g, "").value, if b.Failed? then [] else b.value);
  }

  lemma NoWordYet()
    ensures MayEnd(CONTENT_ENDS, "") && !Ends(CONTENT_ENDS, "")
  {
    if Ends(CONTENT_ENDS, "") {
      NoWordInNothing("");
    }
  }

  /** A message that has shown something stays first in the list. */
  lemma FirstStays(g: Grammar, s: string, x: Node, xs: seq<Node>)
    requires s != "" && !ParseMessage(g, s).Failed? && IsCutOf(x, ParseMessage(g, s).value) && AllSilent(xs) && !Body(g, s).Failed?
    ensures NodesCut([x] + xs, Body(g, s).value)
  {
    hide ParseMessage, ScanAndCalls, NodesCut, IsCutOf, IsSilent;
    var r := ParseMessage(g, s);
    if r.Done? && |r.rest| == |s| {
      EmptyMessage(g, s);
      CutOfSilent(x, r.value);
      SilentCut([x] + xs, Body(g, s).value);
    } else {
      LastCut(x, xs, Body(g, s).value);
    }
  }

  lemma OpenMessage(g: Grammar, s: string, u: string)
    requires s != "" && ParseMessage(g, s).More? && MessageGrown(ParseMessage(g, s), ParseMessage(g, s + u), u)
    ensures ListGrown(Body(g, s), Body(g, s + u), IsRejected(g, PendingBody(g, s), u))
  {
    hide ParseMessage, ScanAndCalls, NodesCut, IsCutOf, IsSilent, AllSilent, OneMore;
    var n := ParseMessage(g, s).value;
    var b := Body(g, s + u);
    if IsSilent(n) {
      OneSilent(n);
      SilentCut([n], if b.Failed? then [] else b.value);
    } else if !b.Failed? {
      assert AllSilent([]) by { NoneSilent(); }
      FirstStays(g, s + u, n, []);
      Seqs.AppendNothing([n], []);
    }
  }

  lemma NoneSilent()
    ensures AllSilent([])
  {
  }

  /** A message done where a word may begin: it may still go on. */
  lemma MessageAtPart(g: Grammar, s: string, u: string)
    requires s != "" && ParseMessage(g, s).Done? && MessageGrown(ParseMessage(g, s), ParseMessage(g, s + u), u)
    requires MayEnd(CONTENT_ENDS, ParseMessage(g, s).rest) && !Ends(CONTENT_ENDS, ParseMessage(g, s).rest)
    requires |ParseMessage(g, s).rest| == |s| ==> ParseMessage(g, s).rest == s
    ensures ListGrown(Body(g, s), Body(g, s + u), IsRejected(g, PendingBody(g, s), u))
  {
    hide ParseMessage, ScanAndCalls, NodesCut, IsCutOf, IsSilent, AllSilent, OneMore, Ends, MayEnd, PendingScan;
    var n, rest := ParseMessage(g, s).value, ParseMessage(g, s).rest;
    var b := Body(g, s + u);
    PartShowsNothing(g, rest);
    if |rest| == |s| {
      SilentCut(Body(g, s).value, if b.Failed? then [] else b.value);
    } else if !b.Failed? {
      FirstStays(g, s + u, n, Body(g, rest).value);
    }
  }

  /** For every reply and every beginning of it, in the grammar of any request whose
      tool names hold no brace: the beginning is one of a reply, and its nodes are
      those of the reply cut along the last path, unless the call that was under
      way and shown turns out to be none: then there is one call less. */
  lemma SuccessiveReplies(g: Grammar, s: string, u: string)
    requires NamesFit(g.names)
    ensures ListGrown(ParseReply(g, s), ParseReply(g, s + u), IsRejected(g, Pending(g, s), u))
  {
    hide Body, IsRejected, ListGrown, Literal, PendingBody;
    LiteralMore(TURN, s, u);
    LiteralRest(TURN, s);
    if s == "" || Literal(TURN, s).Open? {
      NothingStarted(g, s, u);
    } else {
      var rest := if Literal(TURN, s).To? then Literal(TURN, s).rest else s;
      TakenMore(s, u, rest);
      BodyMore(g, rest, u);
      PrependedGrown([RuleNode(OtherRule("start"), s, [], rest, false)], Body(g, rest), Body(g, rest + u), IsRejected(g, PendingBody(g, rest), u));
    }
  }

  lemma NothingStarted(g: Grammar, s: string, u: string)
    requires s == "" || Literal(TURN, s).Open?
    ensures ListGrown(ParseReply(g, s), ParseReply(g, s + u), IsRejected(g, Pending(g, s), u))
  {
    hide Body, NodesCut, OneMore, AllSilent, PendingBody;
    var a, b := ParseReply(g, s), ParseReply(g, s + u);
    var start := RuleNode(OtherRule("start"), s, [], "", s != "");
    assert IsSilent(start);
    OneSilent(start);
    if s == "" {
      NoWordYet();
      PartShowsNothing(g, "");
      assert a.value == [start] + Body(g, "").value;
      BothSilent([start], Body(g, "").value);
    }
    SilentCut(a.value, if b.Failed? then [] else b.value);
  }

  lemma BothSilent(xs: seq<Node>, ys: seq<Node>)
    requires AllSilent(xs) && AllSilent(ys)
    ensures AllSilent(xs + ys)
  {
    hide IsSilent;
  }

  lemma MessageOfAll(nodes: seq<Node>)
    ensures MessageOf(nodes) == Visited(EMPTY_MESSAGE, Root(nodes)) == VisitedAll(EMPTY_MESSAGE, nodes)
  {
    assert Root(nodes).children[0..] == nodes;
    VisitedFromAll(EMPTY_MESSAGE, Root(nodes), 0);
  }

  /** The diff between the messages of a beginning of a reply and of a longer one
      exists exactly unless a call that has been shown is rejected. Where it exists
      nothing has been taken back. */
  lemma RepliesStream(g: Grammar, s: string, t: string)
    requires NamesFit(g.names) && s <= t && !ParseReply(g, t).Failed?
    ensures !ParseReply(g, s).Failed?
    ensures var a, b := MessageOf(ParseReply(g, s).value), MessageOf(ParseReply(g, t).value);
      var rejected := IsRejected(g, Pending(g, s), t[|s|..]);
      (MessageDiff.Diffs(a, b).Success? <==> !rejected) && (!rejected ==> Grows(a, b)) &&
      (rejected ==> |b.calls| + 1 == |a.calls|)
  {
    hide ParseReply, IsRejected, Pending, MessageOf, MessageDiff.Diffs, Visited, VisitedAll, NodesCut, IsCutOf, Grows;
    var u := t[|s|..];
    assert t == s + u;
    SuccessiveReplies(g, s, u);
    var xs, ys := ParseReply(g, s).value, ParseReply(g, t).value;
    MessageOfAll(xs);
    MessageOfAll(ys);
    MessageDiff.DiffsExist(MessageOf(xs), MessageOf(ys));
    if !IsRejected(g, Pending(g, s), u) {
      WrapperCut(OtherRule(""), NoTag, "", "", xs, ys, false, false);
      VisitGrows(EMPTY_MESSAGE, Root(xs), Root(ys));
      GrowsDiffable(MessageOf(xs), MessageOf(ys));
    }
  }

  /** A reply parsed again and again as it arrives, with no shown call rejected: no
      diff fails, and their sum is the last message with its ids. */
  lemma ReplyRebuilds(g: Grammar, texts: seq<string>, caches: seq<seq<string>>)
    requires NamesFit(g.names) && |caches| == |texts| > 0
    requires forall i :: 0 <= i < |texts| ==>
      !ParseReply(g, texts[i]).Failed? && |MessageOf(ParseReply(g, texts[i]).value).calls| <= |caches[i]|
    requires forall i :: 0 <= i < |texts| - 1 ==>
      texts[i] <= texts[i + 1] && caches[i] <= caches[i + 1] &&
      !IsRejected(g, Pending(g, texts[i]), texts[i + 1][|texts[i]|..])
    ensures var ms := seq(|texts|, i requires 0 <= i < |texts| => Identified(MessageOf(ParseReply(g, texts[i]).value), caches[i]));
      MessageDiff.AddChain(EMPTY_MESSAGE, ms) == Success(ms[|texts| - 1])
  {
    hide ParseReply, IsRejected, Pending, MessageOf, MessageDiff.Diffs, Grows, Identified, MessageDiff.Continues;
    var ms := seq(|texts|, i requires 0 <= i < |texts| => Identified(MessageOf(ParseReply(g, texts[i]).value), caches[i]));
    forall i | 0 <= i < |ms| - 1 ensures MessageDiff.Continues(ms[i], ms[i + 1]) {
      RepliesStream(g, texts[i], texts[i + 1]);
      IdentifiedExtends(MessageOf(ParseReply(g, texts[i]).value), MessageOf(ParseReply(g, texts[i + 1]).value), caches[i], caches[i + 1]);
    }
    FromNothing(ms[0]);
    MessageDiff.ChainRebuilds(EMPTY_MESSAGE, ms);
  }
}
