/** Gemma 4 tool calls: the syntax tree of a dict, possibly cut off, rendered as
    JSON, and the mapper that picks the calls out of the whole tree. */
module Gemma4 {
  import Seqs
  import opened Wrappers
  import opened JsonText
  import opened JsonReader
  import opened ToolCalls
  import opened Streaming
  import MessageDiff

  datatype Rule =
    | Number | Bool | Null | StringContent | String | Array | DictKeyName | DictKey | DictKv | Dict | Value
    | OtherRule(name: string)

  datatype Tag = NoTag | ReasoningTag | ContentTag | ToolTag | NameTag | ArgsTag | OtherTag(name: string)

  datatype Node = Node(rule: Rule, tag: Tag, text: string, children: seq<Node>, partial: bool)

  function Render(n: Node): string
    decreases n, |n.children| + 1
  {
    if n.text == "" then ""
    else
      match n.rule
      case Number => n.text
      case Bool => n.text
      case Null => n.text
      case StringContent => Escape(n.text)
      case String =>
        [QUOTE] + (if n.children == [] then "" else Render(n.children[0]) + if n.partial then "" else [QUOTE])
      case Array => "[" + (RenderFrom(n, 0, ",") + if n.partial then "" else "]")
      case DictKeyName => n.text
      case DictKey =>
        [QUOTE] + ((if n.children == [] then "" else Escape(Render(n.children[0]))) + if n.partial then "" else [QUOTE, ':'])
      case DictKv => RenderFrom(n, 0, "")
      case Dict => "{" + (RenderFrom(n, 0, ",") + if n.partial then "" else "}")
      case Value => if n.children == [] then "" else Render(n.children[0])
      case OtherRule(_) => ""
  }

  /** The children from the k-th on, each but the first child after the separator. */
  function RenderFrom(n: Node, k: nat, separator: string): string
    requires k <= |n.children|
    decreases n, |n.children| - k
  {
    if k == |n.children| then ""
    else (if k > 0 then separator else "") + (Render(n.children[k]) + RenderFrom(n, k + 1, separator))
  }

  method ToJson(n: Node) returns (r: string)
    ensures r == Render(n)
    decreases n, 1
  {
    hide Escape;
    if n.text == "" {
      return "";
    }
    match n.rule
    case Number => r := n.text;
    case Bool => r := n.text;
    case Null => r := n.text;
    case StringContent => r := Escape(n.text);
    case String =>
      r := "\"";
      if n.children != [] {
        var content := ToJson(n.children[0]);
        r := r + content;
        if !n.partial {
          r := r + "\"";
        }
      }
    case Array =>
      var items := ItemsToJson(n, true);
      r := "[" + items;
      if !n.partial {
        r := r + "]";
      }
    case DictKeyName => r := n.text;
    case DictKey =>
      r := "\"";
      if n.children != [] {
        var name := ToJson(n.children[0]);
        r := r + Escape(name);
      }
      if !n.partial {
        r := r + "\":";
      }
    case DictKv => r := ItemsToJson(n, false);
    case Dict =>
      var items := ItemsToJson(n, true);
      r := "{" + items;
      if !n.partial {
        r := r + "}";
      }
    case Value =>
      if n.children != [] {
        r := ToJson(n.children[0]);
      } else {
        r := "";
      }
    case OtherRule(_) => r := "";
  }

  method ItemsToJson(n: Node, commas: bool) returns (r: string)
    ensures r == RenderFrom(n, 0, if commas then "," else "")
    decreases n, 0
  {
    hide Render;
    var separator := if commas then "," else "";
    r := "";
    var addComma := false;
    var i := 0;
    while i < |n.children|
      invariant i <= |n.children| && (addComma <==> i > 0)
      invariant RenderFrom(n, 0, separator) == r + RenderFrom(n, i, separator)
    {
      ghost var before := r;
      var lead := if addComma then separator else "";
      r := r + lead;
      addComma := true;
      var item := ToJson(n.children[i]);
      r := r + item;
      Seqs.Associative(before, lead, item + RenderFrom(n, i + 1, separator));
      Seqs.Associative(before + lead, item, RenderFrom(n, i + 1, separator));
      i := i + 1;
    }
    Seqs.AppendNothing(r, RenderFrom(n, i, separator));
  }

  /** A node that shows nothing: neither text of its own nor a part of a call.
      Where the input ends before a rule could begin, such a node stands in for
      whatever comes later. */
  predicate IsSilent(n: Node)
    decreases n
  {
    (n.rule.OtherRule? || n.text == "") && n.tag !in {NameTag, ArgsTag} &&
    (n.tag in {ReasoningTag, ContentTag} ==> n.text == "") &&
    forall i :: 0 <= i < |n.children| ==> IsSilent(n.children[i])
  }

  /** Nodes that are finished by a delimiter of their own: only a partial one
      can grow. */
  predicate Closes(n: Node) {
    n.rule in {String, Array, DictKey, Dict} || n.tag == NameTag
  }

  /** Of the rules around others only the text of what is tagged as such is read. */
  predicate TextCounts(n: Node) {
    !n.rule.OtherRule? || n.tag in {ReasoningTag, ContentTag}
  }

  /** The first k children without the silent ones at their end. */
  function ShownUpTo(n: Node, k: nat): (r: nat)
    requires k <= |n.children|
    ensures r <= k && (r > 0 ==> !IsSilent(n.children[r - 1]))
    ensures forall i :: r <= i < k ==> IsSilent(n.children[i])
  {
    if k == 0 then 0 else if IsSilent(n.children[k - 1]) then ShownUpTo(n, k - 1) else k
  }

  /** How many children count: a node that renders nothing may end with silent
      ones, elsewhere each child has its separator. */
  function Core(n: Node): (r: nat)
    ensures r <= |n.children|
    ensures forall i :: r <= i < |n.children| ==> n.rule.OtherRule? && IsSilent(n.children[i])
  {
    if n.rule.OtherRule? then ShownUpTo(n, |n.children|) else |n.children|
  }

  /** b is a parsed from more input: a is cut off along its last path. */
  predicate IsCutOf(a: Node, b: Node)
    decreases a
  {
    a == b || IsSilent(a) ||
    (a.rule == b.rule && a.tag == b.tag && (TextCounts(a) ==> a.text <= b.text) && (Closes(a) ==> a.partial) &&
     Core(a) <= |b.children| &&
     (forall i :: 0 <= i < Core(a) - 1 ==> a.children[i] == b.children[i]) &&
     (Core(a) > 0 ==> IsCutOf(a.children[Core(a) - 1], b.children[Core(a) - 1])))
  }

  lemma PrefixAppend(lead: string, a: string, b: string)
    requires a <= b
    ensures lead + a <= lead + b
  {
  }

  lemma EscapePrefix(a: string, b: string)
    requires a <= b
    ensures Escape(a) <= Escape(b)
  {
    hide Escape;
    EscapeAppend(a, b[|a|..]);
    assert a == b[..|a|];
    Seqs.Split(b, |a|);
  }

  /** A bracketed text: cut anywhere before its end, or whole. */
  lemma Bracketed(open: string, a: string, b: string, closeA: string, closeB: string)
    requires a <= b && closeA == ""
    ensures open + (a + closeA) <= open + (b + closeB)
  {
  }

  lemma SilentRendersNothing(n: Node)
    requires IsSilent(n)
    ensures Render(n) == ""
  {
  }

  /** What has been rendered of a tree that is still being parsed is never taken
      back, whatever the tree. */
  lemma {:induction false} RenderGrows(a: Node, b: Node)
    requires IsCutOf(a, b)
    ensures Render(a) <= Render(b)
    decreases a, |a.children| + 1
  {
    hide Escape, IsCutOf, RenderFrom, IsSilent, Closes, Core;
    if a == b || a.text == "" || a.rule.OtherRule? {
    } else if IsSilent(a) {
      SilentRendersNothing(a);
    } else {
      CutShape(a, b);
      match a.rule
      case StringContent => EscapePrefix(a.text, b.text);
      case Array => ItemsGrow(a, b, 0, ","); ClosingGrows(a, b, "[", "]");
      case Dict => ItemsGrow(a, b, 0, ","); ClosingGrows(a, b, "{", "}");
      case DictKv => ItemsGrow(a, b, 0, "");
      case String => FirstGrows(a, b);
      case DictKey => FirstGrows(a, b);
      case Value => FirstGrows(a, b);
      case _ =>
    }
  }

  lemma ClosingGrows(a: Node, b: Node, open: string, close: string)
    requires a.partial && RenderFrom(a, 0, ",") <= RenderFrom(b, 0, ",")
    ensures open + (RenderFrom(a, 0, ",") + if a.partial then "" else close) <=
      open + (RenderFrom(b, 0, ",") + if b.partial then "" else close)
  {
    hide RenderFrom;
    Bracketed(open, RenderFrom(a, 0, ","), RenderFrom(b, 0, ","), "", if b.partial then "" else close);
  }

  lemma CutShape(a: Node, b: Node)
    requires IsCutOf(a, b) && a != b && !IsSilent(a)
    ensures a.rule == b.rule && a.tag == b.tag && (Closes(a) ==> a.partial) && Core(a) <= |b.children|
    ensures !a.rule.OtherRule? || a.tag == ReasoningTag || a.tag == ContentTag ==> a.text <= b.text
    ensures forall i :: 0 <= i < Core(a) ==> IsCutOf(a.children[i], b.children[i])
    ensures forall i :: 0 <= i < Core(a) - 1 ==> a.children[i] == b.children[i]
    ensures !a.rule.OtherRule? ==> Core(a) == |a.children|
    ensures a.rule in {String, Array, DictKey, Dict} ==> a.partial
  {
    hide IsSilent, Core, ShownUpTo;
    CoreOf(a);
    forall i | 0 <= i < Core(a) ensures IsCutOf(a.children[i], b.children[i]) {
      if i < Core(a) - 1 {
        SameIsCut(a.children[i]);
      }
    }
  }

  lemma CoreOf(n: Node)
    ensures !n.rule.OtherRule? ==> Core(n) == |n.children|
  {
    hide IsSilent, ShownUpTo;
  }

  lemma SameIsCut(a: Node)
    ensures IsCutOf(a, a)
  {
    hide IsSilent, Core, Closes;
  }

  lemma {:induction false} FirstGrows(a: Node, b: Node)
    requires IsCutOf(a, b) && a != b && !IsSilent(a) && (a.rule.String? || a.rule.DictKey? || a.rule.Value?) && a.text != ""
    ensures Render(a) <= Render(b)
    decreases a, |a.children|
  {
    hide Escape, IsCutOf, RenderFrom, IsSilent, Closes, Core;
    CutShape(a, b);
    if a.children != [] {
      var x, y := Render(a.children[0]), Render(b.children[0]);
      RenderGrows(a.children[0], b.children[0]);
      EscapePrefix(x, y);
      Bracketed([QUOTE], x, y, "", if b.partial then "" else [QUOTE]);
      Bracketed([QUOTE], Escape(x), Escape(y), "", if b.partial then "" else [QUOTE, ':']);
    }
  }

  lemma {:induction false} ItemsGrow(a: Node, b: Node, k: nat, separator: string)
    requires IsCutOf(a, b) && !IsSilent(a) && !a.rule.OtherRule? && k <= |a.children| <= |b.children|
    ensures RenderFrom(a, k, separator) <= RenderFrom(b, k, separator)
    decreases a, |a.children| - k
  {
    hide Render, IsCutOf, IsSilent, Closes, Core;
    if a == b {
    } else if k < |a.children| {
      CutShape(a, b);
      var lead := if k > 0 then separator else "";
      RenderGrows(a.children[k], b.children[k]);
      ItemsGrow(a, b, k + 1, separator);
      if k == |a.children| - 1 {
        Bracketed(lead, Render(a.children[k]), Render(b.children[k]), RenderFrom(a, k + 1, separator), RenderFrom(b, k + 1, separator));
      } else {
        PrefixAppend(Render(a.children[k]), RenderFrom(a, k + 1, separator), RenderFrom(b, k + 1, separator));
        PrefixAppend(lead, Render(a.children[k]) + RenderFrom(a, k + 1, separator), Render(a.children[k]) + RenderFrom(b, k + 1, separator));
      }
    }
  }

  predicate IsScalar(n: Node) {
    match n.rule
    case Number => IsNumber(n.text)
    case Bool => n.text == "true" || n.text == "false"
    case Null => n.text == "null"
    case _ => false
  }

  /** The shape the grammar gives to a value that was parsed to its end. */
  predicate IsComplete(n: Node)
    decreases n
  {
    !n.partial && n.text != "" &&
    match n.rule
    case Number => IsScalar(n)
    case Bool => IsScalar(n)
    case Null => IsScalar(n)
    case String => |n.children| == 1 && n.children[0].rule == StringContent
    case Array => forall i :: 0 <= i < |n.children| ==> n.children[i].rule == Value && IsComplete(n.children[i])
    case Dict => forall i :: 0 <= i < |n.children| ==> n.children[i].rule == DictKv && IsComplete(n.children[i])
    case DictKv =>
      |n.children| == 2 && n.children[0].rule == DictKey && IsComplete(n.children[0]) &&
      n.children[1].rule == Value && IsComplete(n.children[1])
    case DictKey => |n.children| == 1 && n.children[0].rule == DictKeyName
    case Value =>
      |n.children| == 1 && IsComplete(n.children[0]) &&
      (IsScalar(n.children[0]) || n.children[0].rule in {String, Array, Dict})
    case _ => false
  }

  lemma {:induction false} PlainIsInert(b: Braces, s: string)
    requires !b.inString && !b.escaped && forall c :: c in s ==> c !in "{}\"\\"
    ensures CountAll(b, s) == b
    decreases |s|
  {
    if s != "" {
      assert s[0] in s;
      PlainIsInert(b, s[1..]);
    }
  }

  /** A complete value neither opens nor closes a brace or a string. */
  lemma {:induction false} CompleteIsInert(b: Braces, n: Node)
    requires !b.inString && !b.escaped && IsComplete(n)
    ensures CountAll(b, Render(n)) == b
    decreases n, |n.children| + 1
  {
    hide Escape;
    match n.rule
    case String => StringIsInert(b, n);
    case DictKey => KeyIsInert(b, n);
    case Array => BracketsAreInert(b, n);
    case Dict => BracketsAreInert(b, n);
    case DictKv => ItemsAreInert(b, n, 0, "");
    case Value => CompleteIsInert(b, n.children[0]);
    case _ =>
      AtomIsMadeOf(n.text);
      PlainIsInert(b, n.text);
  }

  lemma StringIsInert(b: Braces, n: Node)
    requires !b.inString && !b.escaped && IsComplete(n) && n.rule.String?
    ensures CountAll(b, Render(n)) == b
  {
    hide Escape, CountAll;
    var content := n.children[0];
    assert Render(content) == Escape(content.text) by { NothingEscaped(); }
    Seqs.Associative([QUOTE], Escape(content.text), [QUOTE]);
    LiteralIsInert(b, content.text);
  }

  lemma NothingEscaped()
    ensures Escape("") == ""
  {
  }

  lemma KeyIsInert(b: Braces, n: Node)
    requires !b.inString && !b.escaped && IsComplete(n) && n.rule.DictKey?
    ensures CountAll(b, Render(n)) == b
  {
    hide Escape;
    var name := Render(n.children[0]);
    assert Render(n) == [QUOTE] + Escape(name) + [QUOTE] + ":";
    LiteralIsInert(b, name);
    CountAppend(b, [QUOTE] + Escape(name) + [QUOTE], ":");
    PlainIsInert(b, ":");
  }

  lemma {:induction false} BracketsAreInert(b: Braces, n: Node)
    requires !b.inString && !b.escaped && IsComplete(n) && (n.rule.Array? || n.rule.Dict?)
    ensures CountAll(b, Render(n)) == b
    decreases n, |n.children|, 1
  {
    hide RenderFrom;
    var items := RenderFrom(n, 0, ",");
    var open, close := if n.rule.Array? then "[" else "{", if n.rule.Array? then "]" else "}";
    var inside := if n.rule.Array? then b else b.(depth := b.depth + 1);
    assert Render(n) == open + (items + close);
    CountAppend(b, open, items + close);
    CountAppend(inside, items, close);
    assert CountAll(b, open) == inside;
    assert CountAll(inside, close) == b;
    ItemsAreInert(inside, n, 0, ",");
  }

  lemma {:induction false} ItemsAreInert(b: Braces, n: Node, k: nat, separator: string)
    requires !b.inString && !b.escaped && IsComplete(n) && (n.rule.Array? || n.rule.Dict? || n.rule.DictKv?)
    requires k <= |n.children| && (separator == "" || separator == ",")
    ensures CountAll(b, RenderFrom(n, k, separator)) == b
    decreases n, |n.children| - k, 0
  {
    hide Render;
    if k < |n.children| {
      var lead, rest := if k > 0 then separator else "", RenderFrom(n, k + 1, separator);
      CountAppend(b, lead, Render(n.children[k]) + rest);
      CountAppend(b, Render(n.children[k]), rest);
      PlainIsInert(b, lead);
      CompleteIsInert(b, n.children[k]);
      ItemsAreInert(b, n, k + 1, separator);
    }
  }

  /** The first node with a tag, at most so many levels down. */
  function FindByTag(n: Node, tag: Tag, maxDepth: nat, k: nat): Option<Node>
    requires k <= |n.children|
    decreases n, |n.children| - k
  {
    if k == |n.children| then None
    else if n.children[k].tag == tag then Some(n.children[k])
    else
      var below := if maxDepth > 1 then FindByTag(n.children[k], tag, maxDepth - 1, 0) else None;
      if below.Some? then below else FindByTag(n, tag, maxDepth, k + 1)
  }

  /** What a tool node adds: a call once its name is complete. */
  function CallOf(n: Node): seq<ToolCall> {
    var name, args := FindByTag(n, NameTag, 3, 0), FindByTag(n, ArgsTag, 3, 0);
    if name.None? || args.None? || name.value.partial then []
    else [ToolCall(name.value.text, if args.value.children == [] then "" else Render(args.value.children[0]), "")]
  }

  function Visited(m: Message, n: Node): Message
    decreases n, |n.children| + 1
  {
    match n.tag
    case ReasoningTag => m.(reasoning := m.reasoning + n.text)
    case ContentTag => m.(content := m.content + n.text)
    case ToolTag => m.(calls := m.calls + CallOf(n))
    case _ => VisitedFrom(m, n, 0)
  }

  function VisitedFrom(m: Message, n: Node, k: nat): Message
    requires k <= |n.children|
    decreases n, |n.children| - k
  {
    if k == |n.children| then m else VisitedFrom(Visited(m, n.children[k]), n, k + 1)
  }

  method Find(n: Node, tag: Tag, maxDepth: nat) returns (found: Option<Node>)
    ensures found == FindByTag(n, tag, maxDepth, 0)
    decreases n
  {
    var i := 0;
    while i < |n.children|
      invariant i <= |n.children| && FindByTag(n, tag, maxDepth, 0) == FindByTag(n, tag, maxDepth, i)
    {
      var child := n.children[i];
      if child.tag == tag {
        return Some(child);
      }
      if maxDepth > 1 {
        found := Find(child, tag, maxDepth - 1);
        if found.Some? {
          return;
        }
      }
      i := i + 1;
    }
    found := None;
  }

  /** Writes the message it was given. */
  class Gemma4Mapper {
    var result: Message

    constructor (m: Message)
      ensures result == m
    {
      result := m;
    }

    /** The parsed nodes are the children of the root. */
    method FromAst(root: Node)
      modifies this
      ensures result == VisitedFrom(old(result), root, 0)
    {
      VisitChildren(root);
    }

    method VisitChildren(n: Node)
      modifies this
      ensures result == VisitedFrom(old(result), n, 0)
      decreases n, 0
    {
      var i := 0;
      while i < |n.children|
        invariant i <= |n.children| && VisitedFrom(old(result), n, 0) == VisitedFrom(result, n, i)
      {
        Visit(n.children[i]);
        i := i + 1;
      }
    }

    method Visit(n: Node)
      modifies this
      ensures result == Visited(old(result), n)
      decreases n, 1
    {
      hide Render, FindByTag;
      if n.tag == ReasoningTag {
        result := result.(reasoning := result.reasoning + n.text);
      } else if n.tag == ContentTag {
        result := result.(content := result.content + n.text);
      } else if n.tag == ToolTag {
        VisitTool(n);
      } else {
        VisitChildren(n);
      }
    }

    method VisitTool(n: Node)
      modifies this
      ensures result == old(result).(calls := old(result).calls + CallOf(n))
    {
      hide Render, FindByTag;
      Seqs.AppendNothing(result.calls, []);
      var name := Find(n, NameTag, 3);
      var args := Find(n, ArgsTag, 3);
      if name.Some? && args.Some? {
        if !name.value.partial {
          var call := ToolCall(name.value.text, "", "");
          if args.value.children != [] {
            var json := ToJson(args.value.children[0]);
            call := call.(arguments := json);
          }
          result := result.(calls := result.calls + [call]);
        }
      }
    }
  }

  lemma {:induction false} SilentHidesNothing(n: Node, tag: Tag, maxDepth: nat, k: nat)
    requires k <= |n.children| && tag in {NameTag, ArgsTag}
    requires forall i :: k <= i < |n.children| ==> IsSilent(n.children[i])
    ensures FindByTag(n, tag, maxDepth, k) == None
    decreases n, |n.children| - k
  {
    if k < |n.children| {
      if maxDepth > 1 {
        SilentHidesNothing(n.children[k], tag, maxDepth - 1, 0);
      }
      SilentHidesNothing(n, tag, maxDepth, k + 1);
    }
  }

  lemma SilentChildren(n: Node)
    requires IsSilent(n)
    ensures forall i :: 0 <= i < |n.children| ==> IsSilent(n.children[i])
    ensures n.tag !in {NameTag, ArgsTag}
  {
  }

  // Searching

  predicate IsPath(n: Node, path: seq<nat>)
    decreases |path|
  {
    path != [] ==> path[0] < |n.children| && IsPath(n.children[path[0]], path[1..])
  }

  function At(n: Node, path: seq<nat>): Node
    requires IsPath(n, path)
    decreases |path|
  {
    if path == [] then n else At(n.children[path[0]], path[1..])
  }

  /** The order in which a tree is read, a node before what is below it. */
  predicate IsBefore(p: seq<nat>, q: seq<nat>)
    decreases |p|
  {
    q != [] && (p == [] || p[0] < q[0] || (p[0] == q[0] && IsBefore(p[1..], q[1..])))
  }

  /** A path down to a node with the tag, from the k-th child on. */
  predicate LeadsTo(n: Node, tag: Tag, maxDepth: nat, k: nat, path: seq<nat>) {
    0 < |path| <= maxDepth && k <= path[0] && IsPath(n, path) && At(n, path).tag == tag
  }

  ghost predicate LeadsFirst(n: Node, tag: Tag, maxDepth: nat, k: nat, path: seq<nat>) {
    LeadsTo(n, tag, maxDepth, k, path) &&
    forall q :: LeadsTo(n, tag, maxDepth, k, q) ==> q == path || IsBefore(path, q)
  }

  ghost predicate LeadsNowhere(n: Node, tag: Tag, maxDepth: nat, k: nat) {
    forall path :: !LeadsTo(n, tag, maxDepth, k, path)
  }

  /** The search finds the first node with the tag that is not too far down, and
      nothing exactly when there is none. */
  lemma {:induction false} FoundFirst(n: Node, tag: Tag, maxDepth: nat, k: nat)
    requires k <= |n.children| && maxDepth > 0
    ensures var found := FindByTag(n, tag, maxDepth, k);
      if found.None? then LeadsNowhere(n, tag, maxDepth, k)
      else exists path :: LeadsFirst(n, tag, maxDepth, k, path) && At(n, path) == found.value
    decreases n, |n.children| - k
  {
    hide IsPath, At, IsBefore;
    if k < |n.children| {
      var child := n.children[k];
      var below := if maxDepth > 1 then FindByTag(child, tag, maxDepth - 1, 0) else None;
      if maxDepth > 1 {
        FoundFirst(child, tag, maxDepth - 1, 0);
      }
      if child.tag == tag {
        ChildFirst(n, tag, maxDepth, k);
      } else if below.Some? {
        var path :| LeadsFirst(child, tag, maxDepth - 1, 0, path) && At(child, path) == below.value;
        BelowFirst(n, tag, maxDepth, k, path);
      } else {
        FoundFirst(n, tag, maxDepth, k + 1);
        NoneBelow(n, tag, maxDepth, k);
      }
    } else {
      forall path | 0 < |path| && k <= path[0] ensures !IsPath(n, path) {
        NoSuchChild(n, path);
      }
    }
  }

  lemma NoSuchChild(n: Node, path: seq<nat>)
    requires path != [] && |n.children| <= path[0]
    ensures !IsPath(n, path)
  {
  }

  lemma OneDown(n: Node, k: nat, path: seq<nat>)
    requires k < |n.children|
    ensures IsPath(n, [k] + path) <==> IsPath(n.children[k], path)
    ensures IsPath(n, [k] + path) ==> At(n, [k] + path) == At(n.children[k], path)
  {
    assert ([k] + path)[1..] == path;
  }

  lemma ChildFirst(n: Node, tag: Tag, maxDepth: nat, k: nat)
    requires k < |n.children| && maxDepth > 0 && n.children[k].tag == tag
    ensures exists path :: LeadsFirst(n, tag, maxDepth, k, path) && At(n, path) == n.children[k]
  {
    OneDown(n, k, []);
    assert [k] + [] == [k];
    assert At(n.children[k], []) == n.children[k];
    forall q | LeadsTo(n, tag, maxDepth, k, q) ensures q == [k] || IsBefore([k], q) {
      if q[0] == k && q != [k] {
        assert IsBefore([k][1..], q[1..]);
      }
    }
    assert LeadsFirst(n, tag, maxDepth, k, [k]);
  }

  lemma Itself(n: Node, path: seq<nat>)
    requires IsPath(n, path)
    ensures path == [] ==> At(n, path) == n
  {
  }

  lemma StepDown(n: Node, tag: Tag, maxDepth: nat, k: nat, path: seq<nat>)
    requires LeadsTo(n, tag, maxDepth, k, path) && path[0] == k < |n.children| && n.children[k].tag != tag
    ensures maxDepth > 1 && LeadsTo(n.children[k], tag, maxDepth - 1, 0, path[1..])
  {
    hide At, IsPath;
    assert path == [k] + path[1..];
    OneDown(n, k, path[1..]);
    Itself(n.children[k], path[1..]);
  }

  lemma BelowFirst(n: Node, tag: Tag, maxDepth: nat, k: nat, path: seq<nat>)
    requires k < |n.children| && maxDepth > 1 && n.children[k].tag != tag
    requires LeadsFirst(n.children[k], tag, maxDepth - 1, 0, path)
    ensures exists p :: LeadsFirst(n, tag, maxDepth, k, p) && At(n, p) == At(n.children[k], path)
  {
    hide At, IsPath;
    OneDown(n, k, path);
    var p := [k] + path;
    assert p[1..] == path;
    forall q | LeadsTo(n, tag, maxDepth, k, q) ensures q == p || IsBefore(p, q) {
      if q[0] == k {
        StepDown(n, tag, maxDepth, k, q);
      }
    }
    assert LeadsFirst(n, tag, maxDepth, k, p);
  }

  lemma NoneBelow(n: Node, tag: Tag, maxDepth: nat, k: nat)
    requires k < |n.children| && maxDepth > 0 && n.children[k].tag != tag
    requires maxDepth > 1 ==> LeadsNowhere(n.children[k], tag, maxDepth - 1, 0)
    ensures forall path :: LeadsTo(n, tag, maxDepth, k, path) <==> LeadsTo(n, tag, maxDepth, k + 1, path)
  {
    hide At, IsPath;
    forall path | LeadsTo(n, tag, maxDepth, k, path) ensures path[0] != k {
      if path[0] == k {
        StepDown(n, tag, maxDepth, k, path);
      }
    }
  }

  /** Whatever part of a call is found in a cut tree is found, perhaps longer, in
      the whole. */
  lemma {:induction false} FoundGrows(a: Node, b: Node, tag: Tag, maxDepth: nat, k: nat)
    requires IsCutOf(a, b) && tag in {NameTag, ArgsTag} && k <= |a.children| && k <= |b.children|
    ensures var x, y := FindByTag(a, tag, maxDepth, k), FindByTag(b, tag, maxDepth, k);
      x.Some? ==> y.Some? && IsCutOf(x.value, y.value)
    decreases a, |a.children| - k
  {
    hide IsCutOf, IsSilent, Core, Closes;
    if a == b {
      if FindByTag(a, tag, maxDepth, k).Some? {
        SameIsCut(FindByTag(a, tag, maxDepth, k).value);
      }
    } else if IsSilent(a) {
      SilentChildren(a);
      SilentHidesNothing(a, tag, maxDepth, k);
    } else if k >= Core(a) {
      SilentHidesNothing(a, tag, maxDepth, k);
    } else {
      CutShape(a, b);
      var c, d := a.children[k], b.children[k];
      if k < Core(a) - 1 {
        if c.tag == tag {
          SameIsCut(c);
        } else if maxDepth > 1 && FindByTag(c, tag, maxDepth - 1, 0).Some? {
          SameIsCut(FindByTag(c, tag, maxDepth - 1, 0).value);
        } else {
          FoundGrows(a, b, tag, maxDepth, k + 1);
        }
      } else {
        SilentHidesNothing(a, tag, maxDepth, k + 1);
        LastFoundGrows(c, d, tag, maxDepth);
      }
    }
  }

  lemma {:induction false} LastFoundGrows(c: Node, d: Node, tag: Tag, maxDepth: nat)
    requires IsCutOf(c, d) && tag in {NameTag, ArgsTag}
    ensures c.tag == tag ==> d.tag == tag
    ensures maxDepth > 1 && d.tag != tag ==>
      var x, y := FindByTag(c, tag, maxDepth - 1, 0), FindByTag(d, tag, maxDepth - 1, 0);
      x.Some? ==> y.Some? && IsCutOf(x.value, y.value)
    ensures d.tag == tag && c.tag != tag && maxDepth > 1 ==> FindByTag(c, tag, maxDepth - 1, 0) == None
    decreases c, |c.children| + 1
  {
    hide FindByTag, IsCutOf, IsSilent, Core, Closes;
    if IsSilent(c) {
      SilentChildren(c);
      if maxDepth > 1 {
        SilentHidesNothing(c, tag, maxDepth - 1, 0);
      }
    } else {
      if c != d {
        CutShape(c, d);
      }
      if maxDepth > 1 && d.tag != tag {
        FoundGrows(c, d, tag, maxDepth - 1, 0);
      }
    }
  }

  lemma {:induction false} FoundTag(n: Node, tag: Tag, maxDepth: nat, k: nat)
    requires k <= |n.children|
    ensures FindByTag(n, tag, maxDepth, k).Some? ==> FindByTag(n, tag, maxDepth, k).value.tag == tag
    decreases n, |n.children| - k
  {
    if k < |n.children| {
      if maxDepth > 1 {
        FoundTag(n.children[k], tag, maxDepth - 1, 0);
      }
      FoundTag(n, tag, maxDepth, k + 1);
    }
  }

  lemma ArgsGrow(a: Node, b: Node)
    requires IsCutOf(a, b) && a.tag == ArgsTag
    ensures (if a.children == [] then "" else Render(a.children[0])) <= (if b.children == [] then "" else Render(b.children[0]))
  {
    hide Render, IsCutOf, Core, Closes;
    if a != b {
      CutShape(a, b);
      if Core(a) > 0 {
        RenderGrows(a.children[0], b.children[0]);
      } else if a.children != [] {
        SilentRendersNothing(a.children[0]);
      }
    }
  }

  /** The call of a cut tool node grows into that of the whole one. */
  lemma CallOfGrows(a: Node, b: Node)
    requires IsCutOf(a, b)
    ensures CallOf(a) == [] || (|CallOf(a)| == |CallOf(b)| == 1 && CallGrows(CallOf(a)[0], CallOf(b)[0]))
  {
    hide Render, FindByTag, IsCutOf, IsSilent, Core;
    FoundGrows(a, b, NameTag, 3, 0);
    FoundGrows(a, b, ArgsTag, 3, 0);
    if CallOf(a) != [] {
      var name, later := FindByTag(a, NameTag, 3, 0).value, FindByTag(b, NameTag, 3, 0).value;
      FoundTag(a, NameTag, 3, 0);
      FoundTag(a, ArgsTag, 3, 0);
      TaggedIsShown(name);
      if name != later {
        CutShape(name, later);
      }
      ArgsGrow(FindByTag(a, ArgsTag, 3, 0).value, FindByTag(b, ArgsTag, 3, 0).value);
    }
  }

  lemma TaggedIsShown(n: Node)
    requires n.tag in {NameTag, ArgsTag}
    ensures !IsSilent(n)
  {
  }

  lemma CallsAppended(calls: seq<ToolCall>, x: seq<ToolCall>, y: seq<ToolCall>)
    requires x == [] || (|x| == |y| == 1 && CallGrows(x[0], y[0]))
    ensures CallsGrow(calls + x, calls + y)
  {
    Seqs.AppendNothing(calls, []);
    if x != [] {
      Seqs.Border(calls, x);
      Seqs.Border(calls, y);
    }
  }

  /** Visiting only adds to the message. */
  lemma {:induction false} VisitingAdds(m: Message, n: Node)
    ensures Grows(m, Visited(m, n))
    decreases n, |n.children| + 1
  {
    hide CallOf, VisitedFrom, CallsGrow;
    Seqs.AppendNothing(m.calls, []);
    match n.tag
    case ToolTag => CallsAppended(m.calls, [], CallOf(n));
    case ReasoningTag => CallsAppended(m.calls, [], []);
    case ContentTag => CallsAppended(m.calls, [], []);
    case _ => VisitingMoreAdds(m, n, 0);
  }

  lemma {:induction false} VisitingMoreAdds(m: Message, n: Node, k: nat)
    requires k <= |n.children|
    ensures Grows(m, VisitedFrom(m, n, k))
    decreases n, |n.children| - k
  {
    hide Visited, Grows;
    if k == |n.children| {
      SameGrows(m);
    } else {
      var q := Visited(m, n.children[k]);
      VisitingAdds(m, n.children[k]);
      VisitingMoreAdds(q, n, k + 1);
      GrowsTransitive(m, q, VisitedFrom(m, n, k));
    }
  }

  lemma {:induction false} SilentAddsNothing(m: Message, n: Node)
    requires IsSilent(n)
    ensures Visited(m, n) == m
    decreases n, |n.children| + 1
  {
    hide VisitedFrom, FindByTag;
    Seqs.AppendNothing(m.reasoning, "");
    Seqs.AppendNothing(m.content, "");
    Seqs.AppendNothing(m.calls, []);
    if n.tag == ToolTag {
      SilentHidesNothing(n, NameTag, 3, 0);
    } else {
      SilentRestAddsNothing(m, n, 0);
    }
  }

  lemma {:induction false} SilentRestAddsNothing(m: Message, n: Node, k: nat)
    requires k <= |n.children| && forall i :: k <= i < |n.children| ==> IsSilent(n.children[i])
    ensures VisitedFrom(m, n, k) == m
    decreases n, |n.children| - k
  {
    hide Visited;
    if k < |n.children| {
      SilentAddsNothing(m, n.children[k]);
      SilentRestAddsNothing(m, n, k + 1);
    }
  }

  /** The message of a cut tree grows into that of the whole tree. */
  lemma {:induction false} VisitGrows(m: Message, a: Node, b: Node)
    requires IsCutOf(a, b)
    ensures Grows(Visited(m, a), Visited(m, b))
    decreases a, |a.children| + 1
  {
    hide CallOf, VisitedFrom, CallsGrow, IsCutOf, IsSilent, Closes, Core;
    Seqs.AppendNothing(m.calls, []);
    if a == b {
      SameGrows(Visited(m, a));
    } else if IsSilent(a) {
      SilentAddsNothing(m, a);
      VisitingAdds(m, b);
    } else {
      CutShape(a, b);
      match a.tag
      case ToolTag =>
        CallOfGrows(a, b);
        CallsAppended(m.calls, CallOf(a), CallOf(b));
      case ReasoningTag => CallsAppended(m.calls, [], []);
      case ContentTag => CallsAppended(m.calls, [], []);
      case _ => VisitsGrow(m, a, b, 0);
    }
  }

  lemma {:induction false} VisitsGrow(m: Message, a: Node, b: Node, k: nat)
    requires IsCutOf(a, b) && a != b && !IsSilent(a) && k <= Core(a) <= |b.children|
    ensures Grows(VisitedFrom(m, a, k), VisitedFrom(m, b, k))
    decreases a, |a.children| - k
  {
    hide Visited, Grows, IsCutOf, IsSilent, Closes, Core;
    if k == Core(a) {
      SilentRestAddsNothing(m, a, k);
      VisitingMoreAdds(m, b, k);
    } else {
      CutShape(a, b);
      var q, r := Visited(m, a.children[k]), Visited(m, b.children[k]);
      if k == Core(a) - 1 {
        VisitGrows(m, a.children[k], b.children[k]);
        SilentRestAddsNothing(q, a, k + 1);
        VisitingMoreAdds(r, b, k + 1);
        GrowsTransitive(q, r, VisitedFrom(m, b, k));
      } else {
        VisitsGrow(q, a, b, k + 1);
      }
    }
  }

  // Successive parses that are easily mistaken for different trees

  function Plain(rule: Rule, text: string, children: seq<Node>, partial: bool): Node {
    Node(rule, NoTag, text, children, partial)
  }

  /** A dict with one entry that is still open. */
  function OpenDict(entry: string, children: seq<Node>): Node {
    Plain(Dict, "{" + entry, [Plain(DictKv, entry, children, true)], true)
  }

  /** A name cut anywhere: the name itself is never partial, and yet it grows. */
  lemma GrowingName(x: string, y: string)
    requires x <= y
    ensures var key := (s: string) => Plain(DictKey, s, [Plain(DictKeyName, s, [], false)], true);
      IsCutOf(OpenDict(x, [key(x)]), OpenDict(y, [key(y)]))
  {
    var key := (s: string) => Plain(DictKey, s, [Plain(DictKeyName, s, [], false)], true);
    assert IsCutOf(Plain(DictKeyName, x, [], false), Plain(DictKeyName, y, [], false));
    assert IsCutOf(key(x), key(y));
    assert IsCutOf(Plain(DictKv, x, [key(x)], true), Plain(DictKv, y, [key(y)], true));
  }

  /** Where a value is to come a string is tried first; it may turn out to be
      anything else. */
  lemma ValueToCome(name: string, value: Node, text: string)
    ensures var key := Plain(DictKey, name + ":", [Plain(DictKeyName, name, [], false)], false);
      var none := Plain(Value, "", [Plain(String, "", [], true)], true);
      IsCutOf(OpenDict(name + ":", [key, none]), OpenDict(name + ":" + text, [key, value]))
  {
    var key := Plain(DictKey, name + ":", [Plain(DictKeyName, name, [], false)], false);
    var none := Plain(Value, "", [Plain(String, "", [], true)], true);
    assert IsSilent(Plain(String, "", [], true));
    assert IsSilent(none);
    assert IsCutOf(Plain(DictKv, name + ":", [key, none], true), Plain(DictKv, name + ":" + text, [key, value], true));
  }

  /** The content of one message, and what the rule around it adds. */
  function ContentNode(text: string, partial: bool): Node {
    var content := Plain(OtherRule("content"), text, [Node(OtherRule(""), ContentTag, text, [], partial)], partial);
    Plain(OtherRule("message"), text, [content], partial)
  }

  /** Content that stops where a delimiter may begin is not partial, and an empty
      message follows it; when no delimiter comes the content goes on. */
  lemma ContentAtDelimiter(x: string, y: string, partial: bool)
    requires x <= y
    ensures IsCutOf(
      Plain(OtherRule(""), x, [ContentNode(x, false), Plain(OtherRule("message"), "", [], true)], true),
      Plain(OtherRule(""), y, [ContentNode(y, partial)], true))
  {
    var last := Plain(OtherRule("message"), "", [], true);
    assert IsSilent(last);
    assert IsCutOf(Node(OtherRule(""), ContentTag, x, [], false), Node(OtherRule(""), ContentTag, y, [], partial));
    assert IsCutOf(ContentNode(x, false), ContentNode(y, partial)) by {
      WrappedCut(OtherRule("content"), x, y, Node(OtherRule(""), ContentTag, x, [], false), Node(OtherRule(""), ContentTag, y, [], partial), partial);
      WrappedCut(OtherRule("message"), x, y, ContentNode(x, false).children[0], ContentNode(y, partial).children[0], partial);
    }
    RootCut(x, y, ContentNode(x, false), ContentNode(y, partial), last);
  }

  lemma WrappedCut(rule: Rule, x: string, y: string, a: Node, b: Node, partial: bool)
    requires x <= y && IsCutOf(a, b) && rule.OtherRule?
    ensures IsCutOf(Plain(rule, x, [a], false), Plain(rule, y, [b], partial))
  {
    hide IsSilent;
    var n := Plain(rule, x, [a], false);
    if IsSilent(a) {
      assert Core(n) == 0;
    } else {
      assert Core(n) == 1;
    }
  }

  lemma RootCut(x: string, y: string, a: Node, b: Node, last: Node)
    requires x <= y && IsCutOf(a, b) && IsSilent(last)
    ensures IsCutOf(Plain(OtherRule(""), x, [a, last], true), Plain(OtherRule(""), y, [b], true))
  {
    hide IsSilent;
    var n := Plain(OtherRule(""), x, [a, last], true);
    assert ShownUpTo(n, 2) == ShownUpTo(n, 1);
    if IsSilent(a) {
      assert Core(n) == 0;
    } else {
      assert Core(n) == 1;
    }
  }

  /** A reply parsed again and again as it arrives: no diff between successive
      messages fails, and their sum is the last message. */
  lemma TreesRebuild(trees: seq<Node>, caches: seq<seq<string>>)
    requires |caches| == |trees| > 0
    requires forall i :: 0 <= i < |trees| ==> |Visited(EMPTY_MESSAGE, trees[i]).calls| <= |caches[i]|
    requires forall i :: 0 <= i < |trees| - 1 ==> IsCutOf(trees[i], trees[i + 1]) && caches[i] <= caches[i + 1]
    ensures var ms := seq(|trees|, i requires 0 <= i < |trees| => Identified(Visited(EMPTY_MESSAGE, trees[i]), caches[i]));
      MessageDiff.AddChain(EMPTY_MESSAGE, ms) == Success(ms[|trees| - 1])
  {
    hide Visited, IsCutOf, Identified, MessageDiff.Continues;
    var ms := seq(|trees|, i requires 0 <= i < |trees| => Identified(Visited(EMPTY_MESSAGE, trees[i]), caches[i]));
    forall i | 0 <= i < |ms| - 1 ensures MessageDiff.Continues(ms[i], ms[i + 1]) {
      VisitGrows(EMPTY_MESSAGE, trees[i], trees[i + 1]);
      IdentifiedExtends(Visited(EMPTY_MESSAGE, trees[i]), Visited(EMPTY_MESSAGE, trees[i + 1]), caches[i], caches[i + 1]);
    }
    FromNothing(ms[0]);
    MessageDiff.ChainRebuilds(EMPTY_MESSAGE, ms);
  }
}
