/** The lenient parsing of a Gemma 4 dict: the tree that the grammar gives to any
    beginning of a text. Trees of longer and longer beginnings are cut from one
    another, so what is rendered of them only grows. */
module Gemma4Parser {
  import Seqs
  import opened Wrappers
  import opened JsonText
  import JsonReader
  import opened Gemma4
  import opened GemmaMeaning

  /** A rule has matched up to the rest, would match with more input, or cannot. */
  datatype Parsed<T> = Done(value: T, rest: string) | More(value: T) | Failed

  /** How far a rule without nodes of its own has come. */
  datatype Scan = To(rest: string) | Open | Stuck

  const DELIMITER := "<|\"|>"
  const DELIMITERS := [DELIMITER]

  /** The white space of the C locale. */
  predicate IsSpace(c: char) {
    c == ' ' || '\t' <= c <= '\r'
  }

  function SkipSpace(s: string): (r: string)
    ensures |r| <= |s| && s[|s| - |r|..] == r && (r != "" ==> !IsSpace(r[0]))
  {
    if s != "" && IsSpace(s[0]) then SkipSpace(s[1..]) else s
  }

  function Literal(word: string, s: string): Scan {
    if word <= s then To(s[|word|..]) else if s <= word then Open else Stuck
  }

  /** The node of a rule over what it has taken of s. */
  function RuleNode(rule: Rule, s: string, children: seq<Node>, rest: string, partial: bool): Node
    requires |rest| <= |s|
  {
    Node(rule, NoTag, s[..|s| - |rest|], children, partial)
  }

  function DoneNode(rule: Rule, s: string, children: seq<Node>, rest: string): Parsed<Node>
    requires |rest| <= |s|
  {
    Done(RuleNode(rule, s, children, rest, false), rest)
  }

  function MoreNode(rule: Rule, s: string, children: seq<Node>): Parsed<Node> {
    More(RuleNode(rule, s, children, "", true))
  }

  /** One of the words is here. */
  predicate Ends(words: seq<string>, s: string) {
    exists i :: 0 <= i < |words| && words[i] <= s
  }

  /** One of the words is here, or what may become one, or nothing is left. */
  predicate MayEnd(words: seq<string>, s: string) {
    s == "" || Ends(words, s) || exists i :: 0 <= i < |words| && s <= words[i]
  }

  /** The characters before a word, or before what may become one. */
  function Until(words: seq<string>, s: string): (n: nat)
    ensures n <= |s| && MayEnd(words, s[n..])
  {
    if MayEnd(words, s) then 0 else 1 + Until(words, s[1..])
  }

  function ParseString(s: string): (r: Parsed<Node>)
    ensures r.Done? ==> |r.rest| < |s|
  {
    match Literal(DELIMITER, s)
    case Stuck => Failed
    case Open => MoreNode(String, s, [])
    case To(inside) =>
      var close := ClosingOf(inside);
      if close.To? then DoneNode(String, s, [ContentOf(inside)], close.rest) else MoreNode(String, s, [ContentOf(inside)])
  }

  function ContentOf(inside: string): Node {
    Node(StringContent, NoTag, inside[..Until(DELIMITERS, inside)], [], Until(DELIMITERS, inside) == |inside|)
  }

  function ClosingOf(inside: string): Scan {
    Literal(DELIMITER, inside[Until(DELIMITERS, inside)..])
  }

  // Numbers: a sign, an integer, a fraction, an exponent, and something that
  // cannot go on with any of them

  function Digits(s: string): (r: string)
    ensures |r| <= |s|
  {
    s[JsonReader.DigitCount(s)..]
  }

  function SomeDigits(s: string): Scan {
    if s == "" then Open else if JsonReader.IsDigit(s[0]) then To(Digits(s)) else Stuck
  }

  function IntegerPart(s: string): Scan {
    if s == "" then Open
    else if s[0] == '0' then To(s[1..])
    else if JsonReader.IsDigit(s[0]) then To(Digits(s[1..]))
    else Stuck
  }

  /** An optional part that is stuck takes nothing. */
  function Optional(a: Scan, s: string): Scan {
    if a.Stuck? then To(s) else a
  }

  function FractionPart(s: string): Scan {
    if s == "" || s[0] != '.' then To(s) else Optional(SomeDigits(s[1..]), s)
  }

  function ExponentPart(s: string): Scan {
    if s == "" || (s[0] != 'e' && s[0] != 'E') then To(s)
    else Optional(SomeDigits(if |s| > 1 && (s[1] == '+' || s[1] == '-') then s[2..] else s[1..]), s)
  }

  predicate ContinuesNumber(c: char) {
    JsonReader.IsDigit(c) || c in ".eE+-"
  }

  function NotContinued(s: string): Scan {
    if s == "" then Open else if ContinuesNumber(s[0]) then Stuck else To(s)
  }

  /** What follows the integer. */
  function Tail(s: string): Scan {
    var f := FractionPart(s);
    var e := if f.To? then ExponentPart(f.rest) else f;
    if e.To? then NotContinued(e.rest) else e
  }

  function NumberScan(s: string): Scan {
    var i := IntegerPart(if s != "" && s[0] == '-' then s[1..] else s);
    if i.To? then Tail(i.rest) else i
  }

  function WordScan(first: string, second: string, s: string): Scan {
    if Literal(first, s).Stuck? then Literal(second, s) else Literal(first, s)
  }

  /** A scalar: a rule around a rule without children. */
  function Scalar(rule: Rule, inner: string, s: string, scan: Scan): Parsed<Node>
    requires scan.To? ==> |scan.rest| <= |s|
  {
    match scan
    case Stuck => Failed
    case Open => MoreNode(rule, s, [RuleNode(OtherRule(inner), s, [], "", true)])
    case To(rest) => DoneNode(rule, s, [RuleNode(OtherRule(inner), s, [], rest, false)], rest)
  }

  function ParseNumber(s: string): (r: Parsed<Node>)
    ensures r.Done? ==> |r.rest| < |s|
  {
    NumberShrinks(s);
    Scalar(Number, "json-number", s, NumberScan(s))
  }

  function ParseBool(s: string): (r: Parsed<Node>)
    ensures r.Done? ==> |r.rest| < |s|
  {
    Scalar(Bool, "json-bool", s, WordScan("true", "false", s))
  }

  function ParseNull(s: string): (r: Parsed<Node>)
    ensures r.Done? ==> |r.rest| < |s|
  {
    Scalar(Null, "json-null", s, Literal("null", s))
  }

  lemma NumberShrinks(s: string)
    ensures NumberScan(s).To? ==> |NumberScan(s).rest| < |s|
  {
  }

  // Dicts and arrays

  /** The characters of a name. */
  function NameLength(s: string): (n: nat)
    ensures n <= |s| && (n < |s| ==> s[n] == ':' || s[n] == '}')
  {
    if s == "" || s[0] == ':' || s[0] == '}' then 0 else 1 + NameLength(s[1..])
  }

  function ParseKey(s: string): (r: Parsed<Node>)
    ensures r.Done? ==> |r.rest| < |s|
  {
    var n := NameLength(s);
    var name := Node(DictKeyName, NoTag, s[..n], [], n == 0);
    if n == 0 && s != "" then Failed
    else if n == |s| then MoreNode(DictKey, s, [name])
    else if s[n] != ':' then Failed
    else DoneNode(DictKey, s, [name], s[n + 1..])
  }

  function ParseKv(s: string): (r: Parsed<Node>)
    ensures r.Done? ==> |r.rest| < |s|
    decreases |s|, 3
  {
    match ParseKey(s)
    case Failed => Failed
    case More(key) => MoreNode(DictKv, s, [key])
    case Done(key, after) =>
      match ParseValue(SkipSpace(after))
      case Failed => Failed
      case More(value) => MoreNode(DictKv, s, [key, value])
      case Done(value, rest) => DoneNode(DictKv, s, [key, value], rest)
  }

  /** The first alternative that does not fail. */
  function Alternatives(s: string): (r: Parsed<Node>)
    ensures r.Done? ==> |r.rest| < |s|
    decreases |s|, 1
  {
    if !ParseString(s).Failed? then ParseString(s)
    else if !ParseGroup(s, true).Failed? then ParseGroup(s, true)
    else if !ParseGroup(s, false).Failed? then ParseGroup(s, false)
    else if !ParseNumber(s).Failed? then ParseNumber(s)
    else if !ParseBool(s).Failed? then ParseBool(s)
    else ParseNull(s)
  }

  function ParseValue(s: string): (r: Parsed<Node>)
    ensures r.Done? ==> |r.rest| < |s|
    decreases |s|, 2
  {
    match Alternatives(s)
    case Failed => Failed
    case More(value) => MoreNode(Value, s, [value])
    case Done(value, rest) => DoneNode(Value, s, [value], rest)
  }

  function ParseItem(s: string, dict: bool): (r: Parsed<Node>)
    ensures r.Done? ==> |r.rest| < |s|
    decreases |s|, 4
  {
    if dict then ParseKv(s) else ParseValue(s)
  }

  /** Items up to the closing bracket, a comma right after each but the last. */
  function ParseItems(s: string, dict: bool): (r: Parsed<seq<Node>>)
    ensures r.Done? ==> |r.rest| < |s|
    decreases |s|, 5
  {
    match ParseItem(s, dict)
    case Failed => Failed
    case More(item) => More([item])
    case Done(item, after) => AfterItem(item, after, dict)
  }

  /** The list after its first item. */
  function AfterItem(item: Node, after: string, dict: bool): (r: Parsed<seq<Node>>)
    ensures r.Done? ==> |r.rest| < |after|
    decreases |after|, 6
  {
    if after != "" && after[0] == ',' then Prepended(item, ParseItems(SkipSpace(after[1..]), dict))
    else Closing([item], SkipSpace(after), dict)
  }

  function Prepended(item: Node, r: Parsed<seq<Node>>): (q: Parsed<seq<Node>>)
    ensures q.Done? ==> r.Done? && q.rest == r.rest
  {
    match r
    case Failed => Failed
    case More(items) => More([item] + items)
    case Done(items, rest) => Done([item] + items, rest)
  }

  function Closing(items: seq<Node>, s: string, dict: bool): (r: Parsed<seq<Node>>)
    ensures r.Done? ==> |r.rest| < |s|
  {
    match Literal(if dict then "}" else "]", s)
    case Stuck => Failed
    case Open => More(items)
    case To(rest) => Done(items, rest)
  }

  /** What is between the brackets, and the closing one. */
  function Inside(s: string, dict: bool): (r: Parsed<seq<Node>>)
    ensures r.Done? ==> |r.rest| < |s|
    decreases |s|, 6
  {
    if Closing([], s, dict).Failed? then ParseItems(s, dict) else Closing([], s, dict)
  }

  /** A rule around its children. */
  function Around(rule: Rule, s: string, r: Parsed<seq<Node>>): Parsed<Node>
    requires r.Done? ==> |r.rest| <= |s|
  {
    match r
    case Failed => Failed
    case More(items) => MoreNode(rule, s, items)
    case Done(items, rest) => DoneNode(rule, s, items, rest)
  }

  /** A dict or an array. */
  function ParseGroup(s: string, dict: bool): (r: Parsed<Node>)
    ensures r.Done? ==> |r.rest| < |s|
    decreases |s|, 0
  {
    var rule := if dict then Dict else Array;
    match Literal(if dict then "{" else "[", s)
    case Stuck => Failed
    case Open => MoreNode(rule, s, [])
    case To(inside) => Around(rule, s, Inside(SkipSpace(inside), dict))
  }

  // More input

  /** What a longer text gives: the same where the rule has matched, nothing
      where it cannot match, and otherwise nothing or a tree this one is cut
      from, over all of the shorter text. */
  predicate Grown(a: Parsed<Node>, b: Parsed<Node>, u: string) {
    match a
    case Failed => b.Failed?
    case Done(n, rest) => b == Done(n, rest + u)
    case More(n) => b.Failed? || (IsCutOf(n, b.value) && (b.Done? ==> |b.rest| <= |u|))
  }

  predicate ScanGrown(a: Scan, b: Scan, u: string) {
    match a
    case Stuck => b.Stuck?
    case To(rest) => b == To(rest + u)
    case Open => b.To? ==> |b.rest| <= |u|
  }

  lemma SkipMore(s: string, u: string)
    ensures SkipSpace(s) != "" ==> SkipSpace(s + u) == SkipSpace(s) + u
    ensures SkipSpace(s) == "" ==> |SkipSpace(s + u)| <= |u|
  {
    if s == "" {
      Seqs.AppendNothing(u, s);
    } else {
      Seqs.FirstOfAppend(s, u);
      if IsSpace(s[0]) {
        SkipMore(s[1..], u);
      }
    }
  }

  lemma LiteralMore(word: string, s: string, u: string)
    ensures ScanGrown(Literal(word, s), Literal(word, s + u), u)
  {
    if word <= s {
      assert (s + u)[|word|..] == s[|word|..] + u;
    }
  }

  lemma UntilMore(words: seq<string>, s: string, u: string)
    ensures Until(words, s) <= Until(words, s + u)
    ensures Ends(words, s[Until(words, s)..]) ==> Until(words, s + u) == Until(words, s)
  {
    hide MayEnd, Ends;
    if !MayEnd(words, s) {
      NotYet(words, s, u);
      Seqs.FirstOfAppend(s, u);
      UntilMore(words, s[1..], u);
      assert s[1..][Until(words, s[1..])..] == s[Until(words, s)..];
    } else if Ends(words, s[Until(words, s)..]) {
      assert s[0..] == s;
      StillHere(words, s, u);
    }
  }

  lemma NotYet(words: seq<string>, s: string, u: string)
    requires !MayEnd(words, s)
    ensures s != "" && !MayEnd(words, s + u)
  {
    if i :| 0 <= i < |words| && (words[i] <= s + u || s + u <= words[i]) {
      assert !(words[i] <= s) && !(s <= words[i]);
      PartsWays(words[i], s, u);
    }
  }

  lemma PartsWays(word: string, s: string, u: string)
    requires !(word <= s) && !(s <= word)
    ensures !(word <= s + u) && !(s + u <= word)
  {
  }

  lemma StillHere(words: seq<string>, s: string, u: string)
    requires Ends(words, s)
    ensures Ends(words, s + u) && MayEnd(words, s + u)
  {
    var i :| 0 <= i < |words| && words[i] <= s;
    assert words[i] <= s + u;
  }

  /** The text a node has taken grows with it. */
  lemma TakenMore(s: string, u: string, rest: string)
    requires |rest| <= |s|
    ensures (s + u)[..|s + u| - |rest + u|] == s[..|s| - |rest|]
    ensures forall r: string :: |r| <= |u| ==> s <= (s + u)[..|s + u| - |r|]
  {
  }

  /** Nodes without children: only the text counts. */
  lemma LeafCut(rule: Rule, x: string, y: string, p: bool, q: bool)
    requires x <= y && rule !in {String, Array, DictKey, Dict}
    ensures IsCutOf(Node(rule, NoTag, x, [], p), Node(rule, NoTag, y, [], q))
  {
  }

  lemma StringMore(s: string, u: string)
    ensures Grown(ParseString(s), ParseString(s + u), u)
  {
    hide IsSilent, Core, Until, IsCutOf;
    LiteralMore(DELIMITER, s, u);
    TakenMore(s, u, "");
    match Literal(DELIMITER, s)
    case Stuck =>
    case Open =>
      if !ParseString(s + u).Failed? {
        Childless(ParseString(s).value, ParseString(s + u).value);
      }
    case To(inside) => StringGoesOn(s, inside, u);
  }

  lemma Childless(a: Node, b: Node)
    requires a.rule == b.rule && a.tag == b.tag && a.text <= b.text && a.partial && a.children == []
    ensures IsCutOf(a, b)
  {
    hide IsSilent;
  }

  /** A node with one child that is still open. */
  lemma OneChild(a: Node, b: Node)
    requires a.rule == b.rule && !a.rule.OtherRule? && a.tag == b.tag && a.text <= b.text && a.partial
    requires |a.children| == 1 && b.children != [] && IsCutOf(a.children[0], b.children[0])
    ensures IsCutOf(a, b)
  {
    hide IsSilent, ShownUpTo;
  }

  lemma StringGoesOn(s: string, inside: string, u: string)
    requires Literal(DELIMITER, s) == To(inside) && Literal(DELIMITER, s + u) == To(inside + u)
    ensures Grown(ParseString(s), ParseString(s + u), u)
  {
    hide IsSilent, Core, Until, IsCutOf, MayEnd, Literal, ContentOf, ClosingOf;
    ContentMore(inside, u);
    var a, b := ParseString(s), ParseString(s + u);
    if a.Done? {
      TakenMore(s, u, a.rest);
    } else {
      TakenMore(s, u, "");
      OneChild(a.value, b.value);
    }
  }

  lemma ContentMore(inside: string, u: string)
    ensures ScanGrown(ClosingOf(inside), ClosingOf(inside + u), u) && !ClosingOf(inside).Stuck?
    ensures if ClosingOf(inside).To? then ContentOf(inside + u) == ContentOf(inside) else IsCutOf(ContentOf(inside), ContentOf(inside + u))
  {
    hide IsSilent, Core, Until, IsCutOf;
    var n, m := Until(DELIMITERS, inside), Until(DELIMITERS, inside + u);
    UntilMore(DELIMITERS, inside, u);
    AtDelimiter(inside[Until(DELIMITERS, inside)..]);
    LiteralMore(DELIMITER, inside[n..], u);
    if ClosingOf(inside).To? {
      assert inside[..n] == (inside + u)[..n];
      assert (inside + u)[n..] == inside[n..] + u;
    } else {
      StringRest(inside, u);
      assert inside[..n] <= (inside + u)[..m];
      LeafCut(StringContent, inside[..n], (inside + u)[..m], n == |inside|, m == |inside + u|);
    }
  }

  lemma AtDelimiter(s: string)
    requires MayEnd(DELIMITERS, s)
    ensures Literal(DELIMITER, s) != Stuck && (Literal(DELIMITER, s).To? <==> Ends(DELIMITERS, s))
  {
    assert DELIMITERS[0] == DELIMITER;
  }

  /** A string that ends only with more input ends within it. */
  lemma StringRest(inside: string, u: string)
    requires !ClosingOf(inside).To?
    ensures var close := ClosingOf(inside + u);
      close.To? ==> |close.rest| <= |u|
  {
    hide Until;
    UntilMore(DELIMITERS, inside, u);
    AtDelimiter(inside[Until(DELIMITERS, inside)..]);
  }

  /** Parts of a number that end before the text does are the same in a longer one. */
  predicate PartGrown(a: Scan, b: Scan, u: string) {
    (a.Stuck? ==> b.Stuck?) && (a.To? && a.rest != "" ==> b == To(a.rest + u))
  }

  lemma DigitsMore(s: string, u: string)
    ensures Digits(s) != "" ==> Digits(s + u) == Digits(s) + u
    ensures |Digits(s + u)| <= |Digits(s)| + |u|
  {
    if s == "" {
      Seqs.AppendNothing(u, s);
    } else {
      Seqs.FirstOfAppend(s, u);
      if JsonReader.IsDigit(s[0]) {
        DigitsMore(s[1..], u);
        DigitsCons(s);
        DigitsCons(s + u);
      } else {
        assert s[0..] == s && (s + u)[0..] == s + u;
      }
    }
  }

  lemma DigitsCons(s: string)
    requires s != "" && JsonReader.IsDigit(s[0])
    ensures Digits(s) == Digits(s[1..])
  {
    var n := JsonReader.DigitCount(s[1..]);
    assert s[1..][n..] == s[n + 1..];
  }

  lemma SomeDigitsMore(s: string, u: string)
    ensures PartGrown(SomeDigits(s), SomeDigits(s + u), u)
  {
    hide Digits;
    DigitsMore(s, u);
  }

  lemma IntegerMore(s: string, u: string)
    ensures PartGrown(IntegerPart(s), IntegerPart(s + u), u)
  {
    hide Digits;
    if s != "" {
      Seqs.FirstOfAppend(s, u);
      DigitsMore(s[1..], u);
    }
  }

  lemma FractionMore(s: string, u: string)
    ensures PartGrown(FractionPart(s), FractionPart(s + u), u)
  {
    hide SomeDigits;
    if s != "" {
      Seqs.FirstOfAppend(s, u);
      SomeDigitsMore(s[1..], u);
    }
  }

  lemma ExponentMore(s: string, u: string)
    ensures PartGrown(ExponentPart(s), ExponentPart(s + u), u)
  {
    hide SomeDigits;
    if s != "" && (s[0] == 'e' || s[0] == 'E') {
      Seqs.FirstOfAppend(s, u);
      if |s| == 1 {
        assert s[1..] == "";
        assert SomeDigits("") == Open by { NoDigits(); }
      } else {
        assert (s + u)[1] == s[1] && (s + u)[2..] == s[2..] + u;
        SomeDigitsMore(s[1..], u);
        SomeDigitsMore(s[2..], u);
      }
    }
  }

  lemma NoDigits()
    ensures SomeDigits("") == Open
  {
  }

  /** The characters a number could go on with. */
  function NumberRun(s: string): (n: nat)
    ensures n <= |s| && (n < |s| ==> !ContinuesNumber(s[n]))
  {
    if s == "" || !ContinuesNumber(s[0]) then 0 else 1 + NumberRun(s[1..])
  }

  lemma RunDrop(s: string, n: nat)
    requires n <= |s| && forall i :: 0 <= i < n ==> ContinuesNumber(s[i])
    ensures NumberRun(s) == n + NumberRun(s[n..])
  {
    if n == 0 {
      assert s[0..] == s;
    } else {
      RunDrop(s[1..], n - 1);
      assert s[1..][n - 1..] == s[n..];
    }
  }

  /** A part takes characters that continue a number. */
  predicate TakesRun(a: Scan, s: string) {
    a.To? ==> |a.rest| <= |s| && a.rest == s[|s| - |a.rest|..] && NumberRun(s) == |s| - |a.rest| + NumberRun(a.rest)
  }

  lemma DigitsTakeRun(s: string)
    ensures TakesRun(To(Digits(s)), s)
  {
    RunDrop(s, JsonReader.DigitCount(s));
  }

  lemma TakesMore(a: Scan, s: string, n: nat)
    requires n <= |s| && (forall i :: 0 <= i < n ==> ContinuesNumber(s[i])) && TakesRun(a, s[n..])
    ensures TakesRun(a, s)
  {
    RunDrop(s, n);
  }

  lemma IntegerTakesRun(s: string)
    ensures TakesRun(IntegerPart(s), s) && (IntegerPart(s).Open? ==> NumberRun(s) == |s|)
  {
    hide NumberRun, Digits, TakesRun;
    StuckTakesNothing(s);
    if s == "" {
      assert NumberRun("") == 0 by { NoRun(); }
    } else if s[0] == '0' {
      NothingTaken(s[1..]);
      TakesMore(To(s[1..]), s, 1);
    } else if JsonReader.IsDigit(s[0]) {
      DigitsTakeRun(s[1..]);
      TakesMore(To(Digits(s[1..])), s, 1);
    }
  }

  lemma StuckTakesNothing(s: string)
    ensures TakesRun(Stuck, s) && TakesRun(Open, s)
  {
  }

  lemma NoRun()
    ensures NumberRun("") == 0
  {
  }

  lemma SomeDigitsTakeRun(s: string)
    ensures TakesRun(SomeDigits(s), s) && (SomeDigits(s).Open? ==> s == "")
  {
    hide Digits, NumberRun;
    DigitsTakeRun(s);
  }

  lemma NothingTaken(s: string)
    ensures TakesRun(To(s), s)
  {
    assert s[0..] == s;
  }

  lemma RunOfNothing(s: string, n: nat)
    requires n <= |s| && (forall i :: 0 <= i < n ==> ContinuesNumber(s[i])) && s[n..] == ""
    ensures NumberRun(s) == |s|
  {
    RunDrop(s, n);
  }

  /** One sign or two, and then digits. */
  lemma SignsAndDigits(s: string, n: nat)
    requires n <= |s| && forall i :: 0 <= i < n ==> ContinuesNumber(s[i])
    ensures TakesRun(SomeDigits(s[n..]), s) && (SomeDigits(s[n..]).Open? ==> NumberRun(s) == |s|)
  {
    hide SomeDigits, NumberRun;
    SomeDigitsTakeRun(s[n..]);
    if SomeDigits(s[n..]).Open? {
      RunOfNothing(s, n);
    } else {
      TakesMore(SomeDigits(s[n..]), s, n);
    }
  }

  lemma FractionTakesRun(s: string)
    ensures TakesRun(FractionPart(s), s) && (FractionPart(s).Open? ==> NumberRun(s) == |s|) && !FractionPart(s).Stuck?
  {
    hide SomeDigits, NumberRun, TakesRun;
    NothingTaken(s);
    if s != "" && s[0] == '.' {
      SignsAndDigits(s, 1);
    }
  }

  lemma ExponentTakesRun(s: string)
    ensures TakesRun(ExponentPart(s), s) && (ExponentPart(s).Open? ==> NumberRun(s) == |s|) && !ExponentPart(s).Stuck?
  {
    hide SomeDigits, NumberRun, TakesRun;
    NothingTaken(s);
    if s != "" && (s[0] == 'e' || s[0] == 'E') {
      SignsAndDigits(s, if |s| > 1 && (s[1] == '+' || s[1] == '-') then 2 else 1);
    }
  }

  /** A number ends where no more of it can come; while it may go on, all of the
      text could belong to it. */
  predicate EndsWithRun(a: Scan, s: string) {
    (a.To? ==> NumberRun(s) == |s| - |a.rest| < |s|) && (a.Open? ==> NumberRun(s) == |s|)
  }

  lemma EndTakesRun(s: string)
    ensures EndsWithRun(NotContinued(s), s)
  {
  }

  lemma TailTakesRun(s: string)
    ensures EndsWithRun(Tail(s), s)
  {
    hide FractionPart, ExponentPart, NumberRun, NotContinued;
    FractionTakesRun(s);
    var f := FractionPart(s);
    if f.To? {
      ExponentTakesRun(f.rest);
      var e := ExponentPart(f.rest);
      if e.To? {
        EndTakesRun(e.rest);
      }
    }
  }

  lemma NumberTakesRun(s: string)
    ensures EndsWithRun(NumberScan(s), s)
  {
    hide IntegerPart, Tail, NumberRun;
    var signed := if s != "" && s[0] == '-' then 1 else 0;
    assert s[0..] == s;
    RunDrop(s, signed);
    IntegerTakesRun(s[signed..]);
    var i := IntegerPart(s[signed..]);
    if i.To? {
      TailTakesRun(i.rest);
    }
  }

  lemma TailMore(s: string, u: string)
    requires !Tail(s).Open?
    ensures ScanGrown(Tail(s), Tail(s + u), u)
  {
    hide FractionPart, ExponentPart;
    FractionTakesRun(s);
    FractionMore(s, u);
    var f := FractionPart(s);
    if f.rest != "" {
      ExponentTakesRun(f.rest);
      ExponentMore(f.rest, u);
    } else {
      assert ExponentPart("") == To("") by { NoExponent(); }
    }
  }

  lemma NoExponent()
    ensures ExponentPart("") == To("")
  {
  }

  lemma NumberMore(s: string, u: string)
    ensures ScanGrown(NumberScan(s), NumberScan(s + u), u)
  {
    hide IntegerPart, Tail, NumberRun;
    if NumberScan(s).Open? {
      OpenNumber(s, u);
    } else {
      assert s != "" by { NoNumber(); }
      Seqs.FirstOfAppend(s, u);
      var digits := if s[0] == '-' then s[1..] else s;
      IntegerMore(digits, u);
      var i := IntegerPart(digits);
      if i.To? {
        assert i.rest != "" by { OpenTail(); }
        TailMore(i.rest, u);
      }
    }
  }

  lemma NoNumber()
    ensures NumberScan("") == Open
  {
  }

  lemma OpenTail()
    ensures Tail("") == Open
  {
  }

  lemma OpenNumber(s: string, u: string)
    requires NumberScan(s).Open?
    ensures ScanGrown(Open, NumberScan(s + u), u)
  {
    hide NumberScan;
    NumberTakesRun(s);
    NumberTakesRun(s + u);
    RunReaches(s, u);
  }

  lemma RunReaches(s: string, u: string)
    requires NumberRun(s) == |s|
    ensures NumberRun(s + u) >= |s|
  {
    if s != "" {
      Seqs.FirstOfAppend(s, u);
      RunReaches(s[1..], u);
    }
  }

  lemma WordMore(first: string, second: string, s: string, u: string)
    requires first != "" && second != "" && first[0] != second[0] && s != ""
    ensures ScanGrown(WordScan(first, second, s), WordScan(first, second, s + u), u)
  {
    hide Literal;
    LiteralMore(first, s, u);
    LiteralMore(second, s, u);
    if Literal(first, s).Open? {
      OtherFirst(first, second, s, u);
    }
  }

  lemma OtherFirst(first: string, second: string, s: string, u: string)
    requires first != "" && second != "" && first[0] != second[0] && s != "" && Literal(first, s).Open?
    ensures Literal(second, s + u).Stuck?
  {
    assert (s + u)[0] == s[0] == first[0];
  }

  /** Whatever the rule inside has taken, it shows nothing by itself. */
  lemma InnerIsCut(inner: string, x: string, y: Node, partial: bool)
    ensures IsCutOf(Node(OtherRule(inner), NoTag, x, [], partial), y)
  {
    assert IsSilent(Node(OtherRule(inner), NoTag, x, [], partial));
  }

  lemma ScalarMore(rule: Rule, inner: string, s: string, u: string, a: Scan, b: Scan)
    requires rule in {Number, Bool, Null} && ScanGrown(a, b, u)
    requires (a.To? ==> |a.rest| <= |s|) && (b.To? ==> |b.rest| <= |s + u|)
    ensures Grown(Scalar(rule, inner, s, a), Scalar(rule, inner, s + u, b), u)
  {
    hide IsSilent, Core, IsCutOf, ListCut;
    match a
    case Stuck =>
    case To(rest) => TakenMore(s, u, rest);
    case Open =>
      if !b.Stuck? {
        var rest := if b.To? then b.rest else "";
        var x, y := RuleNode(OtherRule(inner), s, [], "", true), RuleNode(OtherRule(inner), s + u, [], rest, b.Open?);
        InnerIsCut(inner, x.text, y, true);
        FirstCut(x, [y]);
        AroundMore(rule, s, u, [x], [y], rest, b.Open?);
      }
  }

  lemma KeyMore(s: string, u: string)
    ensures Grown(ParseKey(s), ParseKey(s + u), u)
  {
    hide IsSilent, Core, IsCutOf, NameLength, ParseKey;
    if NameLength(s) < |s| {
      EndedKey(s, u);
    } else if !ParseKey(s + u).Failed? {
      OpenKey(s, u);
    } else {
      KeyShape(s);
    }
  }

  lemma EndedKey(s: string, u: string)
    requires NameLength(s) < |s|
    ensures Grown(ParseKey(s), ParseKey(s + u), u)
  {
    hide NameLength, IsCutOf;
    var n := NameLength(s);
    NameMore(s, u);
    TakenMore(s, u, s[n + 1..]);
  }

  lemma OpenKey(s: string, u: string)
    requires NameLength(s) == |s| && !ParseKey(s + u).Failed?
    ensures Grown(ParseKey(s), ParseKey(s + u), u)
  {
    hide IsSilent, Core, IsCutOf, NameLength, ParseKey;
    var n, m := NameLength(s), NameLength(s + u);
    NameMore(s, u);
    KeyShape(s);
    KeyShape(s + u);
    TakenMore(s, u, "");
    LeafCut(DictKeyName, s[..n], (s + u)[..m], n == 0, m == 0);
    OneChild(ParseKey(s).value, ParseKey(s + u).value);
  }

  lemma KeyShape(s: string)
    ensures var r, n := ParseKey(s), NameLength(s);
      (n == |s| ==> r.More?) &&
      (!r.Failed? ==>
        r.value.rule == DictKey && r.value.tag == NoTag && r.value.partial == r.More? &&
        r.value.children == [Node(DictKeyName, NoTag, s[..n], [], n == 0)] &&
        r.value.text == s[..|s| - if r.Done? then |r.rest| else 0]) &&
      (r.Done? ==> |r.rest| == |s| - n - 1)
  {
  }

  lemma NameMore(s: string, u: string)
    ensures var n, m := NameLength(s), NameLength(s + u);
      n <= m && s[..n] <= (s + u)[..m] &&
      (n < |s| ==> m == n && (s + u)[..n] == s[..n] && (s + u)[n] == s[n] && (s + u)[n + 1..] == s[n + 1..] + u)
  {
    NameLengthMore(s, u);
  }

  lemma NameLengthMore(s: string, u: string)
    ensures var n, m := NameLength(s), NameLength(s + u); n <= m && (n < |s| ==> m == n)
  {
    if s != "" {
      Seqs.FirstOfAppend(s, u);
      NameLengthMore(s[1..], u);
    }
  }

  /** The last child of a list may be cut off, and children be missing after it. */
  predicate ListCut(xs: seq<Node>, ys: seq<Node>) {
    |xs| <= |ys| && (forall i :: 0 <= i < |xs| - 1 ==> xs[i] == ys[i]) &&
    (xs != [] ==> IsCutOf(xs[|xs| - 1], ys[|xs| - 1]))
  }

  lemma ChildrenCut(rule: Rule, x: string, y: string, xs: seq<Node>, ys: seq<Node>, partial: bool)
    requires !rule.OtherRule? && x <= y && ListCut(xs, ys)
    ensures IsCutOf(Node(rule, NoTag, x, xs, true), Node(rule, NoTag, y, ys, partial))
  {
    hide IsSilent, ShownUpTo;
  }

  /** A rule around children: it grows as they do. */
  lemma AroundMore(rule: Rule, s: string, u: string, xs: seq<Node>, ys: seq<Node>, rest: string, partial: bool)
    requires !rule.OtherRule? && ListCut(xs, ys) && |rest| <= |u|
    ensures IsCutOf(RuleNode(rule, s, xs, "", true), RuleNode(rule, s + u, ys, rest, partial))
  {
    hide IsCutOf, ListCut;
    TakenMore(s, u, "");
    ChildrenCut(rule, s, (s + u)[..|s + u| - |rest|], xs, ys, partial);
  }

  lemma SameList(xs: seq<Node>, ys: seq<Node>)
    ensures ListCut(xs, xs + ys)
  {
    hide IsCutOf;
    if xs != [] {
      SameIsCut(xs[|xs| - 1]);
    }
  }

  /** Items grow like nodes. */
  predicate ItemsGrown(a: Parsed<seq<Node>>, b: Parsed<seq<Node>>, u: string) {
    match a
    case Failed => b.Failed?
    case Done(xs, rest) => b == Done(xs, rest + u)
    case More(xs) => b.Failed? || (ListCut(xs, b.value) && (b.Done? ==> |b.rest| <= |u|))
  }

  /** The one alternative that the first character leaves. */
  function ByFirst(s: string): Parsed<Node>
    requires s != ""
  {
    match s[0]
    case '<' => ParseString(s)
    case '{' => ParseGroup(s, true)
    case '[' => ParseGroup(s, false)
    case 't' => ParseBool(s)
    case 'f' => ParseBool(s)
    case 'n' => ParseNull(s)
    case _ => ParseNumber(s)
  }

  lemma OthersFail(s: string)
    requires s != ""
    ensures s[0] != '<' ==> ParseString(s).Failed?
    ensures s[0] != '{' ==> ParseGroup(s, true).Failed?
    ensures s[0] != '[' ==> ParseGroup(s, false).Failed?
    ensures s[0] != 't' && s[0] != 'f' ==> ParseBool(s).Failed?
    ensures s[0] != 'n' ==> ParseNull(s).Failed?
    ensures !JsonReader.IsDigit(s[0]) && s[0] != '-' ==> ParseNumber(s).Failed?
  {
    hide Literal, Inside, ContentOf, ClosingOf, Tail;
    OtherSign(DELIMITER, s);
    OtherSign("{", s);
    OtherSign("[", s);
    OtherSign("true", s);
    OtherSign("false", s);
    OtherSign("null", s);
  }

  lemma OtherSign(word: string, s: string)
    requires word != "" && s != ""
    ensures word[0] != s[0] ==> Literal(word, s).Stuck?
  {
  }

  lemma AlternativesByFirst(s: string)
    requires s != ""
    ensures Alternatives(s) == ByFirst(s)
  {
    hide ParseString, ParseGroup, ParseNumber, ParseBool, ParseNull;
    OthersFail(s);
  }

  lemma NothingIsString()
    ensures Alternatives("") == MoreNode(String, "", [])
  {
    hide ParseGroup, ParseNumber, ParseBool, ParseNull;
  }

  lemma BoolMore(s: string, u: string)
    requires s != ""
    ensures Grown(ParseBool(s), ParseBool(s + u), u)
  {
    hide WordScan, Scalar;
    WordMore("true", "false", s, u);
    WordShrinks(s);
    WordShrinks(s + u);
    ScalarMore(Bool, "json-bool", s, u, WordScan("true", "false", s), WordScan("true", "false", s + u));
  }

  lemma WordShrinks(s: string)
    ensures WordScan("true", "false", s).To? ==> |WordScan("true", "false", s).rest| <= |s|
    ensures Literal("null", s).To? ==> |Literal("null", s).rest| <= |s|
  {
  }

  lemma NullMore(s: string, u: string)
    ensures Grown(ParseNull(s), ParseNull(s + u), u)
  {
    hide Literal, Scalar;
    LiteralMore("null", s, u);
    WordShrinks(s);
    WordShrinks(s + u);
    ScalarMore(Null, "json-null", s, u, Literal("null", s), Literal("null", s + u));
  }

  lemma NumberNodeMore(s: string, u: string)
    ensures Grown(ParseNumber(s), ParseNumber(s + u), u)
  {
    hide NumberScan, Scalar;
    NumberMore(s, u);
    NumberShrinks(s);
    NumberShrinks(s + u);
    ScalarMore(Number, "json-number", s, u, NumberScan(s), NumberScan(s + u));
  }

  lemma {:induction false} AlternativesMore(s: string, u: string)
    requires s != ""
    ensures Grown(Alternatives(s), Alternatives(s + u), u)
    decreases |s|, 1
  {
    hide ParseString, ParseGroup, ParseNumber, ParseBool, ParseNull, Alternatives, Grown;
    AlternativesByFirst(s);
    AlternativesByFirst(s + u);
    assert (s + u)[0] == s[0];
    match s[0]
    case '<' => StringMore(s, u);
    case '{' => GroupMore(s, true, u);
    case '[' => GroupMore(s, false, u);
    case 't' => BoolMore(s, u);
    case 'f' => BoolMore(s, u);
    case 'n' => NullMore(s, u);
    case _ => NumberNodeMore(s, u);
  }

  const ANY_NODE := Node(Null, NoTag, "", [], false)

  /** Where nothing has come yet, the node in place shows nothing. */
  lemma NothingYet(b: Node)
    ensures ParseValue("").More? && IsCutOf(ParseValue("").value, b)
    ensures ParseKv("").More? && IsCutOf(ParseKv("").value, b)
  {
    hide Alternatives, IsCutOf;
    NothingIsString();
    var value := Node(Value, NoTag, "", [Node(String, NoTag, "", [], true)], true);
    var name := Node(DictKeyName, NoTag, "", [], true);
    var kv := Node(DictKv, NoTag, "", [Node(DictKey, NoTag, "", [name], true)], true);
    assert ParseValue("") == More(value);
    assert ParseKey("") == More(kv.children[0]);
    assert ParseKv("") == More(kv);
    assert IsSilent(value.children[0]) && IsSilent(name) && IsSilent(kv.children[0]);
    SilentIsCut(value, b);
    SilentIsCut(kv, b);
  }

  lemma SilentIsCut(a: Node, b: Node)
    requires IsSilent(a)
    ensures IsCutOf(a, b)
  {
  }

  lemma {:induction false} ValueMore(s: string, u: string)
    ensures Grown(ParseValue(s), ParseValue(s + u), u)
    decreases |s|, 2
  {
    hide IsCutOf, Alternatives;
    if s == "" {
      Seqs.AppendNothing(u, s);
      NothingYet(if ParseValue(u).Failed? then ANY_NODE else ParseValue(u).value);
    } else {
      AlternativesMore(s, u);
      ValueAround(s, u);
    }
  }

  lemma ValueAround(s: string, u: string)
    requires Grown(Alternatives(s), Alternatives(s + u), u)
    ensures Grown(ParseValue(s), ParseValue(s + u), u)
  {
    hide IsCutOf, Alternatives;
    var a, b := Alternatives(s), Alternatives(s + u);
    match a
    case Failed =>
    case Done(_, rest) => TakenMore(s, u, rest);
    case More(x) =>
      if !b.Failed? {
        AroundMore(Value, s, u, [x], [b.value], if b.Done? then b.rest else "", b.More?);
      }
  }

  /** A value after blanks. */
  lemma {:induction false} SpacedValueMore(s: string, u: string)
    ensures Grown(ParseValue(SkipSpace(s)), ParseValue(SkipSpace(s + u)), u)
    decreases |s|, 3
  {
    hide ParseValue, IsCutOf, SkipSpace;
    SkipMore(s, u);
    if SkipSpace(s) != "" {
      ValueMore(SkipSpace(s), u);
    } else {
      var b := ParseValue(SkipSpace(s + u));
      NothingYet(if b.Failed? then ANY_NODE else b.value);
    }
  }

  lemma {:induction false} KvMore(s: string, u: string)
    ensures Grown(ParseKv(s), ParseKv(s + u), u)
    decreases |s|, 3
  {
    hide IsCutOf, ParseKey, ParseValue, ListCut, SkipSpace;
    KeyMore(s, u);
    match ParseKey(s)
    case Failed =>
    case More(key) =>
      if !ParseKv(s + u).Failed? {
        OpenKv(s, u);
      }
    case Done(key, after) =>
      SpacedValueMore(after, u);
      KvAround(s, key, after, u);
  }

  lemma OpenKv(s: string, u: string)
    requires ParseKey(s).More? && Grown(ParseKey(s), ParseKey(s + u), u) && !ParseKv(s + u).Failed?
    ensures Grown(ParseKv(s), ParseKv(s + u), u)
  {
    hide IsCutOf, ParseKey, ParseValue, ListCut;
    var b, q := ParseKv(s + u), ParseKey(s + u);
    assert ListCut([ParseKey(s).value], b.value.children) by { FirstCut(ParseKey(s).value, b.value.children); }
    AroundMore(DictKv, s, u, [ParseKey(s).value], b.value.children, if b.Done? then b.rest else "", b.More?);
  }

  lemma FirstCut(x: Node, ys: seq<Node>)
    requires ys != [] && IsCutOf(x, ys[0])
    ensures ListCut([x], ys)
  {
    hide IsCutOf;
  }

  lemma KvAround(s: string, key: Node, after: string, u: string)
    requires ParseKey(s) == Done(key, after) && ParseKey(s + u) == Done(key, after + u)
    requires Grown(ParseValue(SkipSpace(after)), ParseValue(SkipSpace(after + u)), u)
    ensures Grown(ParseKv(s), ParseKv(s + u), u)
  {
    hide IsCutOf, ParseKey, ParseValue, ListCut, SkipSpace, RuleNode;
    var a, b := ParseValue(SkipSpace(after)), ParseValue(SkipSpace(after + u));
    match a
    case Failed =>
    case Done(value, rest) => DoneMore(DictKv, s, u, [key, value], rest);
    case More(x) =>
      if !b.Failed? {
        SecondCut(key, x, b.value);
        if b.Done? {
          MoreThenDone(DictKv, s, u, [key, x], [key, b.value], b.rest);
        } else {
          MoreThenMore(DictKv, s, u, [key, x], [key, b.value]);
        }
      }
  }

  lemma DoneMore(rule: Rule, s: string, u: string, xs: seq<Node>, rest: string)
    requires |rest| <= |s|
    ensures Grown(DoneNode(rule, s, xs, rest), DoneNode(rule, s + u, xs, rest + u), u)
  {
    hide IsCutOf;
    TakenMore(s, u, rest);
  }

  lemma MoreThenDone(rule: Rule, s: string, u: string, xs: seq<Node>, ys: seq<Node>, rest: string)
    requires !rule.OtherRule? && ListCut(xs, ys) && |rest| <= |u|
    ensures Grown(MoreNode(rule, s, xs), DoneNode(rule, s + u, ys, rest), u)
  {
    hide IsCutOf, ListCut, RuleNode;
    AroundMore(rule, s, u, xs, ys, rest, false);
  }

  lemma MoreThenMore(rule: Rule, s: string, u: string, xs: seq<Node>, ys: seq<Node>)
    requires !rule.OtherRule? && ListCut(xs, ys)
    ensures Grown(MoreNode(rule, s, xs), MoreNode(rule, s + u, ys), u)
  {
    hide IsCutOf, ListCut, RuleNode;
    AroundMore(rule, s, u, xs, ys, "", true);
  }

  lemma SecondCut(key: Node, x: Node, y: Node)
    requires IsCutOf(x, y)
    ensures ListCut([key, x], [key, y])
  {
    hide IsCutOf;
  }

  // Items

  /** A list begins with its first item. */
  lemma FirstOfItems(item: Node, after: string, dict: bool)
    ensures var r := AfterItem(item, after, dict); !r.Failed? ==> r.value != [] && r.value[0] == item
  {
    hide ParseItems;
  }

  lemma ClosingMore(items: seq<Node>, s: string, dict: bool, u: string)
    requires s != ""
    ensures ItemsGrown(Closing(items, s, dict), Closing(items, s + u, dict), u)
  {
    hide Literal;
    LiteralMore(if dict then "}" else "]", s, u);
    OneSign(if dict then "}" else "]", s);
  }

  lemma OneSign(sign: string, s: string)
    requires |sign| == 1 && s != ""
    ensures !Literal(sign, s).Open?
  {
  }

  lemma PrependedMore(item: Node, a: Parsed<seq<Node>>, b: Parsed<seq<Node>>, u: string)
    requires ItemsGrown(a, b, u) && (a.More? ==> a.value != [])
    ensures ItemsGrown(Prepended(item, a), Prepended(item, b), u)
  {
    hide IsCutOf;
  }

  lemma ItemsNotEmpty(s: string, dict: bool)
    ensures !ParseItems(s, dict).Failed? ==> ParseItems(s, dict).value != []
  {
    hide AfterItem, ParseItem;
    if ParseItem(s, dict).Done? {
      FirstOfItems(ParseItem(s, dict).value, ParseItem(s, dict).rest, dict);
    }
  }

  lemma {:induction false} ItemMore(s: string, dict: bool, u: string)
    ensures Grown(ParseItem(s, dict), ParseItem(s + u, dict), u)
    decreases |s|, 4
  {
    hide ParseKv, ParseValue, Grown;
    if dict {
      KvMore(s, u);
    } else {
      ValueMore(s, u);
    }
  }

  lemma {:induction false} ItemsMore(s: string, dict: bool, u: string)
    ensures ItemsGrown(ParseItems(s, dict), ParseItems(s + u, dict), u)
    decreases |s|, 5
  {
    hide IsCutOf, ParseItem, AfterItem, ListCut;
    ItemMore(s, dict, u);
    match ParseItem(s, dict)
    case Failed =>
    case More(x) =>
      var b := ParseItem(s + u, dict);
      if b.More? {
        FirstCut(x, [b.value]);
      } else if b.Done? && !AfterItem(b.value, b.rest, dict).Failed? {
        FirstOfItems(b.value, b.rest, dict);
        FirstCut(x, AfterItem(b.value, b.rest, dict).value);
      }
    case Done(x, after) => AfterItemMore(x, after, dict, u);
  }

  lemma {:induction false} AfterItemMore(item: Node, after: string, dict: bool, u: string)
    ensures ItemsGrown(AfterItem(item, after, dict), AfterItem(item, after + u, dict), u)
    decreases |after|, 6
  {
    hide IsCutOf, ParseItems, ListCut, SkipSpace, Closing;
    if after != "" && after[0] == ',' {
      Seqs.FirstOfAppend(after, u);
      SpacedItemsMore(after[1..], dict, u);
      ItemsNotEmpty(SkipSpace(after[1..]), dict);
      PrependedMore(item, ParseItems(SkipSpace(after[1..]), dict), ParseItems(SkipSpace(after[1..] + u), dict), u);
    } else {
      SkipMore(after, u);
      if SkipSpace(after) != "" {
        NoBlanks();
        Seqs.FirstOfAppend(after, u);
        ClosingMore([item], SkipSpace(after), dict, u);
      } else {
        WaitsForClose(item, after, dict, u);
      }
    }
  }

  lemma NoBlanks()
    ensures SkipSpace("") == ""
  {
  }

  /** Only blanks so far after an item. */
  lemma WaitsForClose(item: Node, after: string, dict: bool, u: string)
    requires SkipSpace(after) == ""
    ensures ItemsGrown(AfterItem(item, after, dict), AfterItem(item, after + u, dict), u)
  {
    hide IsCutOf, ParseItems, ListCut, SkipSpace;
    NotAComma(after);
    SkipMore(after, u);
    assert Closing([item], "", dict) == More([item]);
    var b := AfterItem(item, after + u, dict);
    if !b.Failed? {
      FirstOfItems(item, after + u, dict);
      SameList([item], b.value[1..]);
      Seqs.DropCons(b.value, 0);
    }
    if after == "" {
      Seqs.AppendNothing(u, after);
    } else {
      assert (after + u)[0] == after[0];
    }
  }

  lemma NotAComma(after: string)
    requires SkipSpace(after) == ""
    ensures after == "" || after[0] != ','
  {
  }

  lemma {:induction false} SpacedItemsMore(s: string, dict: bool, u: string)
    ensures ItemsGrown(ParseItems(SkipSpace(s), dict), ParseItems(SkipSpace(s + u), dict), u)
    decreases |s|, 6
  {
    hide IsCutOf, ParseItems, ListCut, SkipSpace;
    SkipMore(s, u);
    if SkipSpace(s) != "" {
      ItemsMore(SkipSpace(s), dict, u);
    } else {
      var t := SkipSpace(s + u);
      ItemsNotEmpty(t, dict);
      NoItemYet(dict, if ParseItems(t, dict).Failed? then ANY_NODE else ParseItems(t, dict).value[0]);
      if !ParseItems(t, dict).Failed? {
        FirstCut(ParseItem("", dict).value, ParseItems(t, dict).value);
      }
    }
  }

  lemma NoItemYet(dict: bool, b: Node)
    ensures ParseItem("", dict).More? && ParseItems("", dict) == More([ParseItem("", dict).value])
    ensures IsCutOf(ParseItem("", dict).value, b)
  {
    hide IsCutOf, ParseKv, ParseValue;
    NothingYet(b);
  }

  lemma {:induction false} InsideMore(s: string, dict: bool, u: string)
    requires s != ""
    ensures ItemsGrown(Inside(s, dict), Inside(s + u, dict), u)
    decreases |s|, 6
  {
    hide IsCutOf, ParseItems, ListCut, Closing;
    ClosingMore([], s, dict, u);
    NeverOpen(s, dict);
    ItemsMore(s, dict, u);
  }

  lemma NeverOpen(s: string, dict: bool)
    requires s != ""
    ensures !Closing([], s, dict).More?
  {
    hide Literal;
    OneSign(if dict then "}" else "]", s);
  }

  lemma GroupUnfold(s: string, dict: bool)
    requires s != "" && s[0] == if dict then '{' else '['
    ensures ParseGroup(s, dict) == Around(if dict then Dict else Array, s, Inside(SkipSpace(s[1..]), dict))
  {
    hide Inside, SkipSpace, Around;
    assert Literal(if dict then "{" else "[", s) == To(s[1..]);
  }

  lemma {:induction false} GroupMore(s: string, dict: bool, u: string)
    requires s != ""
    ensures Grown(ParseGroup(s, dict), ParseGroup(s + u, dict), u)
    decreases |s|, 0
  {
    hide IsCutOf, ParseGroup, ListCut, Inside, SkipSpace;
    OthersFail(s);
    OthersFail(s + u);
    Seqs.FirstOfAppend(s, u);
    if s[0] == if dict then '{' else '[' {
      var rule, inside, later := if dict then Dict else Array, SkipSpace(s[1..]), SkipSpace(s[1..] + u);
      GroupUnfold(s, dict);
      GroupUnfold(s + u, dict);
      SkipMore(s[1..], u);
      if inside != "" {
        InsideMore(inside, dict, u);
        GroupAround(rule, s, u, Inside(inside, dict), Inside(later, dict));
      } else {
        NothingInside(dict, later);
        GroupAround(rule, s, u, Inside(inside, dict), Inside(later, dict));
      }
    }
  }

  lemma NothingInside(dict: bool, later: string)
    ensures Inside("", dict) == More([])
    ensures !Inside(later, dict).Failed? ==> ListCut([], Inside(later, dict).value)
  {
    hide IsCutOf;
  }

  lemma GroupAround(rule: Rule, s: string, u: string, a: Parsed<seq<Node>>, b: Parsed<seq<Node>>)
    requires !rule.OtherRule? && ItemsGrown(a, b, u)
    requires (a.Done? ==> |a.rest| <= |s|) && (b.Done? ==> |b.rest| <= |s + u|)
    ensures Grown(Around(rule, s, a), Around(rule, s + u, b), u)
  {
    hide IsCutOf, ListCut;
    match a
    case Failed =>
    case Done(_, rest) => TakenMore(s, u, rest);
    case More(xs) =>
      if !b.Failed? {
        AroundMore(rule, s, u, xs, b.value, if b.Done? then b.rest else "", b.More?);
      }
  }

  // What has been parsed to its end

  lemma DigitRun(d: string, k: nat)
    requires k <= |d| && (forall i :: 0 <= i < k ==> JsonReader.IsDigit(d[i])) && (k < |d| ==> !JsonReader.IsDigit(d[k]))
    ensures JsonReader.DigitCount(d) == k
  {
    if k > 0 {
      DigitRun(d[1..], k - 1);
    }
  }

  lemma DigitsEnd(s: string)
    ensures var n := JsonReader.DigitCount(s); n < |s| ==> !JsonReader.IsDigit(s[n])
  {
  }

  lemma ExponentIs(s: string, n: nat)
    requires n < |s| && ExponentPart(s) == To(s[n..]) && NotContinued(s[n..]).To?
    ensures JsonReader.IsExponent(s[..n])
  {
    if n > 0 {
      var signs := if |s| > 1 && (s[1] == '+' || s[1] == '-') then 2 else 1;
      var k := JsonReader.DigitCount(s[signs..]);
      assert SomeDigits(s[signs..]).To? && |s[n..]| == |s| - n == |s| - signs - k;
      var digits := s[..n][signs..];
      assert digits == s[signs..][..k];
      DigitRun(digits, k);
    }
  }

  /** What the fraction takes: nothing, or a point and digits. */
  lemma FractionTakes(s: string)
    requires FractionPart(s).To?
    ensures var z, k := FractionPart(s).rest, if s == "" then 0 else JsonReader.DigitCount(s[1..]);
      z == s || (s != "" && s[0] == '.' && k > 0 && z == s[1 + k..])
  {
    if s != "" {
      var k := JsonReader.DigitCount(s[1..]);
      assert s[1..][k..] == s[1 + k..];
    }
  }

  /** A rest of a rest. */
  lemma RestOfRest(s: string, k: nat, n: nat, r: string)
    requires k <= |s| && |r| <= |s| - k && r == s[k..][|s| - k - |r|..] && n == |s| - |r|
    ensures k <= n && r == s[n..] && s[..n][k..] == s[k..][..n - k]
  {
  }

  lemma TailParts(s: string)
    requires Tail(s).To?
    ensures var f := FractionPart(s);
      f.To? && ExponentPart(f.rest) == Tail(s) && NotContinued(Tail(s).rest).To?
    ensures |Tail(s).rest| <= |FractionPart(s).rest| <= |s|
    ensures Tail(s).rest == FractionPart(s).rest[|FractionPart(s).rest| - |Tail(s).rest|..]
  {
    hide FractionPart, ExponentPart, NumberRun;
    FractionTakesRun(s);
    ExponentTakesRun(FractionPart(s).rest);
  }

  lemma FractionIs(s: string, n: nat)
    requires n < |s| && Tail(s) == To(s[n..])
    ensures JsonReader.IsFraction(s[..n])
  {
    hide JsonReader.IsExponent, JsonReader.DigitCount, ExponentPart, FractionPart, Tail, NotContinued;
    TailParts(s);
    var z := FractionPart(s).rest;
    FractionTakes(s);
    var k := |s| - |z|;
    RestOfRest(s, k, n, s[n..]);
    ExponentIs(z, n - k);
    if z == s {
      NoPoint(s);
    } else {
      DigitsEnd(s[1..]);
      assert s[..n][1..] == s[1..][..n - 1];
      DigitRun(s[1..][..n - 1], k - 1);
      assert s[1..][..n - 1][k - 1..] == z[..n - k];
    }
  }

  /** What is left by the parts before does not begin with a point. */
  lemma NoPoint(s: string)
    requires s != "" && FractionPart(s) == To(s) && Tail(s).To?
    ensures s[0] != '.' && !JsonReader.IsDigit(s[0])
  {
  }

  lemma UnsignedIs(s: string, n: nat)
    requires n < |s| && IntegerPart(s).To? && Tail(IntegerPart(s).rest) == To(s[n..])
    ensures JsonReader.IsUnsigned(s[..n])
  {
    hide Tail, JsonReader.IsFraction, JsonReader.DigitCount, IntegerPart, NumberRun;
    var z := IntegerPart(s).rest;
    IntegerTakesRun(s);
    IntegerStarts(s);
    TailTakesSuffix(z);
    var taken := |s| - |z|;
    RestOfRest(s, taken, n, s[n..]);
    FractionIs(z, n - taken);
    IntegerCount(s, n, taken);
  }

  /** The digits of the integer are all the digits there are. */
  lemma IntegerCount(s: string, n: nat, taken: nat)
    requires taken <= n < |s| && IntegerPart(s) == To(s[taken..]) && Tail(s[taken..]).To?
    ensures taken > 0 && JsonReader.DigitCount(s[..n]) == taken && (s[0] == '0' ==> taken == 1)
  {
    hide Tail, JsonReader.DigitCount;
    assert |s[taken..]| == |s| - taken;
    NoMoreDigits(s[taken..], s[0] == '0');
    if s[0] == '0' {
      DigitRun(s[..n], 1);
    } else {
      DigitsEnd(s[1..]);
      DigitRun(s[..n], taken);
    }
  }

  /** After a leading zero no digit follows. */
  lemma NoMoreDigits(s: string, zero: bool)
    requires Tail(s).To?
    ensures s != "" && (zero ==> !JsonReader.IsDigit(s[0]))
  {
  }

  lemma UnsignedTaken(s: string, rest: string)
    requires IntegerPart(s).To? && Tail(IntegerPart(s).rest) == To(rest)
    ensures s != "" && s[0] != '-' && |rest| < |s| && JsonReader.IsUnsigned(s[..|s| - |rest|])
  {
    hide IntegerPart, Tail, JsonReader.IsUnsigned, NumberRun;
    var z := IntegerPart(s).rest;
    IntegerTakesRun(s);
    IntegerStarts(s);
    TailTakesSuffix(z);
    RestOfRest(s, |s| - |z|, |s| - |rest|, rest);
    UnsignedIs(s, |s| - |rest|);
  }

  lemma IntegerStarts(s: string)
    requires IntegerPart(s).To?
    ensures s != "" && s[0] != '-' && |IntegerPart(s).rest| < |s|
  {
  }

  lemma NumberIs(s: string)
    requires NumberScan(s).To?
    ensures |NumberScan(s).rest| < |s| && JsonReader.IsNumber(s[..|s| - |NumberScan(s).rest|])
  {
    hide IntegerPart, Tail, JsonReader.IsUnsigned;
    var rest := NumberScan(s).rest;
    if s != "" && s[0] == '-' {
      UnsignedTaken(s[1..], rest);
      var d := s[..|s| - |rest|];
      assert d[0] == '-' && d[1..] == s[1..][..|s[1..]| - |rest|];
    } else {
      UnsignedTaken(s, rest);
    }
  }

  lemma TailTakesSuffix(s: string)
    ensures Tail(s).To? ==> |Tail(s).rest| <= |s| && Tail(s).rest == s[|s| - |Tail(s).rest|..] && Tail(s).rest != ""
  {
    hide FractionPart, ExponentPart, NumberRun;
    FractionTakesRun(s);
    if FractionPart(s).To? {
      ExponentTakesRun(FractionPart(s).rest);
    }
  }

  predicate IsWhole(r: Parsed<Node>) {
    r.Done? ==> IsComplete(r.value)
  }

  lemma NumberIsWhole(s: string)
    ensures IsWhole(ParseNumber(s)) && (ParseNumber(s).Done? ==> IsScalar(ParseNumber(s).value))
  {
    hide NumberScan, JsonReader.IsNumber;
    NumberShrinks(s);
    if NumberScan(s).To? {
      NumberIs(s);
    }
  }

  lemma WordsAreWhole(s: string)
    ensures IsWhole(ParseBool(s)) && (ParseBool(s).Done? ==> IsScalar(ParseBool(s).value))
    ensures IsWhole(ParseNull(s)) && (ParseNull(s).Done? ==> IsScalar(ParseNull(s).value))
  {
    LiteralTaken("true", s);
    LiteralTaken("false", s);
    LiteralTaken("null", s);
  }

  lemma LiteralTaken(word: string, s: string)
    ensures Literal(word, s).To? ==> |s| == |word| + |Literal(word, s).rest| && s[..|s| - |Literal(word, s).rest|] == word
  {
  }

  lemma StringIsWhole(s: string)
    ensures IsWhole(ParseString(s)) && (ParseString(s).Done? ==> ParseString(s).value.rule == String)
  {
    hide Until;
  }

  lemma {:induction false} AlternativesAreWhole(s: string)
    ensures var r := Alternatives(s);
      r.Done? ==> IsComplete(r.value) && (IsScalar(r.value) || r.value.rule in {String, Array, Dict})
    decreases |s|, 1
  {
    hide ParseString, ParseGroup, ParseNumber, ParseBool, ParseNull, IsComplete, IsScalar;
    StringIsWhole(s);
    GroupIsWhole(s, true);
    GroupIsWhole(s, false);
    NumberIsWhole(s);
    WordsAreWhole(s);
  }

  lemma {:induction false} ValueIsWhole(s: string)
    ensures IsWhole(ParseValue(s)) && (ParseValue(s).Done? ==> ParseValue(s).value.rule == Value)
    decreases |s|, 2
  {
    hide Alternatives, IsScalar;
    AlternativesAreWhole(s);
  }

  lemma KeyIsWhole(s: string)
    ensures IsWhole(ParseKey(s)) && (ParseKey(s).Done? ==> ParseKey(s).value.rule == DictKey)
  {
    hide NameLength;
  }

  lemma {:induction false} KvIsWhole(s: string)
    ensures IsWhole(ParseKv(s)) && (ParseKv(s).Done? ==> ParseKv(s).value.rule == DictKv)
    decreases |s|, 3
  {
    hide ParseKey, ParseValue, SkipSpace;
    KeyIsWhole(s);
    if ParseKey(s).Done? {
      ValueIsWhole(SkipSpace(ParseKey(s).rest));
    }
  }

  predicate AreWhole(r: Parsed<seq<Node>>, rule: Rule) {
    r.Done? ==> forall i :: 0 <= i < |r.value| ==> r.value[i].rule == rule && IsComplete(r.value[i])
  }

  lemma {:induction false} ItemIsWhole(s: string, dict: bool)
    ensures var r := ParseItem(s, dict); r.Done? ==> IsComplete(r.value) && r.value.rule == if dict then DictKv else Value
    decreases |s|, 4
  {
    hide ParseKv, ParseValue, IsComplete;
    if dict {
      KvIsWhole(s);
    } else {
      ValueIsWhole(s);
    }
  }

  lemma {:induction false} ItemsAreWhole(s: string, dict: bool)
    ensures AreWhole(ParseItems(s, dict), if dict then DictKv else Value)
    decreases |s|, 5
  {
    hide ParseItem, IsComplete, SkipSpace;
    ItemIsWhole(s, dict);
    var item := ParseItem(s, dict);
    if item.Done? && item.rest != "" && item.rest[0] == ',' {
      ItemsAreWhole(SkipSpace(item.rest[1..]), dict);
    }
  }

  lemma {:induction false} GroupIsWhole(s: string, dict: bool)
    ensures IsWhole(ParseGroup(s, dict)) && (ParseGroup(s, dict).Done? ==> ParseGroup(s, dict).value.rule == if dict then Dict else Array)
    decreases |s|, 0
  {
    hide ParseGroup, ParseItems, SkipSpace, IsComplete;
    if s != "" && s[0] == if dict then '{' else '[' {
      var inside := SkipSpace(s[1..]);
      GroupUnfold(s, dict);
      ItemsAreWhole(inside, dict);
      AroundIsWhole(if dict then Dict else Array, s, Inside(inside, dict));
    } else {
      NotAGroup(s, dict);
    }
  }

  lemma NotAGroup(s: string, dict: bool)
    requires s == "" || s[0] != if dict then '{' else '['
    ensures !ParseGroup(s, dict).Done?
  {
    hide Inside;
  }

  lemma AroundIsWhole(rule: Rule, s: string, r: Parsed<seq<Node>>)
    requires rule in {Dict, Array} && AreWhole(r, if rule.Dict? then DictKv else Value) && (r.Done? ==> |r.rest| < |s|)
    ensures IsWhole(Around(rule, s, r)) && (Around(rule, s, r).Done? ==> r.Done? && Around(rule, s, r).value.rule == rule)
  {
  }

  // Dicts as they arrive

  function ParseDict(s: string): (r: Parsed<Node>)
    ensures r.Done? ==> |r.rest| < |s|
  {
    ParseGroup(s, true)
  }

  /** Parsing a beginning of a text and then a longer one, perhaps all of it: what
      cannot match never will, what has matched stays, and otherwise the first
      tree is the second one cut along its last path. */
  lemma SuccessiveParses(s: string, t: string)
    requires s <= t
    ensures var a, b := ParseDict(s), ParseDict(t);
      (a.Failed? ==> b.Failed?) && (!b.Failed? ==> IsCutOf(a.value, b.value)) &&
      (a.Done? ==> b == Done(a.value, a.rest + t[|s|..]))
  {
    hide IsCutOf, ParseGroup;
    var u := t[|s|..];
    assert t == s + u;
    if s == "" {
      NothingParsed();
      if !ParseDict(t).Failed? {
        DictRule(t);
        Childless(ParseDict("").value, ParseDict(t).value);
      }
    } else {
      GroupMore(s, true, u);
      if ParseDict(s).Done? {
        SameIsCut(ParseDict(s).value);
      }
    }
  }

  lemma NothingParsed()
    ensures ParseDict("") == MoreNode(Dict, "", [])
  {
  }

  lemma DictRule(s: string)
    ensures !ParseDict(s).Failed? ==> ParseDict(s).value.rule == Dict && ParseDict(s).value.tag == NoTag
  {
    hide Inside, SkipSpace;
  }

  /** The arguments shown for any beginning of a dict are a beginning of those
      shown for a longer one. Once it is all there they are JSON for the dict, and
      nothing that follows changes them. */
  lemma ArgumentsArrive(s: string, t: string)
    requires s <= t && !ParseDict(t).Failed?
    ensures var a, b := ParseDict(s), ParseDict(t);
      !a.Failed? && Render(a.value) <= Render(b.value) && (a.Done? ==> b.value == a.value) &&
      (b.Done? ==>
        IsComplete(b.value) && b.value.rule == Dict &&
        JsonReader.ReadValue(Render(b.value)) == JsonReader.Got(JsonReader.Object(EntriesFrom(b.value, 0)), ""))
  {
    hide IsCutOf, ParseDict, Render, IsComplete, EntriesFrom, JsonReader.ReadValue;
    SuccessiveParses(s, t);
    RenderGrows(ParseDict(s).value, ParseDict(t).value);
    DictIsWhole(t);
    if ParseDict(t).Done? {
      DictIsRead(ParseDict(t).value, "");
      Seqs.AppendNothing(Render(ParseDict(t).value), "");
    }
  }

  lemma DictIsWhole(s: string)
    ensures ParseDict(s).Done? ==> IsComplete(ParseDict(s).value) && ParseDict(s).value.rule == Dict
  {
    hide ParseGroup, IsComplete;
    GroupIsWhole(s, true);
  }

  // A name and a number have been shown when a wrong bracket comes

  lemma NameRead(name: char, rest: string)
    requires name != ':' && name != '}'
    ensures ParseKey([name] + (":" + rest)) == Done(Node(DictKey, NoTag, [name, ':'], [Node(DictKeyName, NoTag, [name], [], false)], false), rest)
  {
    var s := [name] + (":" + rest);
    assert s[1..] == ":" + rest && (":" + rest)[0] == ':';
    assert NameLength(s[1..]) == 0;
    assert NameLength(s) == 1 && s[..1] == [name] && s[2..] == rest && s[..2] == [name, ':'];
  }

  lemma DigitScan(digit: char, rest: string)
    requires '1' <= digit <= '9' && (rest != "" ==> !ContinuesNumber(rest[0]))
    ensures NumberScan([digit] + rest) == if rest == "" then Open else To(rest)
  {
    hide FractionPart, ExponentPart;
    Seqs.Border([digit], rest);
    assert Digits(rest) == rest by { if rest != "" { assert rest[0..] == rest; } }
    NothingFollows(rest);
  }

  lemma NothingFollows(rest: string)
    requires rest != "" ==> !ContinuesNumber(rest[0])
    ensures Tail(rest) == if rest == "" then Open else To(rest)
  {
  }

  /** A value of one digit: open at the end of the input, done before a sign. */
  lemma DigitValue(digit: char, rest: string)
    requires '1' <= digit <= '9' && (rest != "" ==> !ContinuesNumber(rest[0]))
    ensures var r := ParseValue([digit] + rest);
      if rest == "" then r.More? && Render(r.value) == [digit] else r.Done? && r.rest == rest
  {
    hide ParseNumber, Alternatives, NumberScan;
    var s := [digit] + rest;
    DigitScan(digit, rest);
    AlternativesByFirst(s);
    assert s[0] == digit;
    DigitNode(s, rest);
    assert rest == "" ==> s == [digit];
  }

  lemma DigitNode(s: string, rest: string)
    requires s != "" && NumberScan(s) == if rest == "" then Open else To(rest)
    ensures var r := ParseNumber(s);
      if rest == "" then r.More? && r.value.rule == Number && r.value.text == s else r.Done? && r.rest == rest
  {
    hide NumberScan;
  }

  lemma KvAfterKey(s: string, key: Node, after: string)
    requires ParseKey(s) == Done(key, after) && SkipSpace(after) == after
    ensures var v, r := ParseValue(after), ParseKv(s);
      (v.More? ==> r == MoreNode(DictKv, s, [key, v.value])) && (v.Done? ==> r.Done? && r.rest == v.rest)
  {
    hide ParseKey, ParseValue, SkipSpace;
  }

  /** An entry with a value that is open, or done. */
  lemma EntryAround(name: char, s: string)
    requires name != ':' && name != '}' && SkipSpace(s) == s && !ParseValue(s).Failed?
    ensures var v, r := ParseValue(s), ParseKv([name] + (":" + s));
      if v.Done? then r.Done? && r.rest == v.rest else r.More? && Render(r.value) == [QUOTE] + (EscapeChar(name) + [QUOTE, ':']) + Render(v.value)
  {
    hide ParseKey, ParseValue, ParseKv, Render, EscapeChar, SkipSpace;
    var text := [name] + (":" + s);
    var key := Node(DictKey, NoTag, [name, ':'], [Node(DictKeyName, NoTag, [name], [], false)], false);
    NameRead(name, s);
    KvAfterKey(text, key, s);
    NameShown(key, name);
    if ParseValue(s).More? {
      OpenEntryShown(text, key, ParseValue(s).value);
    }
  }

  lemma OpenEntryShown(s: string, key: Node, value: Node)
    requires s != ""
    ensures MoreNode(DictKv, s, [key, value]).More? && Render(MoreNode(DictKv, s, [key, value]).value) == Render(key) + Render(value)
  {
    hide Render;
    TwoRendered(MoreNode(DictKv, s, [key, value]).value);
  }

  lemma NotASpace(c: char, rest: string)
    requires !IsSpace(c)
    ensures SkipSpace([c] + rest) == [c] + rest
  {
  }

  lemma NameShown(key: Node, name: char)
    requires key == Node(DictKey, NoTag, [name, ':'], [Node(DictKeyName, NoTag, [name], [], false)], false)
    ensures Render(key) == [QUOTE] + (EscapeChar(name) + [QUOTE, ':'])
  {
    hide EscapeChar;
    assert Render(key.children[0]) == [name];
    assert [name][1..] == "" && EscapeChar(name) + "" == EscapeChar(name);
    assert Escape([name]) == EscapeChar(name) + Escape("");
  }

  /** Shown arguments may belong to a dict that turns out to be none: an entry has
      been shown when, in place of its own bracket or a comma, another one comes. */
  lemma ShownThenRejected(name: char, digit: char)
    requires name !in ":}" && !IsSpace(name) && '1' <= digit <= '9'
    ensures var r := ParseDict("{" + ([name] + (":" + ([digit] + ""))));
      r.More? && Render(r.value) == "{" + ([QUOTE] + (EscapeChar(name) + [QUOTE, ':']) + [digit])
    ensures ParseDict("{" + ([name] + (":" + ([digit] + "]")))).Failed?
  {
    hide ParseKv, ParseValue, ParseDict, Render, EscapeChar, SkipSpace;
    DigitValue(digit, "");
    DigitValue(digit, "]");
    NotASpace(digit, "");
    NotASpace(digit, "]");
    EntryAround(name, [digit] + "");
    EntryAround(name, [digit] + "]");
    EntryOpen([name] + (":" + ([digit] + "")));
    EntryRejected([name] + (":" + ([digit] + "]")));
  }

  lemma GroupAfter(inside: string)
    requires inside != "" && !IsSpace(inside[0])
    ensures ParseDict("{" + inside) == Around(Dict, "{" + inside, Inside(inside, true))
  {
    hide ParseGroup, Inside, Around;
    Seqs.Border("{", inside);
    GroupUnfold("{" + inside, true);
    assert SkipSpace(inside) == inside;
  }

  lemma EntryOpen(s: string)
    requires s != "" && s[0] != '}' && !IsSpace(s[0]) && ParseKv(s).More?
    ensures ParseDict("{" + s).More? && Render(ParseDict("{" + s).value) == "{" + Render(ParseKv(s).value)
  {
    hide ParseKv, ParseDict, Render, Literal;
    GroupAfter(s);
    OtherSign("}", s);
    assert ParseItem(s, true) == ParseKv(s);
    assert ParseItems(s, true) == More([ParseKv(s).value]);
    OpenDictShown(ParseDict("{" + s).value, ParseKv(s).value);
  }

  lemma OpenDictShown(dict: Node, kv: Node)
    requires dict.rule == Dict && dict.text != "" && dict.children == [kv] && dict.partial
    ensures Render(dict) == "{" + Render(kv)
  {
    assert RenderFrom(dict, 1, ",") == "";
    Seqs.AppendNothing(Render(kv), "");
    assert RenderFrom(dict, 0, ",") == "" + (Render(kv) + RenderFrom(dict, 1, ","));
    assert Render(dict) == "{" + (RenderFrom(dict, 0, ",") + "");
  }

  lemma EntryRejected(s: string)
    requires s != "" && s[0] != '}' && !IsSpace(s[0]) && ParseKv(s).Done? && ParseKv(s).rest == "]"
    ensures ParseDict("{" + s).Failed?
  {
    hide ParseItems, ParseKv, ParseDict, Literal;
    GroupAfter(s);
    OtherSign("}", s);
    ItemsRejected(s);
  }

  lemma ItemsRejected(s: string)
    requires ParseKv(s).Done? && ParseKv(s).rest == "]"
    ensures ParseItems(s, true).Failed?
  {
    hide ParseKv, AfterItem;
    WrongBracket(ParseKv(s).value);
    assert ParseItem(s, true) == ParseKv(s);
  }

  lemma WrongBracket(item: Node)
    ensures AfterItem(item, "]", true).Failed?
  {
    hide ParseItems, Literal;
    OtherSign("}", "]");
    assert SkipSpace("]") == "]";
  }
}
