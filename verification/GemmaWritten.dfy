/** Values as Gemma 4 writes them, with any white space the grammar allows: every
    one is parsed, and shown as the JSON text of what was written. */
module GemmaWritten {
  import Seqs
  import opened Wrappers
  import opened JsonText
  import opened JsonReader
  import opened Gemma4
  import opened GemmaMeaning
  import opened Gemma4Parser

  /** A text between delimiters, a number or word as it is, a list or a dict. */
  datatype Gemma = Quote(text: string) | Plain(text: string) | Group(dict: bool, items: seq<Item>, end: string)

  /** White space, the key and more white space if it is one of a dict, a value. */
  datatype Item = Item(lead: string, key: string, gap: string, value: Gemma)

  /** Nowhere in the text one of the words begins. */
  predicate IsFreeOf(text: string, words: seq<string>) {
    forall k :: 0 <= k < |text| ==> !Ends(words, text[k..])
  }

  predicate AllSpace(s: string) {
    forall c :: c in s ==> IsSpace(c)
  }

  predicate IsKey(key: string) {
    key != "" && !IsSpace(key[0]) && ':' !in key && '}' !in key
  }

  predicate IsWritten(v: Gemma)
    decreases v
  {
    match v
    case Quote(t) => IsFreeOf(t, DELIMITERS)
    case Plain(t) => IsAtom(t)
    case Group(dict, items, end) => AllSpace(end) && forall i :: 0 <= i < |items| ==> IsItem(items[i], dict)
  }

  predicate IsItem(it: Item, dict: bool)
    decreases it
  {
    AllSpace(it.lead) && AllSpace(it.gap) && IsWritten(it.value) && (dict ==> IsKey(it.key))
  }

  /** The text the model writes. */
  function Show(v: Gemma): string
    decreases v, if v.Group? then |v.items| + 1 else 0
  {
    match v
    case Quote(t) => DELIMITER + (t + DELIMITER)
    case Plain(t) => t
    case Group(dict, items, end) => (if dict then "{" else "[") + (ShowItems(v, 0) + (end + if dict then "}" else "]"))
  }

  function ShowItems(v: Gemma, k: nat): string
    requires v.Group? && k <= |v.items|
    decreases v, |v.items| - k, 1
  {
    if k == |v.items| then "" else (if k > 0 then "," else "") + ShowFrom(v, k)
  }

  /** The items from the k-th on, without a comma in front. */
  function ShowFrom(v: Gemma, k: nat): string
    requires v.Group? && k < |v.items|
    decreases v, |v.items| - k, 0
  {
    v.items[k].lead + (ShowItem(v.items[k], v.dict) + ShowItems(v, k + 1))
  }

  function ShowItem(it: Item, dict: bool): string
    decreases it
  {
    (if dict then it.key + (":" + it.gap) else "") + Show(it.value)
  }

  /** The JSON text of it. */
  function AsJson(v: Gemma): string
    decreases v, if v.Group? then |v.items| + 1 else 0
  {
    match v
    case Quote(t) => "\"" + (Escape(t) + "\"")
    case Plain(t) => t
    case Group(dict, items, end) => (if dict then "{" else "[") + (ItemsAsJson(v, 0) + if dict then "}" else "]")
  }

  function ItemsAsJson(v: Gemma, k: nat): string
    requires v.Group? && k <= |v.items|
    decreases v, |v.items| - k, 1
  {
    if k == |v.items| then ""
    else (if k > 0 then "," else "") + (ItemAsJson(v.items[k], v.dict) + ItemsAsJson(v, k + 1))
  }

  function ItemAsJson(it: Item, dict: bool): string
    decreases it
  {
    if dict then "\"" + (Escape(it.key) + "\":") + AsJson(it.value) else AsJson(it.value)
  }

  /** The value that is meant. */
  function Meant(v: Gemma): Json
    decreases v, if v.Group? then |v.items| + 1 else 0
  {
    match v
    case Quote(t) => Text(t)
    case Plain(t) => Atom(t)
    case Group(dict, items, end) => if dict then Object(EntriesMeant(v, 0)) else List(ItemsMeant(v, 0))
  }

  function ItemsMeant(v: Gemma, k: nat): seq<Json>
    requires v.Group? && k <= |v.items|
    decreases v, |v.items| - k
  {
    if k == |v.items| then [] else [Meant(v.items[k].value)] + ItemsMeant(v, k + 1)
  }

  function EntriesMeant(v: Gemma, k: nat): seq<(string, Json)>
    requires v.Group? && k <= |v.items|
    decreases v, |v.items| - k
  {
    if k == |v.items| then [] else [(v.items[k].key, Meant(v.items[k].value))] + EntriesMeant(v, k + 1)
  }

  // White space and words

  lemma {:induction false} SpaceSkipped(gap: string, s: string)
    requires AllSpace(gap) && (s == "" || !IsSpace(s[0]))
    ensures SkipSpace(gap + s) == s
    decreases |gap|
  {
    if gap == "" {
      Seqs.AppendNothing(s, gap);
    } else {
      assert gap[0] in gap;
      Seqs.FirstOfAppend(gap, s);
      SpaceSkipped(gap[1..], s);
    }
  }

  lemma WordTaken(word: string, rest: string)
    ensures Literal(word, word + rest) == To(rest)
  {
    Seqs.Border(word, rest);
  }

  /** Words that can only begin at their first character. */
  predicate AreDelimiters(words: seq<string>) {
    forall i :: 0 <= i < |words| ==>
      |words[i]| > 1 && words[i][0] == '<' && forall k :: 0 < k < |words[i]| ==> words[i][k] != '<'
  }

  lemma NotHere(word: string, text: string, rest: string)
    requires |word| > 1 && (forall k :: 0 < k < |word| ==> word[k] != '<') && !(word <= text)
    requires text != "" && rest != "" && rest[0] == '<'
    ensures !(word <= text + rest) && !(text + rest <= word)
  {
    assert (text + rest)[|text|] == '<';
    if |word| > |text| {
      assert word[|text|] != '<';
    } else {
      assert (text + rest)[..|word|] == text[..|word|];
    }
  }

  /** In front of such a word, text without one is only text. */
  lemma NotBefore(text: string, words: seq<string>, rest: string)
    requires AreDelimiters(words) && IsFreeOf(text, words) && text != "" && rest != "" && rest[0] == '<'
    ensures !MayEnd(words, text + rest)
  {
    assert !Ends(words, text) by { assert text[0..] == text; }
    forall i | 0 <= i < |words| ensures !(words[i] <= text + rest) && !(text + rest <= words[i]) {
      NotHere(words[i], text, rest);
    }
  }

  lemma FreeOfRest(text: string, words: seq<string>)
    requires IsFreeOf(text, words) && text != ""
    ensures IsFreeOf(text[1..], words)
  {
    hide Ends;
    forall k | 0 <= k < |text| - 1 ensures !Ends(words, text[1..][k..]) {
      assert text[1..][k..] == text[k + 1..];
    }
  }

  /** Text is taken up to the first word. */
  lemma {:induction false} TextTaken(text: string, words: seq<string>, rest: string)
    requires AreDelimiters(words) && IsFreeOf(text, words) && rest != "" && rest[0] == '<' && Ends(words, rest)
    ensures Until(words, text + rest) == |text|
    decreases |text|
  {
    hide MayEnd, AreDelimiters, IsFreeOf;
    if text == "" {
      Seqs.AppendNothing(rest, text);
      assert MayEnd(words, rest) by { AtWord(words, rest); }
    } else {
      NotBefore(text, words, rest);
      FreeOfRest(text, words);
      Seqs.FirstOfAppend(text, rest);
      TextTaken(text[1..], words, rest);
    }
  }

  lemma AtWord(words: seq<string>, rest: string)
    requires Ends(words, rest)
    ensures MayEnd(words, rest)
  {
  }

  lemma OneDelimiter(rest: string)
    ensures AreDelimiters(DELIMITERS) && Ends(DELIMITERS, DELIMITER + rest) && (DELIMITER + rest)[0] == '<'
  {
    assert DELIMITERS[0] <= DELIMITER + rest;
  }

  /** What is left of a text before a rest. */
  lemma BeforeRest(text: string, rest: string)
    ensures (text + rest)[..|text + rest| - |rest|] == text
  {
  }

  lemma QuoteParsed(t: string, rest: string)
    requires IsFreeOf(t, DELIMITERS)
    ensures ParseString(DELIMITER + (t + DELIMITER) + rest) ==
      Done(Node(String, NoTag, DELIMITER + (t + DELIMITER), [Node(StringContent, NoTag, t, [], false)], false), rest)
  {
    hide Until, IsFreeOf, Literal, Ends;
    var inside := t + (DELIMITER + rest);
    var s := DELIMITER + (t + DELIMITER) + rest;
    assert s == DELIMITER + inside;
    WordTaken(DELIMITER, inside);
    OneDelimiter(rest);
    TextTaken(t, DELIMITERS, DELIMITER + rest);
    Seqs.Border(t, DELIMITER + rest);
    WordTaken(DELIMITER, rest);
    BeforeRest(DELIMITER + (t + DELIMITER), rest);
  }

  // Numbers

  /** Something that cannot go on with a number. */
  predicate IsAfterNumber(rest: string) {
    rest != "" && !ContinuesNumber(rest[0])
  }

  /** The same, or the end of what has come. */
  predicate MayFollow(rest: string) {
    rest == "" || IsAfterNumber(rest)
  }

  lemma {:induction false} DigitsStop(t: string, rest: string)
    requires rest == "" || !IsDigit(rest[0])
    ensures DigitCount(t + rest) == DigitCount(t) && Digits(t + rest) == t[DigitCount(t)..] + rest
    decreases |t|
  {
    if t == "" {
      Seqs.AppendNothing(rest, t);
    } else {
      Seqs.FirstOfAppend(t, rest);
      if IsDigit(t[0]) {
        DigitsStop(t[1..], rest);
      }
    }
    var n := DigitCount(t);
    assert (t + rest)[n..] == t[n..] + rest;
  }

  lemma AllDigits(t: string, rest: string)
    requires t != "" && DigitCount(t) == |t| && (rest == "" || !IsDigit(rest[0]))
    ensures SomeDigits(t + rest) == To(rest)
  {
    DigitsStop(t, rest);
    Seqs.AppendNothing(rest, t[|t|..]);
  }

  lemma ExponentTaken(t: string, rest: string)
    requires IsExponent(t) && MayFollow(rest)
    ensures ExponentPart(t + rest) == To(rest)
  {
    hide DigitCount, SomeDigits;
    var s := t + rest;
    if t == "" {
      Seqs.AppendNothing(rest, t);
    } else if |t| > 1 && (t[1] == '+' || t[1] == '-') {
      assert s[2..] == t[2..] + rest && s[1] == t[1];
      AllDigits(t[2..], rest);
    } else {
      assert s[1..] == t[1..] + rest;
      AllDigits(t[1..], rest);
      DigitFirst(t[1..]);
      assert s[1] == t[1];
    }
  }

  lemma DigitFirst(t: string)
    requires t != "" && DigitCount(t) == |t|
    ensures IsDigit(t[0])
  {
  }

  lemma FractionTaken(t: string, rest: string)
    requires IsFraction(t) && MayFollow(rest)
    ensures Tail(t + rest) == NotContinued(rest)
  {
    hide DigitCount, ExponentPart, IsExponent, Digits;
    var s := t + rest;
    if t != "" && t[0] == '.' {
      var n := DigitCount(t[1..]);
      assert s[1..] == t[1..] + rest;
      DigitsStop(t[1..], rest);
      SomeFirst(t[1..], rest);
      ExponentTaken(t[1..][n..], rest);
    } else {
      ExponentTaken(t, rest);
      ExponentStarts(t, rest);
    }
  }

  lemma SomeFirst(t: string, rest: string)
    requires DigitCount(t) > 0
    ensures t + rest != "" && IsDigit((t + rest)[0])
  {
  }

  lemma ExponentStarts(t: string, rest: string)
    requires IsExponent(t) && MayFollow(rest)
    ensures t + rest == "" || (t + rest)[0] != '.'
  {
    if t == "" {
      Seqs.AppendNothing(rest, t);
    }
  }

  lemma UnsignedParsed(t: string, rest: string)
    requires IsUnsigned(t) && MayFollow(rest)
    ensures IntegerPart(t + rest).To? && Tail(IntegerPart(t + rest).rest) == NotContinued(rest) && t != "" && IsDigit(t[0])
  {
    hide IsFraction, Tail;
    var n, s := DigitCount(t), t + rest;
    Seqs.FirstOfAppend(t, rest);
    DigitsStop(t[1..], rest);
    assert DigitCount(t) == 1 + DigitCount(t[1..]);
    assert t[1..][n - 1..] == t[n..];
    if t[0] == '0' {
      assert IntegerPart(s) == To(t[n..] + rest);
    }
    FractionTaken(t[n..], rest);
  }

  lemma NumberParsed(t: string, rest: string)
    requires IsNumber(t) && MayFollow(rest)
    ensures NumberScan(t + rest) == NotContinued(rest) && t != "" && (t[0] == '-' || IsDigit(t[0]))
  {
    hide IsUnsigned, Tail, IntegerPart;
    if t != "" && t[0] == '-' {
      Seqs.FirstOfAppend(t, rest);
      UnsignedParsed(t[1..], rest);
    } else {
      UnsignedParsed(t, rest);
    }
  }

  lemma WordParsed(t: string, rest: string)
    requires t == "true" || t == "false"
    ensures WordScan("true", "false", t + rest) == To(rest)
  {
    WordTaken(t, rest);
    if t == "false" {
      assert (t + rest)[0] == 'f';
      OtherSign("true", t + rest);
    }
  }

  /** The rule of a plain value, by its first character. */
  function PlainRule(t: string): Rule
    requires t != ""
  {
    if t[0] == 't' || t[0] == 'f' then Bool else if t[0] == 'n' then Null else Number
  }

  lemma PlainParsed(t: string, rest: string)
    requires IsAtom(t) && (IsNumber(t) ==> IsAfterNumber(rest))
    ensures t != "" && var r := Alternatives(t + rest);
      r.Done? && r.rest == rest && r.value.rule == PlainRule(t) && r.value.text == t && IsScalar(r.value) && !r.value.partial
  {
    hide NumberScan, WordScan, Literal, IsNumber, ParseString, ParseGroup;
    var s := t + rest;
    if IsNumber(t) {
      NumberParsed(t, rest);
    } else if t == "null" {
      WordTaken(t, rest);
    } else {
      WordParsed(t, rest);
    }
    assert s[0] == t[0];
    AlternativesByFirst(s);
    BeforeRest(t, rest);
  }

  // Values

  /** The tree of a value, complete and shown as its JSON text. */
  predicate IsTreeOf(n: Node, v: Gemma) {
    IsComplete(n) && (IsScalar(n) || n.rule in {String, Array, Dict}) && Render(n) == AsJson(v) && Meaning(n) == Meant(v)
  }

  predicate IsTreeOfItem(n: Node, it: Item, dict: bool) {
    IsComplete(n) && n.rule == (if dict then DictKv else Value) && Render(n) == ItemAsJson(it, dict) &&
    if dict then EntryOf(n) == (it.key, Meant(it.value)) else Meaning(n) == Meant(it.value)
  }

  predicate AreTreesOf(ns: seq<Node>, items: seq<Item>, dict: bool) {
    |ns| == |items| && forall i :: 0 <= i < |ns| ==> IsTreeOfItem(ns[i], items[i], dict)
  }

  lemma QuoteTree(t: string)
    ensures IsTreeOf(Node(String, NoTag, DELIMITER + (t + DELIMITER), [Node(StringContent, NoTag, t, [], false)], false), Quote(t))
  {
    hide Escape;
    var n := Node(String, NoTag, DELIMITER + (t + DELIMITER), [Node(StringContent, NoTag, t, [], false)], false);
    assert n.text != "";
    StringRendered(n);
  }

  lemma PlainTree(n: Node, t: string)
    requires t != "" && n.rule == PlainRule(t) && n.text == t && IsScalar(n) && !n.partial
    ensures IsTreeOf(n, Plain(t))
  {
  }

  lemma {:induction false} ItemsRendered(n: Node, v: Gemma, k: nat)
    requires v.Group? && AreTreesOf(n.children, v.items, v.dict) && k <= |v.items|
    ensures RenderFrom(n, k, ",") == ItemsAsJson(v, k)
    decreases |v.items| - k
  {
    hide Render, IsComplete, EntryOf, Meaning, ItemAsJson, Meant;
    if k < |v.items| {
      ItemsRendered(n, v, k + 1);
      assert IsTreeOfItem(n.children[k], v.items[k], v.dict);
    }
  }

  lemma {:induction false} EntriesMeaning(n: Node, v: Gemma, k: nat)
    requires v.Group? && v.dict && AreTreesOf(n.children, v.items, true) && IsComplete(n) && n.rule.Dict? && k <= |v.items|
    ensures EntriesFrom(n, k) == EntriesMeant(v, k)
    decreases |v.items| - k
  {
    hide Render, IsComplete, EntryOf, Meaning, ItemAsJson, Meant;
    if k < |v.items| {
      EntriesMeaning(n, v, k + 1);
      assert IsTreeOfItem(n.children[k], v.items[k], true);
    }
  }

  lemma {:induction false} ItemsMeaning(n: Node, v: Gemma, k: nat)
    requires v.Group? && !v.dict && AreTreesOf(n.children, v.items, false) && IsComplete(n) && n.rule.Array? && k <= |v.items|
    ensures MeaningsFrom(n, k) == ItemsMeant(v, k)
    decreases |v.items| - k
  {
    hide Render, IsComplete, EntryOf, Meaning, ItemAsJson, Meant;
    if k < |v.items| {
      ItemsMeaning(n, v, k + 1);
      assert IsTreeOfItem(n.children[k], v.items[k], false);
    }
  }

  lemma GroupTree(n: Node, v: Gemma)
    requires v.Group? && AreTreesOf(n.children, v.items, v.dict) && n.rule == (if v.dict then Dict else Array)
    requires n.text != "" && !n.partial
    ensures IsTreeOf(n, v)
  {
    hide RenderFrom, EntriesFrom, MeaningsFrom, ItemsAsJson, EntriesMeant, ItemsMeant;
    assert IsComplete(n) by { hide Render, Meaning, EntryOf, ItemAsJson, Meant; }
    ItemsRendered(n, v, 0);
    if v.dict {
      EntriesMeaning(n, v, 0);
    } else {
      ItemsMeaning(n, v, 0);
    }
  }

  lemma ValueTree(n: Node, v: Gemma, text: string)
    requires IsTreeOf(n, v) && text != ""
    ensures IsTreeOfItem(Node(Value, NoTag, text, [n], false), Item("", "", "", v), false)
  {
    hide AsJson, Meant;
    assert IsComplete(Node(Value, NoTag, text, [n], false));
  }

  lemma {:induction false} NameTaken(key: string, rest: string)
    requires ':' !in key && '}' !in key
    ensures NameLength(key + (":" + rest)) == |key|
    decreases |key|
  {
    if key == "" {
      assert key + (":" + rest) == ":" + rest;
    } else {
      assert key[0] in key;
      Seqs.FirstOfAppend(key, ":" + rest);
      NameTaken(key[1..], rest);
    }
  }

  function KeyNode(key: string): Node {
    Node(DictKey, NoTag, key + ":", [Node(DictKeyName, NoTag, key, [], false)], false)
  }

  lemma KeyParsed(key: string, rest: string)
    requires IsKey(key)
    ensures ParseKey(key + (":" + rest)) == Done(KeyNode(key), rest)
  {
    hide NameLength;
    var s := key + (":" + rest);
    NameTaken(key, rest);
    Seqs.Border(key, ":" + rest);
    assert s[|key|] == ':' && s[|key| + 1..] == rest;
    assert s == key + ":" + rest;
    BeforeRest(key + ":", rest);
  }

  lemma KvTree(it: Item, value: Node, text: string)
    requires IsTreeOfItem(value, it, false) && IsKey(it.key) && text != ""
    ensures IsTreeOfItem(Node(DictKv, NoTag, text, [KeyNode(it.key), value], false), it, true)
  {
    hide Escape, Render, AsJson, Meant, Meaning;
    var n, key := Node(DictKv, NoTag, text, [KeyNode(it.key), value], false), KeyNode(it.key);
    assert IsComplete(key);
    assert IsComplete(n);
    KeyRendered(key);
    TwoRendered(n);
  }

  // Where values and items begin

  lemma NumberStarts(t: string)
    requires IsAtom(t)
    ensures t != "" && !IsSpace(t[0]) && t[0] !in "<{[]}"
  {
    if IsNumber(t) {
      NumberParsedFirst(t);
    }
  }

  lemma NumberParsedFirst(t: string)
    requires IsNumber(t)
    ensures t != "" && (t[0] == '-' || IsDigit(t[0]))
  {
    hide Tail, IntegerPart;
    NumberParsed(t, " ");
  }

  lemma ShowStarts(v: Gemma)
    requires IsWritten(v)
    ensures Show(v) != "" && !IsSpace(Show(v)[0]) && Show(v)[0] != ']'
  {
    hide ShowItems, IsAtom;
    if v.Plain? {
      NumberStarts(v.text);
    }
  }

  lemma ItemStarts(it: Item, dict: bool)
    requires IsItem(it, dict)
    ensures var s := ShowItem(it, dict); s != "" && !IsSpace(s[0]) && s[0] != if dict then '}' else ']'
  {
    hide Show, IsWritten;
    ShowStarts(it.value);
    if dict {
      assert it.key[0] in it.key;
    } else {
      assert "" + Show(it.value) == Show(it.value);
    }
  }

  // Parsing

  /** What follows a value: anything, but a number needs something that ends it. */
  predicate Follows(v: Gemma, rest: string) {
    v.Plain? && IsNumber(v.text) ==> IsAfterNumber(rest)
  }

  predicate IsParsed(r: Parsed<Node>, v: Gemma, rest: string) {
    r.Done? && r.rest == rest && IsTreeOf(r.value, v) && r.value.text != ""
  }

  predicate IsParsedItem(r: Parsed<Node>, it: Item, dict: bool, rest: string) {
    r.Done? && r.rest == rest && IsTreeOfItem(r.value, it, dict)
  }

  predicate AreParsed(r: Parsed<seq<Node>>, items: seq<Item>, dict: bool, rest: string) {
    r.Done? && r.rest == rest && AreTreesOf(r.value, items, dict)
  }

  /** A value of any kind. */
  lemma {:induction false} AlternativesParsed(v: Gemma, rest: string)
    requires IsWritten(v) && Follows(v, rest)
    ensures IsParsed(Alternatives(Show(v) + rest), v, rest)
    decreases v, if v.Group? then |v.items| + 2 else 0
  {
    hide Alternatives, ParseGroup, ShowItems, IsTreeOf, IsAtom, IsScalar, Ends, IsFreeOf, PlainRule;
    var s := Show(v) + rest;
    ShowStarts(v);
    Seqs.Border(Show(v), rest);
    match v
    case Quote(t) =>
      QuoteParsed(t, rest);
      AlternativesByFirst(s);
      QuoteTree(t);
    case Plain(t) =>
      PlainParsed(t, rest);
      PlainTree(Alternatives(s).value, t);
    case Group(_, _, _) =>
      GroupParsed(v, rest);
      AlternativesByFirst(s);
  }

  lemma {:induction false} ValueParsed(it: Item, rest: string)
    requires IsWritten(it.value) && Follows(it.value, rest)
    ensures IsParsedItem(ParseValue(Show(it.value) + rest), it, false, rest)
    decreases it.value, if it.value.Group? then |it.value.items| + 3 else 1
  {
    hide Alternatives, IsTreeOf, IsTreeOfItem, IsWritten;
    var s := Show(it.value) + rest;
    AlternativesParsed(it.value, rest);
    ShowStarts(it.value);
    BeforeRest(Show(it.value), rest);
    ValueTree(Alternatives(s).value, it.value, Show(it.value));
    AnyKey(ParseValue(s).value, it);
  }

  lemma AnyKey(n: Node, it: Item)
    requires IsTreeOfItem(n, Item("", "", "", it.value), false)
    ensures IsTreeOfItem(n, it, false)
  {
    hide IsComplete, Render, Meaning, AsJson, Meant;
  }

  lemma {:induction false} ItemParsed(it: Item, dict: bool, rest: string)
    requires IsItem(it, dict) && IsAfterNumber(rest)
    ensures IsParsedItem(ParseItem(ShowItem(it, dict) + rest, dict), it, dict, rest)
    decreases it, 0
  {
    hide ParseKey, ParseValue, SkipSpace, Show, IsTreeOfItem, IsWritten, IsKey;
    var text := Show(it.value);
    ValueParsed(it, rest);
    if dict {
      var s, after := ShowItem(it, dict) + rest, it.gap + (text + rest);
      assert s == it.key + (":" + after);
      KeyParsed(it.key, after);
      ShowStarts(it.value);
      Seqs.Border(text, rest);
      SpaceSkipped(it.gap, text + rest);
      BeforeRest(ShowItem(it, dict), rest);
      KvTree(it, ParseValue(text + rest).value, ShowItem(it, dict));
    } else {
      Seqs.AppendNothing(text, "");
      assert "" + text == text;
    }
  }

  /** The items from the k-th on, up to the closing bracket. */
  lemma {:induction false} ItemsParsed(v: Gemma, k: nat, rest: string)
    requires IsWritten(v) && v.Group? && k < |v.items|
    ensures var close := if v.dict then "}" else "]";
      AreParsed(ParseItems(ShowItem(v.items[k], v.dict) + (ShowItems(v, k + 1) + (v.end + (close + rest))), v.dict),
                v.items[k..], v.dict, rest)
    decreases v, |v.items| - k
  {
    hide ParseItem, ParseItems, SkipSpace, ShowItem, ShowItems, IsTreeOfItem, Closing;
    var it, dict, close := v.items[k], v.dict, if v.dict then "}" else "]";
    var end := v.end + (close + rest);
    var after := ShowItems(v, k + 1) + end;
    assert IsItem(it, dict);
    Seqs.DropCons(v.items, k);
    AfterStarts(v, k + 1, rest);
    ItemParsed(it, dict, after);
    var item := ParseItem(ShowItem(it, dict) + after, dict).value;
    ItemsUnfold(ShowItem(it, dict) + after, dict, item, after);
    if k + 1 == |v.items| {
      LastParsed(v, item, rest);
      OneTree(item, it, dict);
    } else {
      ItemsParsed(v, k + 1, rest);
      NextParsed(v, k + 1, item, rest);
      MoreTrees(item, ParseItems(ShowItem(v.items[k + 1], dict) + (ShowItems(v, k + 2) + end), dict).value, it, v.items[k + 1..], dict);
    }
  }

  lemma ItemsUnfold(s: string, dict: bool, item: Node, after: string)
    requires ParseItem(s, dict) == Done(item, after)
    ensures ParseItems(s, dict) == AfterItem(item, after, dict)
  {
    hide ParseItem, AfterItem;
  }

  lemma OneTree(n: Node, it: Item, dict: bool)
    requires IsTreeOfItem(n, it, dict)
    ensures AreTreesOf([n], [it], dict)
  {
    hide IsTreeOfItem;
  }

  lemma MoreTrees(n: Node, ns: seq<Node>, it: Item, items: seq<Item>, dict: bool)
    requires IsTreeOfItem(n, it, dict) && AreTreesOf(ns, items, dict)
    ensures AreTreesOf([n] + ns, [it] + items, dict)
  {
    hide IsTreeOfItem;
  }

  lemma EndStarts(end: string, close: string, rest: string)
    requires AllSpace(end) && (close == "}" || close == "]")
    ensures var s := end + (close + rest); IsAfterNumber(s) && s[0] != ','
  {
    if end != "" {
      assert end[0] in end;
    }
  }

  /** After an item there is a comma, white space or the closing bracket. */
  lemma AfterStarts(v: Gemma, k: nat, rest: string)
    requires IsWritten(v) && v.Group? && 0 < k <= |v.items|
    ensures var after := ShowItems(v, k) + (v.end + ((if v.dict then "}" else "]") + rest));
      IsAfterNumber(after) && (after[0] == ',' <==> k < |v.items|)
  {
    hide ShowFrom, IsItem, AllSpace;
    var end := v.end + ((if v.dict then "}" else "]") + rest);
    EndStarts(v.end, if v.dict then "}" else "]", rest);
    assert k == |v.items| ==> ShowItems(v, k) + end == end;
  }

  lemma ClosingTaken(item: Node, end: string, dict: bool, rest: string)
    requires AllSpace(end)
    ensures Closing([item], SkipSpace(end + ((if dict then "}" else "]") + rest)), dict) == Done([item], rest)
  {
    hide SkipSpace, Literal, AllSpace;
    var close := if dict then "}" else "]";
    SpaceSkipped(end, close + rest);
    WordTaken(close, rest);
  }

  lemma LastParsed(v: Gemma, item: Node, rest: string)
    requires IsWritten(v) && v.Group? && v.items != []
    ensures AfterItem(item, ShowItems(v, |v.items|) + (v.end + ((if v.dict then "}" else "]") + rest)), v.dict) == Done([item], rest)
  {
    hide SkipSpace, ParseItems, IsItem, Closing, ShowItems, AllSpace;
    var after := v.end + ((if v.dict then "}" else "]") + rest);
    AfterStarts(v, |v.items|, rest);
    assert ShowItems(v, |v.items|) + after == after by { NoMoreShown(v); }
    ClosingTaken(item, v.end, v.dict, rest);
  }

  lemma NoMoreShown(v: Gemma)
    requires v.Group?
    ensures ShowItems(v, |v.items|) == ""
  {
  }

  lemma NextParsed(v: Gemma, k: nat, item: Node, rest: string)
    requires IsWritten(v) && v.Group? && 0 < k < |v.items|
    ensures var end := v.end + ((if v.dict then "}" else "]") + rest);
      AfterItem(item, ShowItems(v, k) + end, v.dict) ==
      Prepended(item, ParseItems(ShowItem(v.items[k], v.dict) + (ShowItems(v, k + 1) + end), v.dict))
  {
    hide SkipSpace, ParseItems, ShowItem, ShowItems, Prepended;
    var end := v.end + ((if v.dict then "}" else "]") + rest);
    var it := v.items[k];
    var more := ShowItem(it, v.dict) + (ShowItems(v, k + 1) + end);
    assert ShowItems(v, k) == "," + (it.lead + (ShowItem(it, v.dict) + ShowItems(v, k + 1))) by { ShownNext(v, k); }
    assert ShowItems(v, k) + end == "," + (it.lead + more);
    ItemStarts(it, v.dict);
    SpaceSkipped(it.lead, more);
  }

  lemma ShownNext(v: Gemma, k: nat)
    requires v.Group? && k < |v.items|
    ensures ShowItems(v, k) ==
      (if k > 0 then "," else "") + (v.items[k].lead + (ShowItem(v.items[k], v.dict) + ShowItems(v, k + 1)))
  {
    hide ShowItem;
  }

  /** A list or a dict, from bracket to bracket. */
  lemma {:induction false} GroupParsed(v: Gemma, rest: string)
    requires IsWritten(v) && v.Group?
    ensures IsParsed(ParseGroup(Show(v) + rest, v.dict), v, rest)
    decreases v, |v.items| + 1
  {
    hide ParseGroup, ParseItems, SkipSpace, ShowItem, ShowItems, IsTreeOf, IsTreeOfItem, AreTreesOf, Closing;
    var open, close := if v.dict then "{" else "[", if v.dict then "}" else "]";
    var end := v.end + (close + rest);
    var s := Show(v) + rest;
    assert s == open + (ShowItems(v, 0) + end);
    Seqs.Border(open, ShowItems(v, 0) + end);
    GroupUnfold(s, v.dict);
    BeforeRest(Show(v), rest);
    if v.items == [] {
      EmptyInside(v, rest);
    } else {
      ItemsParsed(v, 0, rest);
      FirstInside(v, rest);
    }
    GroupTree(ParseGroup(s, v.dict).value, v);
  }

  lemma EmptyInside(v: Gemma, rest: string)
    requires IsWritten(v) && v.Group? && v.items == []
    ensures var end := v.end + ((if v.dict then "}" else "]") + rest);
      AreParsed(Inside(SkipSpace(ShowItems(v, 0) + end), v.dict), [], v.dict, rest)
  {
    hide SkipSpace, ParseItems;
    var close := if v.dict then "}" else "]";
    assert ShowItems(v, 0) + (v.end + (close + rest)) == v.end + (close + rest);
    SpaceSkipped(v.end, close + rest);
    WordTaken(close, rest);
  }

  lemma FirstInside(v: Gemma, rest: string)
    requires IsWritten(v) && v.Group? && v.items != []
    ensures var end := v.end + ((if v.dict then "}" else "]") + rest);
      Inside(SkipSpace(ShowItems(v, 0) + end), v.dict) ==
      ParseItems(ShowItem(v.items[0], v.dict) + (ShowItems(v, 1) + end), v.dict)
  {
    hide SkipSpace, ParseItems, ShowItem, ShowItems, Literal;
    var end := v.end + ((if v.dict then "}" else "]") + rest);
    var it := v.items[0];
    var more := ShowItem(it, v.dict) + (ShowItems(v, 1) + end);
    ShownNext(v, 0);
    assert ShowItems(v, 0) + end == it.lead + more;
    ItemStarts(it, v.dict);
    SpaceSkipped(it.lead, more);
    OtherSign(if v.dict then "}" else "]", more);
  }

  /** A dict as Gemma 4 writes it, with anything behind: it is parsed to its end,
      shown as its JSON text, and a JSON reader finds in that what was meant. */
  lemma WrittenIsShown(v: Gemma, rest: string)
    requires IsWritten(v) && v.Group? && v.dict
    ensures var r := ParseDict(Show(v) + rest);
      r.Done? && r.rest == rest && Render(r.value) == AsJson(v) && IsComplete(r.value) && r.value.rule == Dict
    ensures ReadValue(AsJson(v)) == Got(Meant(v), "") && CountAll(START, AsJson(v)) == START
  {
    hide ParseGroup, Show, IsWritten, AsJson, Meant, IsComplete, Render, ReadValue, CountAll;
    GroupParsed(v, rest);
    var n := ParseDict(Show(v) + rest).value;
    DictIsWhole(Show(v) + rest);
    RenderingIsRead(n, "");
    Seqs.AppendNothing(Render(n), "");
    CompleteIsInert(START, n);
  }
}
