/** Values of Gemma 4 that are still being written: what has come of them is shown,
    all but the beginning of a delimiter. */
module GemmaCuts {
  import Seqs
  import opened Wrappers
  import opened JsonText
  import opened JsonReader
  import opened Gemma4
  import opened GemmaMeaning
  import opened Gemma4Parser
  import opened GemmaWritten

  /** Cut inside a text, a number or word, a key, or inside the last item of a list
      or dict; the items before are whole, each with its comma. */
  datatype Cut =
    | OpenQuote(text: string)
    | OpenPlain(text: string)
    | OpenKey(items: seq<Item>, lead: string, key: string)
    | OpenGroup(dict: bool, items: seq<Item>, lead: string, key: string, gap: string, inside: Cut)

  /** Nowhere a word begins, or may begin once more has come. */
  predicate IsSettled(text: string, words: seq<string>) {
    forall k :: 0 <= k < |text| ==> !MayEnd(words, text[k..])
  }

  predicate AreItems(items: seq<Item>, dict: bool) {
    forall i :: 0 <= i < |items| ==> IsItem(items[i], dict)
  }

  predicate IsCut(c: Cut)
    decreases c
  {
    match c
    case OpenQuote(t) => IsSettled(t, DELIMITERS)
    case OpenPlain(t) => t != "" && (IsNumber(t) || t < "true" || t < "false" || t < "null")
    case OpenKey(items, lead, key) => AreItems(items, true) && AllSpace(lead) && IsKey(key)
    case OpenGroup(dict, items, lead, key, gap, inside) =>
      AreItems(items, dict) && AllSpace(lead) && (dict ==> IsKey(key) && AllSpace(gap)) && IsCut(inside)
  }

  function ShowBefore(items: seq<Item>, dict: bool): string {
    if items == [] then "" else items[0].lead + (ShowItem(items[0], dict) + ("," + ShowBefore(items[1..], dict)))
  }

  function ShowCut(c: Cut): string {
    match c
    case OpenQuote(t) => DELIMITER + t
    case OpenPlain(t) => t
    case OpenKey(items, lead, key) => "{" + (ShowBefore(items, true) + (lead + key))
    case OpenGroup(dict, items, lead, _, _, _) => (if dict then "{" else "[") + (ShowBefore(items, dict) + (lead + ShowLast(c)))
  }

  /** The item that is being written. */
  function ShowLast(c: Cut): string
    requires c.OpenGroup?
    decreases c, 0
  {
    (if c.dict then c.key + (":" + c.gap) else "") + ShowCut(c.inside)
  }

  function BeforeAsJson(items: seq<Item>, dict: bool): string {
    if items == [] then "" else ItemAsJson(items[0], dict) + ("," + BeforeAsJson(items[1..], dict))
  }

  /** The JSON text as far as it goes. */
  function CutAsJson(c: Cut): string {
    match c
    case OpenQuote(t) => "\"" + Escape(t)
    case OpenPlain(t) => t
    case OpenKey(items, _, key) => "{" + (BeforeAsJson(items, true) + ("\"" + Escape(key)))
    case OpenGroup(dict, items, _, key, _, inside) =>
      (if dict then "{" else "[") + (BeforeAsJson(items, dict) + ((if dict then "\"" + (Escape(key) + "\":") else "") + CutAsJson(inside)))
  }

  /** Settled text at the end of the input is taken whole. */
  lemma {:induction false} SettledTaken(text: string, words: seq<string>)
    requires IsSettled(text, words)
    ensures Until(words, text) == |text|
    decreases |text|
  {
    hide MayEnd;
    if text != "" {
      assert text[0..] == text;
      forall k | 0 <= k < |text| - 1 ensures !MayEnd(words, text[1..][k..]) {
        assert text[1..][k..] == text[k + 1..];
      }
      SettledTaken(text[1..], words);
    } else {
      assert MayEnd(words, "") by { NothingMayEnd(words); }
    }
  }

  lemma NothingMayEnd(words: seq<string>)
    ensures MayEnd(words, "")
  {
  }

  predicate IsOpen(r: Parsed<Node>, shown: string) {
    r.More? && Render(r.value) == shown && r.value.text != ""
  }

  lemma QuoteOpen(t: string)
    requires IsSettled(t, DELIMITERS)
    ensures IsOpen(ParseString(DELIMITER + t), "\"" + Escape(t))
  {
    hide Until, IsSettled, Escape;
    WordTaken(DELIMITER, t);
    SettledTaken(t, DELIMITERS);
    assert t[..|t|] == t && t[|t|..] == "";
    var s := DELIMITER + t;
    var content := Node(StringContent, NoTag, t, [], true);
    assert ParseString(s) == MoreNode(String, s, [content]);
    assert Render(content) == Escape(t) by { NothingEscaped(); }
    Seqs.AppendNothing(Escape(t), "");
  }

  lemma PlainOpen(t: string)
    requires t != "" && (IsNumber(t) || t < "true" || t < "false" || t < "null")
    ensures IsOpen(Alternatives(t), t)
  {
    hide NumberScan, IsNumber, ParseString, ParseGroup, WordScan;
    if IsNumber(t) {
      NumberParsed(t, "");
      Seqs.AppendNothing(t, "");
    } else if t < "null" {
      assert t[0] == 'n';
    } else {
      assert WordScan("true", "false", t).Open? by { WordOpen(t); }
      assert t[0] == 't' || t[0] == 'f';
    }
    AlternativesByFirst(t);
    assert t[..|t|] == t;
  }

  lemma WordOpen(t: string)
    requires t != "" && (t < "true" || t < "false")
    ensures WordScan("true", "false", t).Open?
  {
    if t < "false" {
      assert t[0] == 'f';
      OtherSign("true", t);
    }
  }

  lemma ValueOpen(s: string, shown: string)
    requires IsOpen(Alternatives(s), shown) && s != ""
    ensures IsOpen(ParseValue(s), shown)
  {
    hide Alternatives;
    assert s[..|s|] == s;
  }

  lemma EntryOpen(key: string, gap: string, s: string, shown: string)
    requires IsKey(key) && AllSpace(gap) && s != "" && !IsSpace(s[0]) && IsOpen(ParseValue(s), shown)
    ensures IsOpen(ParseKv(key + (":" + gap) + s), "\"" + (Escape(key) + "\":") + shown)
  {
    hide ParseKey, ParseValue, SkipSpace, Render, Escape, IsKey;
    var text := key + (":" + gap) + s;
    assert text == key + (":" + (gap + s));
    KeyParsed(key, gap + s);
    SpaceSkipped(gap, s);
    var value := ParseValue(s).value;
    var kv := MoreNode(DictKv, text, [KeyNode(key), value]);
    assert ParseKv(text) == kv;
    assert text[..|text|] == text;
    TwoRendered(kv.value);
    assert IsComplete(KeyNode(key)) by { assert key + ":" != ""; }
    KeyRendered(KeyNode(key));
  }

  lemma {:induction false} NameOpen(key: string)
    requires ':' !in key && '}' !in key
    ensures NameLength(key) == |key|
    decreases |key|
  {
    if key != "" {
      assert key[0] in key;
      NameOpen(key[1..]);
    }
  }

  lemma KeyOpen(key: string)
    requires IsKey(key)
    ensures IsOpen(ParseKv(key), "\"" + Escape(key))
  {
    hide NameLength, Escape;
    NameOpen(key);
    assert key[..|key|] == key;
    var name := Node(DictKeyName, NoTag, key, [], false);
    var node := MoreNode(DictKey, key, [name]);
    assert ParseKey(key) == node;
    assert Render(name) == key;
    Seqs.AppendNothing(Escape(key), "");
    assert Render(node.value) == "\"" + Escape(key);
    var kv := MoreNode(DictKv, key, [node.value]);
    assert ParseKv(key) == kv;
    OneRendered(kv.value);
  }

  lemma OneRendered(n: Node)
    requires n.rule.DictKv? && n.text != "" && |n.children| == 1
    ensures Render(n) == Render(n.children[0])
  {
    assert RenderFrom(n, 1, "") == "";
    Seqs.AppendNothing(Render(n.children[0]), "");
    assert Render(n) == RenderFrom(n, 0, "");
  }

  /** Trees of whole items, and then one that is not whole. */
  predicate EndsOpen(r: Parsed<seq<Node>>, items: seq<Item>, dict: bool, last: Node) {
    r.More? && |r.value| == |items| + 1 && AreTreesOf(r.value[..|items|], items, dict) && r.value[|items|] == last
  }

  lemma OneMoreItem(item: Node, r: Parsed<seq<Node>>, it: Item, items: seq<Item>, dict: bool, last: Node)
    requires IsTreeOfItem(item, it, dict) && EndsOpen(r, items, dict, last)
    ensures EndsOpen(Prepended(item, r), [it] + items, dict, last)
  {
    hide IsTreeOfItem, AreTreesOf;
    MoreTrees(item, r.value[..|items|], it, items, dict);
    assert ([item] + r.value)[..|items| + 1] == [item] + r.value[..|items|];
  }

  lemma FirstShown(items: seq<Item>, dict: bool, end: string)
    requires items != []
    ensures ShowBefore(items, dict) + end == items[0].lead + (ShowItem(items[0], dict) + ("," + (ShowBefore(items[1..], dict) + end)))
  {
    hide ShowItem;
  }

  /** Whole items before one that is not. */
  lemma {:induction false} ItemsOpen(items: seq<Item>, dict: bool, end: string, last: string)
    requires AreItems(items, dict) && SkipSpace(end) == last && ParseItem(last, dict).More?
    ensures EndsOpen(ParseItems(SkipSpace(ShowBefore(items, dict) + end), dict), items, dict, ParseItem(last, dict).value)
    decreases |items|
  {
    hide ParseItem, SkipSpace, ShowItem, IsTreeOfItem, IsItem, ParseItems, ShowBefore, EndsOpen;
    if items == [] {
      NoneShown(dict, end);
      LastOpen(last, dict);
      assert EndsOpen(ParseItems(last, dict), items, dict, ParseItem(last, dict).value) by { OnlyOpen(ParseItem(last, dict).value, dict); }
    } else {
      var it, rest := items[0], items[1..];
      var more := ShowBefore(rest, dict) + end;
      assert it in items && AreItems(rest, dict);
      FirstShown(items, dict, end);
      var item := ItemThen(it, dict, more);
      ItemsOpen(rest, dict, end, last);
      OneMoreItem(item, ParseItems(SkipSpace(more), dict), it, rest, dict, ParseItem(last, dict).value);
      assert [it] + rest == items;
    }
  }

  lemma OnlyOpen(n: Node, dict: bool)
    ensures EndsOpen(More([n]), [], dict, n)
  {
  }

  /** Where the first item begins. */
  lemma FirstItem(items: seq<Item>, dict: bool, end: string)
    requires AreItems(items, dict)
    ensures SkipSpace(ShowBefore(items, dict) + end) ==
      if items == [] then SkipSpace(end) else ShowItem(items[0], dict) + ("," + (ShowBefore(items[1..], dict) + end))
  {
    hide SkipSpace, ShowItem, ParseItems, IsItem, ShowBefore;
    if items == [] {
      NoneShown(dict, end);
    } else {
      FirstShown(items, dict, end);
      assert IsItem(items[0], dict);
      var item := ItemThen(items[0], dict, ShowBefore(items[1..], dict) + end);
    }
  }

  /** An item, a comma, and what follows. */
  lemma ItemThen(it: Item, dict: bool, more: string) returns (item: Node)
    requires IsItem(it, dict)
    ensures var text := ShowItem(it, dict) + ("," + more);
      SkipSpace(it.lead + text) == text && IsTreeOfItem(item, it, dict) &&
      ParseItems(text, dict) == Prepended(item, ParseItems(SkipSpace(more), dict))
  {
    hide ParseItem, SkipSpace, ShowItem, IsTreeOfItem, IsItem, ParseItems, AllSpace;
    var text := ShowItem(it, dict) + ("," + more);
    ItemLead(it, dict);
    ItemStarts(it, dict);
    Seqs.Border(ShowItem(it, dict), "," + more);
    SpaceSkipped(it.lead, text);
    ItemParsed(it, dict, "," + more);
    item := ParseItem(text, dict).value;
    ItemsUnfold(text, dict, item, "," + more);
    CommaNext(item, more, dict);
  }

  lemma NoneShown(dict: bool, s: string)
    ensures ShowBefore([], dict) + s == s
  {
  }

  lemma ItemLead(it: Item, dict: bool)
    requires IsItem(it, dict)
    ensures AllSpace(it.lead)
  {
  }

  lemma LastOpen(s: string, dict: bool)
    requires ParseItem(s, dict).More?
    ensures ParseItems(s, dict) == More([ParseItem(s, dict).value])
  {
    hide ParseItem;
  }

  lemma CommaNext(item: Node, more: string, dict: bool)
    ensures AfterItem(item, "," + more, dict) == Prepended(item, ParseItems(SkipSpace(more), dict))
  {
    hide SkipSpace, ParseItems, Prepended;
    assert ("," + more)[1..] == more;
  }

  lemma {:induction false} CutRendered(n: Node, items: seq<Item>, dict: bool, k: nat)
    requires |n.children| == |items| + 1 && AreTreesOf(n.children[..|items|], items, dict) && k <= |items|
    ensures RenderFrom(n, k, ",") ==
      (if k > 0 then "," else "") + (BeforeAsJson(items[k..], dict) + Render(n.children[|items|]))
    decreases |items| - k
  {
    hide Render, IsComplete, EntryOf, Meaning, ItemAsJson, Meant;
    var last := Render(n.children[|items|]);
    if k == |items| {
      assert RenderFrom(n, k + 1, ",") == "";
      Seqs.AppendNothing(last, "");
      Seqs.AppendNothing(last, BeforeAsJson(items[k..], dict));
    } else {
      CutRendered(n, items, dict, k + 1);
      Seqs.DropCons(items, k);
      assert n.children[..|items|][k] == n.children[k];
      assert IsTreeOfItem(n.children[k], items[k], dict);
      Seqs.Associative(",", BeforeAsJson(items[k + 1..], dict), last);
      Seqs.Associative(ItemAsJson(items[k], dict), "," + BeforeAsJson(items[k + 1..], dict), last);
    }
  }

  lemma OpenRendered(n: Node, items: seq<Item>, dict: bool)
    requires |n.children| == |items| + 1 && AreTreesOf(n.children[..|items|], items, dict)
    requires n.rule == (if dict then Dict else Array) && n.text != "" && n.partial
    ensures Render(n) == (if dict then "{" else "[") + (BeforeAsJson(items, dict) + Render(n.children[|items|]))
  {
    hide RenderFrom, BeforeAsJson, AreTreesOf;
    CutRendered(n, items, dict, 0);
    assert items[0..] == items;
    Seqs.AppendNothing(RenderFrom(n, 0, ","), "");
  }

  lemma GroupOpen(items: seq<Item>, dict: bool, lead: string, last: string, shown: string)
    requires AreItems(items, dict) && AllSpace(lead) && IsOpen(ParseItem(last, dict), shown)
    requires last != "" && !IsSpace(last[0]) && last[0] != if dict then '}' else ']'
    ensures IsOpen(ParseGroup((if dict then "{" else "[") + (ShowBefore(items, dict) + (lead + last)), dict),
                   (if dict then "{" else "[") + (BeforeAsJson(items, dict) + shown))
  {
    hide ParseGroup, ParseItems, ParseItem, SkipSpace, ShowBefore, Inside, Render, BeforeAsJson, AreItems, AreTreesOf, ShowItem;
    var open := if dict then "{" else "[";
    var inside := ShowBefore(items, dict) + (lead + last);
    var s := open + inside;
    Seqs.Border(open, inside);
    GroupUnfold(s, dict);
    SpaceSkipped(lead, last);
    ItemsOpen(items, dict, lead + last, last);
    FirstItem(items, dict, lead + last);
    OpenInside(items, dict, lead, last);
    AroundOpen(items, dict, s, ParseItems(SkipSpace(inside), dict), ParseItem(last, dict).value);
  }

  lemma AroundOpen(items: seq<Item>, dict: bool, s: string, r: Parsed<seq<Node>>, last: Node)
    requires EndsOpen(r, items, dict, last) && s != ""
    ensures IsOpen(Around(if dict then Dict else Array, s, r), (if dict then "{" else "[") + (BeforeAsJson(items, dict) + Render(last)))
  {
    hide Render, AreTreesOf, BeforeAsJson;
    var n := MoreNode(if dict then Dict else Array, s, r.value);
    assert s[..|s|] == s;
    OpenRendered(n.value, items, dict);
  }

  lemma OpenInside(items: seq<Item>, dict: bool, lead: string, last: string)
    requires AreItems(items, dict) && last != "" && last[0] != if dict then '}' else ']'
    requires SkipSpace(ShowBefore(items, dict) + (lead + last)) ==
      if items == [] then last else ShowItem(items[0], dict) + ("," + (ShowBefore(items[1..], dict) + (lead + last)))
    ensures var s := SkipSpace(ShowBefore(items, dict) + (lead + last)); Inside(s, dict) == ParseItems(s, dict)
  {
    hide SkipSpace, ParseItems, ShowItem, ShowBefore, Literal, IsItem;
    var s := SkipSpace(ShowBefore(items, dict) + (lead + last));
    if items != [] {
      assert IsItem(items[0], dict);
      ItemStarts(items[0], dict);
    }
    OtherSign(if dict then "}" else "]", s);
  }

  lemma CutStarts(c: Cut)
    requires IsCut(c)
    ensures var s := ShowCut(c); s != "" && !IsSpace(s[0]) && s[0] != ']'
  {
    hide ShowBefore, ShowLast, IsNumber, AreItems, IsSettled;
    if c.OpenPlain? && IsNumber(c.text) {
      NumberParsedFirst(c.text);
    }
  }

  /** As much of a value as has come is shown as JSON. */
  lemma {:induction false} CutIsShown(c: Cut)
    requires IsCut(c)
    ensures IsOpen(Alternatives(ShowCut(c)), CutAsJson(c))
    ensures (c.OpenKey? || (c.OpenGroup? && c.dict)) ==> IsOpen(ParseDict(ShowCut(c)), CutAsJson(c))
    decreases c
  {
    hide Alternatives, ParseGroup, ParseString, ParseKv, ParseValue, Escape, ShowBefore, BeforeAsJson, AreItems, IsSettled, IsNumber, IsKey, Render;
    var s := ShowCut(c);
    CutStarts(c);
    match c
    case OpenQuote(t) =>
      QuoteOpen(t);
      AlternativesByFirst(s);
    case OpenPlain(t) => PlainOpen(t);
    case OpenKey(items, lead, key) =>
      KeyOpen(key);
      assert ParseItem(key, true) == ParseKv(key);
      assert key != "" && !IsSpace(key[0]) && key[0] != '}' by { KeyStarts(key); }
      GroupOpen(items, true, lead, key, "\"" + Escape(key));
      AlternativesByFirst(s);
    case OpenGroup(dict, items, lead, key, gap, inside) =>
      var text := ShowCut(inside);
      CutIsShown(inside);
      CutStarts(inside);
      ValueOpen(text, CutAsJson(inside));
      var last := ShowLast(c);
      if dict {
        EntryOpen(key, gap, text, CutAsJson(inside));
        KeyStarts(key);
        assert last == key + (":" + gap) + text;
        assert ParseItem(last, true) == ParseKv(last);
        GroupOpen(items, true, lead, last, "\"" + (Escape(key) + "\":") + CutAsJson(inside));
      } else {
        assert last == text;
        assert ParseItem(last, false) == ParseValue(last);
        GroupOpen(items, false, lead, last, CutAsJson(inside));
        assert "" + CutAsJson(inside) == CutAsJson(inside);
      }
      AlternativesByFirst(s);
  }

  lemma KeyStarts(key: string)
    requires IsKey(key)
    ensures key != "" && !IsSpace(key[0]) && key[0] != '}'
  {
    assert key[0] in key;
  }
}
