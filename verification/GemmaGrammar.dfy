/** The texts the grammar of a Gemma 4 dict takes are those that may be written, and
    no others. */
module GemmaGrammar {
  import Seqs
  import opened Wrappers
  import JsonReader
  import opened Gemma4
  import opened Gemma4Parser
  import opened GemmaWritten
  import ToolCalls
  import opened Gemma4Reply
  import opened GemmaReplies

  /** White space, character by character. */
  lemma SpacesAre(c: char)
    ensures IsSpace(c) <==> c in [' ', '\t', '\n', '\r', 0x0B as char, 0x0C as char]
  {
  }

  /** The text begins with this value, and with something behind that can follow it. */
  predicate Begins(v: Gemma, s: string, rest: string) {
    IsWritten(v) && Follows(v, rest) && s == Show(v) + rest
  }

  predicate BeginsItem(it: Item, dict: bool, s: string, rest: string) {
    IsItem(it, dict) && it.lead == "" && Follows(it.value, rest) && s == ShowItem(it, dict) + rest
  }

  /** The text begins with the items of a list or dict, and what closes it. */
  predicate BeginsItems(v: Gemma, dict: bool, s: string, rest: string) {
    v.Group? && v.dict == dict && IsWritten(v) && s == ShowItems(v, 0) + (v.end + ((if dict then "}" else "]") + rest))
  }

  predicate BeginsSome(v: Gemma, dict: bool, s: string, rest: string) {
    BeginsItems(v, dict, s, rest) && v.items != []
  }

  // Strings, numbers and words

  lemma {:induction false} UntilIsFree(words: seq<string>, s: string)
    ensures IsFreeOf(s[..Until(words, s)], words)
    decreases |s|
  {
    var n := Until(words, s);
    var text := s[..n];
    if n > 0 {
      UntilIsFree(words, s[1..]);
      assert text[1..] == s[1..][..n - 1];
      forall k | 0 <= k < n ensures !Ends(words, text[k..]) {
        if k == 0 {
          NoneHere(words, s, text);
        } else {
          assert text[k..] == text[1..][k - 1..];
        }
      }
    }
  }

  lemma NoneHere(words: seq<string>, s: string, text: string)
    requires !MayEnd(words, s) && text <= s
    ensures !Ends(words, text[0..])
  {
    assert text[0..] == text;
    forall i | 0 <= i < |words| ensures !(words[i] <= text) {
      NotInside(words[i], text, s);
    }
  }

  lemma NotInside(word: string, text: string, s: string)
    requires text <= s && !(word <= s)
    ensures !(word <= text)
  {
  }

  lemma StringBegins(s: string)
    requires ParseString(s).Done?
    ensures exists v :: Begins(v, s, ParseString(s).rest)
  {
    hide Until, IsFreeOf;
    var rest := ParseString(s).rest;
    var inside := s[|DELIMITER|..];
    var t := inside[..Until(DELIMITERS, inside)];
    UntilIsFree(DELIMITERS, inside);
    assert s == DELIMITER + inside;
    assert inside == t + inside[|t|..];
    assert inside[|t|..] == DELIMITER + rest;
    assert s == DELIMITER + (t + DELIMITER) + rest;
    assert Begins(Quote(t), s, rest);
  }

  lemma NumberBegins(s: string)
    requires ParseNumber(s).Done?
    ensures exists v :: Begins(v, s, ParseNumber(s).rest)
  {
    hide NumberScan, JsonReader.IsNumber;
    NumberShrinks(s);
    NumberIs(s);
    NumberEnds(s);
    var rest := NumberScan(s).rest;
    var t := s[..|s| - |rest|];
    assert s == t + rest;
    assert Begins(Plain(t), s, rest);
  }

  lemma NumberEnds(s: string)
    requires NumberScan(s).To?
    ensures var rest := NumberScan(s).rest; |rest| <= |s| && IsAfterNumber(rest) && rest == s[|s| - |rest|..]
  {
    hide Tail, IntegerPart;
    var body := if s != "" && s[0] == '-' then s[1..] else s;
    IntegerTakes(body);
    TailEnds(IntegerPart(body).rest);
  }

  lemma IntegerTakes(s: string)
    ensures IntegerPart(s).To? ==> |IntegerPart(s).rest| <= |s| && IntegerPart(s).rest == s[|s| - |IntegerPart(s).rest|..]
  {
  }

  lemma TailEnds(s: string)
    requires Tail(s).To?
    ensures var rest := Tail(s).rest; |rest| <= |s| && IsAfterNumber(rest) && rest == s[|s| - |rest|..]
  {
    TailTakesSuffix(s);
    hide FractionPart, ExponentPart;
  }

  lemma WordBegins(word: string, s: string)
    requires Literal(word, s).To? && word in ["true", "false", "null"]
    ensures exists v :: Begins(v, s, Literal(word, s).rest)
  {
    hide JsonReader.IsNumber;
    WordIsNoNumber(word);
    assert Begins(Plain(word), s, Literal(word, s).rest);
  }

  lemma WordIsNoNumber(word: string)
    requires word in ["true", "false", "null"]
    ensures !JsonReader.IsNumber(word)
  {
    if JsonReader.IsNumber(word) {
      NumberParsedFirst(word);
    }
  }

  // Items

  /** What is shown of the items from a place on depends on nothing before it. */
  lemma {:induction false} SameShown(v: Gemma, i: nat, w: Gemma, j: nat)
    requires v.Group? && w.Group? && v.dict == w.dict && 0 < i <= |v.items| && 0 < j <= |w.items|
    requires v.items[i..] == w.items[j..]
    ensures ShowItems(v, i) == ShowItems(w, j)
    decreases |v.items| - i
  {
    hide ShowItem;
    assert |v.items| - i == |w.items| - j;
    if i < |v.items| {
      Seqs.DropCons(v.items, i);
      Seqs.DropCons(w.items, j);
      SameShown(v, i + 1, w, j + 1);
    }
  }

  /** A group with one more item in front. */
  function WithFirst(it: Item, v: Gemma): Gemma
    requires v.Group?
  {
    Group(v.dict, [it] + v.items, v.end)
  }

  lemma FirstShown(v: Gemma, k: nat)
    requires v.Group? && k < |v.items|
    ensures ShowItems(v, k) == (if k > 0 then "," else "") + ShowFrom(v, k)
    ensures ShowFrom(v, k) == v.items[k].lead + (ShowItem(v.items[k], v.dict) + ShowItems(v, k + 1))
  {
    hide ShowItem;
  }

  lemma FirstIsWritten(it: Item, v: Gemma)
    requires v.Group? && IsWritten(v) && IsItem(it, v.dict)
    ensures IsWritten(WithFirst(it, v))
  {
    hide AllSpace, IsItem;
    var w := WithFirst(it, v);
    forall i | 0 <= i < |w.items| ensures IsItem(w.items[i], w.dict) {
      if i > 0 {
        assert w.items[i] == v.items[i - 1];
      }
    }
  }

  lemma OneMore(it: Item, v: Gemma)
    requires v.Group?
    ensures ShowItems(WithFirst(it, v), 0) ==
      it.lead + (ShowItem(it, v.dict) + ((if v.items == [] then "" else ",") + ShowItems(v, 0)))
  {
    hide ShowItem, ShowItems, ShowFrom;
    var w := WithFirst(it, v);
    assert w.items[1..] == v.items;
    FirstShown(w, 0);
    Seqs.AppendNothing(ShowFrom(w, 0), "");
    if v.items == [] {
      NoMoreShown(w);
      NoMoreShown(v);
      Seqs.AppendNothing("", "");
    } else {
      Seqs.DropCons(w.items, 1);
      SameShown(w, 2, v, 1);
      FirstShown(w, 1);
      FirstShown(v, 0);
      Seqs.AppendNothing(ShowFrom(v, 0), "");
    }
  }

  lemma NoSpace()
    ensures AllSpace("")
  {
  }

  /** The white space that is skipped. */
  function SpaceOf(s: string): string {
    s[..|s| - |SkipSpace(s)|]
  }

  lemma SpaceIsSpace(s: string)
    ensures AllSpace(SpaceOf(s)) && s == SpaceOf(s) + SkipSpace(s)
  {
    hide AllSpace;
    Seqs.Split(s, |s| - |SkipSpace(s)|);
    OnlySpace(s, |s| - |SkipSpace(s)|);
  }

  lemma {:induction false} OnlySpace(s: string, n: nat)
    requires n + |SkipSpace(s)| == |s|
    ensures AllSpace(s[..n])
    decreases |s|
  {
    hide IsSpace, AllSpace;
    if s != "" && IsSpace(s[0]) {
      OnlySpace(s[1..], n - 1);
      OneSpaceMore(s, n);
    } else {
      NoSpace();
    }
  }

  lemma OneSpaceMore(s: string, n: nat)
    requires 0 < n <= |s| && IsSpace(s[0]) && AllSpace(s[1..][..n - 1])
    ensures AllSpace(s[..n])
  {
    hide IsSpace;
    assert s[..n] == [s[0]] + s[1..][..n - 1];
  }

  lemma {:induction false} NameIsName(s: string)
    ensures var t := s[..NameLength(s)]; ':' !in t && '}' !in t
    decreases |s|
  {
    if s != "" && s[0] != ':' && s[0] != '}' {
      NameIsName(s[1..]);
      assert s[..NameLength(s)] == [s[0]] + s[1..][..NameLength(s[1..])];
    }
  }

  lemma KeyBegins(s: string)
    requires ParseKey(s).Done? && !IsSpace(s[0])
    ensures exists key :: IsKey(key) && s == key + (":" + ParseKey(s).rest)
  {
    hide NameLength;
    NameIsName(s);
    var n := NameLength(s);
    assert IsKey(s[..n]) && s == s[..n] + (":" + s[n + 1..]);
  }

  lemma {:induction false} ValueBegins(s: string)
    requires Alternatives(s).Done?
    ensures exists v :: Begins(v, s, Alternatives(s).rest)
    decreases |s|, 1
  {
    hide Alternatives, Begins, ParseString, ParseNumber, ParseGroup, JsonReader.IsNumber, Literal;
    if s == "" {
      NothingIsString();
    } else {
      AlternativesByFirst(s);
      if s[0] == '<' {
        StringBegins(s);
      } else if s[0] == '{' || s[0] == '[' {
        GroupBegins(s, s[0] == '{');
        var v :| BeginsGroup(v, s[0] == '{', s, Alternatives(s).rest);
      } else if s[0] == 't' || s[0] == 'f' {
        WordBegins(if Literal("true", s).To? then "true" else "false", s);
      } else if s[0] == 'n' {
        WordBegins("null", s);
      } else {
        NumberBegins(s);
      }
    }
  }

  predicate BeginsGroup(v: Gemma, dict: bool, s: string, rest: string) {
    v.Group? && v.dict == dict && Begins(v, s, rest)
  }

  lemma {:induction false} GroupBegins(s: string, dict: bool)
    requires ParseGroup(s, dict).Done?
    ensures exists v :: BeginsGroup(v, dict, s, ParseGroup(s, dict).rest)
    decreases |s|, 0
  {
    hide Inside, SkipSpace, ShowItems, IsWritten, AllSpace, BeginsItems, SpaceOf, ParseGroup;
    GroupOpens(s, dict);
    GroupUnfold(s, dict);
    var rest := ParseGroup(s, dict).rest;
    var inside := s[1..];
    SpaceIsSpace(inside);
    InsideBegins(SkipSpace(inside), dict);
    var v :| BeginsItems(v, dict, SkipSpace(inside), rest);
    SpaceBegins(v, dict, s, SpaceOf(inside), SkipSpace(inside), rest);
  }

  lemma GroupOpens(s: string, dict: bool)
    requires !ParseGroup(s, dict).Failed?
    ensures s == "" || s[0] == if dict then '{' else '['
  {
    hide Inside;
  }

  lemma SpaceBegins(v: Gemma, dict: bool, s: string, gap: string, text: string, rest: string)
    requires BeginsItems(v, dict, text, rest) && AllSpace(gap) && s == (if dict then "{" else "[") + (gap + text)
    ensures exists w :: BeginsGroup(w, dict, s, rest)
  {
    hide ShowItems, IsWritten, AllSpace;
    Gapped(gap, v);
    var w :| IsGapped(w, gap, v);
    GappedBehind(gap, v, w, (if dict then "}" else "]") + rest);
    assert s == Show(w) + rest;
    assert BeginsGroup(w, dict, s, rest);
  }

  /** The same items after white space. */
  predicate IsGapped(w: Gemma, gap: string, v: Gemma)
    requires v.Group?
  {
    w.Group? && w.dict == v.dict && IsWritten(w) && (w.items == [] <==> v.items == []) &&
    ShowItems(w, 0) + w.end == gap + (ShowItems(v, 0) + v.end)
  }

  lemma Gapped(gap: string, v: Gemma)
    requires v.Group? && IsWritten(v) && AllSpace(gap)
    ensures exists w :: IsGapped(w, gap, v)
  {
    hide ShowItem, IsKey, ShowItems, ShowFrom, IsItem;
    if v.items == [] {
      SpaceJoins(gap, v.end);
      var w := Group(v.dict, [], gap + v.end);
      NoMoreShown(v);
      NoMoreShown(w);
      assert IsGapped(w, gap, v);
    } else {
      var it := v.items[0];
      var first := it.(lead := gap + it.lead);
      var w := v.(items := [first] + v.items[1..]);
      assert IsItem(it, v.dict);
      assert IsItem(first, v.dict) by { LongerLead(it, gap, v.dict); }
      assert forall i :: 0 < i < |w.items| ==> w.items[i] == v.items[i];
      SameShown(w, 1, v, 1);
      SameItem(it, gap + it.lead, v.dict);
      FirstShown(v, 0);
      FirstShown(w, 0);
      var more := ShowItem(it, v.dict) + ShowItems(v, 1);
      assert ShowItems(w, 0) + w.end == gap + it.lead + more + v.end;
      assert gap + (ShowItems(v, 0) + v.end) == gap + it.lead + more + v.end;
      assert IsGapped(w, gap, v);
    }
  }

  lemma GappedBehind(gap: string, v: Gemma, w: Gemma, close: string)
    requires v.Group? && IsGapped(w, gap, v)
    ensures gap + (ShowItems(v, 0) + (v.end + close)) == ShowItems(w, 0) + (w.end + close)
  {
    hide ShowItems, IsWritten;
    var a, b := ShowItems(v, 0), ShowItems(w, 0);
    Seqs.Associative(a, v.end, close);
    Seqs.Associative(gap, a + v.end, close);
    Seqs.Associative(b, w.end, close);
  }

  lemma SpaceJoins(a: string, b: string)
    requires AllSpace(a) && AllSpace(b)
    ensures AllSpace(a + b)
  {
  }

  lemma LongerLead(it: Item, gap: string, dict: bool)
    requires IsItem(it, dict) && AllSpace(gap)
    ensures IsItem(it.(lead := gap + it.lead), dict)
  {
    hide IsKey;
    SpaceJoins(gap, it.lead);
  }

  lemma SameItem(it: Item, lead: string, dict: bool)
    ensures ShowItem(it, dict) == ShowItem(it.(lead := lead), dict)
  {
  }

  lemma {:induction false} InsideBegins(s: string, dict: bool)
    requires Inside(s, dict).Done? && (s == "" || !IsSpace(s[0]))
    ensures exists v :: BeginsItems(v, dict, s, Inside(s, dict).rest)
    decreases |s|, 6
  {
    hide ParseItems;
    if Closing([], s, dict).Failed? {
      ItemsBegin(s, dict);
      var v :| BeginsSome(v, dict, s, Inside(s, dict).rest);
    } else {
      ClosingBegins(s, dict);
    }
  }

  lemma ClosingBegins(s: string, dict: bool)
    requires Closing([], s, dict).Done?
    ensures exists v :: BeginsItems(v, dict, s, Closing([], s, dict).rest)
  {
    assert BeginsItems(Group(dict, [], ""), dict, s, Closing([], s, dict).rest);
  }

  lemma {:induction false} ItemBegins(s: string, dict: bool)
    requires ParseItem(s, dict).Done? && (s == "" || !IsSpace(s[0]))
    ensures exists it :: BeginsItem(it, dict, s, ParseItem(s, dict).rest)
    decreases |s|, 4
  {
    hide Alternatives, ParseKey, IsKey, SkipSpace, AllSpace, SpaceOf, ParseValue, Begins;
    var rest := ParseItem(s, dict).rest;
    NoSpace();
    if dict {
      var after := ParseKey(s).rest;
      KeyStartsHere(s);
      KeyBegins(s);
      var key :| IsKey(key) && s == key + (":" + after);
      SpaceIsSpace(after);
      ValueUnfold(SkipSpace(after));
      ValueBegins(SkipSpace(after));
      var v :| Begins(v, SkipSpace(after), rest);
      EntryBegins(key, SpaceOf(after), v, s, SkipSpace(after), rest);
    } else {
      ValueUnfold(s);
      ValueBegins(s);
      var v :| Begins(v, s, rest);
      OnlyValue(v, s, rest);
    }
  }

  lemma ValueUnfold(s: string)
    ensures ParseValue(s).Done? ==> Alternatives(s).Done? && ParseValue(s).rest == Alternatives(s).rest
  {
    hide Alternatives;
  }

  lemma EntryBegins(key: string, gap: string, v: Gemma, s: string, text: string, rest: string)
    requires IsKey(key) && AllSpace(gap) && Begins(v, text, rest) && s == key + (":" + (gap + text))
    ensures exists it :: BeginsItem(it, true, s, rest)
  {
    hide IsKey, Show, IsWritten;
    NoSpace();
    assert s == key + (":" + gap) + Show(v) + rest;
    assert BeginsItem(Item("", key, gap, v), true, s, rest);
  }

  lemma OnlyValue(v: Gemma, s: string, rest: string)
    requires Begins(v, s, rest)
    ensures exists it :: BeginsItem(it, false, s, rest)
  {
    hide Show, IsWritten;
    NoSpace();
    Seqs.AppendNothing(Show(v), "");
    assert BeginsItem(Item("", "", "", v), false, s, rest);
  }

  lemma KeyStartsHere(s: string)
    requires ParseKey(s).Done?
    ensures s != ""
  {
  }

  lemma {:induction false} ItemsBegin(s: string, dict: bool)
    requires ParseItems(s, dict).Done? && (s == "" || !IsSpace(s[0]))
    ensures exists v :: BeginsSome(v, dict, s, ParseItems(s, dict).rest)
    decreases |s|, 5
  {
    hide ParseItem, SkipSpace, Closing, ShowItem, ShowItems, IsItem, AllSpace;
    var item, after := ParseItem(s, dict).value, ParseItem(s, dict).rest;
    ItemBegins(s, dict);
    var it :| BeginsItem(it, dict, s, after);
    var rest := ParseItems(s, dict).rest;
    if after != "" && after[0] == ',' {
      var inside := after[1..];
      var text := SkipSpace(inside);
      assert after == "," + inside;
      SpaceIsSpace(inside);
      ItemsBegin(text, dict);
      var v :| BeginsSome(v, dict, text, rest);
      ListBegins(it, v, inside[..|inside| - |text|], s, inside, text, rest);
    } else {
      LastBegins(it, dict, item, s, after);
    }
  }

  lemma ListBegins(it: Item, v: Gemma, gap: string, s: string, inside: string, text: string, rest: string)
    requires v.Group? && BeginsItem(it, v.dict, s, "," + inside) && inside == gap + text && AllSpace(gap)
    requires BeginsSome(v, v.dict, text, rest)
    ensures exists w :: BeginsSome(w, v.dict, s, rest)
  {
    hide ShowItem, ShowItems, IsItem, AllSpace;
    var close := (if v.dict then "}" else "]") + rest;
    Gapped(gap, v);
    var w :| IsGapped(w, gap, v);
    GappedBehind(gap, v, w, close);
    OneMore(it, w);
    FirstIsWritten(it, w);
    var x := WithFirst(it, w);
    var one, more, last := ShowItem(it, v.dict), ShowItems(w, 0), ShowItems(v, 0);
    assert inside == more + (w.end + close);
    assert s == one + ("," + (more + (w.end + close)));
    assert ShowItems(x, 0) == one + ("," + more);
    assert BeginsSome(x, v.dict, s, rest);
  }

  lemma OneItem(it: Item, dict: bool, gap: string)
    requires IsItem(it, dict) && it.lead == "" && AllSpace(gap)
    ensures var v := Group(dict, [it], gap);
      IsWritten(v) && ShowItems(v, 0) + (v.end + if dict then "}" else "]") == ShowItem(it, dict) + (gap + if dict then "}" else "]")
  {
    hide ShowItem, IsItem, AllSpace;
    var v := Group(dict, [], gap);
    OneMore(it, v);
    FirstIsWritten(it, v);
    NoMoreShown(v);
    assert [it] + [] == [it];
    Seqs.AppendNothing(ShowItem(it, dict), "");
  }

  lemma LastBegins(it: Item, dict: bool, item: Node, s: string, after: string)
    requires BeginsItem(it, dict, s, after) && Closing([item], SkipSpace(after), dict).Done?
    ensures exists v :: BeginsSome(v, dict, s, Closing([item], SkipSpace(after), dict).rest)
  {
    hide ShowItem, IsItem, AllSpace, SkipSpace, ShowItems, Closing, SpaceOf;
    var close, gap, rest := if dict then "}" else "]", SpaceOf(after), Closing([item], SkipSpace(after), dict).rest;
    SpaceIsSpace(after);
    Closed(item, SkipSpace(after), dict);
    OneItem(it, dict, gap);
    var v := Group(dict, [it], gap);
    Seqs.Associative(ShowItem(it, dict), gap + close, rest);
    Seqs.Associative(gap, close, rest);
    Seqs.Associative(ShowItems(v, 0), gap + close, rest);
    assert BeginsSome(v, dict, s, rest);
  }

  lemma Closed(item: Node, s: string, dict: bool)
    requires Closing([item], s, dict).Done?
    ensures s == (if dict then "}" else "]") + Closing([item], s, dict).rest
  {
  }

  /** A dict is taken from a text exactly where the text begins with one that may be
      written, and what is left is what follows it. */
  lemma DictExactly(s: string, rest: string)
    ensures ParseDict(s).Done? && ParseDict(s).rest == rest <==> exists v :: BeginsGroup(v, true, s, rest)
  {
    hide ParseGroup, IsWritten, Show;
    if ParseDict(s).Done? {
      GroupBegins(s, true);
    }
    forall v | BeginsGroup(v, true, s, rest) ensures ParseDict(s).Done? && ParseDict(s).rest == rest {
      GroupParsed(v, rest);
    }
  }

  // Texts that have not come to their end

  /** The text is a beginning of this value as it may be written. */
  predicate Becomes(v: Gemma, s: string) {
    IsWritten(v) && s <= Show(v)
  }

  predicate BecomesItem(it: Item, dict: bool, s: string) {
    IsItem(it, dict) && it.lead == "" && s <= ShowItem(it, dict)
  }

  predicate BecomesItems(v: Gemma, dict: bool, s: string) {
    v.Group? && v.dict == dict && IsWritten(v) && s <= ShowItems(v, 0) + (v.end + if dict then "}" else "]")
  }

  predicate BecomesSome(v: Gemma, dict: bool, s: string) {
    BecomesItems(v, dict, s) && v.items != []
  }

  predicate BecomesGroup(v: Gemma, dict: bool, s: string) {
    v.Group? && v.dict == dict && Becomes(v, s)
  }

  lemma StringBecomes(s: string)
    requires ParseString(s).More?
    ensures exists v :: Becomes(v, s)
  {
    hide Until, IsFreeOf;
    if Literal(DELIMITER, s).Open? {
      NothingFree();
      assert Show(Quote("")) == DELIMITER + DELIMITER;
      assert Becomes(Quote(""), s);
    } else {
      var inside := s[|DELIMITER|..];
      var n := Until(DELIMITERS, inside);
      UntilIsFree(DELIMITERS, inside);
      assert s == DELIMITER + (inside[..n] + inside[n..]);
      assert inside[n..] <= DELIMITER;
      assert Becomes(Quote(inside[..n]), s);
    }
  }

  lemma NothingFree()
    ensures IsFreeOf("", DELIMITERS)
  {
  }

  lemma ExponentOpen(s: string)
    requires ExponentPart(s).Open?
    ensures JsonReader.IsExponent(s + "0")
  {
    var t := s + "0";
    var digits := if |s| > 1 && (s[1] == '+' || s[1] == '-') then s[2..] else s[1..];
    assert digits == "";
    assert |s| <= 2 && (|s| == 2 ==> t[1] == s[1] && t[2..] == "0") && (|s| == 1 ==> t[1..] == "0");
    OneDigit();
  }

  lemma OneDigit()
    ensures JsonReader.DigitCount("0") == 1
  {
  }

  lemma ExponentWhole(s: string)
    requires ExponentPart(s) == To("")
    ensures JsonReader.IsExponent(s)
  {
  }

  lemma FractionOpen(s: string)
    requires Tail(s).Open?
    ensures JsonReader.IsFraction(s) || JsonReader.IsFraction(s + "0")
  {
    hide ExponentPart, JsonReader.IsExponent, JsonReader.DigitCount;
    if s != "" && s[0] == '.' {
      var n := JsonReader.DigitCount(s[1..]);
      if s[1..] == "" {
        assert s + "0" == ".0";
        OneDigit();
        NoExponent();
        assert "0"[1..] == "";
      } else {
        DotOpen(s, n);
      }
    } else {
      AtExponent(s);
      assert s != "" ==> (s + "0")[0] == s[0];
    }
  }

  lemma NoExponent()
    ensures JsonReader.IsExponent("")
  {
  }

  /** After a complete fraction: an exponent that is whole, or one digit short. */
  lemma AtExponent(s: string)
    requires var e := ExponentPart(s); e.Open? || (e.To? && NotContinued(e.rest).Open?)
    ensures JsonReader.IsExponent(s) || (JsonReader.IsExponent(s + "0") && s != "" && s[0] != '.')
  {
    if ExponentPart(s).Open? {
      ExponentOpen(s);
    } else {
      ExponentWhole(s);
    }
  }

  lemma DotOpen(s: string, n: nat)
    requires s != "" && s[0] == '.' && s[1..] != "" && n == JsonReader.DigitCount(s[1..]) && Tail(s).Open?
    ensures JsonReader.IsFraction(s) || JsonReader.IsFraction(s + "0")
  {
    hide ExponentPart, JsonReader.IsExponent;
    DotIsNoExponent(s);
    assert JsonReader.IsDigit(s[1]);
    var e := s[1..][n..];
    AtExponent(e);
    if !JsonReader.IsExponent(e) {
      var t := s + "0";
      assert t[1..] == s[1..] + "0";
      assert t[1..] == s[1..][..n] + (e + "0");
      AfterDigits(s[1..], "0");
      assert t[1..][n..] == e + "0";
    }
  }

  lemma DotIsNoExponent(s: string)
    requires s != "" && s[0] == '.'
    ensures ExponentPart(s) == To(s) && NotContinued(s).Stuck?
  {
  }

  /** A digit behind something that is no digit adds nothing to the digits in front. */
  lemma {:induction false} AfterDigits(s: string, more: string)
    requires JsonReader.DigitCount(s) < |s|
    ensures JsonReader.DigitCount(s + more) == JsonReader.DigitCount(s)
    decreases |s|
  {
    Seqs.FirstOfAppend(s, more);
    if JsonReader.IsDigit(s[0]) {
      AfterDigits(s[1..], more);
    }
  }

  lemma UnsignedOpen(s: string)
    requires IntegerPart(s).To? && Tail(IntegerPart(s).rest).Open?
    ensures JsonReader.IsUnsigned(s) || JsonReader.IsUnsigned(s + "0")
  {
    hide Tail, JsonReader.IsFraction;
    var n := JsonReader.DigitCount(s);
    var f := IntegerPart(s).rest;
    FractionOpen(f);
    Integer(s, n);
    if !JsonReader.IsFraction(f) {
      FractionStarts(f);
      assert n < |s| by { assert f != ""; }
      AfterDigits(s, "0");
      assert (s + "0")[n..] == f + "0";
    }
  }

  /** An integer stops where its digits do, but a zero stops at once. */
  lemma Integer(s: string, n: nat)
    requires n == JsonReader.DigitCount(s) && IntegerPart(s).To? && Tail(IntegerPart(s).rest).Open?
    ensures 0 < n <= |s| && (s[0] == '0' ==> n == 1) && IntegerPart(s).rest == s[n..]
  {
    if s[0] == '0' && s[1..] != "" {
      assert !JsonReader.IsDigit(s[1]);
    }
    if s[0] != '0' {
      assert s[1..][JsonReader.DigitCount(s[1..])..] == s[n..];
    }
  }

  lemma FractionStarts(f: string)
    requires Tail(f).Open? && !JsonReader.IsFraction(f)
    ensures f != ""
  {
    NoExponent();
  }

  lemma NumberBecomes(s: string)
    requires ParseNumber(s).More?
    ensures exists v :: Becomes(v, s)
  {
    hide Tail, IntegerPart, JsonReader.IsUnsigned;
    NumberShrinks(s);
    var body := if s != "" && s[0] == '-' then s[1..] else s;
    var whole := s + "0";
    if IntegerPart(body).To? {
      UnsignedOpen(body);
      assert whole == (if s != "" && s[0] == '-' then "-" else "") + (body + "0");
    } else {
      JustDigit(s, body);
    }
    if JsonReader.IsNumber(s) {
      assert Becomes(Plain(s), s);
    } else {
      assert s != "" ==> whole[0] == s[0] && whole[1..] == s[1..] + "0";
      assert Becomes(Plain(whole), s);
    }
  }

  lemma JustDigit(s: string, body: string)
    requires body == (if s != "" && s[0] == '-' then s[1..] else s) && IntegerPart(body).Open?
    ensures body == "" && JsonReader.IsNumber(s + "0")
  {
    OneDigit();
    NoExponent();
    assert s + "0" == "-0" || s + "0" == "0";
    assert "-0"[1..] == "0" && "0"[1..] == "";
  }

  lemma WordBecomes(word: string, s: string)
    requires s <= word && word in ["true", "false", "null"]
    ensures exists v :: Becomes(v, s)
  {
    hide JsonReader.IsNumber;
    assert Becomes(Plain(word), s);
  }

  lemma {:induction false} ValueBecomes(s: string)
    requires Alternatives(s).More?
    ensures exists v :: Becomes(v, s)
    decreases |s|, 1
  {
    hide Alternatives, Becomes, ParseString, ParseNumber, ParseGroup, Literal;
    if s == "" {
      NothingBecomes();
    } else {
      AlternativesByFirst(s);
      if s[0] == '<' {
        StringBecomes(s);
      } else if s[0] == '{' || s[0] == '[' {
        GroupBecomes(s, s[0] == '{');
        var v :| BecomesGroup(v, s[0] == '{', s);
      } else if s[0] == 't' || s[0] == 'f' {
        WordOpen(s);
        WordBecomes(if s <= "true" then "true" else "false", s);
      } else if s[0] == 'n' {
        assert s <= "null" by { NullOpen(s); }
        WordBecomes("null", s);
      } else {
        NumberBecomes(s);
      }
    }
  }

  lemma NothingBecomes()
    ensures Becomes(Quote(""), "")
  {
    NothingFree();
  }

  lemma WordOpen(s: string)
    requires ParseBool(s).More?
    ensures s <= "true" || s <= "false"
  {
  }

  lemma NullOpen(s: string)
    requires ParseNull(s).More?
    ensures s <= "null"
  {
  }

  lemma {:induction false} GroupBecomes(s: string, dict: bool)
    requires ParseGroup(s, dict).More?
    ensures exists v :: BecomesGroup(v, dict, s)
    decreases |s|, 0
  {
    hide Inside, SkipSpace, ShowItems, IsWritten, AllSpace, BecomesItems, SpaceOf, ParseGroup;
    GroupOpens(s, dict);
    if s == "" {
      EmptyGroup(dict);
    } else {
      GroupUnfold(s, dict);
      var inside := s[1..];
      SpaceIsSpace(inside);
      InsideBecomes(SkipSpace(inside), dict);
      var v :| BecomesItems(v, dict, SkipSpace(inside));
      SpaceBecomes(v, dict, s, SpaceOf(inside), SkipSpace(inside));
    }
  }

  lemma EmptyGroup(dict: bool)
    ensures BecomesGroup(Group(dict, [], ""), dict, "") && BecomesItems(Group(dict, [], ""), dict, "")
  {
    NoSpace();
  }

  lemma SpaceBecomes(v: Gemma, dict: bool, s: string, gap: string, text: string)
    requires BecomesItems(v, dict, text) && AllSpace(gap) && s == (if dict then "{" else "[") + (gap + text)
    ensures exists w :: BecomesGroup(w, dict, s)
  {
    hide ShowItems, IsWritten, AllSpace;
    Gapped(gap, v);
    var w :| IsGapped(w, gap, v);
    var close := if dict then "}" else "]";
    GappedBehind(gap, v, w, close);
    PrefixBehind(gap, text, ShowItems(v, 0) + (v.end + close));
    PrefixBehind(if dict then "{" else "[", gap + text, ShowItems(w, 0) + (w.end + close));
    assert BecomesGroup(w, dict, s);
  }

  lemma PrefixBehind(a: string, b: string, c: string)
    requires b <= c
    ensures a + b <= a + c
  {
  }

  lemma {:induction false} InsideBecomes(s: string, dict: bool)
    requires Inside(s, dict).More? && (s == "" || !IsSpace(s[0]))
    ensures exists v :: BecomesItems(v, dict, s)
    decreases |s|, 6
  {
    hide ParseItems, BecomesItems;
    if Closing([], s, dict).Failed? {
      ItemsBecome(s, dict);
      var v :| BecomesSome(v, dict, s);
    } else {
      assert s == "";
      EmptyGroup(dict);
    }
  }

  lemma {:induction false} ItemBecomes(s: string, dict: bool)
    requires ParseItem(s, dict).More? && (s == "" || !IsSpace(s[0]))
    ensures exists it :: BecomesItem(it, dict, s)
    decreases |s|, 4
  {
    hide Alternatives, ParseKey, IsKey, SkipSpace, AllSpace, SpaceOf, ParseValue, Becomes;
    NoSpace();
    if dict && ParseKey(s).More? {
      KeyBecomes(s);
    } else if dict {
      var after := ParseKey(s).rest;
      KeyStartsHere(s);
      KeyBegins(s);
      var key :| IsKey(key) && s == key + (":" + after);
      SpaceIsSpace(after);
      ValueUnderWay(SkipSpace(after));
      ValueBecomes(SkipSpace(after));
      var v :| Becomes(v, SkipSpace(after));
      EntryBecomes(key, SpaceOf(after), v, s, SkipSpace(after));
    } else {
      ValueUnderWay(s);
      ValueBecomes(s);
      var v :| Becomes(v, s);
      OnlyValueBecomes(v, s);
    }
  }

  lemma ValueUnderWay(s: string)
    ensures ParseValue(s).More? ==> Alternatives(s).More?
  {
    hide Alternatives;
  }

  lemma KeyBecomes(s: string)
    requires ParseKey(s).More? && (s == "" || !IsSpace(s[0]))
    ensures exists it :: BecomesItem(it, true, s)
  {
    hide NameLength, Show;
    NameIsName(s);
    NothingBecomes();
    NoSpace();
    assert s[..|s|] == s;
    var it := Item("", if s == "" then "k" else s, "", Quote(""));
    assert IsKey(it.key);
    assert BecomesItem(it, true, s);
  }

  lemma EntryBecomes(key: string, gap: string, v: Gemma, s: string, text: string)
    requires IsKey(key) && AllSpace(gap) && Becomes(v, text) && s == key + (":" + (gap + text))
    ensures exists it :: BecomesItem(it, true, s)
  {
    hide IsKey, Show, IsWritten;
    NoSpace();
    var it := Item("", key, gap, v);
    PrefixBehind(key + (":" + gap), text, Show(v));
    assert s == key + (":" + gap) + text;
    assert BecomesItem(it, true, s);
  }

  lemma OnlyValueBecomes(v: Gemma, s: string)
    requires Becomes(v, s)
    ensures exists it :: BecomesItem(it, false, s)
  {
    hide Show, IsWritten;
    NoSpace();
    Seqs.AppendNothing(Show(v), "");
    assert BecomesItem(Item("", "", "", v), false, s);
  }

  lemma {:induction false} ItemsBecome(s: string, dict: bool)
    requires ParseItems(s, dict).More? && (s == "" || !IsSpace(s[0]))
    ensures exists v :: BecomesSome(v, dict, s)
    decreases |s|, 5
  {
    hide ParseItem, SkipSpace, Closing, ShowItem, ShowItems, IsItem, AllSpace, BecomesItem, BeginsItem, SpaceOf;
    var item := ParseItem(s, dict);
    if item.More? {
      ItemBecomes(s, dict);
      var it :| BecomesItem(it, dict, s);
      OnlyItem(it, dict, s);
    } else {
      ItemBegins(s, dict);
      var it :| BeginsItem(it, dict, s, item.rest);
      if item.rest != "" && item.rest[0] == ',' {
        var inside := item.rest[1..];
        assert item.rest == "," + inside;
        SpaceIsSpace(inside);
        ItemsBecome(SkipSpace(inside), dict);
        var v :| BecomesSome(v, dict, SkipSpace(inside));
        ListBecomes(it, v, SpaceOf(inside), s, inside, SkipSpace(inside));
      } else {
        LastBecomes(it, dict, item.value, s, item.rest);
      }
    }
  }

  lemma OnlyItem(it: Item, dict: bool, s: string)
    requires BecomesItem(it, dict, s)
    ensures exists v :: BecomesSome(v, dict, s)
  {
    hide ShowItem, IsItem, ShowItems;
    NoSpace();
    OneItem(it, dict, "");
    assert BecomesSome(Group(dict, [it], ""), dict, s);
  }

  lemma LastBecomes(it: Item, dict: bool, item: Node, s: string, after: string)
    requires BeginsItem(it, dict, s, after) && Closing([item], SkipSpace(after), dict).More?
    ensures exists v :: BecomesSome(v, dict, s)
  {
    hide ShowItem, IsItem, ShowItems, AllSpace, SkipSpace;
    SpaceIsSpace(after);
    assert SkipSpace(after) == "";
    Seqs.AppendNothing(SpaceOf(after), "");
    OneItem(it, dict, after);
    PrefixBehind(ShowItem(it, dict), after, after + if dict then "}" else "]");
    assert BecomesSome(Group(dict, [it], after), dict, s);
  }

  lemma ListBecomes(it: Item, v: Gemma, gap: string, s: string, inside: string, text: string)
    requires v.Group? && BeginsItem(it, v.dict, s, "," + inside) && inside == gap + text && AllSpace(gap)
    requires BecomesSome(v, v.dict, text)
    ensures exists w :: BecomesSome(w, v.dict, s)
  {
    hide ShowItem, ShowItems, IsItem, AllSpace;
    var close := if v.dict then "}" else "]";
    Gapped(gap, v);
    var w :| IsGapped(w, gap, v);
    OneMore(it, w);
    FirstIsWritten(it, w);
    var x := WithFirst(it, w);
    var one, more, last := ShowItem(it, v.dict), ShowItems(w, 0), ShowItems(v, 0);
    GappedBehind(gap, v, w, close);
    PrefixBehind(gap, text, last + (v.end + close));
    PrefixBehind(one + ",", inside, more + (w.end + close));
    assert s == one + "," + inside;
    assert ShowItems(x, 0) + (x.end + close) == one + "," + (more + (w.end + close));
    assert BecomesSome(x, v.dict, s);
  }

  /** What the parser makes of a text, by the dicts that may be written and nothing
      else: it takes one that is there, it asks for more exactly when more can make
      it one, and it rejects the others. */
  lemma DictsExactly(s: string)
    ensures ParseDict(s).Done? <==> exists v, rest :: BeginsGroup(v, true, s, rest)
    ensures ParseDict(s).More? <==> (exists v :: BecomesGroup(v, true, s)) && forall v, rest :: !BeginsGroup(v, true, s, rest)
  {
    hide ParseGroup, IsWritten, Show;
    if ParseDict(s).Done? {
      DictExactly(s, ParseDict(s).rest);
    }
    forall v, rest | BeginsGroup(v, true, s, rest) ensures ParseDict(s).Done? {
      DictExactly(s, rest);
    }
    if ParseDict(s).More? {
      GroupBecomes(s, true);
    }
    forall v | BecomesGroup(v, true, s) ensures !ParseDict(s).Failed? {
      var u := Show(v)[|s|..];
      assert Show(v) == s + u;
      Seqs.AppendNothing(Show(v), "");
      assert BeginsGroup(v, true, Show(v), "");
      DictExactly(Show(v), "");
      SuccessiveParses(s, Show(v));
    }
  }

  // Calls

  /** The text begins with a call of one of the tools. */
  predicate BeginsCall(c: Called, names: seq<string>, s: string, rest: string) {
    IsCalled(c, names) && s == ShowCall(c) + rest
  }

  lemma {:induction false} SomeTool(names: seq<string>, s: string)
    requires AnyTool(names, s).Done?
    ensures exists name :: name in names && NamedTool(name, s) == AnyTool(names, s)
    decreases |names|
  {
    hide NamedTool;
    if NamedTool(names[0], s).Failed? {
      SomeTool(names[1..], s);
      var name :| name in names[1..] && NamedTool(name, s) == AnyTool(names[1..], s);
      assert name in names;
    } else {
      assert names[0] in names;
    }
  }

  predicate BeginsTool(v: Gemma, name: string, s: string, rest: string) {
    v.Group? && v.dict && IsWritten(v) && s == name + (Show(v) + rest)
  }

  lemma ToolBegins(name: string, s: string)
    requires NamedTool(name, s).Done?
    ensures exists v :: BeginsTool(v, name, s, NamedTool(name, s).rest)
  {
    hide ParseDict, IsWritten, Show, WholeTool;
    var after := s[|name|..];
    var rest := NamedTool(name, s).rest;
    DictExactly(after, rest);
    var v :| BeginsGroup(v, true, after, rest);
    assert s == name + after;
    assert BeginsTool(v, name, s, rest);
  }

  lemma CallBegins(g: Grammar, s: string)
    requires Call(g, s).Done?
    ensures exists c :: BeginsCall(c, g.names, s, Call(g, s).rest)
  {
    hide AnyTool, NamedTool, IsWritten, Show;
    var inside := s[|CALL_OPEN|..];
    assert s == CALL_OPEN + inside;
    SomeTool(g.names, inside);
    var name :| name in g.names && NamedTool(name, inside) == AnyTool(g.names, inside);
    ToolBegins(name, inside);
    var v :| BeginsTool(v, name, inside, NamedTool(name, inside).rest);
    WholeCall(g, Called(name, v), s, inside, NamedTool(name, inside).rest);
  }

  lemma WholeCall(g: Grammar, c: Called, s: string, inside: string, after: string)
    requires c.name in g.names && BeginsTool(c.args, c.name, inside, after) && s == CALL_OPEN + inside && Literal(CALL_CLOSE, after).To?
    ensures BeginsCall(c, g.names, s, Literal(CALL_CLOSE, after).rest)
  {
    hide IsWritten, Show;
    var rest := Literal(CALL_CLOSE, after).rest;
    assert after == CALL_CLOSE + rest;
    assert ShowCall(c) + rest == CALL_OPEN + (c.name + (Show(c.args) + (CALL_CLOSE + rest)));
  }

  /** A call is taken exactly where one is written, with one of the names, a dict
      and its end. */
  lemma CallExactly(g: Grammar, s: string, rest: string)
    requires NamesFit(g.names)
    ensures Call(g, s).Done? && Call(g, s).rest == rest <==> exists c :: BeginsCall(c, g.names, s, rest)
  {
    hide Call, IsCalled, ShowCall;
    if Call(g, s).Done? {
      CallBegins(g, s);
    }
    forall c | BeginsCall(c, g.names, s, rest) ensures Call(g, s).Done? && Call(g, s).rest == rest {
      CallRead(g, c, rest, ToolCalls.EMPTY_MESSAGE);
    }
  }
}
