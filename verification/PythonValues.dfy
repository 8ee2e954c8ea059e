/** Whole Python values, lists and dicts of any depth, through the conversion to
    JSON: a JSON reader finds the same value in what comes out, or nothing if a
    double-quoted literal escapes a single quote. */
module PythonValues {
  import Seqs
  import opened Wrappers
  import opened JsonText
  import opened JsonReader
  import opened Quotes

  /** A literal, with the quotes it is written in. */
  datatype Literal = Literal(inside: string, double: bool)

  /** Values with the blanks around them; inner is what an empty list holds. */
  datatype Py =
    | PyText(text: Literal)
    | PyWord(word: string)
    | PyNumber(digits: string)
    | PyList(items: seq<PyItem>, inner: string)
    | PyDict(entries: seq<PyEntry>, inner: string)

  datatype PyItem = PyItem(before: string, value: Py, after: string)

  datatype PyEntry = PyEntry(before: string, key: Literal, afterKey: string, item: PyItem)

  function QuoteOf(t: Literal): char {
    if t.double then QUOTE else '\''
  }

  /** A literal with escapes that Python and JSON share, and \'. */
  predicate IsText(t: Literal) {
    IsInside(t.inside, QuoteOf(t)) && ReadPython(t.inside, QuoteOf(t)).Some?
  }

  predicate IsGap(gap: string) {
    forall c :: c in gap ==> IsBlankChar(c)
  }

  predicate IsPy(v: Py) {
    match v
    case PyText(text) => IsText(text)
    case PyWord(word) => word in {"True", "False", "None"}
    case PyNumber(digits) => IsNumber(digits)
    case PyList(items, inner) => IsGap(inner) && forall i :: 0 <= i < |items| ==> IsItem(items[i])
    case PyDict(entries, inner) => IsGap(inner) && forall i :: 0 <= i < |entries| ==> IsEntry(entries[i])
  }

  predicate IsItem(it: PyItem) {
    IsGap(it.before) && IsPy(it.value) && IsGap(it.after)
  }

  predicate IsEntry(e: PyEntry) {
    IsGap(e.before) && IsText(e.key) && IsGap(e.afterKey) && IsItem(e.item)
  }

  function ShowText(t: Literal, json: bool): string {
    if t.double then [QUOTE] + (t.inside + [QUOTE])
    else if json then [QUOTE] + (Convert(t.inside, Single, false) + [QUOTE])
    else "'" + (t.inside + "'")
  }

  /** The text of a value, as Python or as JSON. */
  function Show(v: Py, json: bool): string
    decreases v, 0
  {
    match v
    case PyText(text) => ShowText(text, json)
    case PyWord(word) => if json then JsonOf(word) else word
    case PyNumber(digits) => digits
    case PyList(items, inner) => "[" + ((if items == [] then inner else ShowItems(v, json, 0)) + "]")
    case PyDict(entries, inner) => "{" + ((if entries == [] then inner else ShowEntries(v, json, 0)) + "}")
  }

  function ShowItem(it: PyItem, json: bool): string
    decreases it, 0
  {
    it.before + (Show(it.value, json) + it.after)
  }

  function ShowItems(v: Py, json: bool, k: nat): string
    requires v.PyList? && k < |v.items|
    decreases v, 0, |v.items| - k
  {
    ShowItem(v.items[k], json) + Follows(k + 1 == |v.items|, if k + 1 == |v.items| then "" else ShowItems(v, json, k + 1))
  }

  function ShowEntry(e: PyEntry, json: bool): string
    decreases e, 0
  {
    e.before + (ShowText(e.key, json) + (e.afterKey + (":" + ShowItem(e.item, json))))
  }

  function ShowEntries(v: Py, json: bool, k: nat): string
    requires v.PyDict? && k < |v.entries|
    decreases v, 0, |v.entries| - k
  {
    ShowEntry(v.entries[k], json) + Follows(k + 1 == |v.entries|, if k + 1 == |v.entries| then "" else ShowEntries(v, json, k + 1))
  }

  /** What follows an item or an entry: nothing, or a comma and the next. */
  function Follows(last: bool, next: string): string {
    if last then "" else "," + next
  }

  /** The text that Python reads in a literal. */
  function TextOf(t: Literal): string
    requires IsText(t)
  {
    ReadPython(t.inside, QuoteOf(t)).value
  }

  /** The value that Python gives the text. */
  function ValueOf(v: Py): Json
    requires IsPy(v)
    decreases v, 0
  {
    match v
    case PyText(text) => Text(TextOf(text))
    case PyWord(word) => Atom(JsonOf(word))
    case PyNumber(digits) => Atom(digits)
    case PyList(items, _) => List(if items == [] then [] else ValuesOf(v, 0))
    case PyDict(entries, _) => Object(if entries == [] then [] else EntriesOf(v, 0))
  }

  function ValuesOf(v: Py, k: nat): seq<Json>
    requires IsPy(v) && v.PyList? && k < |v.items|
    decreases v, 0, |v.items| - k
  {
    assert IsItem(v.items[k]);
    [ValueOf(v.items[k].value)] + if k + 1 == |v.items| then [] else ValuesOf(v, k + 1)
  }

  function PairOf(e: PyEntry): (string, Json)
    requires IsEntry(e)
    decreases e, 0
  {
    assert IsItem(e.item);
    (TextOf(e.key), ValueOf(e.item.value))
  }

  function EntriesOf(v: Py, k: nat): seq<(string, Json)>
    requires IsPy(v) && v.PyDict? && k < |v.entries|
    decreases v, 0, |v.entries| - k
  {
    [PairOf(v.entries[k])] + if k + 1 == |v.entries| then [] else EntriesOf(v, k + 1)
  }

  /** No double-quoted literal escapes a single quote: JSON has no such escape. */
  predicate IsReadable(v: Py)
    decreases v, 0
  {
    match v
    case PyText(text) => IsReadableText(text)
    case PyList(items, _) => items == [] || AreReadable(v, 0)
    case PyDict(entries, _) => entries == [] || AreReadableEntries(v, 0)
    case _ => true
  }

  predicate IsReadableText(t: Literal) {
    t.double ==> !EscapesSingle(t.inside)
  }

  predicate AreReadable(v: Py, k: nat)
    requires v.PyList? && k < |v.items|
    decreases v, 0, |v.items| - k
  {
    IsReadable(v.items[k].value) && (k + 1 == |v.items| || AreReadable(v, k + 1))
  }

  predicate IsReadableEntry(e: PyEntry)
    decreases e, 0
  {
    IsReadableText(e.key) && IsReadable(e.item.value)
  }

  predicate AreReadableEntries(v: Py, k: nat)
    requires v.PyDict? && k < |v.entries|
    decreases v, 0, |v.entries| - k
  {
    IsReadableEntry(v.entries[k]) && (k + 1 == |v.entries| || AreReadableEntries(v, k + 1))
  }

  // The conversion

  predicate EndsWord(rest: string) {
    rest == "" || !IsWordChar(rest[0])
  }

  lemma WordBeforeIsForgotten(rest: string)
    requires EndsWord(rest)
    ensures Convert(rest, Outside, true) == Convert(rest, Outside, false)
  {
    hide IsLiteralPart, LiteralToJson, WordLength;
  }

  /** Punctuation and blanks pass. */
  lemma SignPasses(c: char, rest: string)
    requires c in "[]{},:" || IsBlankChar(c)
    ensures Convert([c] + rest, Outside, false) == [c] + Convert(rest, Outside, false)
  {
    hide IsLiteralPart, LiteralToJson, WordLength;
    Seqs.Border([c], rest);
    assert ([c] + rest)[0] == c && !StartsLiteral(c) && !IsWordChar(c);
  }

  lemma {:induction false} GapPasses(gap: string, rest: string)
    requires IsGap(gap)
    ensures Convert(gap + rest, Outside, false) == gap + Convert(rest, Outside, false)
    ensures EndsWord(rest) ==> EndsWord(gap + rest)
    decreases |gap|
  {
    hide Convert;
    if gap == "" {
      Seqs.AppendNothing(rest, gap);
      Seqs.AppendNothing(Convert(rest, Outside, false), gap);
    } else {
      assert gap[0] in gap;
      Seqs.DropCons(gap, 0);
      Seqs.Associative([gap[0]], gap[1..], rest);
      Seqs.Associative([gap[0]], gap[1..], Convert(rest, Outside, false));
      SignPasses(gap[0], gap[1..] + rest);
      GapPasses(gap[1..], rest);
    }
  }

  lemma {:induction false} NumberPasses(digits: string, rest: string, inWord: bool)
    requires AllIn(digits, "+-.eE") && EndsWord(rest)
    ensures Convert(digits + rest, Outside, inWord) == digits + Convert(rest, Outside, false)
    decreases |digits|
  {
    hide IsLiteralPart, LiteralToJson, WordLength;
    if digits == "" {
      Seqs.AppendNothing(rest, digits);
      Seqs.AppendNothing(Convert(rest, Outside, false), digits);
      WordBeforeIsForgotten(rest);
    } else {
      var c := digits[0];
      assert c in digits && !StartsLiteral(c);
      Seqs.FirstOfAppend(digits, rest);
      assert Convert(digits + rest, Outside, inWord) == [c] + Convert(digits[1..] + rest, Outside, IsWordChar(c));
      NumberPasses(digits[1..], rest, IsWordChar(c));
      Seqs.DropCons(digits, 0);
      Seqs.Associative([c], digits[1..], Convert(rest, Outside, false));
    }
  }

  /** A quote opens a literal and is written as a double quote. */
  lemma QuoteOpens(double: bool, rest: string)
    ensures var q := if double then [QUOTE] else "'";
      Convert(q + rest, Outside, false) == [QUOTE] + Convert(rest, if double then Double else Single, false)
  {
    hide IsLiteralPart, LiteralToJson, WordLength;
    var q := if double then [QUOTE] else "'";
    Seqs.Border(q, rest);
  }

  lemma TextPasses(t: Literal, rest: string)
    requires IsText(t)
    ensures Convert(ShowText(t, false) + rest, Outside, false) == ShowText(t, true) + Convert(rest, Outside, false)
  {
    hide Convert, IsInside, ReadPython;
    var q := if t.double then [QUOTE] else "'";
    var shown := if t.double then t.inside else Convert(t.inside, Single, false);
    Seqs.Associative(q, t.inside + q, rest);
    Seqs.Associative(t.inside, q, rest);
    QuoteOpens(t.double, t.inside + (q + rest));
    if t.double {
      DoublePasses(t.inside, rest);
    } else {
      LiteralConverts(t.inside, rest);
    }
    Seqs.Associative([QUOTE], shown + [QUOTE], Convert(rest, Outside, false));
    Seqs.Associative(shown, [QUOTE], Convert(rest, Outside, false));
  }

  lemma FollowsPasses(last: bool, next: string, converted: string, rest: string)
    requires EndsWord(rest)
    requires !last ==> Convert(next + rest, Outside, false) == converted + Convert(rest, Outside, false)
    ensures EndsWord(Follows(last, next) + rest)
    ensures Convert(Follows(last, next) + rest, Outside, false) == Follows(last, converted) + Convert(rest, Outside, false)
  {
    hide Convert;
    if last {
      Seqs.AppendNothing(rest, "");
      Seqs.AppendNothing(Convert(rest, Outside, false), "");
    } else {
      Seqs.Associative(",", next, rest);
      SignPasses(',', next + rest);
      Seqs.Associative(",", converted, Convert(rest, Outside, false));
    }
  }

  /** Brackets and what is between them. */
  lemma BracketsPass(open: char, close: char, inside: string, converted: string, rest: string)
    requires open in "[{" && close in "]}"
    requires Convert(inside + ([close] + rest), Outside, false) == converted + Convert([close] + rest, Outside, false)
    ensures Convert([open] + (inside + [close]) + rest, Outside, false) ==
      [open] + (converted + [close]) + Convert(rest, Outside, false)
  {
    hide Convert;
    Seqs.Associative([open], inside + [close], rest);
    Seqs.Associative(inside, [close], rest);
    SignPasses(open, inside + ([close] + rest));
    SignPasses(close, rest);
    Seqs.Associative(converted, [close], Convert(rest, Outside, false));
    Seqs.Associative([open], converted + [close], Convert(rest, Outside, false));
  }

  /** The conversion of a Python text is the text of the same value with JSON's
      quotes and words; double-quoted literals and blanks stay as they are. */
  lemma {:induction false} ValuePasses(v: Py, rest: string)
    requires IsPy(v) && EndsWord(rest)
    ensures Convert(Show(v, false) + rest, Outside, false) == Show(v, true) + Convert(rest, Outside, false)
    decreases v, 1
  {
    hide Convert, ShowText, JsonOf, ShowItems, ShowEntries, IsInside, IsLiteralPart, LiteralToJson, WordLength, IsNumber, IsText;
    match v
    case PyText(text) => TextPasses(text, rest);
    case PyWord(word) =>
      LiteralsConvert(word, rest);
      WordBeforeIsForgotten(rest);
    case PyNumber(digits) =>
      NumberIsMadeOf(digits);
      NumberPasses(digits, rest, false);
    case PyList(items, inner) =>
      if items == [] {
        GapPasses(inner, "]" + rest);
        BracketsPass('[', ']', inner, inner, rest);
      } else {
        ItemsPass(v, 0, "]" + rest);
        BracketsPass('[', ']', ShowItems(v, false, 0), ShowItems(v, true, 0), rest);
      }
    case PyDict(entries, inner) =>
      if entries == [] {
        GapPasses(inner, "}" + rest);
        BracketsPass('{', '}', inner, inner, rest);
      } else {
        EntriesPass(v, 0, "}" + rest);
        BracketsPass('{', '}', ShowEntries(v, false, 0), ShowEntries(v, true, 0), rest);
      }
  }

  /** A value with blanks around it. */
  lemma {:induction false} ItemPasses(it: PyItem, rest: string)
    requires IsItem(it) && EndsWord(rest)
    ensures Convert(ShowItem(it, false) + rest, Outside, false) == ShowItem(it, true) + Convert(rest, Outside, false)
    decreases it, 1
  {
    hide Convert, Show;
    var text, shown, done := Show(it.value, false), Show(it.value, true), Convert(rest, Outside, false);
    Seqs.Associative(it.before, text + it.after, rest);
    Seqs.Associative(text, it.after, rest);
    GapPasses(it.before, text + (it.after + rest));
    GapPasses(it.after, rest);
    ValuePasses(it.value, it.after + rest);
    Seqs.Associative(shown, it.after, done);
    Seqs.Associative(it.before, shown + it.after, done);
  }

  lemma {:induction false} ItemsPass(v: Py, k: nat, rest: string)
    requires IsPy(v) && EndsWord(rest) && v.PyList? && k < |v.items|
    ensures Convert(ShowItems(v, false, k) + rest, Outside, false) == ShowItems(v, true, k) + Convert(rest, Outside, false)
    decreases v, 0, |v.items| - k
  {
    hide Convert, ShowItem, IsItem, Follows;
    var last := k + 1 == |v.items|;
    var next, converted := if last then "" else ShowItems(v, false, k + 1), if last then "" else ShowItems(v, true, k + 1);
    if !last {
      ItemsPass(v, k + 1, rest);
    }
    FollowsPasses(last, next, converted, rest);
    ItemPasses(v.items[k], Follows(last, next) + rest);
    Seqs.Associative(ShowItem(v.items[k], false), Follows(last, next), rest);
    Seqs.Associative(ShowItem(v.items[k], true), Follows(last, converted), Convert(rest, Outside, false));
  }

  /** The name of an entry and the colon. */
  lemma NamePasses(e: PyEntry, more: string, converted: string, rest: string)
    requires IsEntry(e) && Convert(more + rest, Outside, false) == converted + Convert(rest, Outside, false)
    ensures Convert(e.before + (ShowText(e.key, false) + (e.afterKey + (":" + more))) + rest, Outside, false) ==
      e.before + (ShowText(e.key, true) + (e.afterKey + (":" + converted))) + Convert(rest, Outside, false)
  {
    hide Convert, ShowText, IsPy, IsText;
    var key, shown, done := ShowText(e.key, false), ShowText(e.key, true), Convert(rest, Outside, false);
    Seqs.Associative(e.before, key + (e.afterKey + (":" + more)), rest);
    Seqs.Associative(key, e.afterKey + (":" + more), rest);
    Seqs.Associative(e.afterKey, ":" + more, rest);
    Seqs.Associative(":", more, rest);
    GapPasses(e.before, key + (e.afterKey + (":" + (more + rest))));
    TextPasses(e.key, e.afterKey + (":" + (more + rest)));
    GapPasses(e.afterKey, ":" + (more + rest));
    SignPasses(':', more + rest);
    Seqs.Associative(":", converted, done);
    Seqs.Associative(e.afterKey, ":" + converted, done);
    Seqs.Associative(shown, e.afterKey + (":" + converted), done);
    Seqs.Associative(e.before, shown + (e.afterKey + (":" + converted)), done);
  }

  lemma {:induction false} EntryPasses(e: PyEntry, rest: string)
    requires IsEntry(e) && EndsWord(rest)
    ensures Convert(ShowEntry(e, false) + rest, Outside, false) == ShowEntry(e, true) + Convert(rest, Outside, false)
    decreases e, 1
  {
    hide Convert, ShowItem, ShowText, IsText;
    ItemPasses(e.item, rest);
    NamePasses(e, ShowItem(e.item, false), ShowItem(e.item, true), rest);
  }

  lemma {:induction false} EntriesPass(v: Py, k: nat, rest: string)
    requires IsPy(v) && EndsWord(rest) && v.PyDict? && k < |v.entries|
    ensures Convert(ShowEntries(v, false, k) + rest, Outside, false) == ShowEntries(v, true, k) + Convert(rest, Outside, false)
    decreases v, 0, |v.entries| - k
  {
    hide Convert, ShowEntry, IsEntry, Follows;
    var last := k + 1 == |v.entries|;
    var next, converted := if last then "" else ShowEntries(v, false, k + 1), if last then "" else ShowEntries(v, true, k + 1);
    if !last {
      EntriesPass(v, k + 1, rest);
    }
    FollowsPasses(last, next, converted, rest);
    EntryPasses(v.entries[k], Follows(last, next) + rest);
    Seqs.Associative(ShowEntry(v.entries[k], false), Follows(last, next), rest);
    Seqs.Associative(ShowEntry(v.entries[k], true), Follows(last, converted), Convert(rest, Outside, false));
  }

  // The reading

  predicate EndsAtom(rest: string) {
    rest == "" || !IsAtomChar(rest[0])
  }

  /** What a reader of JSON makes of a text that may not be readable. */
  function ReadOr<T>(readable: bool, value: T, rest: string): Read<T> {
    if readable then Got(value, rest) else NotRead
  }

  /** Read as far as the escaped single quote, and no further. */
  lemma {:induction false} SingleNotRead(s: string, rest: string)
    requires ReadPython(s, QUOTE).Some? && EscapesSingle(s)
    ensures ReadLiteral(s + rest).NotRead?
    decreases |s|
  {
    hide UnicodeEscape, SimpleEscape;
    if s[0] != BACKSLASH {
      Seqs.FirstOfAppend(s, rest);
      SingleNotRead(s[1..], rest);
    } else if s[1] == '\'' {
      JsonReader.DropOfAppend(s, rest, 2);
      NoSingleEscape();
    } else if s[1] == 'u' {
      JsonReader.DropOfAppend(s, rest, 6);
      Seqs.SliceOfAppend(s, rest, 2, 4);
      assert s[2..][..4] == s[2..6] && s[2..][4..] == s[6..];
      FourHex(s[2..]);
      SingleNotRead(s[6..], rest);
    } else {
      JsonReader.DropOfAppend(s, rest, 2);
      SingleNotRead(s[2..], rest);
    }
  }

  /** The inside of a literal as JSON. */
  function InsideOf(t: Literal): string {
    if t.double then t.inside else Convert(t.inside, Single, false)
  }

  lemma TextIsRead(t: Literal, rest: string)
    requires IsText(t)
    ensures ReadLiteral(InsideOf(t) + ([QUOTE] + rest)) == ReadOr(IsReadableText(t), TextOf(t), rest)
    ensures ShowText(t, true) + rest == [QUOTE] + (InsideOf(t) + ([QUOTE] + rest))
  {
    hide Convert, ReadPython, ReadLiteral, ReadString, IsInside, EscapesSingle;
    if !t.double {
      MeaningKept(t.inside);
      InsideIsLiteral(InsideOf(t), rest);
    } else {
      DoubleMeaning(t.inside);
      if EscapesSingle(t.inside) {
        SingleNotRead(t.inside, [QUOTE] + rest);
      } else {
        InsideIsLiteral(InsideOf(t), rest);
      }
    }
    Seqs.Associative([QUOTE], InsideOf(t) + [QUOTE], rest);
    Seqs.Associative(InsideOf(t), [QUOTE], rest);
  }

  lemma TextValueIsRead(t: Literal, rest: string)
    requires IsText(t)
    ensures ReadValue(ShowText(t, true) + rest) == ReadOr(IsReadableText(t), Text(TextOf(t)), rest)
  {
    hide ReadValue, ReadLiteral, InsideOf, ShowText, IsText, TextOf;
    TextIsRead(t, rest);
    if IsReadableText(t) {
      TextRead(InsideOf(t) + ([QUOTE] + rest), TextOf(t), rest);
    } else {
      TextNotRead(InsideOf(t) + ([QUOTE] + rest));
    }
  }

  lemma WordIsRead(word: string, rest: string)
    requires word in {"True", "False", "None"} && EndsAtom(rest)
    ensures ReadValue(JsonOf(word) + rest) == Got(Atom(JsonOf(word)), rest)
  {
    hide ReadValue;
    AtomRead(JsonOf(word), rest);
  }

  /** A value starts with none of the signs that end a list. */
  lemma ShowStarts(v: Py, rest: string)
    requires IsPy(v)
    ensures var s := Show(v, true) + rest; s != "" && s[0] != ']' && !IsBlankChar(s[0])
  {
    hide Convert, ShowItems, ShowEntries, IsNumber;
    match v
    case PyNumber(digits) =>
      NumberIsMadeOf(digits);
      assert digits[0] in digits;
    case _ =>
  }

  lemma Bracketed(open: string, inside: string, close: string, rest: string)
    ensures open + (inside + close) + rest == open + (inside + (close + rest))
  {
    Seqs.Associative(open, inside + close, rest);
    Seqs.Associative(inside, close, rest);
  }

  lemma SkippedGap(gap: string, sign: char, rest: string)
    requires IsGap(gap) && !IsBlankChar(sign) && !IsAtomChar(sign)
    ensures Skip(gap + ([sign] + rest)) == [sign] + rest && EndsAtom(gap + ([sign] + rest))
  {
    BlanksAreSkipped(gap, [sign] + rest);
    NoSkip([sign] + rest);
    if gap != "" {
      assert gap[0] in gap && (gap + ([sign] + rest))[0] == gap[0];
    }
  }

  /** A JSON reader finds the value of the Python text in its JSON text, exactly
      when no double-quoted literal escapes a single quote; otherwise nothing. */
  lemma {:induction false} ValueIsRead(v: Py, rest: string)
    requires IsPy(v) && EndsAtom(rest)
    ensures ReadValue(Show(v, true) + rest) == ReadOr(IsReadable(v), ValueOf(v), rest)
    decreases v, 1
  {
    hide ReadValue, Convert, ShowText, JsonOf, ShowItems, ShowEntries, TextOf, IsText, IsNumber, IsReadableText;
    match v
    case PyText(text) => TextValueIsRead(text, rest);
    case PyWord(word) => WordIsRead(word, rest);
    case PyNumber(digits) => AtomRead(digits, rest);
    case PyList(items, inner) =>
      if items == [] {
        Bracketed("[", inner, "]", rest);
        SkippedGap(inner, ']', rest);
        EmptyListRead(inner + ("]" + rest), rest);
      } else {
        Bracketed("[", ShowItems(v, true, 0), "]", rest);
        ItemsAreRead(v, 0, rest);
        ItemsStart(v, "]" + rest);
        ListRead(ShowItems(v, true, 0) + ("]" + rest));
      }
    case PyDict(entries, inner) =>
      if entries == [] {
        Bracketed("{", inner, "}", rest);
        SkippedGap(inner, '}', rest);
        EmptyObjectRead(inner + ("}" + rest), rest);
      } else {
        Bracketed("{", ShowEntries(v, true, 0), "}", rest);
        EntriesAreRead(v, 0, rest);
        EntriesStart(v, "}" + rest);
        ObjectRead(ShowEntries(v, true, 0) + ("}" + rest));
      }
  }

  lemma ItemsStart(v: Py, rest: string)
    requires IsPy(v) && v.PyList? && v.items != []
    ensures var s := Skip(ShowItems(v, true, 0) + rest); s != "" && s[0] != ']'
  {
    hide Show, Skip, ShowItems;
    var it, tail := v.items[0], Follows(1 == |v.items|, if 1 == |v.items| then "" else ShowItems(v, true, 1));
    assert IsItem(it) && ShowItems(v, true, 0) == ShowItem(it, true) + tail by { ItemsUnfold(v, 0); }
    Seqs.Associative(ShowItem(it, true), tail, rest);
    Seqs.Associative(it.before, Show(it.value, true) + it.after, tail + rest);
    Seqs.Associative(Show(it.value, true), it.after, tail + rest);
    ShowStarts(it.value, it.after + (tail + rest));
    BlanksAreSkipped(it.before, Show(it.value, true) + (it.after + (tail + rest)));
    NoSkip(Show(it.value, true) + (it.after + (tail + rest)));
  }

  lemma EntriesStart(v: Py, rest: string)
    requires IsPy(v) && v.PyDict? && v.entries != []
    ensures var s := Skip(ShowEntries(v, true, 0) + rest); s != "" && s[0] == QUOTE
  {
    hide Show, Skip, ShowEntries, Convert, ShowItem;
    var e, tail := v.entries[0], Follows(1 == |v.entries|, if 1 == |v.entries| then "" else ShowEntries(v, true, 1));
    assert IsEntry(e) && ShowEntries(v, true, 0) == ShowEntry(e, true) + tail by { EntriesUnfold(v, 0); }
    var more := e.afterKey + (":" + ShowItem(e.item, true));
    Seqs.Associative(ShowEntry(e, true), tail, rest);
    Seqs.Associative(e.before, ShowText(e.key, true) + more, tail + rest);
    Seqs.Associative(ShowText(e.key, true), more, tail + rest);
    var s := ShowText(e.key, true) + (more + (tail + rest));
    assert s[0] == ShowText(e.key, true)[0] == QUOTE;
    BlanksAreSkipped(e.before, s);
    NoSkip(s);
  }

  lemma ItemsUnfold(v: Py, k: nat)
    requires v.PyList? && k < |v.items|
    ensures var last := k + 1 == |v.items|;
      ShowItems(v, true, k) == ShowItem(v.items[k], true) + Follows(last, if last then "" else ShowItems(v, true, k + 1))
    ensures IsPy(v) ==> IsItem(v.items[k])
  {
    hide ShowItem, IsItem;
  }

  lemma EntriesUnfold(v: Py, k: nat)
    requires v.PyDict? && k < |v.entries|
    ensures var last := k + 1 == |v.entries|;
      ShowEntries(v, true, k) == ShowEntry(v.entries[k], true) + Follows(last, if last then "" else ShowEntries(v, true, k + 1))
    ensures IsPy(v) ==> IsEntry(v.entries[k])
  {
    hide ShowEntry, IsEntry;
  }

  /** A value with blanks before and after it: after it the blanks are left. */
  lemma {:induction false} ItemIsRead(it: PyItem, sign: char, rest: string)
    requires IsItem(it) && !IsBlankChar(sign) && !IsAtomChar(sign)
    ensures var s := ShowItem(it, true) + ([sign] + rest);
      ReadValue(s) == ReadOr(IsReadable(it.value), ValueOf(it.value), it.after + ([sign] + rest)) &&
      (forall r :: r == it.after + ([sign] + rest) ==> Skip(r) == [sign] + rest)
    decreases it, 1
  {
    hide ReadValue, Show, ValueOf, IsReadable, Skip, EndsAtom;
    var tail := it.after + ([sign] + rest);
    Seqs.Associative(it.before, Show(it.value, true) + it.after, [sign] + rest);
    Seqs.Associative(Show(it.value, true), it.after, [sign] + rest);
    SkippedGap(it.after, sign, rest);
    ValueIsRead(it.value, tail);
    GapIsSkipped(it.before, Show(it.value, true) + tail);
  }

  /** What follows the k-th item, up to the closing bracket. */
  lemma FollowsThen(last: bool, next: string, close: string, rest: string)
    ensures Follows(last, next) + (close + rest) == if last then close + rest else "," + (next + (close + rest))
  {
    if last {
      Seqs.AppendNothing(close + rest, "");
    } else {
      Seqs.Associative(",", next, close + rest);
    }
  }

  lemma {:induction false} ItemsAreRead(v: Py, k: nat, rest: string)
    requires IsPy(v) && v.PyList? && k < |v.items|
    ensures ReadItems(ShowItems(v, true, k) + ("]" + rest)) == ReadOr(AreReadable(v, k), ValuesOf(v, k), rest)
    decreases v, 0, |v.items| - k
  {
    hide ReadValue, ReadItems, ShowItem, ShowItems, ValueOf, IsReadable, Follows, Skip;
    ItemsUnfold(v, k);
    var last, it := k + 1 == |v.items|, v.items[k];
    var next := if last then "" else ShowItems(v, true, k + 1);
    var tail := Follows(last, next) + ("]" + rest);
    FollowsThen(last, next, "]", rest);
    Seqs.Associative(ShowItem(it, true), Follows(last, next), "]" + rest);
    if last {
      ItemIsRead(it, ']', rest);
      ItemsAfterLast(ShowItem(it, true) + tail, IsReadable(it.value), ValueOf(it.value), it.after + tail, rest);
      Seqs.AppendNothing([ValueOf(it.value)], []);
    } else {
      ItemsAreRead(v, k + 1, rest);
      ItemIsRead(it, ',', next + ("]" + rest));
      ItemsAfter(ShowItem(it, true) + tail, IsReadable(it.value), ValueOf(it.value), it.after + tail, next + ("]" + rest));
    }
  }

  lemma ItemsAfterLast(s: string, readable: bool, value: Json, after: string, rest: string)
    requires ReadValue(s) == ReadOr(readable, value, after) && Skip(after) == "]" + rest
    ensures ReadItems(s) == ReadOr(readable, [value], rest)
  {
    hide ReadValue, Skip;
    if readable {
      LastItem(s, value, after, rest);
    }
  }

  lemma ItemsAfter(s: string, readable: bool, value: Json, after: string, more: string)
    requires ReadValue(s) == ReadOr(readable, value, after) && Skip(after) == "," + more
    ensures ReadItems(s) ==
      if readable && ReadItems(more).Got? then Got([value] + ReadItems(more).value, ReadItems(more).rest) else NotRead
  {
    hide ReadValue, Skip;
    if readable {
      NextItem(s, value, after, more);
    }
  }

  lemma EntriesAfterLast(s: string, readable: bool, pair: (string, Json), after: string, rest: string)
    requires ReadEntry(s) == ReadOr(readable, pair, after) && Skip(after) == "}" + rest
    ensures ReadEntries(s) == ReadOr(readable, [pair], rest)
  {
    hide ReadEntry, Skip;
    if readable {
      LastEntry(s, pair, after, rest);
    }
  }

  lemma EntriesAfter(s: string, readable: bool, pair: (string, Json), after: string, more: string)
    requires ReadEntry(s) == ReadOr(readable, pair, after) && Skip(after) == "," + more
    ensures ReadEntries(s) ==
      if readable && ReadEntries(more).Got? then Got([pair] + ReadEntries(more).value, ReadEntries(more).rest) else NotRead
  {
    hide ReadEntry, Skip;
    if readable {
      NextEntry(s, pair, after, more);
    }
  }

  lemma {:induction false} EntryIsRead(e: PyEntry, sign: char, rest: string)
    requires IsEntry(e) && !IsBlankChar(sign) && !IsAtomChar(sign)
    ensures var s, after := ShowEntry(e, true) + ([sign] + rest), e.item.after + ([sign] + rest);
      ReadEntry(s) == ReadOr(IsReadableEntry(e), PairOf(e), after) && Skip(after) == [sign] + rest
    decreases e, 1
  {
    hide ReadEntry, ReadValue, ReadLiteral, ShowItem, ShowText, IsText, ValueOf, IsItem, Skip, TextOf, InsideOf, IsReadable, IsReadableText;
    var shown, end := ShowItem(e.item, true), [sign] + rest;
    var value := shown + end;
    var named := e.afterKey + (":" + value);
    ItemIsRead(e.item, sign, rest);
    EntryText(e, end);
    GapIsSkipped(e.before, ShowText(e.key, true) + named);
    TextIsRead(e.key, named);
    SkippedGap(e.afterKey, ':', value);
    if IsReadableText(e.key) {
      EntryRead(InsideOf(e.key) + ([QUOTE] + named), TextOf(e.key), named, value);
    } else {
      TextNotRead(InsideOf(e.key) + ([QUOTE] + named));
    }
  }

  lemma EntryText(e: PyEntry, end: string)
    ensures ShowEntry(e, true) + end ==
      e.before + (ShowText(e.key, true) + (e.afterKey + (":" + (ShowItem(e.item, true) + end))))
  {
    hide ShowText, ShowItem;
    var key, shown := ShowText(e.key, true), ShowItem(e.item, true);
    Seqs.Associative(e.before, key + (e.afterKey + (":" + shown)), end);
    Seqs.Associative(key, e.afterKey + (":" + shown), end);
    Seqs.Associative(e.afterKey, ":" + shown, end);
    Seqs.Associative(":", shown, end);
  }

  lemma {:induction false} EntriesAreRead(v: Py, k: nat, rest: string)
    requires IsPy(v) && v.PyDict? && k < |v.entries|
    ensures ReadEntries(ShowEntries(v, true, k) + ("}" + rest)) == ReadOr(AreReadableEntries(v, k), EntriesOf(v, k), rest)
    decreases v, 0, |v.entries| - k
  {
    hide ReadEntry, ReadEntries, ShowEntry, ShowEntries, PairOf, IsReadableEntry, Follows, IsEntry, Skip;
    EntriesUnfold(v, k);
    var last, e := k + 1 == |v.entries|, v.entries[k];
    var next := if last then "" else ShowEntries(v, true, k + 1);
    var tail := Follows(last, next) + ("}" + rest);
    FollowsThen(last, next, "}", rest);
    Seqs.Associative(ShowEntry(e, true), Follows(last, next), "}" + rest);
    if last {
      EntryIsRead(e, '}', rest);
      EntriesAfterLast(ShowEntry(e, true) + tail, IsReadableEntry(e), PairOf(e), e.item.after + tail, rest);
      Seqs.AppendNothing([PairOf(e)], []);
    } else {
      EntriesAreRead(v, k + 1, rest);
      EntryIsRead(e, ',', next + ("}" + rest));
      EntriesAfter(ShowEntry(e, true) + tail, IsReadableEntry(e), PairOf(e), e.item.after + tail, next + ("}" + rest));
    }
  }

  /** Any Python value of the grammar: after the conversion a JSON reader reads
      the same value, to the end of the text, exactly when no double-quoted
      literal escapes a single quote, and nothing otherwise. */
  lemma NormalizedIsRead(v: Py)
    requires IsPy(v)
    ensures Normalize(Show(v, false)) == Show(v, true)
    ensures ReadValue(Normalize(Show(v, false))) == if IsReadable(v) then Got(ValueOf(v), "") else NotRead
  {
    hide Show, ReadValue, ValueOf, IsReadable;
    ValuePasses(v, "");
    ValueIsRead(v, "");
    Seqs.AppendNothing(Show(v, false), "");
    Seqs.AppendNothing(Show(v, true), "");
    assert Convert("", Outside, false) == "";
  }

  lemma PlainLetter(c: char)
    requires 'a' <= c <= 'z'
    ensures ReadPython([c], QUOTE) == Some([c]) && IsInside([c], QUOTE)
  {
    assert [c][1..] == "" && [c] + "" == [c];
    assert ReadPython([c], QUOTE) == Prepend(c, ReadPython("", QUOTE));
  }

  lemma EscapedLetter(rest: string)
    requires ReadPython(rest, QUOTE).Some? && IsInside(rest, QUOTE)
    ensures var s := "\\'" + rest;
      ReadPython(s, QUOTE) == Prepend('\'', ReadPython(rest, QUOTE)) && IsInside(s, QUOTE) && EscapesSingle(s)
  {
    assert ("\\'" + rest)[2..] == rest;
  }

  /** An escaped single quote in double quotes: Python reads a'b, the conversion
      leaves the text as it is, and JSON does not read it. */
  lemma EscapedSingleIsLost()
    ensures var t := Literal("a\\'b", true); var text := "\"a\\'b\"";
      IsText(t) && TextOf(t) == "a'b" && Show(PyText(t), false) == text &&
      Normalize(text) == text && ReadValue(text).NotRead?
  {
    hide ReadPython, IsInside, EscapesSingle, ReadValue, Normalize, Show;
    var t := Literal("a\\'b", true);
    PlainLetter('b');
    EscapedLetter("b");
    PlainFirst('a', "\\'" + "b");
    assert t.inside == ['a'] + ("\\'" + "b");
    assert ['a'] + (['\''] + "b") == "a'b";
    NormalizedIsRead(PyText(t));
    assert Show(PyText(t), false) == Show(PyText(t), true) == "\"a\\'b\"" by { DoubleShown(t); }
  }

  lemma DoubleShown(t: Literal)
    requires t.double
    ensures Show(PyText(t), false) == Show(PyText(t), true) == [QUOTE] + (t.inside + [QUOTE])
  {
  }

  lemma PlainFirst(c: char, rest: string)
    requires 'a' <= c <= 'z' && ReadPython(rest, QUOTE).Some? && IsInside(rest, QUOTE)
    ensures ReadPython([c] + rest, QUOTE) == Prepend(c, ReadPython(rest, QUOTE)) && IsInside([c] + rest, QUOTE)
    ensures EscapesSingle([c] + rest) == EscapesSingle(rest)
  {
    Seqs.Border([c], rest);
  }
}
