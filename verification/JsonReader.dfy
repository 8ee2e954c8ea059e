/** A reader of JSON text (RFC 8259). */
module JsonReader {
  import Seqs
  import opened Wrappers
  import opened JsonText

  datatype Json = Atom(text: string) | Text(value: string) | List(items: seq<Json>) | Object(entries: seq<(string, Json)>)

  datatype Read<T> = NotRead | Got(value: T, rest: string)

  /** The rest of a literal after its opening quote. */
  function ReadLiteral(s: string): (r: Read<string>)
    ensures r.Got? ==> |r.rest| < |s|
    decreases |s|
  {
    if s == "" || s[0] as int < 0x20 then NotRead
    else if s[0] == QUOTE then Got("", s[1..])
    else if s[0] != BACKSLASH then Longer(s[0], ReadLiteral(s[1..]))
    else if |s| < 2 then NotRead
    else if s[1] == 'u' then
      if |s| < 6 || UnicodeEscape(s[2..6]).None? then NotRead
      else Longer(UnicodeEscape(s[2..6]).value, ReadLiteral(s[6..]))
    else if SimpleEscape(s[1]).None? then NotRead
    else Longer(SimpleEscape(s[1]).value, ReadLiteral(s[2..]))
  }

  function Longer(c: char, r: Read<string>): (q: Read<string>)
    ensures q.Got? <==> r.Got?
    ensures q.Got? ==> q.rest == r.rest
  {
    if r.NotRead? then NotRead else Got([c] + r.value, r.rest)
  }

  predicate IsBlankChar(c: char) {
    c == ' ' || c == '\t' || c == '\n' || c == '\r'
  }

  /** White space may stand before any token. */
  function Skip(s: string): (r: string)
    ensures |r| <= |s| && (r != "" ==> !IsBlankChar(r[0]))
  {
    if s != "" && IsBlankChar(s[0]) then Skip(s[1..]) else s
  }

  /** The characters of JSON numbers and of true, false and null. */
  predicate IsAtomChar(c: char) {
    '0' <= c <= '9' || 'a' <= c <= 'z' || 'A' <= c <= 'Z' || c == '-' || c == '+' || c == '.'
  }

  function AtomLength(s: string): (n: nat)
    ensures n <= |s|
  {
    if s != "" && IsAtomChar(s[0]) then 1 + AtomLength(s[1..]) else 0
  }

  predicate IsDigit(c: char) {
    '0' <= c <= '9'
  }

  function DigitCount(s: string): (n: nat)
    ensures n <= |s| && forall i :: 0 <= i < n ==> IsDigit(s[i])
  {
    if s != "" && IsDigit(s[0]) then 1 + DigitCount(s[1..]) else 0
  }

  /** A number as section 6 of RFC 8259 spells it. */
  predicate IsNumber(s: string) {
    IsUnsigned(if s != "" && s[0] == '-' then s[1..] else s)
  }

  predicate IsUnsigned(s: string) {
    var n := DigitCount(s);
    n > 0 && (s[0] == '0' ==> n == 1) && IsFraction(s[n..])
  }

  predicate IsFraction(s: string) {
    if s != "" && s[0] == '.' then DigitCount(s[1..]) > 0 && IsExponent(s[1..][DigitCount(s[1..])..]) else IsExponent(s)
  }

  predicate IsExponent(s: string) {
    s == "" ||
    ((s[0] == 'e' || s[0] == 'E') &&
     var digits := if |s| > 1 && (s[1] == '+' || s[1] == '-') then s[2..] else s[1..];
     digits != "" && DigitCount(digits) == |digits|)
  }

  predicate IsAtom(s: string) {
    s == "true" || s == "false" || s == "null" || IsNumber(s)
  }

  function ReadValue(text: string): (r: Read<Json>)
    ensures r.Got? ==> |r.rest| < |text|
    decreases |text|, 1
  {
    var s := Skip(text);
    if s == "" then NotRead
    else if s[0] == QUOTE then
      var r := ReadLiteral(s[1..]);
      if r.Got? then Got(Text(r.value), r.rest) else NotRead
    else if s[0] == '[' then
      var inside := Skip(s[1..]);
      var r := if inside != "" && inside[0] == ']' then Got([], inside[1..]) else ReadItems(inside);
      if r.Got? then Got(List(r.value), r.rest) else NotRead
    else if s[0] == '{' then
      var inside := Skip(s[1..]);
      var r := if inside != "" && inside[0] == '}' then Got([], inside[1..]) else ReadEntries(inside);
      if r.Got? then Got(Object(r.value), r.rest) else NotRead
    else if IsAtomChar(s[0]) && IsAtom(s[..AtomLength(s)]) then Got(Atom(s[..AtomLength(s)]), s[AtomLength(s)..])
    else NotRead
  }

  /** One value or more, up to the closing bracket. */
  function ReadItems(s: string): (r: Read<seq<Json>>)
    ensures r.Got? ==> |r.rest| < |s|
    decreases |s|, 2
  {
    var v := ReadValue(s);
    var after := if v.Got? then Skip(v.rest) else "";
    if after == "" then NotRead
    else if after[0] == ']' then Got([v.value], after[1..])
    else if after[0] != ',' then NotRead
    else
      var more := ReadItems(after[1..]);
      if more.Got? then Got([v.value] + more.value, more.rest) else NotRead
  }

  /** One entry: a name, a colon, a value. */
  function ReadEntry(text: string): (r: Read<(string, Json)>)
    ensures r.Got? ==> |r.rest| < |text|
    decreases |text|, 1
  {
    var s := Skip(text);
    if s == "" || s[0] != QUOTE then NotRead
    else
      var name := ReadLiteral(s[1..]);
      var after := if name.Got? then Skip(name.rest) else "";
      if after == "" || after[0] != ':' then NotRead
      else
        var v := ReadValue(after[1..]);
        if v.Got? then Got((name.value, v.value), v.rest) else NotRead
  }

  function ReadEntries(s: string): (r: Read<seq<(string, Json)>>)
    ensures r.Got? ==> |r.rest| < |s|
    decreases |s|, 2
  {
    var e := ReadEntry(s);
    var after := if e.Got? then Skip(e.rest) else "";
    if after == "" then NotRead
    else if after[0] == '}' then Got([e.value], after[1..])
    else if after[0] != ',' then NotRead
    else
      var more := ReadEntries(after[1..]);
      if more.Got? then Got([e.value] + more.value, more.rest) else NotRead
  }

  lemma NoSkip(s: string)
    requires s == "" || !IsBlankChar(s[0])
    ensures Skip(s) == s
  {
  }

  lemma LiteralChar(c: char, rest: string)
    ensures ReadLiteral(EscapeChar(c) + rest) == Longer(c, ReadLiteral(rest))
  {
    hide UnicodeEscape;
    var e := EscapeChar(c);
    var s := e + rest;
    Seqs.Border(e, rest);
    if |e| == 2 {
      assert s[0] == e[0] && s[1] == e[1];
    } else if |e| == 6 {
      assert s[0] == BACKSLASH && s[1] == 'u';
      assert s[2..6] == ['0', '0', e[4], e[5]];
      ControlHex(c);
    }
  }

  lemma {:induction false} ReadsLiteral(t: string, rest: string)
    ensures ReadLiteral(Escape(t) + ([QUOTE] + rest)) == Got(t, rest)
    decreases |t|
  {
    hide EscapeChar;
    if t == "" {
      Seqs.AppendNothing([QUOTE] + rest, Escape(t));
      Seqs.Border([QUOTE], rest);
    } else {
      ReadsLiteral(t[1..], rest);
      LiteralChar(t[0], Escape(t[1..]) + ([QUOTE] + rest));
      Seqs.Associative(EscapeChar(t[0]), Escape(t[1..]), [QUOTE] + rest);
      Seqs.DropCons(t, 0);
    }
  }

  lemma {:induction false} ReadsAtom(t: string, rest: string)
    requires (forall c :: c in t ==> IsAtomChar(c)) && (rest == "" || !IsAtomChar(rest[0]))
    ensures AtomLength(t + rest) == |t|
    decreases |t|
  {
    if t == "" {
      Seqs.AppendNothing(rest, t);
    } else {
      assert t[0] in t;
      Seqs.FirstOfAppend(t, rest);
      ReadsAtom(t[1..], rest);
    }
  }

  // What atoms are made of

  predicate AllIn(s: string, signs: string) {
    forall c :: c in s ==> IsDigit(c) || c in signs
  }

  lemma AllInAppend(a: string, b: string, signs: string)
    requires AllIn(a, signs) && AllIn(b, signs)
    ensures AllIn(a + b, signs)
  {
  }

  lemma DigitsAndRest(s: string, signs: string)
    requires AllIn(s[DigitCount(s)..], signs)
    ensures AllIn(s, signs)
  {
    var n := DigitCount(s);
    Seqs.Split(s, n);
    AllInAppend(s[..n], s[n..], signs);
  }

  lemma FirstAndRest(s: string, signs: string)
    requires s != "" && s[0] in signs && AllIn(s[1..], signs)
    ensures AllIn(s, signs)
  {
    Seqs.DropCons(s, 0);
    AllInAppend([s[0]], s[1..], signs);
  }

  lemma NumberIsMadeOf(s: string)
    requires IsNumber(s)
    ensures s != "" && AllIn(s, "+-.eE")
  {
    hide AllIn, IsFraction;
    var u := if s[0] == '-' then s[1..] else s;
    FractionIsMadeOf(u[DigitCount(u)..]);
    DigitsAndRest(u, "+-.eE");
    if s[0] == '-' {
      FirstAndRest(s, "+-.eE");
    }
  }

  lemma FractionIsMadeOf(s: string)
    requires IsFraction(s)
    ensures AllIn(s, "+-.eE")
  {
    hide AllIn, IsExponent;
    if s != "" && s[0] == '.' {
      ExponentIsMadeOf(s[1..][DigitCount(s[1..])..]);
      DigitsAndRest(s[1..], "+-.eE");
      FirstAndRest(s, "+-.eE");
    } else {
      ExponentIsMadeOf(s);
    }
  }

  lemma ExponentIsMadeOf(s: string)
    requires IsExponent(s)
    ensures AllIn(s, "+-.eE")
  {
    hide AllIn;
    NothingIn("+-.eE");
    if s != "" {
      var digits := if |s| > 1 && (s[1] == '+' || s[1] == '-') then s[2..] else s[1..];
      assert digits[|digits|..] == "";
      DigitsAndRest(digits, "+-.eE");
      if |s| > 1 && (s[1] == '+' || s[1] == '-') {
        assert s[1..][1..] == s[2..];
        FirstAndRest(s[1..], "+-.eE");
      }
      FirstAndRest(s, "+-.eE");
    }
  }

  lemma NothingIn(signs: string)
    ensures AllIn("", signs)
  {
  }

  lemma AtomIsMadeOf(s: string)
    requires IsAtom(s)
    ensures s != "" && forall c :: c in s ==> IsAtomChar(c)
  {
    hide IsNumber;
    if IsNumber(s) {
      NumberIsMadeOf(s);
    }
  }

  // One token after the other; blanks may stand between

  lemma LastItem(s: string, v: Json, after: string, rest: string)
    requires ReadValue(s) == Got(v, after) && Skip(after) == "]" + rest
    ensures ReadItems(s) == Got([v], rest)
  {
    hide ReadValue;
    Seqs.Border("]", rest);
  }

  lemma NextItem(s: string, v: Json, after: string, more: string)
    requires ReadValue(s) == Got(v, after) && Skip(after) == "," + more
    ensures ReadItems(s) ==
      if ReadItems(more).Got? then Got([v] + ReadItems(more).value, ReadItems(more).rest) else NotRead
  {
    hide ReadValue;
    Seqs.Border(",", more);
  }

  lemma LastEntry(s: string, e: (string, Json), after: string, rest: string)
    requires ReadEntry(s) == Got(e, after) && Skip(after) == "}" + rest
    ensures ReadEntries(s) == Got([e], rest)
  {
    hide ReadEntry;
    Seqs.Border("}", rest);
  }

  lemma NextEntry(s: string, e: (string, Json), after: string, more: string)
    requires ReadEntry(s) == Got(e, after) && Skip(after) == "," + more
    ensures ReadEntries(s) ==
      if ReadEntries(more).Got? then Got([e] + ReadEntries(more).value, ReadEntries(more).rest) else NotRead
  {
    hide ReadEntry;
    Seqs.Border(",", more);
  }

  lemma ListRead(inside: string)
    requires Skip(inside) != "" && Skip(inside)[0] != ']'
    ensures ReadValue("[" + inside) ==
      if ReadItems(inside).Got? then Got(List(ReadItems(inside).value), ReadItems(inside).rest) else NotRead
  {
    hide ReadItems, ReadEntries, ReadLiteral;
    NoSkip("[" + inside);
    Seqs.Border("[", inside);
    SkippedIsRead(inside);
  }

  lemma EmptyListRead(inside: string, rest: string)
    requires Skip(inside) == "]" + rest
    ensures ReadValue("[" + inside) == Got(List([]), rest)
  {
    hide ReadItems, ReadEntries, ReadLiteral;
    NoSkip("[" + inside);
    Seqs.Border("[", inside);
    Seqs.Border("]", rest);
  }

  lemma ObjectRead(inside: string)
    requires Skip(inside) != "" && Skip(inside)[0] == QUOTE
    ensures ReadValue("{" + inside) ==
      if ReadEntries(inside).Got? then Got(Object(ReadEntries(inside).value), ReadEntries(inside).rest) else NotRead
  {
    hide ReadItems, ReadEntries, ReadLiteral;
    NoSkip("{" + inside);
    Seqs.Border("{", inside);
    SkippedIsRead(inside);
  }

  lemma EmptyObjectRead(inside: string, rest: string)
    requires Skip(inside) == "}" + rest
    ensures ReadValue("{" + inside) == Got(Object([]), rest)
  {
    hide ReadItems, ReadEntries, ReadLiteral;
    NoSkip("{" + inside);
    Seqs.Border("{", inside);
    Seqs.Border("}", rest);
  }

  lemma SkipTwice(s: string)
    ensures Skip(Skip(s)) == Skip(s)
  {
    NoSkip(Skip(s));
  }

  lemma SkippedIsRead(s: string)
    ensures ReadValue(Skip(s)) == ReadValue(s) && ReadItems(Skip(s)) == ReadItems(s)
    ensures ReadEntry(Skip(s)) == ReadEntry(s) && ReadEntries(Skip(s)) == ReadEntries(s)
  {
    hide Skip, ReadLiteral;
    SkipTwice(s);
  }

  lemma TextRead(inside: string, value: string, rest: string)
    requires ReadLiteral(inside) == Got(value, rest)
    ensures ReadValue([QUOTE] + inside) == Got(Text(value), rest)
  {
    hide ReadItems, ReadEntries, ReadLiteral;
    NoSkip([QUOTE] + inside);
    Seqs.Border([QUOTE], inside);
  }

  lemma AtomRead(text: string, rest: string)
    requires IsAtom(text) && (rest == "" || !IsAtomChar(rest[0]))
    ensures ReadValue(text + rest) == Got(Atom(text), rest)
  {
    hide ReadItems, ReadEntries, ReadLiteral, IsAtom;
    AtomIsMadeOf(text);
    assert text[0] in text && (text + rest)[0] == text[0];
    NoSkip(text + rest);
    ReadsAtom(text, rest);
    Seqs.Border(text, rest);
  }

  lemma EntryRead(inside: string, name: string, after: string, value: string)
    requires ReadLiteral(inside) == Got(name, after) && Skip(after) == ":" + value
    ensures ReadEntry([QUOTE] + inside) ==
      if ReadValue(value).Got? then Got((name, ReadValue(value).value), ReadValue(value).rest) else NotRead
  {
    hide ReadValue, ReadLiteral;
    NoSkip([QUOTE] + inside);
    Seqs.Border([QUOTE], inside);
    Seqs.Border(":", value);
  }

  lemma TextNotRead(inside: string)
    requires ReadLiteral(inside).NotRead?
    ensures ReadValue([QUOTE] + inside).NotRead? && ReadEntry([QUOTE] + inside).NotRead?
  {
    hide ReadItems, ReadEntries, ReadLiteral;
    NoSkip([QUOTE] + inside);
    Seqs.Border([QUOTE], inside);
  }

  /** What is read as the whole inside of a literal is read up to a closing quote. */
  lemma {:induction false} InsideIsLiteral(s: string, rest: string)
    requires ReadString(s).Some?
    ensures ReadLiteral(s + ([QUOTE] + rest)) == Got(ReadString(s).value, rest)
    decreases |s|
  {
    hide UnicodeEscape, SimpleEscape;
    var after := [QUOTE] + rest;
    if s == "" {
      Seqs.AppendNothing(after, s);
      Seqs.Border([QUOTE], rest);
    } else if s[0] != BACKSLASH {
      Seqs.FirstOfAppend(s, after);
      InsideIsLiteral(s[1..], rest);
    } else if s[1] == 'u' {
      DropOfAppend(s, after, 6);
      Seqs.SliceOfAppend(s, after, 2, 4);
      InsideIsLiteral(s[6..], rest);
    } else {
      DropOfAppend(s, after, 2);
      InsideIsLiteral(s[2..], rest);
    }
  }

  lemma DropOfAppend(s: string, t: string, n: nat)
    requires 0 < n <= |s|
    ensures (s + t)[n..] == s[n..] + t && (s + t)[0] == s[0] && (n > 1 ==> (s + t)[1] == s[1])
  {
  }

  /** Blanks in front change nothing. */
  lemma {:induction false} BlanksAreSkipped(gap: string, s: string)
    requires forall c :: c in gap ==> IsBlankChar(c)
    ensures Skip(gap + s) == Skip(s)
    decreases |gap|
  {
    if gap == "" {
      Seqs.AppendNothing(s, gap);
    } else {
      assert gap[0] in gap;
      Seqs.FirstOfAppend(gap, s);
      BlanksAreSkipped(gap[1..], s);
    }
  }

  lemma GapIsSkipped(gap: string, s: string)
    requires forall c :: c in gap ==> IsBlankChar(c)
    ensures ReadValue(gap + s) == ReadValue(s) && ReadItems(gap + s) == ReadItems(s)
    ensures ReadEntry(gap + s) == ReadEntry(s) && ReadEntries(gap + s) == ReadEntries(s)
  {
    hide Skip, ReadLiteral;
    BlanksAreSkipped(gap, s);
  }

  /** Brackets around a text, and what comes after. */
  lemma Wrapped(open: string, inside: string, close: string, rest: string)
    ensures open + (inside + close) + rest == open + (inside + (close + rest))
    ensures inside == "" ==> inside + (close + rest) == close + rest
  {
    Seqs.Associative(open, inside + close, rest);
    Seqs.Associative(inside, close, rest);
    Seqs.AppendNothing(close + rest, "");
  }
}
