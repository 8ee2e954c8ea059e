/** What a finished tool call means: a JSON reader finds in its arguments the
    object the model wrote, every name with its value, in order. */
module CallMeaning {
  import Seqs
  import opened Wrappers
  import opened JsonText
  import opened JsonReader
  import Quotes
  import opened PythonValues
  import opened ToolCalls
  import opened Streaming
  import opened CompleteCalls

  /** An argument as it was meant: a text, or any Python value. */
  datatype Meant = MeantText(name: string, text: string) | MeantValue(name: string, value: Py)

  predicate IsMeant(m: Meant) {
    m.MeantValue? ==> IsPy(m.value)
  }

  /** What a JSON reader makes of it is not spoiled by an escaped single quote. */
  predicate IsReadableMeant(m: Meant) {
    m.MeantValue? ==> IsReadable(m.value)
  }

  predicate AllReadable(ms: seq<Meant>) {
    ms == [] || (IsReadableMeant(ms[0]) && AllReadable(ms[1..]))
  }

  predicate AreMeant(ms: seq<Meant>) {
    forall i :: 0 <= i < |ms| ==> IsMeant(ms[i])
  }

  /** How the model writes it down. */
  function Written(m: Meant): Arg {
    if m.MeantText? then StringArg(m.name, m.text) else OtherArg(m.name, Show(m.value, false))
  }

  function AllWritten(ms: seq<Meant>): (args: seq<Arg>)
    ensures |args| == |ms|
  {
    if ms == [] then [] else [Written(ms[0])] + AllWritten(ms[1..])
  }

  function Pair(m: Meant): (string, Json)
    requires IsMeant(m)
  {
    (Trim(m.name), if m.MeantText? then Text(m.text) else ValueOf(m.value))
  }

  function Pairs(ms: seq<Meant>): seq<(string, Json)>
    requires AreMeant(ms)
  {
    if ms == [] then [] else [Pair(ms[0])] + Pairs(ms[1..])
  }

  lemma {:induction false} WrittenAppend(a: seq<Meant>, b: seq<Meant>)
    ensures AllWritten(a + b) == AllWritten(a) + AllWritten(b)
  {
    hide Written;
    if a == [] {
      Seqs.AppendNothing(b, a);
      Seqs.AppendNothing(AllWritten(b), AllWritten(a));
    } else {
      Seqs.FirstOfAppend(a, b);
      WrittenAppend(a[1..], b);
      Seqs.Associative([Written(a[0])], AllWritten(a[1..]), AllWritten(b));
    }
  }

  // Balance

  /** What reads as the inside of a string stays inside it. */
  lemma {:induction false} ReadableIsInert(b: Braces, s: string)
    requires b.inString && !b.escaped && ReadString(s).Some?
    ensures CountAll(b, s) == b
    decreases |s|
  {
    hide UnicodeEscape, SimpleEscape;
    if s == "" {
    } else if s[0] != BACKSLASH {
      ReadableIsInert(b, s[1..]);
    } else {
      TwoCounted(b, s);
      if s[1] == 'u' {
        HexReadable(s);
        Seqs.Split(s[2..], 4);
        assert s[2..][..4] == s[2..6] && s[2..][4..] == s[6..];
        CountAppend(b, s[2..6], s[6..]);
        HexCounted(b, s[2..6]);
        ReadableIsInert(b, s[6..]);
      } else {
        ReadableIsInert(b, s[2..]);
      }
    }
  }

  lemma TwoCounted(b: Braces, s: string)
    requires b.inString && !b.escaped && |s| > 1 && s[0] == BACKSLASH
    ensures CountAll(b, s) == CountAll(b, s[2..])
  {
    assert s[1..][1..] == s[2..];
  }

  lemma HexReadable(s: string)
    requires |s| >= 6 && UnicodeEscape(s[2..6]).Some?
    ensures forall c :: c in s[2..6] ==> HexValue(c).Some?
  {
  }

  lemma {:induction false} HexCounted(b: Braces, s: string)
    requires b.inString && !b.escaped && forall c :: c in s ==> HexValue(c).Some?
    ensures CountAll(b, s) == b
    decreases |s|
  {
    if s != "" {
      assert s[0] in s;
      HexCounted(b, s[1..]);
    }
  }

  /** So does what a double-quoted literal holds. */
  lemma {:induction false} InsideIsInert(b: Braces, s: string)
    requires b.inString && !b.escaped && Quotes.IsInside(s, QUOTE)
    ensures CountAll(b, s) == b
    decreases |s|
  {
    if s == "" {
    } else if s[0] == BACKSLASH {
      TwoCounted(b, s);
      InsideIsInert(b, s[2..]);
    } else {
      InsideIsInert(b, s[1..]);
    }
  }

  lemma TextIsInert(b: Braces, t: Literal)
    requires !b.inString && !b.escaped && IsText(t)
    ensures CountAll(b, ShowText(t, true)) == b
  {
    hide Quotes.Convert, Quotes.ReadPython, Quotes.IsInside, ReadString;
    var s, open := InsideOf(t), b.(inString := true);
    CountAppend(b, [QUOTE], s + [QUOTE]);
    CountAppend(open, s, [QUOTE]);
    if t.double {
      InsideIsInert(open, s);
    } else {
      Quotes.MeaningKept(t.inside);
      ReadableIsInert(open, s);
    }
    assert CountAll(b, [QUOTE]) == open && CountAll(open, [QUOTE]) == b by { QuoteCounted(b); }
  }

  lemma QuoteCounted(b: Braces)
    requires !b.inString && !b.escaped
    ensures CountAll(b, [QUOTE]) == b.(inString := true) && CountAll(b.(inString := true), [QUOTE]) == b
  {
    assert [QUOTE][1..] == "";
  }

  lemma {:induction false} PlainCounted(b: Braces, s: string)
    requires !b.inString && !b.escaped && forall c :: c in s ==> c !in "{}\"\\"
    ensures CountAll(b, s) == b
    decreases |s|
  {
    if s != "" {
      assert s[0] in s;
      PlainCounted(b, s[1..]);
    }
  }

  lemma BracketCounted(b: Braces)
    requires !b.inString && !b.escaped
    ensures CountAll(b, "{") == b.(depth := b.depth + 1) && CountAll(b.(depth := b.depth + 1), "}") == b
    ensures CountAll(b, "[") == b && CountAll(b, "]") == b
  {
    assert "{"[1..] == "" && "}"[1..] == "" && "["[1..] == "" && "]"[1..] == "";
  }

  lemma Enclosed(b: Braces, open: string, inside: string, close: string)
    requires !b.inString && !b.escaped && ((open == "[" && close == "]") || (open == "{" && close == "}"))
    requires var within := if open == "[" then b else b.(depth := b.depth + 1); CountAll(within, inside) == within
    ensures CountAll(b, open + (inside + close)) == b
  {
    hide CountAll;
    var within := if open == "[" then b else b.(depth := b.depth + 1);
    CountAppend(b, open, inside + close);
    CountAppend(within, inside, close);
    BracketCounted(b);
  }

  lemma FollowsIsInert(b: Braces, last: bool, next: string)
    requires !b.inString && !b.escaped && (!last ==> CountAll(b, next) == b)
    ensures CountAll(b, Follows(last, next)) == b
  {
    hide CountAll;
    if last {
      PlainCounted(b, "");
    } else {
      CountAppend(b, ",", next);
      PlainCounted(b, ",");
    }
  }

  lemma GapIsInert(b: Braces, gap: string)
    requires !b.inString && !b.escaped && IsGap(gap)
    ensures CountAll(b, gap) == b
  {
    PlainCounted(b, gap);
  }

  lemma WordIsInert(b: Braces, v: Py)
    requires !b.inString && !b.escaped && IsPy(v) && (v.PyWord? || v.PyNumber?)
    ensures CountAll(b, Show(v, true)) == b
  {
    hide CountAll, IsNumber;
    if v.PyNumber? {
      NumberIsMadeOf(v.digits);
    }
    PlainCounted(b, Show(v, true));
  }

  /** The JSON text of a value leaves no brace and no string open. */
  lemma {:induction false} ShownIsInert(b: Braces, v: Py)
    requires !b.inString && !b.escaped && IsPy(v)
    ensures CountAll(b, Show(v, true)) == b
    decreases v, 1
  {
    hide CountAll, ShowText, ShowItems, ShowEntries, Quotes.JsonOf, IsText, IsNumber, IsGap;
    var inner := b.(depth := b.depth + 1);
    match v
    case PyText(text) => TextIsInert(b, text);
    case PyWord(_) => WordIsInert(b, v);
    case PyNumber(_) => WordIsInert(b, v);
    case PyList(items, gap) =>
      if items == [] {
        GapIsInert(b, gap);
        Enclosed(b, "[", gap, "]");
      } else {
        ItemsAreInert(b, v, 0);
        Enclosed(b, "[", ShowItems(v, true, 0), "]");
      }
    case PyDict(entries, gap) =>
      if entries == [] {
        GapIsInert(inner, gap);
        Enclosed(b, "{", gap, "}");
      } else {
        EntriesAreInert(inner, v, 0);
        Enclosed(b, "{", ShowEntries(v, true, 0), "}");
      }
  }

  lemma {:induction false} ItemIsInert(b: Braces, it: PyItem)
    requires !b.inString && !b.escaped && IsItem(it)
    ensures CountAll(b, ShowItem(it, true)) == b
    decreases it, 1
  {
    hide CountAll, Show, IsGap;
    GapIsInert(b, it.before);
    ShownIsInert(b, it.value);
    GapIsInert(b, it.after);
    CountAppend(b, it.before, Show(it.value, true) + it.after);
    CountAppend(b, Show(it.value, true), it.after);
  }

  lemma {:induction false} ItemsAreInert(b: Braces, v: Py, k: nat)
    requires !b.inString && !b.escaped && IsPy(v) && v.PyList? && k < |v.items|
    ensures CountAll(b, ShowItems(v, true, k)) == b
    decreases v, 0, |v.items| - k
  {
    hide CountAll, ShowItem, IsItem, Follows;
    var last := k + 1 == |v.items|;
    var next := if last then "" else ShowItems(v, true, k + 1);
    if !last {
      ItemsAreInert(b, v, k + 1);
    }
    FollowsIsInert(b, last, next);
    ItemIsInert(b, v.items[k]);
    CountAppend(b, ShowItem(v.items[k], true), Follows(last, next));
  }

  lemma {:induction false} EntryIsInert(b: Braces, e: PyEntry)
    requires !b.inString && !b.escaped && IsEntry(e)
    ensures CountAll(b, ShowEntry(e, true)) == b
    decreases e, 1
  {
    hide CountAll, ShowItem, ShowText, IsItem, IsText, IsGap;
    var shown := ShowItem(e.item, true);
    GapIsInert(b, e.before);
    TextIsInert(b, e.key);
    GapIsInert(b, e.afterKey);
    ItemIsInert(b, e.item);
    PlainCounted(b, ":");
    CountAppend(b, ":", shown);
    CountAppend(b, e.afterKey, ":" + shown);
    CountAppend(b, ShowText(e.key, true), e.afterKey + (":" + shown));
    CountAppend(b, e.before, ShowText(e.key, true) + (e.afterKey + (":" + shown)));
  }

  lemma {:induction false} EntriesAreInert(b: Braces, v: Py, k: nat)
    requires !b.inString && !b.escaped && IsPy(v) && v.PyDict? && k < |v.entries|
    ensures CountAll(b, ShowEntries(v, true, k)) == b
    decreases v, 0, |v.entries| - k
  {
    hide CountAll, ShowEntry, IsEntry, Follows;
    var last, e := k + 1 == |v.entries|, v.entries[k];
    var next := if last then "" else ShowEntries(v, true, k + 1);
    if !last {
      EntriesAreInert(b, v, k + 1);
    }
    FollowsIsInert(b, last, next);
    EntryIsInert(b, e);
    CountAppend(b, ShowEntry(e, true), Follows(last, next));
  }

  // Reading

  lemma {:induction false} WrittenIsBalanced(ms: seq<Meant>)
    requires AreMeant(ms)
    ensures BalancedArgs(AllWritten(ms))
    decreases |ms|
  {
    hide Show, Quotes.Normalize, CountAll;
    if ms != [] {
      WrittenIsBalanced(ms[1..]);
      if ms[0].MeantValue? {
        assert IsMeant(ms[0]);
        NormalizedIsRead(ms[0].value);
        assert Balanced(Show(ms[0].value, true)) by { ShownIsInert(START, ms[0].value); }
      }
    }
  }

  lemma ValueMeans(m: Meant, rest: string)
    requires IsMeant(m) && EndsAtom(rest)
    ensures ReadValue(ValueText(Written(m)) + rest) == ReadOr(IsReadableMeant(m), Pair(m).1, rest)
  {
    hide ReadLiteral, ReadValue, Escape, Trim, Show, Quotes.Normalize, IsPy, ValueOf, IsReadable;
    if m.MeantText? {
      ReadsLiteral(m.text, rest);
      Seqs.Associative([QUOTE], Escape(m.text), [QUOTE]);
      Seqs.Associative([QUOTE], Escape(m.text) + [QUOTE], rest);
      Seqs.Associative(Escape(m.text), [QUOTE], rest);
      TextRead(Escape(m.text) + ([QUOTE] + rest), m.text, rest);
    } else {
      NormalizedIsRead(m.value);
      ValueIsRead(m.value, rest);
    }
  }

  lemma EntryMeans(m: Meant, rest: string)
    requires IsMeant(m) && EndsAtom(rest)
    ensures ReadEntry(Entry(Written(m)) + rest) == ReadOr(IsReadableMeant(m), Pair(m), rest)
    ensures Entry(Written(m)) != "" && Entry(Written(m))[0] == QUOTE
  {
    hide ReadEntry, ReadLiteral, ReadValue, Escape, Trim, ValueText, IsReadableMeant;
    var name, text := Trim(m.name), ValueText(Written(m));
    EntryText(name, text, rest);
    ReadsLiteral(name, ":" + (text + rest));
    ValueMeans(m, rest);
    NoSkip(":" + (text + rest));
    EntryRead(Escape(name) + ([QUOTE] + (":" + (text + rest))), name, ":" + (text + rest), text + rest);
  }

  lemma EntryText(name: string, text: string, rest: string)
    ensures Quoted(name) + ":" + text + rest == [QUOTE] + (Escape(name) + ([QUOTE] + (":" + (text + rest))))
    ensures (Quoted(name) + ":" + text)[0] == QUOTE
  {
    hide Escape;
  }

  /** The entries from a first one on, without the comma before it. */
  function Body(args: seq<Arg>): string
    requires args != []
  {
    Entry(args[0]) + Listed(args[1..], 1)
  }

  lemma {:induction false} ListedSoFar(args: seq<Arg>, written: nat)
    requires written > 0
    ensures Listed(args, written) == if args == [] then "" else "," + Body(args)
    ensures args != [] ==> Listed(args, 0) == Body(args)
    decreases |args|
  {
    hide Entry;
    if args != [] {
      ListedSoFar(args[1..], written + 1);
      ListedSoFar(args[1..], 1);
      Seqs.Associative(",", Entry(args[0]), Listed(args[1..], 1));
      Seqs.AppendNothing(Entry(args[0]), "");
    }
  }

  lemma {:induction false} BodyMeans(ms: seq<Meant>, rest: string)
    requires ms != [] && AreMeant(ms)
    ensures ReadEntries(Body(AllWritten(ms)) + ("}" + rest)) == ReadOr(AllReadable(ms), Pairs(ms), rest)
    ensures Body(AllWritten(ms)) != "" && Body(AllWritten(ms))[0] == QUOTE
    decreases |ms|
  {
    hide ReadEntry, ReadEntries, Entry, Written, IsMeant, Pair, Body, IsReadableMeant;
    var args, more := AllWritten(ms), AllWritten(ms[1..]);
    var entry, end := Entry(args[0]), "}" + rest;
    Seqs.Border([Written(ms[0])], more);
    assert args[0] == Written(ms[0]) && args[1..] == more;
    ListedSoFar(more, 1);
    var tail := Listed(more, 1) + end;
    Seqs.Associative(entry, Listed(more, 1), end);
    assert Body(args) == entry + Listed(more, 1) by { BodyIs(args); }
    if |ms| == 1 {
      Seqs.AppendNothing(end, Listed(more, 1));
      EntryMeans(ms[0], end);
      NoSkip(end);
      EntriesAfterLast(entry + end, IsReadableMeant(ms[0]), Pair(ms[0]), end, rest);
      assert Pairs(ms[1..]) == [];
      Seqs.AppendNothing([Pair(ms[0])], []);
    } else {
      BodyMeans(ms[1..], rest);
      Seqs.Associative(",", Body(more), end);
      EntryMeans(ms[0], tail);
      NoSkip(tail);
      EntriesAfter(entry + tail, IsReadableMeant(ms[0]), Pair(ms[0]), tail, Body(more) + end);
    }
  }

  lemma BodyIs(args: seq<Arg>)
    requires args != []
    ensures Body(args) == Entry(args[0]) + Listed(args[1..], 1)
  {
  }

  /** The finished arguments, read as JSON, are the object that was meant, unless
      an escaped single quote in a double-quoted literal keeps them from being
      read at all. */
  lemma ArgumentsMean(ms: seq<Meant>, rest: string)
    requires AreMeant(ms)
    ensures ReadValue("{" + Listed(AllWritten(ms), 0) + "}" + rest) == ReadOr(AllReadable(ms), Object(Pairs(ms)), rest)
  {
    hide ReadValue, ReadEntries, Entry, Written, Body;
    var args := AllWritten(ms);
    var listed := Listed(args, 0);
    Seqs.Associative("{", listed, "}");
    Wrapped("{", listed, "}", rest);
    if ms == [] {
      NoSkip("}" + rest);
      EmptyObjectRead("}" + rest, rest);
    } else {
      ListedSoFar(args, 1);
      BodyMeans(ms, rest);
      NoSkip(listed + ("}" + rest));
      ObjectRead(listed + ("}" + rest));
    }
  }

  /** The call as the model writes it, its name anywhere among its arguments. */
  function CallOf(name: string, id: Option<string>, before: seq<Meant>, after: seq<Meant>): Call {
    Call(name, id, AllWritten(before), AllWritten(after))
  }

  /** From the events of a call to its meaning: whatever was mapped before, there
      is one call more, with the name and id it was given, and its arguments are
      JSON for the object of all names and values, in order. */
  lemma CallMeans(s: State, name: string, id: Option<string>, before: seq<Meant>, after: seq<Meant>)
    requires s.Valid() && TrimTrailing(name) != "" && AreMeant(before) && AreMeant(after)
    ensures var c := CallOf(name, id, before, after);
      Runs(s, CallEvents(c), Begun(s, Finished(c), |before| + |after|)) &&
      Finished(c).name == TrimTrailing(name) && Finished(c).id == IdOf(id) &&
      AreMeant(before + after) &&
      ReadValue(Finished(c).arguments) == ReadOr(AllReadable(before + after), Object(Pairs(before + after)), "")
  {
    hide ReadValue, CallEvents, Begun, Runs, TrimTrailing, IdOf, Pairs, BalancedArgs, Listed, AllWritten, Balanced, AllReadable;
    var c := CallOf(name, id, before, after);
    assert AreMeant(before + after) by { MeantTogether(before, after); }
    WrittenAppend(before, after);
    WrittenIsBalanced(before + after);
    CallCompletes(s, c);
    ArgumentsMean(before + after, "");
    Seqs.AppendNothing(Arguments(c), "");
  }

  /** A key as a model may write it: white space after it, and one character of
      white space before. */
  ghost predicate SpellsKey(written: string, key: string) {
    exists lead, blank :: IsSpelling(written, lead, key, blank)
  }

  predicate IsSpelling(written: string, lead: string, key: string, blank: string) {
    written == lead + key + blank && !EndsWhite(key) && AllWhite(blank) &&
    if lead == "" then key != "" && key[0] !in WHITE_SPACE else |lead| == 1 && lead[0] in WHITE_SPACE
  }

  /** What was meant under a key: the text itself, or the value of the Python
      text. */
  function MeaningOf(m: Meant): Json
    requires IsMeant(m)
  {
    if m.MeantText? then Text(m.text) else ValueOf(m.value)
  }

  /** The entries of the object, by position. */
  lemma {:induction false} PairsAsSpelled(ms: seq<Meant>, keys: seq<string>)
    requires AreMeant(ms) && |keys| == |ms|
    requires forall i :: 0 <= i < |ms| ==> SpellsKey(ms[i].name, keys[i])
    ensures |Pairs(ms)| == |ms|
    ensures forall i :: 0 <= i < |ms| ==> Pairs(ms)[i] == (keys[i], MeaningOf(ms[i]))
    decreases |ms|
  {
    hide IsMeant, Trim, ValueOf;
    if ms != [] {
      var lead, blank :| IsSpelling(ms[0].name, lead, keys[0], blank);
      KeyTrimmedExactly(lead, keys[0], blank);
      PairsAsSpelled(ms[1..], keys[1..]);
    }
  }

  /** The same call, its name, id and keys given as the model may spell them. */
  lemma SpelledCallMeans(s: State, name: string, id: string, blanks: (string, string), quoted: bool,
                         before: seq<Meant>, after: seq<Meant>, keys: seq<string>)
    requires s.Valid() && AreMeant(before) && AreMeant(after) && |keys| == |before + after|
    requires name != "" && !EndsWhite(name) && AllWhite(blanks.0) && AllWhite(blanks.1)
    requires quoted || (!EndsWhite(id) && forall x :: id != "\"" + x + "\"")
    requires forall i :: 0 <= i < |keys| ==> SpellsKey((before + after)[i].name, keys[i])
    ensures AreMeant(before + after)
    ensures var c := CallOf(name + blanks.0, Some((if quoted then "\"" + id + "\"" else id) + blanks.1), before, after);
      var call := ToolCall(name, Arguments(c), id);
      var entries := seq(|keys|, i requires 0 <= i < |keys| => (keys[i], MeaningOf((before + after)[i])));
      Runs(s, CallEvents(c), Begun(s, call, |before| + |after|)) &&
      ReadValue(call.arguments) == ReadOr(AllReadable(before + after), Object(entries), "")
  {
    hide ReadValue, CallEvents, Begun, Runs, Arguments, Pairs, BalancedArgs, AllWritten, AllReadable, SpellsKey, MeaningOf, IsMeant, TrimTrailing, IdOf;
    var written := (if quoted then "\"" + id + "\"" else id) + blanks.1;
    MeantTogether(before, after);
    TrimmedExactly(name, blanks.0);
    CallMeans(s, name + blanks.0, Some(written), before, after);
    WrittenAppend(before, after);
    WrittenIsBalanced(before + after);
    CallAsSpelled(s, name, id, blanks, quoted, AllWritten(before), AllWritten(after));
    PairsAsSpelled(before + after, keys);
    assert Pairs(before + after) ==
      seq(|keys|, i requires 0 <= i < |keys| => (keys[i], MeaningOf((before + after)[i])));
  }

  lemma MeantTogether(a: seq<Meant>, b: seq<Meant>)
    requires AreMeant(a) && AreMeant(b)
    ensures AreMeant(a + b)
  {
    hide IsMeant;
  }
}
