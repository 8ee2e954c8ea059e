/** What a complete Gemma 4 value means, and that its rendering is read back as
    just that. */
module GemmaMeaning {
  import Seqs
  import opened Wrappers
  import opened JsonText
  import opened JsonReader
  import opened Gemma4
  import opened ToolCalls

  predicate IsValueNode(n: Node) {
    IsComplete(n) && n.rule in {Number, Bool, Null, String, Array, Dict, Value}
  }

  /** The value a complete node stands for. */
  function Meaning(n: Node): Json
    requires IsValueNode(n)
    decreases n, |n.children| + 1
  {
    match n.rule
    case String => Text(n.children[0].text)
    case Array => List(MeaningsFrom(n, 0))
    case Dict => Object(EntriesFrom(n, 0))
    case Value => Meaning(n.children[0])
    case _ => Atom(n.text)
  }

  function MeaningsFrom(n: Node, k: nat): seq<Json>
    requires IsComplete(n) && n.rule.Array? && k <= |n.children|
    decreases n, |n.children| - k
  {
    if k == |n.children| then [] else [Meaning(n.children[k])] + MeaningsFrom(n, k + 1)
  }

  function EntriesFrom(n: Node, k: nat): seq<(string, Json)>
    requires IsComplete(n) && n.rule.Dict? && k <= |n.children|
    decreases n, |n.children| - k
  {
    if k == |n.children| then [] else [EntryOf(n.children[k])] + EntriesFrom(n, k + 1)
  }

  function EntryOf(n: Node): (string, Json)
    requires IsComplete(n) && n.rule.DictKv?
    decreases n, |n.children|
  {
    assert IsComplete(n.children[0]);
    (n.children[0].children[0].text, Meaning(n.children[1]))
  }

  /** A complete value followed by anything that cannot continue it is read back
      as what it means. */
  lemma {:induction false} RenderingIsRead(n: Node, rest: string)
    requires IsValueNode(n) && (rest == "" || !IsAtomChar(rest[0]))
    ensures ReadValue(Render(n) + rest) == Got(Meaning(n), rest)
    decreases n, |n.children| + 1
  {
    hide ReadLiteral, Escape, ReadValue, RenderFrom;
    if n.rule.String? {
      var content := n.children[0];
      StringRendered(n);
      ReadsLiteral(content.text, rest);
      TextRead(Escape(content.text) + ([QUOTE] + rest), content.text, rest);
      Seqs.Associative([QUOTE], Escape(content.text) + [QUOTE], rest);
      Seqs.Associative(Escape(content.text), [QUOTE], rest);
    } else if n.rule.Array? {
      ArrayIsRead(n, rest);
    } else if n.rule.Dict? {
      DictIsRead(n, rest);
    } else if n.rule.Value? {
      RenderingIsRead(n.children[0], rest);
    } else {
      AtomRead(n.text, rest);
    }
  }

  lemma StringRendered(n: Node)
    requires IsComplete(n) && n.rule.String?
    ensures Render(n) == [QUOTE] + (Escape(n.children[0].text) + [QUOTE])
  {
    hide Escape;
    assert Render(n.children[0]) == Escape(n.children[0].text) by { NothingEscaped(); }
  }

  /** A rendered value starts like a value: not with a bracket that closes one. */
  lemma {:induction false} ValueStarts(n: Node)
    requires IsValueNode(n)
    ensures Render(n) != "" && Render(n)[0] != ']' && !IsBlankChar(Render(n)[0])
    decreases n
  {
    hide Escape, RenderFrom;
    match n.rule
    case Value => ValueStarts(n.children[0]);
    case Number =>
      AtomIsMadeOf(n.text);
      assert n.text[0] in n.text;
    case _ =>
  }

  /** The children from the k-th on, without a separator before them. */
  function FromChild(n: Node, k: nat): string
    requires k < |n.children|
  {
    Render(n.children[k]) + RenderFrom(n, k + 1, ",")
  }

  lemma RenderFromChild(n: Node, k: nat)
    requires k <= |n.children|
    ensures k < |n.children| ==> RenderFrom(n, k, ",") == (if k == 0 then "" else ",") + FromChild(n, k)
    ensures k == 0 < |n.children| ==> RenderFrom(n, k, ",") == FromChild(n, k)
    ensures k == |n.children| ==> RenderFrom(n, k, ",") == ""
  {
    hide Render;
    if k < |n.children| {
      Seqs.AppendNothing(FromChild(n, k), "");
    }
  }

  lemma {:induction false} ArrayIsRead(n: Node, rest: string)
    requires IsComplete(n) && n.rule.Array?
    ensures ReadValue(Render(n) + rest) == Got(List(MeaningsFrom(n, 0)), rest)
    decreases n, |n.children|, 1
  {
    hide ReadValue, ReadItems, RenderFrom, FromChild;
    assert Render(n) == "[" + (RenderFrom(n, 0, ",") + "]");
    Wrapped("[", RenderFrom(n, 0, ","), "]", rest);
    RenderFromChild(n, 0);
    if n.children == [] {
      NoSkip("]" + rest);
      EmptyListRead("]" + rest, rest);
    } else {
      ItemsAreRead(n, 0, rest);
      assert StartsLike(FromChild(n, 0) + ("]" + rest), Render(n.children[0])) by { ChildStarts(n, 0, "]" + rest); }
      ValueStarts(n.children[0]);
      NoSkip(FromChild(n, 0) + ("]" + rest));
      ListRead(FromChild(n, 0) + ("]" + rest));
    }
  }

  predicate StartsLike(s: string, t: string) {
    t != "" ==> s != "" && s[0] == t[0]
  }

  lemma ChildStarts(n: Node, k: nat, rest: string)
    requires k < |n.children|
    ensures StartsLike(FromChild(n, k) + rest, Render(n.children[k]))
  {
    hide Render, RenderFrom;
  }

  lemma {:induction false} ItemsAreRead(n: Node, k: nat, rest: string)
    requires IsComplete(n) && n.rule.Array? && k < |n.children|
    ensures ReadItems(FromChild(n, k) + ("]" + rest)) == Got(MeaningsFrom(n, k), rest)
    decreases n, |n.children| - k, 0
  {
    hide ReadItems, ReadValue, Render, RenderFrom, Meaning;
    var item, more := Render(n.children[k]), RenderFrom(n, k + 1, ",");
    RenderFromChild(n, k + 1);
    Seqs.Associative(item, more, "]" + rest);
    RenderingIsRead(n.children[k], more + ("]" + rest));
    Seqs.AppendNothing("]" + rest, "");
    if k + 1 == |n.children| {
      NoSkip("]" + rest);
      LastItem(item + ("]" + rest), Meaning(n.children[k]), "]" + rest, rest);
      Seqs.AppendNothing([Meaning(n.children[k])], []);
    } else {
      ItemsAreRead(n, k + 1, rest);
      Seqs.Associative(",", FromChild(n, k + 1), "]" + rest);
      NoSkip("," + (FromChild(n, k + 1) + ("]" + rest)));
      NextItem(item + (more + ("]" + rest)), Meaning(n.children[k]), more + ("]" + rest), FromChild(n, k + 1) + ("]" + rest));
    }
  }

  lemma {:induction false} DictIsRead(n: Node, rest: string)
    requires IsComplete(n) && n.rule.Dict?
    ensures ReadValue(Render(n) + rest) == Got(Object(EntriesFrom(n, 0)), rest)
    decreases n, |n.children|, 1
  {
    hide ReadValue, ReadEntries, RenderFrom, FromChild, EntryOf, Escape, Skip;
    assert Render(n) == "{" + (RenderFrom(n, 0, ",") + "}");
    Wrapped("{", RenderFrom(n, 0, ","), "}", rest);
    RenderFromChild(n, 0);
    if n.children == [] {
      NoSkip("}" + rest);
      EmptyObjectRead("}" + rest, rest);
    } else {
      EntriesAreRead(n, 0, rest);
      EntriesStart(n, rest);
      NoSkip(FromChild(n, 0) + ("}" + rest));
      ObjectRead(FromChild(n, 0) + ("}" + rest));
    }
  }

  lemma EntriesStart(n: Node, rest: string)
    requires IsComplete(n) && n.rule.Dict? && n.children != []
    ensures var s := FromChild(n, 0) + ("}" + rest); s != "" && s[0] == QUOTE
  {
    hide Render, RenderFrom, FromChild, EntryOf, Escape;
    ChildStarts(n, 0, "}" + rest);
    EntryRendered(n.children[0]);
  }

  /** A key, a colon, a value. */
  lemma EntryRendered(n: Node)
    requires IsComplete(n) && n.rule.DictKv?
    ensures Render(n) == [QUOTE] + (Escape(EntryOf(n).0) + ([QUOTE] + (":" + Render(n.children[1]))))
    ensures Render(n) != "" && Render(n)[0] == QUOTE
  {
    hide Escape, Render, RenderFrom;
    var key, value := n.children[0], n.children[1];
    assert IsComplete(key);
    KeyRendered(key);
    TwoRendered(n);
    Joined(Escape(key.children[0].text), Render(value));
  }

  lemma TwoRendered(n: Node)
    requires n.rule.DictKv? && n.text != "" && |n.children| == 2
    ensures Render(n) == Render(n.children[0]) + Render(n.children[1])
  {
    assert Render(n) == RenderFrom(n, 0, "");
    TwoFrom(n);
  }

  lemma TwoFrom(n: Node)
    requires |n.children| == 2
    ensures RenderFrom(n, 0, "") == Render(n.children[0]) + Render(n.children[1])
  {
    hide Render;
    var key, value := Render(n.children[0]), Render(n.children[1]);
    assert RenderFrom(n, 2, "") == "";
    Seqs.AppendNothing(value, "");
    Seqs.AppendNothing(key + value, "");
  }

  lemma KeyRendered(key: Node)
    requires IsComplete(key) && key.rule.DictKey?
    ensures Render(key) == [QUOTE] + (Escape(key.children[0].text) + [QUOTE, ':'])
  {
    hide Escape;
  }

  lemma Joined(key: string, value: string)
    ensures [QUOTE] + (key + [QUOTE, ':']) + value == [QUOTE] + (key + ([QUOTE] + (":" + value)))
  {
  }

  lemma {:induction false} EntryIsRead(n: Node, rest: string)
    requires IsComplete(n) && n.rule.DictKv? && (rest == "" || !IsAtomChar(rest[0]))
    ensures ReadEntry(Render(n) + rest) == Got(EntryOf(n), rest)
    decreases n, |n.children|
  {
    hide ReadEntry, ReadLiteral, ReadValue, Render, RenderFrom, Escape, Meaning;
    EntryRendered(n);
    var name, value := Escape(EntryOf(n).0), Render(n.children[1]) + rest;
    EntryShape(name, Render(n.children[1]), rest);
    ReadsLiteral(EntryOf(n).0, ":" + value);
    RenderingIsRead(n.children[1], rest);
    NoSkip(":" + value);
    EntryRead(name + ([QUOTE] + (":" + value)), EntryOf(n).0, ":" + value, value);
  }

  lemma EntryShape(name: string, value: string, rest: string)
    ensures [QUOTE] + (name + ([QUOTE] + (":" + value))) + rest == [QUOTE] + (name + ([QUOTE] + (":" + (value + rest))))
  {
  }

  lemma {:induction false} EntriesAreRead(n: Node, k: nat, rest: string)
    requires IsComplete(n) && n.rule.Dict? && k < |n.children|
    ensures ReadEntries(FromChild(n, k) + ("}" + rest)) == Got(EntriesFrom(n, k), rest)
    decreases n, |n.children| - k, 0
  {
    hide ReadEntries, ReadEntry, Render, RenderFrom, EntryOf;
    var item, more := Render(n.children[k]), RenderFrom(n, k + 1, ",");
    RenderFromChild(n, k + 1);
    Seqs.Associative(item, more, "}" + rest);
    EntryIsRead(n.children[k], more + ("}" + rest));
    Seqs.AppendNothing("}" + rest, "");
    if k + 1 == |n.children| {
      NoSkip("}" + rest);
      LastEntry(item + ("}" + rest), EntryOf(n.children[k]), "}" + rest, rest);
      Seqs.AppendNothing([EntryOf(n.children[k])], []);
    } else {
      EntriesAreRead(n, k + 1, rest);
      Seqs.Associative(",", FromChild(n, k + 1), "}" + rest);
      NoSkip("," + (FromChild(n, k + 1) + ("}" + rest)));
      NextEntry(item + (more + ("}" + rest)), EntryOf(n.children[k]), more + ("}" + rest), FromChild(n, k + 1) + ("}" + rest));
    }
  }

  /** The arguments of a call whose dict has been parsed to its end are JSON for
      that dict, and leave nothing open. */
  lemma ToolMeans(n: Node)
    requires var args := FindByTag(n, ArgsTag, 3, 0);
      args.Some? && args.value.children != [] && IsComplete(args.value.children[0]) && args.value.children[0].rule.Dict?
    requires CallOf(n) != []
    ensures var dict := FindByTag(n, ArgsTag, 3, 0).value.children[0];
      ReadValue(CallOf(n)[0].arguments) == Got(Object(EntriesFrom(dict, 0)), "") &&
      CountAll(START, CallOf(n)[0].arguments) == START
  {
    hide FindByTag, ReadValue, Render, EntriesFrom, IsComplete, CountAll;
    var dict := FindByTag(n, ArgsTag, 3, 0).value.children[0];
    Seqs.AppendNothing(Render(dict), "");
    DictIsRead(dict, "");
    CompleteIsInert(START, dict);
  }
}
