/** Python literals turned into JSON: quotes, escapes and True, False, None. */
module Quotes {
  import Seqs
  import opened Wrappers
  import opened JsonText

  datatype Mode = Outside | Single | Double

  predicate IsWordChar(c: char) {
    'a' <= c <= 'z' || 'A' <= c <= 'Z' || '0' <= c <= '9' || c == '_'
  }

  predicate StartsLiteral(c: char) {
    c == 'T' || c == 'F' || c == 'N'
  }

  /** The word characters a text begins with. */
  function WordLength(s: string): (n: nat)
    ensures n <= |s| && (n < |s| ==> !IsWordChar(s[n]))
    ensures forall i :: 0 <= i < n ==> IsWordChar(s[i])
  {
    if s == "" || !IsWordChar(s[0]) then 0 else 1 + WordLength(s[1..])
  }

  /** A word that True, False or None begins with. */
  predicate IsLiteralPart(word: string) {
    word <= "True" || word <= "False" || word <= "None"
  }

  function LiteralToJson(word: string): (s: string)
    requires IsLiteralPart(word)
    ensures |s| == |word|
  {
    if word <= "True" then "true"[..|word|]
    else if word <= "False" then "false"[..|word|]
    else "null"[..|word|]
  }

  /** A word begins here that is read as a literal. */
  predicate LiteralAhead(s: string, mode: Mode, inWord: bool)
    requires s != ""
  {
    mode.Outside? && StartsLiteral(s[0]) && !inWord && IsLiteralPart(s[..WordLength(s)])
  }

  /** How much input is taken, what is written for it, and the quotes it ends
      in; inWord tells whether a word character stands before, outside quotes. */
  datatype Step = Step(taken: nat, written: string, mode: Mode, inWord: bool)

  function StepOf(s: string, mode: Mode, inWord: bool): (r: Step)
    requires s != ""
    ensures 1 <= r.taken <= |s|
  {
    var c := s[0];
    if c == BACKSLASH && |s| > 1 && mode.Single? then
      Step(2, if s[1] == '\'' then "'" else [c, s[1]], mode, false)
    else if c == BACKSLASH && |s| > 1 && mode.Double? then
      Step(2, [c, s[1]], mode, false)
    else if c == QUOTE then
      if mode.Single? then Step(1, "\\\"", mode, false)
      else Step(1, [c], if mode.Double? then Outside else Double, false)
    else if c == '\'' then
      if mode.Double? then Step(1, [c], mode, false)
      else Step(1, [QUOTE], if mode.Single? then Outside else Single, false)
    else if LiteralAhead(s, mode, inWord) then
      Step(WordLength(s), LiteralToJson(s[..WordLength(s)]), mode, true)
    else
      Step(1, [c], mode, mode.Outside? && IsWordChar(c))
  }

  function Convert(s: string, mode: Mode, inWord: bool): string
    decreases |s|
  {
    if s == "" then ""
    else
      var r := StepOf(s, mode, inWord);
      r.written + Convert(s[r.taken..], r.mode, r.inWord)
  }

  function Normalize(s: string): string {
    Convert(s, Outside, false)
  }

  method NormalizeQuotes(input: string) returns (result: string)
    ensures result == Normalize(input)
  {
    hide IsLiteralPart, LiteralToJson, StepOf;
    result := "";
    var inSingle, inDouble, i := false, false, 0;
    while i < |input|
      invariant i <= |input| && !(inSingle && inDouble)
      invariant Normalize(input) == result + Convert(input[i..], ModeOf(inSingle, inDouble), WordBefore(input, i, inSingle, inDouble))
    {
      var written;
      ghost var start, mode, inWord := i, ModeOf(inSingle, inDouble), WordBefore(input, i, inSingle, inDouble);
      i, inSingle, inDouble, written := Advance(input, i, inSingle, inDouble);
      Unfold(input, start, mode, inWord);
      Seqs.Associative(result, written, Convert(input[i..], ModeOf(inSingle, inDouble), WordBefore(input, i, inSingle, inDouble)));
      result := result + written;
    }
  }

  function ModeOf(inSingle: bool, inDouble: bool): Mode {
    if inSingle then Single else if inDouble then Double else Outside
  }

  predicate WordBefore(input: string, i: nat, inSingle: bool, inDouble: bool)
    requires i <= |input|
  {
    !inSingle && !inDouble && i > 0 && IsWordChar(input[i - 1])
  }

  lemma Unfold(s: string, i: nat, mode: Mode, inWord: bool)
    requires i < |s|
    ensures var r := StepOf(s[i..], mode, inWord);
      i + r.taken <= |s| && Convert(s[i..], mode, inWord) == r.written + Convert(s[i + r.taken..], r.mode, r.inWord)
  {
    var r := StepOf(s[i..], mode, inWord);
    assert s[i..][r.taken..] == s[i + r.taken..];
  }

  /** The word at i if it is read as a literal, its first character if not. */
  method ReadWord(input: string, i: nat) returns (n: nat, written: string)
    requires i < |input| && IsWordChar(input[i])
    ensures 0 < n && i + n <= |input| && IsWordChar(input[i + n - 1])
    ensures var rest := input[i..]; var word := rest[..WordLength(rest)];
      if IsLiteralPart(word) then n == |word| && written == LiteralToJson(word) else n == 1 && written == [input[i]]
  {
    hide IsLiteralPart, LiteralToJson;
    ghost var rest := input[i..];
    n := 0;
    while i + n < |input| && IsWordChar(input[i + n])
      invariant i + n <= |input| && WordLength(rest) == n + WordLength(rest[n..])
      invariant forall k :: i <= k < i + n ==> IsWordChar(input[k])
    {
      Seqs.DropCons(rest, n);
      n := n + 1;
    }
    var token := input[i..i + n];
    assert rest[..n] == token;
    var matched;
    matched, written := MatchLiteral(token);
    if !matched {
      n := 1;
      written := [input[i]];
    }
  }

  method MatchLiteral(token: string) returns (matched: bool, written: string)
    ensures matched == IsLiteralPart(token)
    ensures matched ==> written == LiteralToJson(token)
  {
    var n := |token|;
    if token <= "True" {
      return true, "true"[..n];
    } else if token <= "False" {
      return true, "false"[..n];
    } else if token <= "None" {
      return true, "null"[..n];
    }
    return false, "";
  }

  /** The body of the scanning loop. */
  method Advance(input: string, start: nat, wasSingle: bool, wasDouble: bool)
    returns (i: nat, inSingle: bool, inDouble: bool, written: string)
    requires start < |input| && !(wasSingle && wasDouble)
    ensures start < i <= |input| && !(inSingle && inDouble)
    ensures StepOf(input[start..], ModeOf(wasSingle, wasDouble), WordBefore(input, start, wasSingle, wasDouble)) ==
      Step(i - start, written, ModeOf(inSingle, inDouble), WordBefore(input, i, inSingle, inDouble))
  {
    i, inSingle, inDouble := start, wasSingle, wasDouble;
    var c := input[i];
    ghost var rest := input[start..];
    if c == '\\' && i + 1 < |input| {
      var next := input[i + 1];
      if inSingle {
        i := i + 1;
        if next == '\'' {
          written := "'";
        } else if next == '\"' {
          written := "\\\"";
        } else {
          written := [c, next];
        }
      } else if inDouble {
        written := [c, next];
        i := i + 1;
      } else {
        written := [c];
      }
    } else if c == '\"' {
      if inSingle {
        written := "\\\"";
      } else {
        inDouble := !inDouble;
        written := [c];
      }
    } else if c == '\'' {
      if inDouble {
        written := [c];
      } else {
        inSingle := !inSingle;
        written := "\"";
      }
    } else if !inSingle && !inDouble && StartsLiteral(c) && (i == 0 || !IsWordChar(input[i - 1])) {
      var n;
      n, written := ReadWord(input, i);
      i := i + n - 1;
    } else {
      written := [c];
    }
    i := i + 1;
  }

  /** Where reading on may change what has been written. */
  datatype Cut =
    | Anywhere
    | AfterBackslash        // in single quotes, before the escaped character
    | InLiteral(word: string)  // in a bare word read as a literal so far

  predicate IsLoneBackslash(s: string) {
    |s| == 1 && s[0] == BACKSLASH
  }

  /** What kind of place the end of a text is. */
  function CutAfter(s: string, mode: Mode, inWord: bool): Cut
    decreases |s|
  {
    if s == "" then Anywhere
    else if IsLoneBackslash(s) && mode.Single? then AfterBackslash
    else if LiteralAhead(s, mode, inWord) && WordLength(s) == |s| then InLiteral(s)
    else
      var r := StepOf(s, mode, inWord);
      CutAfter(s[r.taken..], r.mode, r.inWord)
  }

  predicate SafeCut(cut: Cut, rest: string) {
    match cut
    case Anywhere => true
    case AfterBackslash => rest == "" || rest[0] != '\''
    case InLiteral(word) => IsLiteralPart(word + rest[..WordLength(rest)])
  }

  lemma {:induction false} WordLengthAppend(p: string, rest: string)
    ensures WordLength(p + rest) == if WordLength(p) < |p| then WordLength(p) else |p| + WordLength(rest)
  {
    if p == "" {
      Seqs.AppendNothing(rest, p);
    } else {
      Seqs.FirstOfAppend(p, rest);
      if IsWordChar(p[0]) {
        WordLengthAppend(p[1..], rest);
      }
    }
  }

  lemma ShorterLiteralPart(word: string, more: string)
    requires word != "" && IsLiteralPart(word + more)
    ensures IsLiteralPart(word) && LiteralToJson(word) <= LiteralToJson(word + more)
  {
    assert (word + more)[..|word|] == word && (word + more)[0] == word[0];
  }

  /** More input does not change a word that ends before the cut, and does not
      turn a word that is no literal into one. */
  lemma SameWord(p: string, rest: string, mode: Mode, inWord: bool)
    requires p != "" && !(LiteralAhead(p, mode, inWord) && WordLength(p) == |p|)
    ensures LiteralAhead(p + rest, mode, inWord) == LiteralAhead(p, mode, inWord)
    ensures LiteralAhead(p, mode, inWord) ==>
      WordLength(p + rest) == WordLength(p) && (p + rest)[..WordLength(p)] == p[..WordLength(p)]
  {
    hide IsLiteralPart;
    Seqs.FirstOfAppend(p, rest);
    WordLengthAppend(p, rest);
    if WordLength(p) < |p| {
      TakeOfAppend(p, rest, WordLength(p));
    } else {
      WordReachesCut(p, rest);
      if IsLiteralPart(p + rest[..WordLength(rest)]) {
        ShorterLiteralPart(p, rest[..WordLength(rest)]);
      }
    }
  }

  lemma TakeOfAppend(p: string, rest: string, k: nat)
    requires k <= |p|
    ensures (p + rest)[..k] == p[..k]
  {
  }

  lemma WordReachesCut(p: string, rest: string)
    requires WordLength(p) == |p|
    ensures WordLength(p + rest) == |p| + WordLength(rest)
    ensures p[..WordLength(p)] == p && (p + rest)[..WordLength(p + rest)] == p + rest[..WordLength(rest)]
  {
    WordLengthAppend(p, rest);
  }

  /** More input does not change a step, unless the step touches the cut. */
  lemma SameStep(p: string, rest: string, mode: Mode, inWord: bool)
    requires p != "" && (IsLoneBackslash(p) ==> mode.Outside?)
    requires !(LiteralAhead(p, mode, inWord) && WordLength(p) == |p|)
    ensures StepOf(p + rest, mode, inWord) == StepOf(p, mode, inWord)
  {
    hide IsLiteralPart, LiteralToJson, WordLength, LiteralAhead;
    SameWord(p, rest, mode, inWord);
    var s, c := p + rest, p[0];
    assert s[0] == c;
    if |p| > 1 {
      assert s[1] == p[1];
    }
    if c == BACKSLASH && !mode.Outside? {
      assert |p| > 1;
    } else if c == QUOTE || c == '\'' {
    } else if LiteralAhead(p, mode, inWord) {
    } else {
    }
  }

  lemma PrefixUnder(a: string, b: string, c: string)
    ensures a + b <= a + c <==> b <= c
  {
    if a + b <= a + c {
      forall i | 0 <= i < |b| ensures i < |c| && b[i] == c[i] {
        assert (a + b)[|a| + i] == (a + c)[|a| + i];
      }
    }
  }

  /** Streaming: the text written for a shorter input is a prefix of the text
      written for a longer one exactly when the shorter one ends at a safe cut.
      After an unsafe cut neither is a prefix of the other. */
  lemma {:induction false} GrowsExactlyAtSafeCuts(p: string, rest: string, mode: Mode, inWord: bool)
    ensures Convert(p, mode, inWord) <= Convert(p + rest, mode, inWord) <==> SafeCut(CutAfter(p, mode, inWord), rest)
    ensures Convert(p + rest, mode, inWord) <= Convert(p, mode, inWord) ==> SafeCut(CutAfter(p, mode, inWord), rest)
    decreases |p|
  {
    hide IsLiteralPart, LiteralToJson, StepOf, LiteralAhead, WordLength;
    if p == "" {
    } else if IsLoneBackslash(p) && !mode.Outside? {
      BackslashAtCut(p, rest, mode, inWord);
    } else if LiteralAhead(p, mode, inWord) && WordLength(p) == |p| {
      LiteralAtCut(p, rest, mode, inWord);
    } else {
      var r := StepOf(p, mode, inWord);
      SameStep(p, rest, mode, inWord);
      GrowsExactlyAtSafeCuts(p[r.taken..], rest, r.mode, r.inWord);
      DropOfAppend(p, rest, r.taken);
      PrefixUnder(r.written, Convert(p[r.taken..], r.mode, r.inWord), Convert(p[r.taken..] + rest, r.mode, r.inWord));
      PrefixUnder(r.written, Convert(p[r.taken..] + rest, r.mode, r.inWord), Convert(p[r.taken..], r.mode, r.inWord));
    }
  }

  lemma DropOfAppend(p: string, rest: string, k: nat)
    requires k <= |p|
    ensures (p + rest)[k..] == p[k..] + rest
  {
  }

  lemma BackslashAtCut(p: string, rest: string, mode: Mode, inWord: bool)
    requires IsLoneBackslash(p) && !mode.Outside?
    ensures Convert(p, mode, inWord) <= Convert(p + rest, mode, inWord) <==> SafeCut(CutAfter(p, mode, inWord), rest)
    ensures Convert(p + rest, mode, inWord) <= Convert(p, mode, inWord) ==> SafeCut(CutAfter(p, mode, inWord), rest)
  {
    var s := p + rest;
    assert p[1..] == "";
    assert Convert(p, mode, inWord) == [BACKSLASH] + Convert("", mode, false);
    if rest == "" {
      assert s == p;
    } else {
      var r := StepOf(s, mode, inWord);
      assert s[1] == rest[0];
      Seqs.FirstOfAppend(r.written, Convert(s[2..], mode, false));
    }
  }

  lemma LiteralAtCut(p: string, rest: string, mode: Mode, inWord: bool)
    requires p != "" && LiteralAhead(p, mode, inWord) && WordLength(p) == |p|
    ensures Convert(p, mode, inWord) <= Convert(p + rest, mode, inWord) <==> SafeCut(CutAfter(p, mode, inWord), rest)
    ensures Convert(p + rest, mode, inWord) <= Convert(p, mode, inWord) ==> SafeCut(CutAfter(p, mode, inWord), rest)
  {
    hide Convert, StepOf, IsLiteralPart, LiteralToJson;
    WordReachesCut(p, rest);
    LiteralAlone(p, mode, inWord);
    if IsLiteralPart(p + rest[..WordLength(rest)]) {
      LiteralGoesOn(p, rest, mode, inWord);
    } else {
      LiteralBreaks(p, rest, mode, inWord);
    }
  }

  lemma LiteralAlone(p: string, mode: Mode, inWord: bool)
    requires p != "" && LiteralAhead(p, mode, inWord) && WordLength(p) == |p|
    ensures IsLiteralPart(p) && Convert(p, mode, inWord) == LiteralToJson(p)
  {
    assert p[..|p|] == p && p[|p|..] == "";
    ConvertLiteral(p, mode, inWord);
    Seqs.AppendNothing(LiteralToJson(p), Convert(p[|p|..], mode, true));
  }

  lemma LiteralGoesOn(p: string, rest: string, mode: Mode, inWord: bool)
    requires p != "" && LiteralAhead(p, mode, inWord) && WordLength(p) == |p| && IsLiteralPart(p)
    requires IsLiteralPart(p + rest[..WordLength(rest)])
    ensures LiteralToJson(p) <= Convert(p + rest, mode, inWord)
  {
    hide Convert, StepOf, IsLiteralPart, LiteralToJson;
    var word := p + rest[..WordLength(rest)];
    WordReachesCut(p, rest);
    Seqs.FirstOfAppend(p, rest);
    ShorterLiteralPart(p, rest[..WordLength(rest)]);
    ConvertLiteral(p + rest, mode, inWord);
    assert LiteralToJson(word) <= Convert(p + rest, mode, inWord);
  }

  lemma LiteralBreaks(p: string, rest: string, mode: Mode, inWord: bool)
    requires p != "" && LiteralAhead(p, mode, inWord) && WordLength(p) == |p| && IsLiteralPart(p)
    requires !IsLiteralPart(p + rest[..WordLength(rest)])
    ensures !(LiteralToJson(p) <= Convert(p + rest, mode, inWord)) && !(Convert(p + rest, mode, inWord) <= LiteralToJson(p))
  {
    hide IsLiteralPart, LiteralToJson;
    var s := p + rest;
    WordReachesCut(p, rest);
    Seqs.FirstOfAppend(p, rest);
    LiteralChanges(p);
    var r := StepOf(s, mode, inWord);
    assert r.written == [p[0]];
    Seqs.FirstOfAppend(r.written, Convert(s[r.taken..], r.mode, r.inWord));
  }

  lemma ConvertLiteral(s: string, mode: Mode, inWord: bool)
    requires s != "" && LiteralAhead(s, mode, inWord)
    ensures var n := WordLength(s); Convert(s, mode, inWord) == LiteralToJson(s[..n]) + Convert(s[n..], mode, true)
  {
  }

  lemma LiteralChanges(word: string)
    requires word != "" && IsLiteralPart(word)
    ensures LiteralToJson(word)[0] != word[0]
  {
  }

  /** The quotes that converted text lies in. */
  function Converted(mode: Mode): Mode {
    if mode.Outside? then Outside else Double
  }

  /** Word characters pass unchanged after a word character, and after anything
      else if they begin no literal. */
  lemma {:induction false} WordPasses(word: string, rest: string, inWord: bool)
    requires word != "" && forall i :: 0 <= i < |word| ==> IsWordChar(word[i])
    requires inWord || !StartsLiteral(word[0])
    ensures Convert(word + rest, Outside, inWord) == word + Convert(rest, Outside, true)
    decreases |word|
  {
    var s := word + rest;
    Seqs.FirstOfAppend(word, rest);
    assert Convert(s, Outside, inWord) == [word[0]] + Convert(word[1..] + rest, Outside, true);
    if |word| > 1 {
      WordPasses(word[1..], rest, true);
      Seqs.Associative([word[0]], word[1..], Convert(rest, Outside, true));
    } else {
      assert word[1..] + rest == rest;
      assert word == [word[0]];
    }
    Seqs.DropCons(word, 0);
  }

  lemma ConvertedWordLength(s: string)
    ensures WordLength(Convert(s, Outside, true)) == WordLength(s)
    ensures Convert(s, Outside, true)[..WordLength(s)] == s[..WordLength(s)]
  {
    var n := WordLength(s);
    if n == 0 {
      if s != "" {
        var r := StepOf(s, Outside, true);
        Seqs.FirstOfAppend(r.written, Convert(s[r.taken..], r.mode, r.inWord));
      }
    } else {
      WordPasses(s[..n], s[n..], true);
      Seqs.Split(s, n);
      var rest := Convert(s[n..], Outside, true);
      if s[n..] != "" {
        var r := StepOf(s[n..], Outside, true);
        Seqs.FirstOfAppend(r.written, Convert(s[n..][r.taken..], r.mode, r.inWord));
      }
      assert WordLength(rest) == 0;
      WordLengthAppend(s[..n], rest);
      AllWord(s[..n]);
      Seqs.Border(s[..n], rest);
    }
  }

  lemma AllWord(w: string)
    requires forall i :: 0 <= i < |w| ==> IsWordChar(w[i])
    ensures WordLength(w) == |w|
  {
  }

  /** What a step wrote is read back as one step that writes it again. */
  lemma StepAgain(s: string, mode: Mode, inWord: bool)
    requires s != "" && (inWord ==> mode.Outside?) && !LiteralAhead(s, mode, inWord)
    ensures var r := StepOf(s, mode, inWord);
      var out := r.written + Convert(s[r.taken..], r.mode, r.inWord);
      out != "" && StepOf(out, Converted(mode), inWord) == Step(|r.written|, r.written, Converted(r.mode), r.inWord)
  {
    hide IsLiteralPart, LiteralToJson, WordLength, Convert;
    var r, c := StepOf(s, mode, inWord), s[0];
    var rest := Convert(s[r.taken..], r.mode, r.inWord);
    var out := r.written + rest;
    assert out[0] == r.written[0];
    if |r.written| > 1 {
      assert out[1] == r.written[1];
    }
    if c == BACKSLASH && |s| > 1 && !mode.Outside? {
    } else if c == QUOTE || c == '\'' {
    } else if c == BACKSLASH && !mode.Outside? {
      LoneBackslashEnds(s[1..], mode);
      assert |out| == 1;
    } else if mode.Outside? && StartsLiteral(c) && !inWord {
      NoLiteralAgain(s);
    } else {
    }
  }

  lemma LoneBackslashEnds(s: string, mode: Mode)
    requires s == ""
    ensures Convert(s, mode, false) == ""
  {
  }

  lemma NoLiteralAgain(s: string)
    requires s != "" && StartsLiteral(s[0]) && !LiteralAhead(s, Outside, false)
    ensures !LiteralAhead([s[0]] + Convert(s[1..], Outside, true), Outside, false)
  {
    hide IsLiteralPart, Convert;
    var rest := Convert(s[1..], Outside, true);
    var out, n := [s[0]] + rest, WordLength(s[1..]);
    ConvertedWordLength(s[1..]);
    FirstOfWord(s[0], rest);
    FirstOfWord(s[0], s[1..]);
    Seqs.DropCons(s, 0);
    assert out[..n + 1] == s[..n + 1];
  }

  lemma FirstOfWord(c: char, rest: string)
    requires IsWordChar(c)
    ensures WordLength([c] + rest) == 1 + WordLength(rest)
    ensures ([c] + rest)[..1 + WordLength(rest)] == [c] + rest[..WordLength(rest)]
  {
    Seqs.FirstOfAppend([c], rest);
    assert [c][1..] + rest == rest;
  }

  lemma LiteralPasses(s: string, inWord: bool)
    requires s != "" && LiteralAhead(s, Outside, inWord)
    ensures var w := LiteralToJson(s[..WordLength(s)]);
      w != "" && !StartsLiteral(w[0]) && forall i :: 0 <= i < |w| ==> IsWordChar(w[i])
  {
  }

  /** Converting what has been converted changes nothing. */
  lemma {:induction false} ConvertAgain(s: string, mode: Mode, inWord: bool)
    requires inWord ==> mode.Outside?
    ensures Convert(Convert(s, mode, inWord), Converted(mode), inWord) == Convert(s, mode, inWord)
    decreases |s|
  {
    hide IsLiteralPart, LiteralToJson, WordLength, StepOf;
    if s != "" {
      var r := StepOf(s, mode, inWord);
      StepInWord(s, mode, inWord);
      ConvertAgain(s[r.taken..], r.mode, r.inWord);
      var rest := Convert(s[r.taken..], r.mode, r.inWord);
      if LiteralAhead(s, mode, inWord) {
        LiteralPasses(s, inWord);
        WordPasses(r.written, rest, inWord);
      } else {
        StepAgain(s, mode, inWord);
        Seqs.Border(r.written, rest);
      }
    }
  }

  lemma StepInWord(s: string, mode: Mode, inWord: bool)
    requires s != "" && (inWord ==> mode.Outside?)
    ensures var r := StepOf(s, mode, inWord);
      (r.inWord ==> r.mode.Outside?) &&
      (LiteralAhead(s, mode, inWord) ==> mode.Outside? && r == Step(WordLength(s), LiteralToJson(s[..WordLength(s)]), Outside, true))
  {
  }

  lemma NormalizeIdempotent(s: string)
    ensures Normalize(Normalize(s)) == Normalize(s)
  {
    ConvertAgain(s, Outside, false);
  }

  /** Reads the inside of a Python literal in single or double quotes by the
      escapes that Python and JSON share, and \'. */
  function ReadPython(s: string, quote: char := '\''): Option<string>
    decreases |s|
  {
    if s == "" then Some("")
    else if s[0] == quote || s[0] as int < 0x20 then None
    else if s[0] != BACKSLASH then Prepend(s[0], ReadPython(s[1..], quote))
    else if |s| < 2 then None
    else if s[1] == '\'' then Prepend('\'', ReadPython(s[2..], quote))
    else if s[1] == 'u' then
      if |s| < 6 || UnicodeEscape(s[2..6]).None? then None
      else Prepend(UnicodeEscape(s[2..6]).value, ReadPython(s[6..], quote))
    else if s[1] == '/' || SimpleEscape(s[1]).None? then None
    else Prepend(SimpleEscape(s[1]).value, ReadPython(s[2..], quote))
  }

  /** The text is the whole inside of a literal: it neither contains the closing
      quote nor ends in the middle of an escape. */
  predicate IsInside(s: string, quote: char := '\'')
    decreases |s|
  {
    s == "" ||
    (s[0] != quote && if s[0] == BACKSLASH then |s| > 1 && IsInside(s[2..], quote) else IsInside(s[1..], quote))
  }

  /** JSON reads the escape \/ as a slash; Python does not. */
  predicate EscapesSlash(s: string)
    decreases |s|
  {
    s != "" &&
    if s[0] == BACKSLASH then |s| > 1 && (s[1] == '/' || EscapesSlash(s[2..])) else EscapesSlash(s[1..])
  }

  /** A single-quoted literal becomes a double-quoted one around its converted inside. */
  lemma {:induction false} LiteralConverts(inside: string, rest: string)
    requires IsInside(inside)
    ensures Convert(inside + ("'" + rest), Single, false) == Convert(inside, Single, false) + ("\"" + Convert(rest, Outside, false))
    decreases |inside|
  {
    hide IsLiteralPart, LiteralToJson, WordLength, LiteralAhead;
    var tail, closed := "'" + rest, "\"" + Convert(rest, Outside, false);
    if inside == "" {
      Seqs.AppendNothing(tail, inside);
      Seqs.AppendNothing(closed, Convert(inside, Single, false));
      Seqs.FirstOfAppend("'", rest);
      Seqs.AppendNothing(rest, "'"[1..]);
    } else {
      hide StepOf;
      var r := StepOf(inside, Single, false);
      StepInside(inside, tail);
      InsideGoesOn(inside);
      LiteralConverts(inside[r.taken..], rest);
      DropOfAppend(inside, tail, r.taken);
      Seqs.Associative(r.written, Convert(inside[r.taken..], Single, false), closed);
    }
  }

  /** A double-quoted literal passes as it is. */
  lemma {:induction false} DoublePasses(inside: string, rest: string)
    requires IsInside(inside, QUOTE)
    ensures Convert(inside + ("\"" + rest), Double, false) == inside + ("\"" + Convert(rest, Outside, false))
    decreases |inside|
  {
    hide IsLiteralPart, LiteralToJson, WordLength, LiteralAhead;
    var tail, closed := "\"" + rest, "\"" + Convert(rest, Outside, false);
    if inside == "" {
      Seqs.AppendNothing(tail, inside);
      Seqs.AppendNothing(closed, inside);
      Seqs.FirstOfAppend("\"", rest);
      Seqs.AppendNothing(rest, "\""[1..]);
    } else {
      hide StepOf;
      var n := if inside[0] == BACKSLASH then 2 else 1;
      DoubleStep(inside, tail);
      DoublePasses(inside[n..], rest);
      DropOfAppend(inside, tail, n);
      Seqs.Split(inside, n);
      Seqs.Associative(inside[..n], inside[n..], closed);
    }
  }

  lemma DoubleStep(inside: string, tail: string)
    requires inside != "" && IsInside(inside, QUOTE)
    ensures var n := if inside[0] == BACKSLASH then 2 else 1;
      n <= |inside| && IsInside(inside[n..], QUOTE) && StepOf(inside + tail, Double, false) == Step(n, inside[..n], Double, false)
  {
    hide IsLiteralPart, LiteralToJson, WordLength;
    assert (inside + tail)[0] == inside[0];
    if inside[0] == BACKSLASH {
      assert (inside + tail)[1] == inside[1];
    }
  }

  /** The inside holds the escape \'. */
  predicate EscapesSingle(s: string)
    decreases |s|
  {
    s != "" &&
    if s[0] == BACKSLASH then |s| > 1 && (s[1] == '\'' || EscapesSingle(s[2..])) else EscapesSingle(s[1..])
  }

  /** What Python reads in double quotes JSON reads alike, or, where the quote
      that needs no escape has one, not at all. */
  lemma {:induction false} DoubleMeaning(s: string)
    requires ReadPython(s, QUOTE).Some?
    ensures IsInside(s, QUOTE)
    ensures ReadString(s) == if EscapesSingle(s) then None else ReadPython(s, QUOTE)
    decreases |s|
  {
    hide UnicodeEscape, SimpleEscape;
    if s == "" {
    } else if s[0] != BACKSLASH {
      DoubleMeaning(s[1..]);
    } else if s[1] == '\'' {
      DoubleMeaning(s[2..]);
      assert SimpleEscape('\'') == None by { NoSingleEscape(); }
    } else if s[1] == 'u' {
      DoubleMeaning(s[6..]);
      assert s[2..][..4] == s[2..6];
      FourHex(s[2..]);
      assert s[2..][4..] == s[6..];
    } else {
      DoubleMeaning(s[2..]);
    }
  }

  lemma NoSingleEscape()
    ensures SimpleEscape('\'') == None
  {
  }

  lemma FourHex(s: string)
    requires |s| >= 4 && UnicodeEscape(s[..4]).Some?
    ensures IsInside(s, QUOTE) == IsInside(s[4..], QUOTE) && EscapesSingle(s) == EscapesSingle(s[4..])
  {
    hide UnicodeEscape;
    assert forall i :: 0 <= i < 4 ==> HexValue(s[i]).Some? by { HexFour(s[..4]); }
    assert s[1..][1..] == s[2..] && s[2..][1..] == s[3..] && s[3..][1..] == s[4..];
    HexDigitPasses(s);
    HexDigitPasses(s[1..]);
    HexDigitPasses(s[2..]);
    HexDigitPasses(s[3..]);
  }

  lemma HexFour(four: string)
    requires |four| == 4 && UnicodeEscape(four).Some?
    ensures forall i :: 0 <= i < 4 ==> HexValue(four[i]).Some?
  {
    forall i | 0 <= i < 4 ensures HexValue(four[i]).Some? {
      if i == 0 {} else if i == 1 {} else if i == 2 {} else {}
    }
  }

  lemma HexDigitPasses(s: string)
    requires s != "" && HexValue(s[0]).Some?
    ensures IsInside(s, QUOTE) == IsInside(s[1..], QUOTE) && EscapesSingle(s) == EscapesSingle(s[1..])
  {
  }

  lemma StepInside(inside: string, tail: string)
    requires inside != "" && IsInside(inside)
    ensures StepOf(inside + tail, Single, false) == StepOf(inside, Single, false)
  {
    hide IsLiteralPart, LiteralToJson, WordLength;
    var s := inside + tail;
    assert s[0] == inside[0];
    if |inside| > 1 {
      assert s[1] == inside[1];
    }
    if inside[0] == BACKSLASH {
    } else if inside[0] == QUOTE {
    } else {
    }
  }

  lemma InsideGoesOn(s: string)
    requires s != "" && IsInside(s)
    ensures var r := StepOf(s, Single, false); r.mode == Single && !r.inWord && IsInside(s[r.taken..])
  {
  }

  /** How the inside of a single-quoted literal is converted, character by character. */
  lemma InsideUnfolds(s: string)
    requires s != "" && IsInside(s)
    ensures s[0] == BACKSLASH ==>
      |s| > 1 && IsInside(s[2..]) &&
      Convert(s, Single, false) == (if s[1] == '\'' then "'" else [BACKSLASH, s[1]]) + Convert(s[2..], Single, false)
    ensures s[0] == QUOTE ==> IsInside(s[1..]) && Convert(s, Single, false) == [BACKSLASH, QUOTE] + Convert(s[1..], Single, false)
    ensures s[0] != BACKSLASH && s[0] != QUOTE ==> IsInside(s[1..]) && Convert(s, Single, false) == [s[0]] + Convert(s[1..], Single, false)
  {
    hide IsLiteralPart, LiteralToJson, WordLength;
  }

  /** A text begins with k hexadecimal digits. */
  predicate HexFirst(s: string, k: nat) {
    k <= |s| && forall i :: 0 <= i < k ==> HexValue(s[i]).Some?
  }

  lemma {:induction false} HexPasses(s: string, k: nat)
    requires IsInside(s)
    ensures HexFirst(s, k) <==> HexFirst(Convert(s, Single, false), k)
    ensures HexFirst(s, k) ==> IsInside(s[k..]) && Convert(s, Single, false) == s[..k] + Convert(s[k..], Single, false)
    ensures HexFirst(s, k) ==> EscapesSlash(s) == EscapesSlash(s[k..])
    decreases k
  {
    hide StepOf, Convert;
    if k == 0 {
      assert s[0..] == s;
      Seqs.AppendNothing(Convert(s, Single, false), s[..0]);
    } else if s == "" {
      assert Convert(s, Single, false) == "" by { ConvertNothing(s); }
    } else {
      InsideUnfolds(s);
      var out := Convert(s, Single, false);
      if HexValue(s[0]).None? {
        assert HexValue(out[0]).None?;
      } else {
        var rest := Convert(s[1..], Single, false);
        HexPasses(s[1..], k - 1);
        HexFirstCons(s[0], s[1..], k);
        HexFirstCons(s[0], rest, k);
        Seqs.DropCons(s, 0);
        if HexFirst(s, k) {
          assert s[1..][k - 1..] == s[k..] && s[..k] == [s[0]] + s[1..][..k - 1];
          Seqs.Associative([s[0]], s[1..][..k - 1], Convert(s[k..], Single, false));
        }
      }
    }
  }

  lemma ConvertNothing(s: string)
    requires s == ""
    ensures Convert(s, Single, false) == ""
  {
  }

  lemma HexFirstCons(c: char, rest: string, k: nat)
    requires k > 0 && HexValue(c).Some?
    ensures HexFirst([c] + rest, k) <==> HexFirst(rest, k - 1)
  {
    if HexFirst([c] + rest, k) {
      forall i | 0 <= i < k - 1 ensures HexValue(rest[i]).Some? {
        assert rest[i] == ([c] + rest)[i + 1];
      }
    }
  }

  ghost predicate SameMeaning(s: string) {
    var py, js := ReadPython(s), ReadString(Convert(s, Single, false));
    (py.Some? <==> js.Some? && !EscapesSlash(s)) && (py.Some? ==> js == py)
  }

  /** The converted literal reads, as JSON, to the characters that the Python
      literal stands for; it is readable exactly when the Python literal is,
      but for the escaped slash that only JSON knows. */
  lemma MeaningKept(inside: string)
    requires IsInside(inside)
    ensures var py, js := ReadPython(inside), ReadString(Convert(inside, Single, false));
      (py.Some? <==> js.Some? && !EscapesSlash(inside)) && (py.Some? ==> js == py)
  {
    MeaningKeptFor(inside);
  }

  lemma {:induction false} MeaningKeptFor(s: string)
    requires IsInside(s)
    ensures SameMeaning(s)
    decreases |s|
  {
    hide StepOf, Convert, UnicodeEscape;
    if s == "" {
      ConvertNothing(s);
    } else {
      InsideUnfolds(s);
      if s[0] != BACKSLASH {
        MeaningKeptFor(s[1..]);
        PlainKept(s);
      } else if s[1] != 'u' {
        MeaningKeptFor(s[2..]);
        EscapeKept(s);
      } else {
        HexPasses(s[2..], 4);
        if HexFirst(s[2..], 4) {
          assert s[2..][4..] == s[6..];
          MeaningKeptFor(s[6..]);
        }
        UnicodeKept(s);
      }
    }
  }

  lemma PlainKept(s: string)
    requires s != "" && IsInside(s) && s[0] != BACKSLASH && SameMeaning(s[1..])
    ensures SameMeaning(s)
  {
    hide StepOf, Convert, UnicodeEscape;
    InsideUnfolds(s);
    var rest, out := Convert(s[1..], Single, false), Convert(s, Single, false);
    if s[0] == QUOTE {
      assert out[0] == BACKSLASH && out[1] == QUOTE && out[2..] == rest;
    } else {
      assert out[0] == s[0] && out[1..] == rest;
    }
  }

  lemma EscapeKept(s: string)
    requires |s| > 1 && IsInside(s) && s[0] == BACKSLASH && s[1] != 'u' && SameMeaning(s[2..])
    ensures SameMeaning(s)
  {
    hide StepOf, Convert, UnicodeEscape;
    InsideUnfolds(s);
    var rest, out := Convert(s[2..], Single, false), Convert(s, Single, false);
    if s[1] == '\'' {
      assert out[0] == '\'' && out[1..] == rest;
    } else {
      assert out[0] == BACKSLASH && out[1] == s[1] && out[2..] == rest;
    }
  }

  lemma UnicodeKept(s: string)
    requires |s| > 1 && IsInside(s) && s[0] == BACKSLASH && s[1] == 'u'
    requires HexFirst(s[2..], 4) ==> SameMeaning(s[6..])
    ensures SameMeaning(s)
  {
    hide StepOf, Convert;
    InsideUnfolds(s);
    HexPasses(s[2..], 4);
    var rest, out := Convert(s[2..], Single, false), Convert(s, Single, false);
    assert out[0] == BACKSLASH && out[1] == 'u' && out[2..] == rest;
    if HexFirst(s[2..], 4) {
      assert s[2..][..4] == s[2..6] && s[2..][4..] == s[6..];
      Seqs.Border(s[2..6], Convert(s[6..], Single, false));
      assert rest[..4] == out[2..6] && rest[4..] == out[6..];
    } else {
      if |s| >= 6 { NotHex(s[2..], s[2..6]); }
      if |out| >= 6 { NotHex(rest, out[2..6]); }
    }
  }

  lemma NotHex(s: string, four: string)
    requires |s| >= 4 && |four| == 4 && four == s[..4] && !HexFirst(s, 4)
    ensures UnicodeEscape(four).None?
  {
    hide HexValue;
    var i :| 0 <= i < 4 && HexValue(s[i]).None?;
    assert four[i] == s[i];
  }

  /** Text that is JSON already as far as quotes and literals go: no single quote
      and no bare True, False or None, nor a part of one, outside double quotes. */
  predicate IsJsonAlready(s: string, inString: bool, inWord: bool)
    decreases |s|
  {
    s == "" ||
    if inString then
      if s[0] == BACKSLASH && |s| > 1 then IsJsonAlready(s[2..], true, false)
      else IsJsonAlready(s[1..], s[0] != QUOTE, false)
    else
      s[0] != '\'' && !LiteralAhead(s, Outside, inWord) && IsJsonAlready(s[1..], s[0] == QUOTE, s[0] != QUOTE && IsWordChar(s[0]))
  }

  lemma StepAlike(s: string, inString: bool, inWord: bool)
    requires s != "" && (inString ==> !inWord) && (inString || !LiteralAhead(s, Outside, inWord))
    ensures var r := StepOf(s, if inString then Double else Outside, inWord);
      |r.written| == r.taken && (r.written == s[..r.taken] ==> !r.mode.Single?) && (r.mode.Double? ==> !r.inWord) &&
      (IsJsonAlready(s, inString, inWord) <==>
       r.written == s[..r.taken] && IsJsonAlready(s[r.taken..], r.mode.Double?, r.inWord))
  {
    hide IsLiteralPart, LiteralToJson, WordLength;
    if inString {
    } else if s[0] == '\'' {
      assert s[..1][0] == '\'';
    } else {
    }
  }

  /** Text is left as it is exactly when it is of that kind. */
  lemma {:induction false} UnchangedExactly(s: string, inString: bool, inWord: bool)
    requires inString ==> !inWord
    ensures Convert(s, if inString then Double else Outside, inWord) == s <==> IsJsonAlready(s, inString, inWord)
    decreases |s|
  {
    hide StepOf, LiteralAhead;
    var mode := if inString then Double else Outside;
    if s == "" {
    } else if !inString && LiteralAhead(s, mode, inWord) {
      LiteralRewritten(s, inWord);
      NotAlready(s, inWord);
    } else {
      hide IsJsonAlready;
      var r := StepOf(s, mode, inWord);
      StepAlike(s, inString, inWord);
      if r.written == s[..r.taken] {
        UnchangedExactly(s[r.taken..], r.mode.Double?, r.inWord);
      }
      SameFront(r.written, Convert(s[r.taken..], r.mode, r.inWord), s, r.taken);
    }
  }

  lemma NotAlready(s: string, inWord: bool)
    requires s != "" && LiteralAhead(s, Outside, inWord)
    ensures !IsJsonAlready(s, false, inWord)
  {
  }

  lemma LiteralRewritten(s: string, inWord: bool)
    requires s != "" && LiteralAhead(s, Outside, inWord)
    ensures Convert(s, Outside, inWord) != s
  {
    LiteralPasses(s, inWord);
    ConvertLiteral(s, Outside, inWord);
    var n := WordLength(s);
    Seqs.FirstOfAppend(LiteralToJson(s[..n]), Convert(s[n..], Outside, true));
  }

  lemma SameFront(a: string, b: string, s: string, n: nat)
    requires |a| == n <= |s|
    ensures a + b == s <==> a == s[..n] && b == s[n..]
  {
    Seqs.Border(a, b);
    Seqs.Split(s, n);
  }

  function JsonOf(word: string): string {
    if word == "True" then "true" else if word == "False" then "false" else "null"
  }

  lemma WholeLiteral(word: string)
    requires word in {"True", "False", "None"}
    ensures IsLiteralPart(word) && StartsLiteral(word[0]) && LiteralToJson(word) == JsonOf(word)
    ensures forall i :: 0 <= i < |word| ==> IsWordChar(word[i])
  {
    if word == "True" {
    } else if word == "False" {
      assert word[0] != "True"[0];
    } else {
      assert word[0] != "True"[0] && word[0] != "False"[0];
    }
  }

  /** A whole literal, alone or before anything that does not continue the word. */
  lemma LiteralsConvert(word: string, rest: string)
    requires word in {"True", "False", "None"} && (rest == "" || !IsWordChar(rest[0]))
    ensures Normalize(word + rest) == JsonOf(word) + Convert(rest, Outside, true)
  {
    hide IsLiteralPart, LiteralToJson, WordLength, JsonOf, StartsLiteral, Convert, IsWordChar;
    var s, n := word + rest, |word|;
    WholeLiteral(word);
    AllWord(word);
    WordLengthAppend(word, rest);
    assert WordLength(rest) == 0 by { NoWord(rest); }
    Seqs.Border(word, rest);
    assert s[0] == word[0];
    ConvertLiteral(s, Outside, false);
  }

  lemma NoWord(rest: string)
    requires rest == "" || !IsWordChar(rest[0])
    ensures WordLength(rest) == 0
  {
  }
}
