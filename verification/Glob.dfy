/** Glob patterns: what the matcher accepts is what its tokens describe. */
module Glob {
  import Seqs

  /** The characters of a class, as ranges; a single character is a range of one. */
  datatype Range = Range(low: char, high: char)

  datatype Token = Anything | Star | One | Class(negated: bool, ranges: seq<Range>) | Literal(c: char)

  /** Bytes compare as signed numbers. */
  function Signed(c: char): int {
    if 128 <= c as int < 256 then c as int - 256 else c as int
  }

  predicate InRange(c: char, r: Range) {
    Signed(r.low) <= Signed(c) <= Signed(r.high)
  }

  predicate InRanges(c: char, rs: seq<Range>) {
    exists i :: 0 <= i < |rs| && InRange(c, rs[i])
  }

  function Ranges(s: string): seq<Range>
    decreases |s|
  {
    if s == "" then []
    else if |s| > 2 && s[1] == '-' && s[2] != ']' then [Range(s[0], s[2])] + Ranges(s[3..])
    else [Range(s[0], s[0])] + Ranges(s[1..])
  }

  /** A leading bracket or dash is a character of the class, never part of a range. */
  function AfterNegation(s: string): seq<Range> {
    if s != "" && (s[0] == ']' || s[0] == '-') then [Range(s[0], s[0])] + Ranges(s[1..]) else Ranges(s)
  }

  function ClassOf(s: string): Token {
    if s != "" && s[0] == '!' then Class(true, AfterNegation(s[1..])) else Class(false, AfterNegation(s))
  }

  /** The end of the class that starts a pattern: its bracket, or the end of the
      pattern when there is none. */
  function ClassEnd(p: string, k: nat): (e: nat)
    requires k <= |p|
    ensures k <= e <= |p| && (e < |p| ==> p[e] == ']')
    decreases |p| - k
  {
    if k == |p| || p[k] == ']' then k else ClassEnd(p, k + 1)
  }

  function ClassStart(p: string): (k: nat)
    requires p != ""
    ensures 1 <= k <= |p|
  {
    if |p| > 1 && (p[1] == ']' || p[1] == '-') then 2 else 1
  }

  function Tokens(p: string): seq<Token>
    decreases |p|
  {
    if p == "" then []
    else if |p| > 1 && p[0] == '*' && p[1] == '*' then [Anything] + Tokens(p[2..])
    else if p[0] == '*' then [Star] + Tokens(p[1..])
    else if p[0] == '?' then [One] + Tokens(p[1..])
    else if p[0] == '[' then
      var e := ClassEnd(p, ClassStart(p));
      if e < |p| then [ClassOf(p[1..e])] + Tokens(p[e + 1..]) else [Literal('[')] + Tokens(p[1..])
    else [Literal(p[0])] + Tokens(p[1..])
  }

  /** The texts that one token stands for. */
  predicate Accepts(t: Token, s: string) {
    match t
    case Anything => true
    case Star => '/' !in s
    case One => |s| == 1 && s[0] != '/'
    case Class(negated, rs) => |s| == 1 && InRanges(s[0], rs) != negated
    case Literal(c) => |s| == 1 && s[0] == c
  }

  function Joined(pieces: seq<string>): string {
    if pieces == [] then "" else pieces[0] + Joined(pieces[1..])
  }

  predicate IsSplit(ts: seq<Token>, s: string, pieces: seq<string>) {
    |pieces| == |ts| && Joined(pieces) == s && forall i :: 0 <= i < |ts| ==> Accepts(ts[i], pieces[i])
  }

  /** A text matches when it can be cut into pieces, one for each token. */
  ghost predicate Matches(ts: seq<Token>, s: string) {
    exists pieces :: IsSplit(ts, s, pieces)
  }

  lemma MatchesNothing(s: string)
    ensures Matches([], s) <==> s == ""
  {
    if s == "" {
      assert IsSplit([], s, []);
    }
  }

  lemma SplitFirst(ts: seq<Token>, s: string, pieces: seq<string>)
    requires ts != [] && IsSplit(ts, s, pieces)
    ensures var k := |pieces[0]|; k <= |s| && Accepts(ts[0], s[..k]) && Matches(ts[1..], s[k..])
  {
    hide Accepts;
    Seqs.Border(pieces[0], Joined(pieces[1..]));
    assert IsSplit(ts[1..], s[|pieces[0]|..], pieces[1..]);
  }

  lemma JoinFirst(ts: seq<Token>, s: string, k: nat, rest: seq<string>)
    requires ts != [] && k <= |s| && Accepts(ts[0], s[..k]) && IsSplit(ts[1..], s[k..], rest)
    ensures IsSplit(ts, s, [s[..k]] + rest)
  {
    hide Accepts;
    var pieces := [s[..k]] + rest;
    Seqs.Border([s[..k]], rest);
    Seqs.Split(s, k);
    forall i | 0 <= i < |ts| ensures Accepts(ts[i], pieces[i]) {
      if i > 0 {
        assert ts[i] == ts[1..][i - 1] && pieces[i] == rest[i - 1];
      }
    }
  }

  /** The first token takes some piece in front, the others the rest. */
  lemma MatchesFirst(ts: seq<Token>, s: string)
    requires ts != []
    ensures Matches(ts, s) <==> exists k :: 0 <= k <= |s| && Accepts(ts[0], s[..k]) && Matches(ts[1..], s[k..])
  {
    hide Accepts, IsSplit;
    if Matches(ts, s) {
      var pieces :| IsSplit(ts, s, pieces);
      assert pieces != [] by { SplitLength(ts, s, pieces); }
      SplitFirst(ts, s, pieces);
    }
    if k :| 0 <= k <= |s| && Accepts(ts[0], s[..k]) && Matches(ts[1..], s[k..]) {
      var rest :| IsSplit(ts[1..], s[k..], rest);
      JoinFirst(ts, s, k, rest);
    }
  }

  lemma SplitLength(ts: seq<Token>, s: string, pieces: seq<string>)
    requires IsSplit(ts, s, pieces)
    ensures |pieces| == |ts|
  {
  }

  lemma FirstTaken(ts: seq<Token>, s: string, k: nat)
    requires ts != [] && k <= |s| && Accepts(ts[0], s[..k]) && Matches(ts[1..], s[k..])
    ensures Matches(ts, s)
  {
    MatchesFirst(ts, s);
  }

  /** A token for exactly one character. */
  lemma MatchesOne(ts: seq<Token>, s: string)
    requires ts != [] && !ts[0].Anything? && !ts[0].Star?
    ensures Matches(ts, s) <==> s != "" && Accepts(ts[0], [s[0]]) && Matches(ts[1..], s[1..])
  {
    MatchesFirst(ts, s);
    if Matches(ts, s) {
      var k :| 0 <= k <= |s| && Accepts(ts[0], s[..k]) && Matches(ts[1..], s[k..]);
      assert k == 1 && s[..1] == [s[0]];
    }
    if s != "" && Accepts(ts[0], [s[0]]) && Matches(ts[1..], s[1..]) {
      assert s[..1] == [s[0]];
      FirstTaken(ts, s, 1);
    }
  }

  lemma MatchesAnything(ts: seq<Token>, s: string)
    requires ts != [] && ts[0].Anything?
    ensures Matches(ts, s) <==> Matches(ts[1..], s) || (s != "" && Matches(ts, s[1..]))
  {
    MatchesFirst(ts, s);
    if Matches(ts, s) {
      var k :| 0 <= k <= |s| && Accepts(ts[0], s[..k]) && Matches(ts[1..], s[k..]);
      if k == 0 {
        assert s[0..] == s;
      } else {
        assert s[1..][k - 1..] == s[k..];
        FirstTaken(ts, s[1..], k - 1);
      }
    }
    if Matches(ts[1..], s) {
      assert s[0..] == s;
      FirstTaken(ts, s, 0);
    }
    if s != "" && Matches(ts, s[1..]) {
      MatchesFirst(ts, s[1..]);
      var k :| 0 <= k <= |s| - 1 && Accepts(ts[0], s[1..][..k]) && Matches(ts[1..], s[1..][k..]);
      assert s[1..][k..] == s[k + 1..];
      FirstTaken(ts, s, k + 1);
    }
  }

  /** A star takes up to the next slash. */
  lemma MatchesStar(ts: seq<Token>, s: string)
    requires ts != [] && ts[0].Star?
    ensures Matches(ts, s) <==> Matches(ts[1..], s) || (s != "" && s[0] != '/' && Matches(ts, s[1..]))
  {
    hide Matches;
    if Matches(ts, s) {
      StarTakes(ts, s);
    }
    if Matches(ts[1..], s) {
      assert s[0..] == s;
      FirstTaken(ts, s, 0);
    }
    if s != "" && s[0] != '/' && Matches(ts, s[1..]) {
      StarTakesMore(ts, s);
    }
  }

  lemma StarTakes(ts: seq<Token>, s: string)
    requires ts != [] && ts[0].Star? && Matches(ts, s)
    ensures Matches(ts[1..], s) || (s != "" && s[0] != '/' && Matches(ts, s[1..]))
  {
    hide Matches;
    MatchesFirst(ts, s);
    var k :| 0 <= k <= |s| && Accepts(ts[0], s[..k]) && Matches(ts[1..], s[k..]);
    if k == 0 {
      assert s[0..] == s;
    } else {
      Seqs.RestOfTake(s, k);
      assert s[1..][k - 1..] == s[k..];
      FirstTaken(ts, s[1..], k - 1);
    }
  }

  lemma StarTakesMore(ts: seq<Token>, s: string)
    requires ts != [] && ts[0].Star? && s != "" && s[0] != '/' && Matches(ts, s[1..])
    ensures Matches(ts, s)
  {
    hide Matches;
    MatchesFirst(ts, s[1..]);
    var k :| 0 <= k <= |s| - 1 && Accepts(ts[0], s[1..][..k]) && Matches(ts[1..], s[1..][k..]);
    assert s[1..][k..] == s[k + 1..] && s[..k + 1] == [s[0]] + s[1..][..k];
    FirstTaken(ts, s, k + 1);
  }

  // The matcher

  /** The ranges from a place on, one step at a time. */
  lemma RangesAt(c: char, s: string, i: nat)
    requires i <= |s|
    ensures i == |s| ==> !InRanges(c, Ranges(s[i..]))
    ensures i + 2 < |s| && s[i + 1] == '-' && s[i + 2] != ']' ==>
      (InRanges(c, Ranges(s[i..])) <==> Signed(s[i]) <= Signed(c) <= Signed(s[i + 2]) || InRanges(c, Ranges(s[i + 3..])))
    ensures i < |s| && !(i + 2 < |s| && s[i + 1] == '-' && s[i + 2] != ']') ==>
      (InRanges(c, Ranges(s[i..])) <==> s[i] == c || InRanges(c, Ranges(s[i + 1..])))
  {
    hide InRanges;
    if i == |s| {
      NoRange(c);
    } else if i + 2 < |s| && s[i + 1] == '-' && s[i + 2] != ']' {
      assert s[i..][3..] == s[i + 3..];
      FirstRange(c, s[i + 3..], Range(s[i], s[i + 2]));
    } else {
      assert s[i..][1..] == s[i + 1..];
      FirstRange(c, s[i + 1..], Range(s[i], s[i]));
    }
  }

  lemma NoRange(c: char)
    ensures !InRanges(c, [])
  {
  }

  method MatchRanges(c: char, s: string, from: nat) returns (matched: bool)
    requires from <= |s|
    ensures matched <==> InRanges(c, Ranges(s[from..]))
  {
    hide InRanges, Ranges, Signed;
    matched := false;
    var i := from;
    while i < |s|
      invariant i <= |s| && !matched && (InRanges(c, Ranges(s[from..])) <==> InRanges(c, Ranges(s[i..])))
    {
      RangesAt(c, s, i);
      if i + 2 < |s| && s[i + 1] == '-' && s[i + 2] != ']' {
        if Signed(s[i]) <= Signed(c) <= Signed(s[i + 2]) {
          return true;
        }
        i := i + 3;
      } else {
        if s[i] == c {
          return true;
        }
        i := i + 1;
      }
    }
    RangesAt(c, s, i);
  }

  /** One character against the inside of a class. */
  method GlobClassMatch(c: char, s: string) returns (b: bool)
    ensures ClassOf(s).Class? && (b <==> Accepts(ClassOf(s), [c]))
  {
    hide InRanges, Ranges;
    var negated := false;
    var i := 0;
    assert s[0..] == s;
    if s != "" && s[0] == '!' {
      negated := true;
      i := 1;
    }
    if i < |s| && (s[i] == ']' || s[i] == '-') {
      assert s[i..][1..] == s[i + 1..];
      FirstRange(c, s[i + 1..], Range(s[i], s[i]));
      if s[i] == c {
        return !negated;
      }
      i := i + 1;
    }
    var matched := MatchRanges(c, s, i);
    b := if negated then !matched else matched;
  }

  lemma FirstRange(c: char, rest: string, r: Range)
    ensures InRanges(c, [r] + Ranges(rest)) <==> InRange(c, r) || InRanges(c, Ranges(rest))
  {
    var rs := [r] + Ranges(rest);
    if InRange(c, r) {
      assert rs[0] == r;
    }
    if i :| 0 <= i < |Ranges(rest)| && InRange(c, Ranges(rest)[i]) {
      assert rs[i + 1] == Ranges(rest)[i];
    }
  }

  /** The pattern and the text end at the first zero byte. */
  function CString(s: string): (t: string)
    ensures t <= s && '\0' !in t && (|t| < |s| ==> s[|t|] == '\0')
  {
    if s == "" || s[0] == '\0' then "" else [s[0]] + CString(s[1..])
  }

  method FindClassEnd(p: string) returns (e: nat)
    requires p != ""
    ensures e == ClassEnd(p, ClassStart(p))
  {
    e := 1;
    if |p| > 1 && (p[1] == ']' || p[1] == '-') {
      e := 2;
    }
    while e < |p| && p[e] != ']'
      invariant e <= |p| && ClassEnd(p, ClassStart(p)) == ClassEnd(p, e)
    {
      e := e + 1;
    }
  }

  method GlobMatchFrom(p: string, s: string) returns (b: bool)
    ensures b <==> Matches(Tokens(p), s)
    decreases |p|, |s|
  {
    hide Matches, ClassEnd, ClassOf;
    if p == "" {
      MatchesNothing(s);
      return s == "";
    }
    TokensFirst(p);
    if |p| > 1 && p[0] == '*' && p[1] == '*' {
      MatchesAnything(Tokens(p), s);
      b := GlobMatchFrom(p[2..], s);
      if !b && s != "" {
        b := GlobMatchFrom(p, s[1..]);
      }
    } else if p[0] == '*' {
      b := GlobMatchStar(p, s);
    } else if p[0] == '?' && s != "" && s[0] != '/' {
      MatchesOne(Tokens(p), s);
      b := GlobMatchFrom(p[1..], s[1..]);
    } else if p[0] == '[' {
      b := GlobMatchClass(p, s);
    } else {
      MatchesOne(Tokens(p), s);
      if s != "" && p[0] == s[0] {
        b := GlobMatchFrom(p[1..], s[1..]);
      } else {
        b := false;
      }
    }
  }

  lemma TokensFirst(p: string)
    requires p != ""
    ensures var ts := Tokens(p);
      ts != [] &&
      (if |p| > 1 && p[0] == '*' && p[1] == '*' then ts[0] == Anything && ts[1..] == Tokens(p[2..])
       else if p[0] == '*' then ts[0] == Star && ts[1..] == Tokens(p[1..])
       else if p[0] == '?' then ts[0] == One && ts[1..] == Tokens(p[1..])
       else if p[0] != '[' then ts[0] == Literal(p[0]) && ts[1..] == Tokens(p[1..])
       else
         var e := ClassEnd(p, ClassStart(p));
         if e < |p| then ts[0] == ClassOf(p[1..e]) && ts[1..] == Tokens(p[e + 1..])
         else ts[0] == Literal('[') && ts[1..] == Tokens(p[1..]))
  {
    hide ClassEnd, ClassOf;
    if |p| > 1 && p[0] == '*' && p[1] == '*' {
      Seqs.Border([Anything], Tokens(p[2..]));
    } else if p[0] == '*' {
      Seqs.Border([Star], Tokens(p[1..]));
    } else if p[0] == '?' {
      Seqs.Border([One], Tokens(p[1..]));
    } else if p[0] != '[' {
      Seqs.Border([Literal(p[0])], Tokens(p[1..]));
    } else if ClassEnd(p, ClassStart(p)) < |p| {
      var e := ClassEnd(p, ClassStart(p));
      Seqs.Border([ClassOf(p[1..e])], Tokens(p[e + 1..]));
    } else {
      Seqs.Border([Literal('[')], Tokens(p[1..]));
    }
  }

  method GlobMatchStar(p: string, s: string) returns (b: bool)
    requires p != "" && p[0] == '*' && !(|p| > 1 && p[1] == '*')
    ensures b <==> Matches(Tokens(p), s)
    decreases |p|, |s|, 0
  {
    hide Matches, ClassEnd, ClassOf;
    TokensFirst(p);
    var i := 0;
    assert s[0..] == s;
    while i < |s| && s[i] != '/'
      invariant i <= |s| && (Matches(Tokens(p), s) <==> Matches(Tokens(p), s[i..]))
    {
      MatchesStar(Tokens(p), s[i..]);
      Seqs.DropCons(s, i);
      b := GlobMatchFrom(p[1..], s[i..]);
      if b {
        return true;
      }
      i := i + 1;
    }
    MatchesStar(Tokens(p), s[i..]);
    b := GlobMatchFrom(p[1..], s[i..]);
  }

  method GlobMatchClass(p: string, s: string) returns (b: bool)
    requires p != "" && p[0] == '['
    ensures b <==> Matches(Tokens(p), s)
    decreases |p|, |s|, 0
  {
    hide Matches, ClassEnd, Ranges, InRanges;
    TokensFirst(p);
    MatchesOne(Tokens(p), s);
    var e := FindClassEnd(p);
    if e < |p| {
      if s == "" {
        return false;
      }
      var matched := GlobClassMatch(s[0], p[1..e]);
      if matched {
        b := GlobMatchFrom(p[e + 1..], s[1..]);
      } else {
        b := false;
      }
    } else if s != "" && s[0] == '[' {
      b := GlobMatchFrom(p[1..], s[1..]);
    } else {
      b := false;
    }
  }

  method GlobMatch(pattern: string, s: string) returns (b: bool)
    ensures b <==> Matches(Tokens(CString(pattern)), CString(s))
  {
    b := GlobMatchFrom(CString(pattern), CString(s));
  }

  function Slashes(s: string): nat {
    if s == "" then 0 else (if s[0] == '/' then 1 else 0) + Slashes(s[1..])
  }

  function LiteralSlashes(ts: seq<Token>): nat {
    if ts == [] then 0 else (if ts[0] == Literal('/') then 1 else 0) + LiteralSlashes(ts[1..])
  }

  /** Without double stars and classes, the slashes of the text are those the
      pattern spells out. */
  lemma {:induction false} SlashesAreSpelledOut(ts: seq<Token>, s: string)
    requires Matches(ts, s) && forall i :: 0 <= i < |ts| ==> !ts[i].Anything? && !ts[i].Class?
    ensures Slashes(s) == LiteralSlashes(ts)
    decreases |ts|, |s|
  {
    hide Matches, InRanges;
    if ts == [] {
      MatchesNothing(s);
    } else if ts[0].Star? {
      MatchesStar(ts, s);
      if Matches(ts[1..], s) {
        SlashesAreSpelledOut(ts[1..], s);
      } else {
        SlashesAreSpelledOut(ts, s[1..]);
      }
    } else {
      MatchesOne(ts, s);
      SlashesAreSpelledOut(ts[1..], s[1..]);
    }
  }

  // What each kind of token stands for, and how it is written

  /** One token by itself. */
  lemma Kinds(s: string, c: char)
    ensures Matches([Anything], s)
    ensures Matches([Star], s) <==> '/' !in s
    ensures Matches([One], s) <==> |s| == 1 && s[0] != '/'
    ensures Matches([Literal(c)], s) <==> s == [c]
  {
    hide Matches, InRanges;
    OneToken(Anything, s);
    OneToken(Star, s);
    OneToken(One, s);
    OneToken(Literal(c), s);
  }

  lemma OneToken(t: Token, s: string)
    ensures Matches([t], s) <==> Accepts(t, s)
  {
    hide Accepts;
    if Matches([t], s) {
      var pieces :| IsSplit([t], s, pieces);
      assert Joined(pieces) == pieces[0] + Joined(pieces[1..]) && pieces[1..] == [];
      Seqs.AppendNothing(pieces[0], "");
      assert s == pieces[0];
    }
    if Accepts(t, s) {
      assert [s][1..] == [] && Joined([s]) == s + Joined([s][1..]);
      Seqs.AppendNothing(s, "");
      assert IsSplit([t], s, [s]);
    }
  }

  /** Tokens one after the other take the text one part after the other. */
  lemma {:induction false} PartsMatch(ts: seq<Token>, us: seq<Token>, s: string)
    ensures Matches(ts + us, s) <==> exists k :: 0 <= k <= |s| && Matches(ts, s[..k]) && Matches(us, s[k..])
    decreases |ts|
  {
    hide Matches, Accepts;
    if ts == [] {
      assert ts + us == us && s[..0] == "" && s[0..] == s;
      MatchesNothing("");
      forall k | 0 <= k <= |s| && Matches(ts, s[..k]) ensures k == 0 {
        MatchesNothing(s[..k]);
      }
    } else {
      assert (ts + us)[0] == ts[0] && (ts + us)[1..] == ts[1..] + us;
      MatchesFirst(ts + us, s);
      if Matches(ts + us, s) {
        var j :| 0 <= j <= |s| && Accepts(ts[0], s[..j]) && Matches(ts[1..] + us, s[j..]);
        PartsMatch(ts[1..], us, s[j..]);
        var i :| 0 <= i <= |s| - j && Matches(ts[1..], s[j..][..i]) && Matches(us, s[j..][i..]);
        assert s[..j + i][..j] == s[..j] && s[..j + i][j..] == s[j..][..i] && s[j..][i..] == s[j + i..];
        FirstTaken(ts, s[..j + i], j);
      }
      if k :| 0 <= k <= |s| && Matches(ts, s[..k]) && Matches(us, s[k..]) {
        MatchesFirst(ts, s[..k]);
        var j :| 0 <= j <= k && Accepts(ts[0], s[..k][..j]) && Matches(ts[1..], s[..k][j..]);
        assert s[..k][..j] == s[..j] && s[..k][j..] == s[j..][..k - j] && s[k..] == s[j..][k - j..];
        PartsMatch(ts[1..], us, s[j..]);
        FirstTaken(ts + us, s, j);
      }
    }
  }

  /** What may be written in a pattern: a token for several characters, for one, a
      character, or the inside of a class. */
  datatype Sign = AnyPath | AnyName | AnyChar | Char(c: char) | Brackets(inside: string)

  function Spelled(x: Sign): string {
    match x
    case AnyPath => "**"
    case AnyName => "*"
    case AnyChar => "?"
    case Char(c) => [c]
    case Brackets(inside) => "[" + inside + "]"
  }

  function AllSpelled(xs: seq<Sign>): string {
    if xs == [] then "" else Spelled(xs[0]) + AllSpelled(xs[1..])
  }

  /** A closing bracket ends a class unless it is its first character. */
  predicate HasEnd(s: string) {
    s != "" && ']' in s[1..]
  }

  /** A sign is told apart from what is written behind it. */
  predicate IsSign(x: Sign, rest: string) {
    match x
    case AnyName => rest == "" || rest[0] != '*'
    case Char(c) => c != '*' && c != '?' && (c == '[' ==> !HasEnd(rest))
    case Brackets(inside) => inside != "" && ']' !in inside[1..]
    case _ => true
  }

  /** The signs can be told apart as they are written one after the other. */
  predicate AreSigns(xs: seq<Sign>) {
    xs == [] || (AreSigns(xs[1..]) && IsSign(xs[0], AllSpelled(xs[1..])))
  }

  function TokenOf(x: Sign): Token {
    match x
    case AnyPath => Anything
    case AnyName => Star
    case AnyChar => One
    case Char(c) => Literal(c)
    case Brackets(inside) => ClassOf(inside)
  }

  function TokensOf(xs: seq<Sign>): seq<Token> {
    if xs == [] then [] else [TokenOf(xs[0])] + TokensOf(xs[1..])
  }

  lemma {:induction false} EndFound(p: string, k: nat, e: nat)
    requires k <= e <= |p| && (forall i :: k <= i < e ==> p[i] != ']') && (e < |p| ==> p[e] == ']')
    ensures ClassEnd(p, k) == e
    decreases e - k
  {
    if k < e {
      EndFound(p, k + 1, e);
    }
  }

  lemma BracketsEnd(inside: string, rest: string)
    requires inside != "" && ']' !in inside[1..]
    ensures var p := "[" + inside + "]" + rest; ClassEnd(p, ClassStart(p)) == |inside| + 1
  {
    var p := "[" + inside + "]" + rest;
    assert p[1] == inside[0] && p[|inside| + 1] == ']';
    forall i | 2 <= i < |inside| + 1 ensures p[i] != ']' {
      assert p[i] == inside[i - 1] == inside[1..][i - 2];
      assert inside[1..][i - 2] in inside[1..];
    }
    EndFound(p, ClassStart(p), |inside| + 1);
  }

  lemma NoEnd(rest: string)
    requires !HasEnd(rest)
    ensures var p := "[" + rest; ClassEnd(p, ClassStart(p)) == |p|
  {
    var p := "[" + rest;
    forall i | ClassStart(p) <= i < |p| ensures p[i] != ']' {
      assert p[i] == rest[i - 1];
      if i > 1 {
        assert rest[i - 1] == rest[1..][i - 2];
        assert rest[1..][i - 2] in rest[1..];
      }
    }
    EndFound(p, ClassStart(p), |p|);
  }

  /** A pattern is read as the signs it is written with. */
  lemma {:induction false} TokensAreRead(xs: seq<Sign>)
    requires AreSigns(xs)
    ensures Tokens(AllSpelled(xs)) == TokensOf(xs)
    decreases |xs|
  {
    hide ClassOf, ClassEnd, HasEnd;
    if xs != [] {
      var rest := AllSpelled(xs[1..]);
      var p := Spelled(xs[0]) + rest;
      TokensAreRead(xs[1..]);
      Seqs.Border(Spelled(xs[0]), rest);
      TokensFirst(p);
      match xs[0]
      case Brackets(inside) =>
        assert p == "[" + inside + "]" + rest;
        BracketsEnd(inside, rest);
        assert p[1..|inside| + 1] == inside && p[|inside| + 2..] == rest;
      case Char(c) =>
        if c == '[' {
          NoEnd(rest);
        }
      case _ =>
      Seqs.DropCons(Tokens(p), 0);
    }
  }

  lemma FirstSign(p: string) returns (x: Sign)
    requires p != ""
    ensures 0 < |Spelled(x)| <= |p| && p[..|Spelled(x)|] == Spelled(x) && IsSign(x, p[|Spelled(x)|..])
  {
    hide HasEnd;
    if |p| > 1 && p[0] == '*' && p[1] == '*' {
      x := AnyPath;
    } else if p[0] == '*' {
      x := AnyName;
    } else if p[0] == '?' {
      x := AnyChar;
    } else if p[0] == '[' && HasEnd(p[1..]) {
      x := FirstClass(p);
    } else {
      x := Char(p[0]);
    }
  }

  lemma FirstClass(p: string) returns (x: Sign)
    requires p != "" && p[0] == '[' && HasEnd(p[1..])
    ensures 2 < |Spelled(x)| <= |p| && p[..|Spelled(x)|] == Spelled(x) && IsSign(x, p[|Spelled(x)|..])
  {
    assert p[1..][1..] == p[2..];
    var e := FirstEnd(p[2..]);
    var inside := p[1..2 + e];
    x := Brackets(inside);
    assert inside[1..] == p[2..][..e];
    assert p[..3 + e] == "[" + inside + "]" by { Cut(p, e); }
  }

  lemma Cut(p: string, e: nat)
    requires e + 2 < |p| && p[0] == '[' && p[2 + e] == ']'
    ensures p[..3 + e] == "[" + p[1..2 + e] + "]"
  {
  }

  /** Every pattern is written with signs. */
  lemma {:induction false} EveryPatternHasSigns(p: string) returns (xs: seq<Sign>)
    ensures AreSigns(xs) && AllSpelled(xs) == p
    decreases |p|
  {
    hide HasEnd, Spelled;
    if p == "" {
      xs := [];
    } else {
      var x := FirstSign(p);
      var n := |Spelled(x)|;
      Seqs.Split(p, n);
      var more := EveryPatternHasSigns(p[n..]);
      xs := [x] + more;
      assert xs[1..] == more;
    }
  }

  lemma {:induction false} FirstEnd(s: string) returns (e: nat)
    requires ']' in s
    ensures e < |s| && s[e] == ']' && ']' !in s[..e]
    decreases |s|
  {
    if s[0] == ']' {
      e := 0;
    } else {
      e := FirstEnd(s[1..]);
      assert s[..e + 1] == [s[0]] + s[1..][..e];
      e := e + 1;
    }
  }

  // Classes

  /** A member of a class: a character, or those from one to another. */
  datatype Member = Only(c: char) | Span(low: char, high: char)

  function MemberText(m: Member): string {
    match m
    case Only(c) => [c]
    case Span(low, high) => [low, '-', high]
  }

  function MembersText(ms: seq<Member>): string {
    if ms == [] then "" else MemberText(ms[0]) + MembersText(ms[1..])
  }

  /** One of the first 128 bytes comes after all others; the others in order. */
  predicate NotAfter(a: char, b: char) {
    if (a < 128 as char) == (b < 128 as char) then a <= b else b < 128 as char
  }

  predicate HasMember(m: Member, c: char) {
    match m
    case Only(d) => c == d
    case Span(low, high) => NotAfter(low, c) && NotAfter(c, high)
  }

  predicate AreBytes(s: string) {
    forall c :: c in s ==> c < 256 as char
  }

  /** A character is not a member by itself if a dash and another one follow, and a
      range does not end in a closing bracket. */
  predicate AreMembers(ms: seq<Member>) {
    ms == [] ||
    (AreMembers(ms[1..]) &&
     match ms[0]
     case Only(c) => var rest := MembersText(ms[1..]); !(|rest| > 1 && rest[0] == '-' && rest[1] != ']')
     case Span(low, high) => high != ']')
  }

  lemma {:induction false} MembersRead(ms: seq<Member>, c: char)
    requires AreMembers(ms) && AreBytes(MembersText(ms)) && c < 256 as char
    ensures InRanges(c, Ranges(MembersText(ms))) <==> exists k :: 0 <= k < |ms| && HasMember(ms[k], c)
    decreases |ms|
  {
    hide InRanges;
    if ms == [] {
      NoRange(c);
    } else {
      var rest, s := MembersText(ms[1..]), MembersText(ms);
      Seqs.Border(MemberText(ms[0]), rest);
      assert AreBytes(rest) by { forall d | d in rest ensures d in s {} }
      assert ms[0].Span? ==> s[0] in s && s[2] in s;
      MembersRead(ms[1..], c);
      assert s[0..] == s;
      RangesAt(c, s, 0);
      if k :| 0 <= k < |ms| && HasMember(ms[k], c) {
        if k > 0 {
          assert HasMember(ms[1..][k - 1], c);
        }
      }
      if k :| 0 <= k < |ms| - 1 && HasMember(ms[1..][k], c) {
        assert HasMember(ms[k + 1], c);
      }
    }
  }

  lemma InsideIs(negated: bool, text: string)
    requires text != "" ==> negated || text[0] != '!'
    ensures ClassOf((if negated then "!" else "") + text) == Class(negated, AfterNegation(text))
  {
    hide Ranges, AfterNegation;
    var inside := (if negated then "!" else "") + text;
    assert if negated then inside[1..] == text else inside == text;
  }

  /** The members after a first character that stands for itself. */
  lemma FirstStands(first: string, ms: seq<Member>, c: char)
    requires AreMembers(ms) && AreBytes(MembersText(ms)) && c < 256 as char && (first == "" || first == "]" || first == "-")
    requires var text := MembersText(ms); first == "" && text != "" ==> text[0] != ']' && text[0] != '-'
    ensures InRanges(c, AfterNegation(first + MembersText(ms))) <==>
      [c] == first || exists k :: 0 <= k < |ms| && HasMember(ms[k], c)
  {
    hide InRanges, Ranges, AreMembers, AreBytes, MembersText, HasMember, AfterNegation;
    var text := MembersText(ms);
    MembersRead(ms, c);
    AfterFirst(first, text);
    if first != "" {
      FirstRange(c, text, Range(first[0], first[0]));
      assert InRange(c, Range(first[0], first[0])) <==> [c] == first by { OneInRange(first, c); }
    }
  }

  lemma AfterFirst(first: string, text: string)
    requires first == "" || first == "]" || first == "-"
    requires first == "" && text != "" ==> text[0] != ']' && text[0] != '-'
    ensures AfterNegation(first + text) == if first == "" then Ranges(text) else [Range(first[0], first[0])] + Ranges(text)
  {
    hide Ranges;
    var s := first + text;
    if first == "" {
      assert s == text;
    } else {
      assert s[0] == first[0] && s[1..] == text;
    }
  }

  lemma OneInRange(first: string, c: char)
    requires first == "]" || first == "-"
    ensures c < 256 as char ==> (InRange(c, Range(first[0], first[0])) <==> [c] == first)
  {
    assert [c] == first <==> c == first[0];
  }

  /** The inside of a class: perhaps a negation, perhaps a first character that
      stands for itself, and the members. */
  lemma ClassMeans(negated: bool, first: string, ms: seq<Member>, s: string)
    requires AreMembers(ms) && AreBytes(MembersText(ms)) && AreBytes(s) && (first == "" || first == "]" || first == "-")
    requires var text := MembersText(ms);
      first == "" && text != "" ==> text[0] != ']' && text[0] != '-' && (negated || text[0] != '!')
    ensures Matches([ClassOf((if negated then "!" else "") + (first + MembersText(ms)))], s) <==>
      |s| == 1 && ((s == first || exists k :: 0 <= k < |ms| && HasMember(ms[k], s[0])) != negated)
  {
    hide Matches, InRanges, AfterNegation, ClassOf, AreMembers, MembersText, HasMember;
    var text := first + MembersText(ms);
    assert text != "" ==> negated || text[0] != '!';
    InsideIs(negated, text);
    OneToken(Class(negated, AfterNegation(text)), s);
    if |s| == 1 {
      assert s[0] in s && s == [s[0]];
      FirstStands(first, ms, s[0]);
    }
  }

  /** Every such inside is put together like this. */
  lemma {:induction false} EveryClassHasMembers(s: string) returns (ms: seq<Member>)
    ensures AreMembers(ms) && MembersText(ms) == s
    decreases |s|
  {
    if s == "" {
      ms := [];
    } else {
      var m := if |s| > 2 && s[1] == '-' && s[2] != ']' then Span(s[0], s[2]) else Only(s[0]);
      var n := |MemberText(m)|;
      Seqs.Split(s, n);
      ms := EveryClassHasMembers(s[n..]);
      ms := [m] + ms;
      assert MembersText(ms) == MemberText(m) + MembersText(ms[1..]);
    }
  }
}
