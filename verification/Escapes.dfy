/** Backslash escapes replaced within the buffer that holds them. */
module Escapes {
  import Seqs
  import opened Wrappers

  const BACKSLASH: char := '\\'

  function Digit(c: char): Option<nat> {
    if '0' <= c <= '9' then Some(c as int - '0' as int)
    else if 'a' <= c <= 'f' then Some(c as int - 'a' as int + 10)
    else if 'A' <= c <= 'F' then Some(c as int - 'A' as int + 10)
    else None
  }

  predicate IsSpace(c: char) {
    c == ' ' || 0x09 <= c as int <= 0x0D
  }

  /** Two characters read as one hexadecimal number, where the first may also be
      white space or a sign. */
  function HexByte(c: char, d: char): Option<char> {
    if Digit(d).None? then None
    else if Digit(c).Some? then Some((16 * Digit(c).value + Digit(d).value) as char)
    else if IsSpace(c) || c == '+' then Some(Digit(d).value as char)
    else if c == '-' then Some(((256 - Digit(d).value) % 256) as char)
    else None
  }

  function Simple(c: char): Option<char> {
    if c == 'n' then Some('\n')
    else if c == 'r' then Some('\r')
    else if c == 't' then Some('\t')
    else if c == '\'' || c == '\"' || c == BACKSLASH then Some(c)
    else None
  }

  /** What the escape at i turns into, and how many characters it takes. */
  function Step(s: string, i: nat): (r: (string, nat))
    requires i < |s|
    ensures 1 <= |r.0| <= r.1 && i + r.1 <= |s|
    ensures |r.0| == r.1 ==> s[i..i + r.1] == r.0
  {
    if s[i] != BACKSLASH || i + 1 == |s| then ([s[i]], 1)
    else if Simple(s[i + 1]).Some? then ([Simple(s[i + 1]).value], 2)
    else if s[i + 1] == 'x' && i + 3 < |s| && HexByte(s[i + 2], s[i + 3]).Some? then ([HexByte(s[i + 2], s[i + 3]).value], 4)
    else ([BACKSLASH, s[i + 1]], 2)
  }

  function Processed(s: string, i: nat): (r: string)
    requires i <= |s|
    ensures |r| <= |s| - i
    decreases |s| - i
  {
    if i == |s| then "" else Step(s, i).0 + Processed(s, i + Step(s, i).1)
  }

  /** A text keeps its length only if nothing in it was an escape. */
  lemma {:induction false} SameLengthIsSame(s: string, i: nat)
    requires i <= |s|
    ensures |Processed(s, i)| == |s| - i <==> Processed(s, i) == s[i..]
    decreases |s| - i
  {
    hide Step;
    if i < |s| {
      var (t, n) := Step(s, i);
      SameLengthIsSame(s, i + n);
      assert s[i..] == s[i..i + n] + s[i + n..];
      assert |Processed(s, i + n)| <= |s| - i - n;
    }
  }

  /** The buffer is rewritten from the front; what is still to be read is never
      overwritten. */
  method ProcessEscapes(input: array<char>) returns (length: nat)
    modifies input
    ensures length <= input.Length && input[..length] == Processed(old(input[..]), 0)
  {
    hide Step, HexByte;
    ghost var s := input[..];
    length := 0;
    var i := 0;
    while i < input.Length
      invariant length <= i <= input.Length && input[i..] == s[i..]
      invariant Processed(s, 0) == input[..length] + Processed(s, i)
    {
      i, length := ProcessOne(input, i, length, s);
    }
    Seqs.AppendNothing(input[..length], Processed(s, i));
  }

  method ProcessOne(input: array<char>, at: nat, out: nat, ghost s: string) returns (next: nat, length: nat)
    requires out <= at < input.Length == |s| && input[at..] == s[at..]
    modifies input
    ensures next == at + Step(s, at).1 && length <= next <= input.Length
    ensures input[..length] == old(input[..out]) + Step(s, at).0 && input[next..] == s[next..]
  {
    hide HexByte;
    var i := at;
    length := out;
    forall k | at <= k < |s| ensures input[k] == s[k] {
      assert input[at..][k - at] == s[at..][k - at];
    }
    if input[i] == '\\' && i + 1 < input.Length {
      i := i + 1;
      var c := input[i];
      var simple := Simple(c);
      if simple.Some? {
        input[length] := simple.value;
        length := length + 1;
      } else {
        var hex := None;
        if c == 'x' && i + 2 < input.Length {
          hex := HexByte(input[i + 1], input[i + 2]);
        }
        if hex.Some? {
          i := i + 2;
          input[length] := hex.value;
          length := length + 1;
        } else {
          input[length] := '\\';
          input[length + 1] := input[i];
          length := length + 2;
        }
      }
    } else {
      input[length] := input[i];
      length := length + 1;
    }
    next := i + 1;
  }

  // What the spellings stand for

  const LETTERS := map['n' := '\n', 'r' := '\r', 't' := '\t', '\'' := '\'', '\"' := '\"', '\\' := '\\']
  const LOWER_DIGITS := "0123456789abcdef"
  const UPPER_DIGITS := "0123456789ABCDEF"

  predicate IsDigitFor(c: char, n: nat) {
    n < 16 && (c == LOWER_DIGITS[n] || c == UPPER_DIGITS[n])
  }

  /** Two characters give a number: two digits, or one after white space or a plus;
      after a minus the number is taken from 256. */
  ghost predicate StandFor(c: char, d: char, n: nat) {
    exists low: nat :: IsDigitFor(d, low) && FirstGives(c, low, n)
  }

  ghost predicate FirstGives(c: char, low: nat, n: nat) {
    (exists high: nat :: IsDigitFor(c, high) && n == 16 * high + low) ||
    (c in [' ', '\t', '\n', '\r', 0x0B as char, 0x0C as char, '+'] && n == low) ||
    (c == '-' && n == if low == 0 then 0 else 256 - low)
  }

  lemma DigitAt(c: char, n: nat)
    requires IsDigitFor(c, n)
    ensures Digit(c) == Some(n) && n < 16 && c !in [' ', '\t', '\n', '\r', 0x0B as char, 0x0C as char, '+', '-']
  {
    assert LOWER_DIGITS[n] as int == if n < 10 then '0' as int + n else 'a' as int + n - 10;
    assert UPPER_DIGITS[n] as int == if n < 10 then '0' as int + n else 'A' as int + n - 10;
  }

  lemma DigitMeaning(c: char)
    ensures Digit(c).Some? ==> IsDigitFor(c, Digit(c).value)
    ensures forall n: nat :: IsDigitFor(c, n) ==> Digit(c) == Some(n)
  {
    forall n: nat | IsDigitFor(c, n) ensures Digit(c) == Some(n) {
      DigitAt(c, n);
    }
  }

  /** Both ways: what is read as a number, and as which. */
  lemma HexMeaning(c: char, d: char)
    ensures HexByte(c, d).Some? ==> StandFor(c, d, HexByte(c, d).value as nat)
    ensures forall n: nat :: StandFor(c, d, n) ==> n < 256 && HexByte(c, d) == Some(n as char)
  {
    hide Digit, IsDigitFor;
    DigitMeaning(c);
    DigitMeaning(d);
    if HexByte(c, d).Some? {
      DigitAt(d, Digit(d).value);
      if Digit(c).Some? {
        DigitAt(c, Digit(c).value);
      }
      assert FirstGives(c, Digit(d).value, HexByte(c, d).value as nat);
    }
    forall n: nat | StandFor(c, d, n) ensures n < 256 && HexByte(c, d) == Some(n as char) {
      var low: nat :| IsDigitFor(d, low) && FirstGives(c, low, n);
      DigitAt(d, low);
      if Digit(c).Some? {
        DigitAt(c, Digit(c).value);
      }
      if high: nat :| IsDigitFor(c, high) && n == 16 * high + low {
        DigitAt(c, high);
      }
    }
  }

  /** The ways to write: a character as it is, a letter for another character, a
      number, and a backslash that means nothing and stays. */
  datatype Piece = Bare(c: char) | Lettered(letter: char) | Numbered(first: char, second: char, n: nat) | Kept(c: char)

  ghost predicate IsPiece(p: Piece) {
    match p
    case Bare(c) => c != '\\'
    case Lettered(letter) => letter in LETTERS
    case Numbered(first, second, n) => n < 256 && StandFor(first, second, n)
    case Kept(c) => c !in LETTERS
  }

  function Written(p: Piece): string {
    match p
    case Bare(c) => [c]
    case Lettered(letter) => ['\\', letter]
    case Numbered(first, second, _) => ['\\', 'x', first, second]
    case Kept(c) => ['\\', c]
  }

  function Meant(p: Piece): string {
    match p
    case Bare(c) => [c]
    case Lettered(letter) => if letter in LETTERS then [LETTERS[letter]] else [letter]
    case Numbered(_, _, n) => if n < 256 then [n as char] else ""
    case Kept(c) => ['\\', c]
  }

  function AllWritten(ps: seq<Piece>): string {
    if ps == [] then "" else Written(ps[0]) + AllWritten(ps[1..])
  }

  function AllMeant(ps: seq<Piece>): string {
    if ps == [] then "" else Meant(ps[0]) + AllMeant(ps[1..])
  }

  /** A number follows. */
  ghost predicate StartsNumber(s: string) {
    |s| >= 2 && exists n: nat :: StandFor(s[0], s[1], n)
  }

  /** A text as pieces, perhaps with a backslash behind the last; an x that is kept
      has no number behind it. */
  ghost predicate AreThePieces(ps: seq<Piece>, end: string, s: string) {
    s == AllWritten(ps) + end && (end == "" || end == "\\") && ArePieces(ps, end)
  }

  ghost predicate ArePieces(ps: seq<Piece>, end: string) {
    ps == [] ||
    (IsPiece(ps[0]) && (ps[0] == Kept('x') ==> !StartsNumber(AllWritten(ps[1..]) + end)) && ArePieces(ps[1..], end))
  }

  lemma SimpleMeaning(c: char)
    ensures Simple(c) == if c in LETTERS then Some(LETTERS[c]) else None
  {
  }

  lemma StepBare(s: string, i: nat)
    requires i < |s| && s[i] != '\\'
    ensures Step(s, i) == ([s[i]], 1)
  {
  }

  lemma StepEscape(s: string, i: nat)
    requires i + 1 < |s| && s[i] == '\\'
    ensures s[i + 1] in LETTERS ==> Step(s, i) == ([LETTERS[s[i + 1]]], 2)
    ensures s[i + 1] == 'x' && i + 3 < |s| ==>
      var c, d := s[i + 2], s[i + 3];
      forall n: nat :: StandFor(c, d, n) ==> n < 256 && Step(s, i) == ([n as char], 4)
    ensures s[i + 1] !in LETTERS && (s[i + 1] == 'x' ==> !StartsNumber(s[i + 2..])) ==> Step(s, i) == (['\\', s[i + 1]], 2)
  {
    hide HexByte, Simple, StandFor;
    SimpleMeaning(s[i + 1]);
    if i + 3 < |s| {
      HexMeaning(s[i + 2], s[i + 3]);
      assert s[i + 2..][0] == s[i + 2] && s[i + 2..][1] == s[i + 3];
    }
  }

  lemma PieceIsRead(s: string, i: nat, p: Piece, rest: string)
    requires IsPiece(p) && i <= |s| && s[i..] == Written(p) + rest && (p == Kept('x') ==> !StartsNumber(rest))
    ensures i < |s| && Step(s, i) == (Meant(p), |Written(p)|) && s[i + |Written(p)|..] == rest
  {
    hide Step, StandFor, StartsNumber;
    var t := s[i..];
    assert |t| == |Written(p)| + |rest|;
    assert forall k :: 0 <= k < |Written(p)| ==> t[k] == Written(p)[k] == s[i + k];
    assert t[|Written(p)|..] == rest;
    assert s[i + |Written(p)|..] == t[|Written(p)|..];
    match p
    case Bare(c) => StepBare(s, i);
    case Lettered(letter) =>
      assert s[i + 1] == letter;
      StepEscape(s, i);
    case Numbered(first, second, n) =>
      assert s[i + 1] == 'x' && s[i + 2] == first && s[i + 3] == second;
      StepEscape(s, i);
    case Kept(c) =>
      assert s[i + 1] == c && s[i + 2..] == rest;
      StepEscape(s, i);
  }

  /** However a text is written, it is read as what its pieces mean. */
  lemma {:induction false} WrittenIsRead(ps: seq<Piece>, end: string, s: string, i: nat)
    requires i <= |s| && AreThePieces(ps, end, s[i..])
    ensures Processed(s, i) == AllMeant(ps) + end
    decreases |ps|
  {
    hide Step, IsPiece, Written, Meant, StartsNumber;
    if ps == [] {
      Seqs.AppendNothing(end, AllMeant(ps));
      EndIsRead(s, i, end);
    } else {
      Seqs.Associative(Written(ps[0]), AllWritten(ps[1..]), end);
      PieceIsRead(s, i, ps[0], AllWritten(ps[1..]) + end);
      WrittenIsRead(ps[1..], end, s, i + |Written(ps[0])|);
      Seqs.Associative(Meant(ps[0]), AllMeant(ps[1..]), end);
    }
  }

  lemma EndIsRead(s: string, i: nat, end: string)
    requires i <= |s| && s[i..] == end && (end == "" || end == "\\")
    ensures Processed(s, i) == end
  {
    if end != "" {
      assert s[i] == s[i..][0] && |s| == i + 1;
    }
  }

  /** Every text is written in pieces, so every text is covered. */
  lemma {:induction false} EveryTextHasPieces(s: string) returns (ps: seq<Piece>, end: string)
    ensures AreThePieces(ps, end, s)
    decreases |s|
  {
    hide StandFor;
    if s == "" || s == "\\" {
      ps, end := [], s;
      assert AllWritten([]) + end == s;
    } else {
      var p := FirstPiece(s);
      var k := |Written(p)|;
      ps, end := EveryTextHasPieces(s[k..]);
      Seqs.Split(s, k);
      Seqs.Associative(Written(p), AllWritten(ps), end);
      ps := [p] + ps;
      assert ps[1..] == ps[1..] && AllWritten(ps) == Written(p) + AllWritten(ps[1..]);
    }
  }

  lemma FirstPiece(s: string) returns (p: Piece)
    requires s != "" && s != "\\"
    ensures IsPiece(p) && |Written(p)| <= |s| && s[..|Written(p)|] == Written(p)
    ensures p == Kept('x') ==> !StartsNumber(s[2..])
  {
    hide StandFor;
    if s[0] != '\\' {
      p := Bare(s[0]);
    } else if s[1] in LETTERS {
      p := Lettered(s[1]);
    } else if s[1] == 'x' && StartsNumber(s[2..]) {
      assert s[2..][0] == s[2] && s[2..][1] == s[3];
      var n: nat :| StandFor(s[2], s[3], n);
      HexMeaning(s[2], s[3]);
      p := Numbered(s[2], s[3], n);
    } else {
      p := Kept(s[1]);
    }
  }

  function Backslashed(s: string): string {
    if s == "" then "" else (if s[0] == '\\' then "\\\\" else [s[0]]) + Backslashed(s[1..])
  }

  lemma {:induction false} BackslashedPieces(s: string) returns (ps: seq<Piece>)
    ensures AreThePieces(ps, "", Backslashed(s)) && AllMeant(ps) == s
    decreases |s|
  {
    hide StandFor;
    if s == "" {
      ps := [];
    } else {
      ps := BackslashedPieces(s[1..]);
      var p := if s[0] == '\\' then Lettered('\\') else Bare(s[0]);
      Seqs.Associative(Written(p), AllWritten(ps), "");
      ps := [p] + ps;
      assert AllWritten(ps) == Written(p) + AllWritten(ps[1..]) && AllMeant(ps) == Meant(p) + AllMeant(ps[1..]);
      Seqs.DropCons(s, 0);
    }
  }

  /** Doubling the backslashes is enough to keep any text. */
  lemma BackslashedIsRead(s: string)
    ensures Processed(Backslashed(s), 0) == s
  {
    hide Processed, AllWritten, Backslashed, AreThePieces;
    var ps := BackslashedPieces(s);
    var t := Backslashed(s);
    assert t[0..] == t;
    WrittenIsRead(ps, "", t, 0);
    Seqs.AppendNothing(s, "");
  }
}
