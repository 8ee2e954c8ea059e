/** Text as the normaliser of quotes sees it, piece by piece: every text is made of
    such pieces, and what each of them becomes is written down. */
module QuotePieces {
  import Seqs
  import opened Quotes

  const SMALL := "abcdefghijklmnopqrstuvwxyz"
  const CAPITAL := "ABCDEFGHIJKLMNOPQRSTUVWXYZ"
  const DIGITS := "0123456789"

  predicate IsWordSign(c: char) {
    c in SMALL || c in CAPITAL || c in DIGITS || c == '_'
  }

  /** A literal in either quotes, a word as long as it goes, any other character; and
      at the end of the text perhaps a literal that is not closed. */
  datatype Piece = Literal(quote: char, inside: string) | Word(word: string) | Sign(c: char) | Unclosed(quote: char, inside: string)

  /** The inside of a literal that goes on to the end of the text. */
  predicate IsOpenInside(s: string, quote: char)
    decreases |s|
  {
    s == "" || s == "\\" ||
    (s[0] != quote && if s[0] == '\\' then |s| > 1 && IsOpenInside(s[2..], quote) else IsOpenInside(s[1..], quote))
  }

  /** The piece can be told apart from the text behind it. */
  predicate IsPiece(p: Piece, rest: string) {
    match p
    case Literal(q, inside) => (q == '\'' || q == '\"') && IsInside(inside, q)
    case Unclosed(q, inside) => (q == '\'' || q == '\"') && IsOpenInside(inside, q) && rest == ""
    case Word(w) => w != "" && (forall i :: 0 <= i < |w| ==> IsWordSign(w[i])) && (rest == "" || !IsWordSign(rest[0]))
    case Sign(c) => c != '\'' && c != '\"' && !IsWordSign(c)
  }

  predicate ArePieces(ps: seq<Piece>) {
    ps == [] || (IsPiece(ps[0], AllText(ps[1..])) && ArePieces(ps[1..]))
  }

  function TextOf(p: Piece): string {
    match p
    case Literal(q, inside) => [q] + (inside + [q])
    case Unclosed(q, inside) => [q] + inside
    case Word(w) => w
    case Sign(c) => [c]
  }

  function AllText(ps: seq<Piece>): string {
    if ps == [] then "" else TextOf(ps[0]) + AllText(ps[1..])
  }

  /** What was in single quotes, for double quotes: a single quote loses its
      backslash, a double quote gets one, every other escape stays. */
  function Requoted(s: string): string
    decreases |s|
  {
    if s == "" then ""
    else if |s| > 1 && s[0] == '\\' then (if s[1] == '\'' then "'" else s[..2]) + Requoted(s[2..])
    else (if s[0] == '\"' then "\\\"" else [s[0]]) + Requoted(s[1..])
  }

  /** A word that begins True, False or None becomes as much of true, false, null. */
  function WordAsJson(w: string): string {
    if w == "T" then "t" else if w == "Tr" then "tr" else if w == "Tru" then "tru" else if w == "True" then "true"
    else if w == "F" then "f" else if w == "Fa" then "fa" else if w == "Fal" then "fal" else if w == "Fals" then "fals"
    else if w == "False" then "false"
    else if w == "N" then "n" else if w == "No" then "nu" else if w == "Non" then "nul" else if w == "None" then "null"
    else w
  }

  function JsonOf(p: Piece): string {
    match p
    case Literal(q, inside) => "\"" + ((if q == '\'' then Requoted(inside) else inside) + "\"")
    case Unclosed(q, inside) => "\"" + (if q == '\'' then Requoted(inside) else inside)
    case Word(w) => WordAsJson(w)
    case Sign(c) => [c]
  }

  function AllJson(ps: seq<Piece>): string {
    if ps == [] then "" else JsonOf(ps[0]) + AllJson(ps[1..])
  }

  // Words

  lemma LetterAt(k: nat)
    ensures k < 26 ==> SMALL[k] as int == 'a' as int + k && CAPITAL[k] as int == 'A' as int + k
    ensures k < 10 ==> DIGITS[k] as int == '0' as int + k
    ensures |SMALL| == |CAPITAL| == 26 && |DIGITS| == 10
  {
  }

  lemma WordSigns(c: char)
    ensures IsWordSign(c) <==> IsWordChar(c)
  {
    if 'a' <= c <= 'z' {
      LetterAt(c as int - 'a' as int);
    } else if 'A' <= c <= 'Z' {
      LetterAt(c as int - 'A' as int);
    } else if '0' <= c <= '9' {
      LetterAt(c as int - '0' as int);
    }
    if c in SMALL {
      var k :| 0 <= k < |SMALL| && SMALL[k] == c;
      LetterAt(k);
    }
    if c in CAPITAL {
      var k :| 0 <= k < |CAPITAL| && CAPITAL[k] == c;
      LetterAt(k);
    }
    if c in DIGITS {
      var k :| 0 <= k < |DIGITS| && DIGITS[k] == c;
      LetterAt(k);
    }
  }

  lemma {:induction false} WholeWord(w: string, rest: string)
    requires (forall i :: 0 <= i < |w| ==> IsWordSign(w[i])) && (rest == "" || !IsWordSign(rest[0]))
    ensures WordLength(w + rest) == |w|
    decreases |w|
  {
    hide IsWordSign, IsWordChar;
    if w == "" {
      Seqs.AppendNothing(rest, w);
      if rest != "" {
        WordSigns(rest[0]);
      }
    } else {
      WordSigns(w[0]);
      Seqs.FirstOfAppend(w, rest);
      WholeWord(w[1..], rest);
    }
  }

  lemma WordStep(s: string, inWord: bool)
    requires s != "" && IsWordSign(s[0]) && !LiteralAhead(s, Outside, inWord)
    ensures Convert(s, Outside, inWord) == [s[0]] + Convert(s[1..], Outside, true)
  {
    hide IsLiteralPart, LiteralToJson, LiteralAhead;
    WordSigns(s[0]);
    QuotesAreNoSigns();
  }

  lemma QuotesAreNoSigns()
    ensures !IsWordSign('\'') && !IsWordSign('\"') && !IsWordSign('\\')
  {
    hide IsWordSign;
    WordSigns('\'');
    WordSigns('\"');
    WordSigns('\\');
  }

  /** Behind a word the next piece begins as it would anywhere. */
  lemma AfterWord(rest: string)
    requires rest == "" || !IsWordSign(rest[0])
    ensures Convert(rest, Outside, true) == Convert(rest, Outside, false)
  {
    if rest != "" {
      WordSigns(rest[0]);
    }
  }

  lemma LiteralWords(w: string)
    requires w != ""
    ensures StartsLiteral(w[0]) && IsLiteralPart(w) ==> LiteralToJson(w) == WordAsJson(w)
    ensures !(StartsLiteral(w[0]) && IsLiteralPart(w)) ==> WordAsJson(w) == w
  {
    if w <= "True" {
      assert w == "True"[..|w|];
    } else if w <= "False" {
      assert w == "False"[..|w|];
    } else if w <= "None" {
      assert w == "None"[..|w|];
    }
  }

  lemma WordConverts(w: string, rest: string)
    requires IsPiece(Word(w), rest)
    ensures Convert(w + rest, Outside, false) == WordAsJson(w) + Convert(rest, Outside, false)
  {
    hide IsWordSign, IsWordChar, IsLiteralPart, LiteralToJson, StartsLiteral, Convert, WordAsJson;
    var s := w + rest;
    WholeWord(w, rest);
    Seqs.Border(w, rest);
    LiteralWords(w);
    AfterWord(rest);
    assert s[0] == w[0];
    if StartsLiteral(w[0]) && IsLiteralPart(w) {
      ConvertLiteral(s, Outside, false);
    } else {
      Seqs.FirstOfAppend(w, rest);
      WordStep(s, false);
      Seqs.DropCons(w, 0);
      if |w| > 1 {
        forall i | 0 <= i < |w| ensures IsWordChar(w[i]) {
          WordSigns(w[i]);
        }
        WordPasses(w[1..], rest, true);
        Seqs.Associative([w[0]], w[1..], Convert(rest, Outside, true));
      } else {
        assert w[1..] + rest == rest && w == [w[0]];
      }
    }
  }

  // Literals

  /** One character, or a backslash with the one behind it. */
  lemma InsideStep(s: string)
    requires s != "" && s != "\\" && IsOpenInside(s, '\'')
    ensures s[0] == '\\' ==>
      |s| > 1 && Convert(s, Single, false) == (if s[1] == '\'' then "'" else s[..2]) + Convert(s[2..], Single, false)
    ensures s[0] != '\\' ==>
      Convert(s, Single, false) == (if s[0] == '\"' then "\\\"" else [s[0]]) + Convert(s[1..], Single, false)
  {
    hide IsLiteralPart, LiteralToJson, WordLength;
    if s[0] == '\\' {
      assert s[..2] == [s[0], s[1]];
    }
  }

  lemma {:induction false} InsideConverts(s: string)
    requires IsOpenInside(s, '\'')
    ensures Convert(s, Single, false) == Requoted(s)
    decreases |s|
  {
    hide Convert;
    if s == "\\" || s == "" {
      LoneConverts(s, Single);
    } else {
      InsideStep(s);
      InsideConverts(if s[0] == '\\' then s[2..] else s[1..]);
    }
  }

  lemma LoneConverts(s: string, mode: Mode)
    requires s == "\\" || s == ""
    ensures Convert(s, mode, false) == s && Requoted(s) == s
  {
    hide IsLiteralPart, LiteralToJson, WordLength;
    if s != "" {
      assert s[1..] == "" && Convert("", mode, false) == "" && Requoted("") == "";
    }
  }

  lemma DoubleStepOn(s: string)
    requires s != "" && s != "\\" && IsOpenInside(s, '\"')
    ensures s[0] == '\\' ==> |s| > 1 && Convert(s, Double, false) == s[..2] + Convert(s[2..], Double, false)
    ensures s[0] != '\\' ==> Convert(s, Double, false) == [s[0]] + Convert(s[1..], Double, false)
  {
    hide IsLiteralPart, LiteralToJson, WordLength;
    if s[0] == '\\' {
      assert s[..2] == [s[0], s[1]];
    }
  }

  lemma {:induction false} DoubleStays(s: string)
    requires IsOpenInside(s, '\"')
    ensures Convert(s, Double, false) == s
    decreases |s|
  {
    hide Convert;
    if s == "\\" || s == "" {
      LoneConverts(s, Double);
    } else {
      DoubleStepOn(s);
      DoubleStays(if s[0] == '\\' then s[2..] else s[1..]);
      Seqs.Split(s, if s[0] == '\\' then 2 else 1);
    }
  }

  lemma {:induction false} InsideIsOpen(s: string, quote: char)
    requires IsInside(s, quote)
    ensures IsOpenInside(s, quote)
    decreases |s|
  {
    if s != "" {
      InsideIsOpen(if s[0] == '\\' then s[2..] else s[1..], quote);
    }
  }

  lemma QuoteOpens(q: char, rest: string)
    requires q == '\'' || q == '\"'
    ensures Convert([q] + rest, Outside, false) == "\"" + Convert(rest, if q == '\'' then Single else Double, false)
  {
    hide IsLiteralPart, LiteralToJson, WordLength;
    Seqs.Border([q], rest);
  }

  lemma LiteralConverted(q: char, inside: string, rest: string)
    requires IsPiece(Literal(q, inside), rest)
    ensures Convert(TextOf(Literal(q, inside)) + rest, Outside, false) == JsonOf(Literal(q, inside)) + Convert(rest, Outside, false)
  {
    hide Convert, IsInside, Requoted;
    var after := Convert(rest, Outside, false);
    assert TextOf(Literal(q, inside)) + rest == [q] + (inside + ([q] + rest));
    QuoteOpens(q, inside + ([q] + rest));
    if q == '\'' {
      LiteralConverts(inside, rest);
      InsideIsOpen(inside, q);
      InsideConverts(inside);
      assert "\"" + (Requoted(inside) + ("\"" + after)) == "\"" + (Requoted(inside) + "\"") + after;
    } else {
      DoublePasses(inside, rest);
      assert "\"" + (inside + ("\"" + after)) == "\"" + (inside + "\"") + after;
    }
  }

  lemma UnclosedConverted(q: char, inside: string)
    requires IsPiece(Unclosed(q, inside), "")
    ensures Convert(TextOf(Unclosed(q, inside)), Outside, false) == JsonOf(Unclosed(q, inside))
  {
    hide Convert, IsOpenInside, Requoted;
    QuoteOpens(q, inside);
    if q == '\'' {
      InsideConverts(inside);
    } else {
      DoubleStays(inside);
    }
  }

  lemma SignConverts(c: char, rest: string)
    requires IsPiece(Sign(c), rest)
    ensures Convert([c] + rest, Outside, false) == [c] + Convert(rest, Outside, false)
  {
    hide IsLiteralPart, LiteralToJson, WordLength;
    Seqs.Border([c], rest);
    WordSigns(c);
  }

  /** The conversion of a text is that of its pieces. */
  lemma {:induction false} PiecesConvert(ps: seq<Piece>)
    requires ArePieces(ps)
    ensures Normalize(AllText(ps)) == AllJson(ps)
    decreases |ps|
  {
    hide IsPiece, TextOf, JsonOf;
    if ps == [] {
      ConvertNone();
    } else {
      hide Convert;
      var rest := AllText(ps[1..]);
      PiecesConvert(ps[1..]);
      OnePiece(ps[0], rest);
    }
  }

  lemma ConvertNone()
    ensures Convert("", Outside, false) == ""
  {
  }

  lemma OnePiece(p: Piece, rest: string)
    requires IsPiece(p, rest)
    ensures Convert(TextOf(p) + rest, Outside, false) == JsonOf(p) + Convert(rest, Outside, false)
  {
    hide Convert, Requoted, WordAsJson, IsInside, IsOpenInside;
    match p
    case Literal(q, inside) => LiteralConverted(q, inside, rest);
    case Unclosed(q, inside) =>
      UnclosedConverted(q, inside);
      ConvertNone();
      assert TextOf(p) + rest == TextOf(p) && JsonOf(p) + "" == JsonOf(p);
    case Word(w) => WordConverts(w, rest);
    case Sign(c) => SignConverts(c, rest);
  }

  // Every text is made of pieces

  /** Up to the closing quote, or to the end. */
  lemma {:induction false} InsidePart(s: string, quote: char) returns (inside: string, closed: bool, rest: string)
    requires quote == '\'' || quote == '\"'
    ensures if closed then IsInside(inside, quote) && s == inside + ([quote] + rest) else IsOpenInside(inside, quote) && s == inside
    decreases |s|
  {
    if s == "" || s == "\\" {
      inside, closed, rest := s, false, "";
    } else if s[0] == quote {
      inside, closed, rest := "", true, s[1..];
    } else {
      var n := if s[0] == '\\' then 2 else 1;
      var more;
      more, closed, rest := InsidePart(s[n..], quote);
      inside := s[..n] + more;
      assert inside[0] == s[0] && inside[n..] == more && |inside| >= n;
      assert inside != "\\" || more == "";
    }
  }

  lemma {:induction false} WordPart(s: string) returns (w: string, rest: string)
    ensures s == w + rest && (forall i :: 0 <= i < |w| ==> IsWordSign(w[i])) && (rest == "" || !IsWordSign(rest[0]))
    ensures s != "" && IsWordSign(s[0]) ==> w != ""
    decreases |s|
  {
    if s == "" || !IsWordSign(s[0]) {
      w, rest := "", s;
    } else {
      w, rest := WordPart(s[1..]);
      w := [s[0]] + w;
    }
  }

  lemma FirstPiece(s: string) returns (p: Piece, rest: string)
    requires s != ""
    ensures IsPiece(p, rest) && s == TextOf(p) + rest && |rest| < |s|
  {
    hide IsWordSign, IsInside, IsOpenInside;
    if s[0] == '\'' || s[0] == '\"' {
      var inside, closed, more := InsidePart(s[1..], s[0]);
      p, rest := if closed then Literal(s[0], inside) else Unclosed(s[0], inside), if closed then more else "";
    } else if IsWordSign(s[0]) {
      var w;
      w, rest := WordPart(s);
      p := Word(w);
    } else {
      p, rest := Sign(s[0]), s[1..];
    }
  }

  /** So what becomes of any text at all is known. */
  lemma {:induction false} EveryTextHasPieces(s: string) returns (ps: seq<Piece>)
    ensures ArePieces(ps) && AllText(ps) == s
    decreases |s|
  {
    hide IsPiece, TextOf;
    if s == "" {
      ps := [];
    } else {
      var p, rest := FirstPiece(s);
      var more := EveryTextHasPieces(rest);
      ps := [p] + more;
      assert ps[1..] == more;
    }
  }
}
