/** What the brace counter counts: every text cut into braces, strings and other
    characters, and the count of it. */
module JsonCounts {
  import Seqs
  import opened JsonText

  /** A piece of JSON-like text: a brace, a whole string with its escapes, any other
      character. */
  datatype Piece = Opening | Closing | Literal(inside: string) | Sign(c: char)

  /** A text ends outside strings or inside one, perhaps behind a backslash. */
  datatype Ending = Outside | Inside(text: string, lone: bool)

  /** The inside of a string: no quote but behind a backslash, and no backslash by
      itself at the end. */
  predicate IsInside(s: string)
    decreases |s|
  {
    s == "" || if s[0] == '\\' then |s| > 1 && IsInside(s[2..]) else s[0] != '\"' && IsInside(s[1..])
  }

  predicate IsPiece(p: Piece) {
    match p
    case Literal(inside) => IsInside(inside)
    case Sign(c) => c != '{' && c != '}' && c != '\"'
    case _ => true
  }

  function PieceText(p: Piece): string {
    match p
    case Opening => "{"
    case Closing => "}"
    case Literal(inside) => "\"" + (inside + "\"")
    case Sign(c) => [c]
  }

  function EndText(e: Ending): string {
    match e
    case Outside => ""
    case Inside(text, lone) => "\"" + (text + if lone then "\\" else "")
  }

  function AllText(ps: seq<Piece>, e: Ending): string {
    if ps == [] then EndText(e) else PieceText(ps[0]) + AllText(ps[1..], e)
  }

  function Depth(ps: seq<Piece>): int {
    if ps == [] then 0 else (if ps[0].Opening? then 1 else if ps[0].Closing? then -1 else 0) + Depth(ps[1..])
  }

  predicate ArePieces(ps: seq<Piece>, e: Ending) {
    (forall i :: 0 <= i < |ps| ==> IsPiece(ps[i])) && (e.Inside? ==> IsInside(e.text))
  }

  lemma {:induction false} InsideCounts(b: Braces, s: string)
    requires b.inString && !b.escaped && IsInside(s)
    ensures CountAll(b, s) == b
    decreases |s|
  {
    if s != "" {
      if s[0] == '\\' {
        assert CountAll(b, s) == CountAll(Count(b, s[0]), s[1..]);
        Seqs.DropCons(s, 1);
        assert CountAll(Count(b, s[0]), s[1..]) == CountAll(Count(Count(b, s[0]), s[1]), s[2..]);
        InsideCounts(b, s[2..]);
      } else {
        InsideCounts(b, s[1..]);
      }
    }
  }

  lemma PieceCounts(b: Braces, p: Piece)
    requires !b.inString && !b.escaped && IsPiece(p)
    ensures CountAll(b, PieceText(p)) == b.(depth := b.depth + Depth([p]))
  {
    assert Depth([p][1..]) == 0;
    match p
    case Literal(inside) =>
      var open := b.(inString := true);
      CountAppend(b, "\"", inside + "\"");
      CountAppend(open, inside, "\"");
      assert CountAll(b, "\"") == open && CountAll(open, "\"") == b;
      InsideCounts(open, inside);
    case _ =>
      var t := PieceText(p);
      assert t[1..] == "";
  }

  /** Braces outside strings are counted, those in them are not, and it is known
      whether the text ends in a string and behind a backslash. */
  lemma {:induction false} CountIsDepth(b: Braces, ps: seq<Piece>, e: Ending)
    requires !b.inString && !b.escaped && ArePieces(ps, e)
    ensures CountAll(b, AllText(ps, e)) == Braces(b.depth + Depth(ps), e.Inside?, e.Inside? && e.lone)
    decreases |ps|
  {
    hide CountAll, IsPiece, IsInside;
    if ps == [] {
      EndCounts(b, e);
    } else {
      CountAppend(b, PieceText(ps[0]), AllText(ps[1..], e));
      PieceCounts(b, ps[0]);
      assert Depth([ps[0]]) == (if ps[0].Opening? then 1 else if ps[0].Closing? then -1 else 0) by { assert Depth([ps[0]][1..]) == 0; }
      CountIsDepth(b.(depth := b.depth + Depth([ps[0]])), ps[1..], e);
    }
  }

  lemma EndCounts(b: Braces, e: Ending)
    requires !b.inString && !b.escaped && (e.Inside? ==> IsInside(e.text))
    ensures CountAll(b, EndText(e)) == Braces(b.depth, e.Inside?, e.Inside? && e.lone)
  {
    if e.Inside? {
      var open := b.(inString := true);
      var end := if e.lone then "\\" else "";
      CountAppend(b, "\"", e.text + end);
      CountAppend(open, e.text, end);
      assert CountAll(b, "\"") == open;
      InsideCounts(open, e.text);
      assert end != "" ==> end[1..] == "";
    }
  }

  /** Every text is made of such pieces. */
  lemma {:induction false} EveryTextHasPieces(s: string) returns (ps: seq<Piece>, e: Ending)
    ensures ArePieces(ps, e) && AllText(ps, e) == s
    decreases |s|
  {
    hide IsInside;
    if s == "" {
      ps, e := [], Outside;
    } else {
      var p, rest;
      p, rest, e := FirstPiece(s);
      if e.Inside? {
        ps := [];
      } else {
        var more;
        more, e := EveryTextHasPieces(rest);
        ps := [p] + more;
        assert ps[1..] == more;
      }
    }
  }

  lemma FirstPiece(s: string) returns (p: Piece, rest: string, e: Ending)
    requires s != ""
    ensures if e.Inside? then IsInside(e.text) && s == EndText(e) else IsPiece(p) && s == PieceText(p) + rest && |rest| < |s|
  {
    hide IsInside;
    p, rest, e := if s[0] == '{' then Opening else if s[0] == '}' then Closing else Sign(s[0]), s[1..], Outside;
    if s[0] == '\"' {
      var inside, closed;
      inside, closed, rest, e := InsidePart(s[1..]);
      p := Literal(inside);
    }
  }

  lemma {:induction false} InsidePart(s: string) returns (inside: string, closed: bool, rest: string, e: Ending)
    ensures IsInside(inside) && (closed <==> e.Outside?)
    ensures if closed then s == inside + ("\"" + rest) else e.text == inside && s == inside + if e.lone then "\\" else ""
    decreases |s|
  {
    if s == "" || s == "\\" {
      inside, closed, rest, e := "", false, "", Inside("", s != "");
    } else if s[0] == '\"' {
      inside, closed, rest, e := "", true, s[1..], Outside;
    } else {
      var n := if s[0] == '\\' then 2 else 1;
      var more;
      more, closed, rest, e := InsidePart(s[n..]);
      inside := s[..n] + more;
      assert inside[0] == s[0] && inside[n..] == more;
      if !closed {
        e := Inside(inside, e.lone);
      }
    }
  }
}
