/** JSON text as the tool-call pipeline writes it: string contents (section 7 of
    RFC 8259) and the count of open braces. */
module JsonText {
  import Seqs
  import opened Wrappers

  const QUOTE: char := '\"'
  const BACKSLASH: char := '\\'
  const HEX := "0123456789abcdef"

  /** One character inside a string literal. */
  function EscapeChar(c: char): (s: string)
    ensures |s| > 0
  {
    if c == QUOTE then "\\\""
    else if c == BACKSLASH then "\\\\"
    else if c as int == 0x08 then "\\b"
    else if c as int == 0x09 then "\\t"
    else if c as int == 0x0A then "\\n"
    else if c as int == 0x0C then "\\f"
    else if c as int == 0x0D then "\\r"
    else if c as int < 0x20 then "\\u00" + [HEX[c as int / 16], HEX[c as int % 16]]
    else [c]
  }

  function Escape(s: string): string {
    if s == "" then "" else EscapeChar(s[0]) + Escape(s[1..])
  }

  lemma {:induction false} EscapeAppend(a: string, b: string)
    ensures Escape(a + b) == Escape(a) + Escape(b)
  {
    hide EscapeChar;
    if a == "" {
      Seqs.AppendNothing(b, a);
      Seqs.AppendNothing(Escape(b), Escape(a));
    } else {
      EscapeAppend(a[1..], b);
      Seqs.FirstOfAppend(a, b);
      Seqs.Associative(EscapeChar(a[0]), Escape(a[1..]), Escape(b));
    }
  }

  function HexValue(c: char): Option<nat> {
    if '0' <= c <= '9' then Some(c as int - '0' as int)
    else if 'a' <= c <= 'f' then Some(c as int - 'a' as int + 10)
    else if 'A' <= c <= 'F' then Some(c as int - 'A' as int + 10)
    else None
  }

  /** The character a two-character escape stands for, apart from \u. */
  function SimpleEscape(c: char): Option<char> {
    if c == QUOTE || c == BACKSLASH || c == '/' then Some(c)
    else if c == 'b' then Some(0x08 as char)
    else if c == 'f' then Some(0x0C as char)
    else if c == 'n' then Some(0x0A as char)
    else if c == 'r' then Some(0x0D as char)
    else if c == 't' then Some(0x09 as char)
    else None
  }

  /** A code unit from four hexadecimal digits; surrogates are left alone. */
  function UnicodeEscape(s: string): Option<char>
    requires |s| == 4
  {
    var (a, b, c, d) := (HexValue(s[0]), HexValue(s[1]), HexValue(s[2]), HexValue(s[3]));
    if a.None? || b.None? || c.None? || d.None? then None
    else
      var u := ((a.value * 16 + b.value) * 16 + c.value) * 16 + d.value;
      if u < 0xD800 || 0xE000 <= u <= 0xFFFF then Some(u as char) else None
  }

  function Prepend(c: char, r: Option<string>): Option<string> {
    if r.None? then None else Some([c] + r.value)
  }

  /** Reads the inside of a JSON string literal. */
  function ReadString(s: string): Option<string>
    decreases |s|
  {
    if s == "" then Some("")
    else if s[0] == QUOTE || s[0] as int < 0x20 then None
    else if s[0] != BACKSLASH then Prepend(s[0], ReadString(s[1..]))
    else if |s| < 2 then None
    else if s[1] == 'u' then
      if |s| < 6 || UnicodeEscape(s[2..6]).None? then None
      else Prepend(UnicodeEscape(s[2..6]).value, ReadString(s[6..]))
    else if SimpleEscape(s[1]).None? then None
    else Prepend(SimpleEscape(s[1]).value, ReadString(s[2..]))
  }

  lemma ReadEscapedChar(c: char, rest: string)
    ensures ReadString(EscapeChar(c) + rest) == Prepend(c, ReadString(rest))
  {
    hide UnicodeEscape;
    var e := EscapeChar(c);
    var s := e + rest;
    Seqs.Border(e, rest);
    if |e| == 2 {
      assert s[0] == e[0] && s[1] == e[1];
    } else if |e| == 6 {
      assert s[0] == BACKSLASH && s[1] == 'u';
      assert s[2..6] == ['0', '0', e[4], e[5]];
      ControlHex(c);
    }
  }

  lemma ControlHex(c: char)
    requires c as int < 0x20
    ensures UnicodeEscape(['0', '0', HEX[c as int / 16], HEX[c as int % 16]]) == Some(c)
  {
    var q, r := c as int / 16, c as int % 16;
    assert HexValue(HEX[q]) == Some(q) && HexValue(HEX[r]) == Some(r);
  }

  /** Reading undoes escaping, for every text. */
  lemma {:induction false} ReadEscaped(s: string)
    ensures ReadString(Escape(s)) == Some(s)
  {
    hide EscapeChar;
    if s != "" {
      ReadEscaped(s[1..]);
      ReadEscapedChar(s[0], Escape(s[1..]));
      Seqs.DropCons(s, 0);
    }
  }

  /** The state of the brace counter. */
  datatype Braces = Braces(depth: int, inString: bool, escaped: bool)

  const START := Braces(0, false, false)

  function Count(b: Braces, c: char): Braces {
    if b.escaped then b.(escaped := false)
    else if c == BACKSLASH && b.inString then b.(escaped := true)
    else if c == QUOTE then b.(inString := !b.inString)
    else if !b.inString && c == '{' then b.(depth := b.depth + 1)
    else if !b.inString && c == '}' then b.(depth := b.depth - 1)
    else b
  }

  function CountAll(b: Braces, s: string): Braces
    decreases |s|
  {
    if s == "" then b else CountAll(Count(b, s[0]), s[1..])
  }

  lemma {:induction false} CountAppend(b: Braces, s: string, t: string)
    ensures CountAll(b, s + t) == CountAll(CountAll(b, s), t)
    decreases |s|
  {
    if s == "" {
      Seqs.AppendNothing(t, s);
    } else {
      Seqs.FirstOfAppend(s, t);
      CountAppend(Count(b, s[0]), s[1..], t);
    }
  }

  /** The number of braces left open, braces in strings not counted. */
  method BraceDepth(s: string) returns (depth: int)
    ensures depth == CountAll(START, s).depth
  {
    depth := 0;
    var inString, escaped := false, false;
    var i := 0;
    while i < |s|
      invariant i <= |s|
      invariant CountAll(START, s) == CountAll(Braces(depth, inString, escaped), s[i..])
    {
      var c := s[i];
      Seqs.DropCons(s, i);
      i := i + 1;
      if escaped {
        escaped := false;
      } else if c == '\\' && inString {
        escaped := true;
      } else if c == '\"' {
        inString := !inString;
      } else if !inString {
        if c == '{' {
          depth := depth + 1;
        } else if c == '}' {
          depth := depth - 1;
        }
      }
    }
  }

  lemma EscapedCharIsInert(b: Braces, c: char)
    requires b.inString && !b.escaped
    ensures CountAll(b, EscapeChar(c)) == b
  {
    var e := EscapeChar(c);
    if |e| == 1 {
      assert CountAll(b, e) == CountAll(Count(b, e[0]), e[1..]);
    } else {
      var b1 := Count(b, e[0]);
      assert CountAll(b, e) == CountAll(b1, e[1..]);
      assert CountAll(b1, e[1..]) == CountAll(Count(b1, e[1]), e[2..]) by { Seqs.DropCons(e, 1); }
      if |e| == 6 {
        HexIsInert(b, e[2..]);
      }
    }
  }

  lemma {:induction false} HexIsInert(b: Braces, s: string)
    requires b.inString && !b.escaped && forall c :: c in s ==> c in HEX
    ensures CountAll(b, s) == b
  {
    if s != "" {
      assert s[0] in HEX && s[0] != BACKSLASH && s[0] != QUOTE;
      HexIsInert(b, s[1..]);
    }
  }

  /** Escaped text neither opens nor closes anything. */
  lemma {:induction false} EscapedIsInert(b: Braces, s: string)
    requires b.inString && !b.escaped
    ensures CountAll(b, Escape(s)) == b
  {
    hide EscapeChar;
    if s != "" {
      EscapedCharIsInert(b, s[0]);
      EscapedIsInert(b, s[1..]);
      CountAppend(b, EscapeChar(s[0]), Escape(s[1..]));
    }
  }

  /** A whole string literal leaves the counter where it was. */
  lemma LiteralIsInert(b: Braces, s: string)
    requires !b.inString && !b.escaped
    ensures CountAll(b, [QUOTE] + Escape(s) + [QUOTE]) == b
  {
    var open := b.(inString := true);
    CountAppend(b, [QUOTE] + Escape(s), [QUOTE]);
    CountAppend(b, [QUOTE], Escape(s));
    EscapedIsInert(open, s);
    assert CountAll(b, [QUOTE]) == open;
    assert CountAll(open, [QUOTE]) == b;
  }

  // The two tables, spelled out

  const LETTERS := map['\"' := '\"', '\\' := '\\', 0x08 as char := 'b', '\t' := 't', '\n' := 'n', 0x0C as char := 'f', '\r' := 'r']

  /** Seven characters have a letter, other control characters their number in four
      digits, and all others stand for themselves. */
  lemma EscapesAre(c: char)
    ensures if c in LETTERS then EscapeChar(c) == ['\\', LETTERS[c]]
      else if c < ' ' then exists d, e :: IsHex(d, c as int / 16) && IsHex(e, c as int % 16) && EscapeChar(c) == ['\\', 'u', '0', '0', d, e]
      else EscapeChar(c) == [c]
    ensures c in LETTERS ==> SimpleEscape(LETTERS[c]) == Some(c)
  {
    if c !in LETTERS && c < ' ' {
      var d, e := HEX[c as int / 16], HEX[c as int % 16];
      assert IsHex(d, c as int / 16) && IsHex(e, c as int % 16) && EscapeChar(c) == ['\\', 'u', '0', '0', d, e];
    }
  }

  predicate IsHex(d: char, n: int) {
    if 0 <= n < 10 then d as int == '0' as int + n else 10 <= n < 16 && d as int == 'a' as int + n - 10
  }
}
