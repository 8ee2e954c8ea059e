/** One row of comma-separated values, and the quoting it undoes (section 2 of
    RFC 4180). */
module Csv {
  import Seqs

  const QUOTE: char := '\"'

  /** The fields of a row from a place on; the current field has been begun. */
  function Fields(s: string, i: nat, field: string, inQuotes: bool): (r: seq<string>)
    requires i <= |s|
    ensures r != []
    decreases |s| - i
  {
    if i == |s| then [field]
    else if s[i] == QUOTE then
      if !inQuotes then
        if field != "" then Fields(s, i + 1, field + [QUOTE], false) else Fields(s, i + 1, field, true)
      else if i + 1 < |s| && s[i + 1] == QUOTE then Fields(s, i + 2, field + [QUOTE], true)
      else Fields(s, i + 1, field, false)
    else if s[i] == ',' && !inQuotes then [field] + Fields(s, i + 1, "", false)
    else Fields(s, i + 1, field + [s[i]], inQuotes)
  }

  method ParseCsvRow(input: string) returns (fields: seq<string>)
    ensures fields == Fields(input, 0, "", false)
  {
    fields := [];
    var field, inQuotes := "", false;
    var i := 0;
    while i < |input|
      invariant i <= |input| && Fields(input, 0, "", false) == fields + Fields(input, i, field, inQuotes)
    {
      var ch := input[i];
      if ch == '\"' {
        if !inQuotes {
          if field != "" {
            field := field + "\"";
          } else {
            inQuotes := true;
          }
        } else if i + 1 < |input| && input[i + 1] == '\"' {
          field := field + "\"";
          i := i + 1;
        } else {
          inQuotes := false;
        }
      } else if ch == ',' {
        if inQuotes {
          field := field + ",";
        } else {
          Seqs.Associative(fields, [field], Fields(input, i + 1, "", false));
          fields := fields + [field];
          field := "";
        }
      } else {
        field := field + [ch];
      }
      i := i + 1;
    }
    fields := fields + [field];
  }

  function Doubled(s: string): string {
    if s == "" then "" else (if s[0] == QUOTE then [QUOTE, QUOTE] else [s[0]]) + Doubled(s[1..])
  }

  /** A field as it is written: as it stands, in quotes with more text behind them,
      or with an opening quote that is never closed. */
  datatype Cell = Bare(text: string) | Quoted(text: string, after: string) | Open(text: string)

  /** A comma ends text outside quotes, and a quote in front would open or go on
      with quoted text. */
  predicate IsBare(t: string) {
    ',' !in t && (t == "" || t[0] != '\"')
  }

  predicate IsCell(c: Cell) {
    match c
    case Bare(t) => IsBare(t)
    case Quoted(_, after) => IsBare(after)
    case Open(_) => true
  }

  /** Only the last cell may be open. */
  predicate AreCells(cells: seq<Cell>) {
    cells != [] && (forall k :: 0 <= k < |cells| ==> IsCell(cells[k])) && forall k :: 0 <= k < |cells| - 1 ==> !cells[k].Open?
  }

  function Written(c: Cell): string {
    match c
    case Bare(t) => t
    case Quoted(t, after) => "\"" + Doubled(t) + "\"" + after
    case Open(t) => "\"" + Doubled(t)
  }

  function FieldOf(c: Cell): string {
    if c.Quoted? then c.text + c.after else c.text
  }

  function Row(cells: seq<Cell>): string
    requires cells != []
  {
    Written(cells[0]) + if |cells| == 1 then "" else "," + Row(cells[1..])
  }

  function FieldsOf(cells: seq<Cell>): seq<string> {
    if cells == [] then [] else [FieldOf(cells[0])] + FieldsOf(cells[1..])
  }

  /** The text of a row from a place on. */
  predicate Reads(s: string, i: nat, t: string, rest: string) {
    i <= |s| && s[i..] == t + rest
  }

  lemma ReadsOne(s: string, i: nat, t: string, rest: string)
    requires t != "" && Reads(s, i, t, rest)
    ensures i < |s| && s[i] == t[0] && Reads(s, i + 1, t[1..], rest)
  {
    Seqs.FirstOfAppend(t, rest);
    assert |s[i..]| == |t| + |rest|;
    Seqs.DropCons(s, i);
  }

  /** Inside quotes everything is taken as it is, doubled quotes as one. */
  lemma {:induction false} QuotedIsRead(s: string, i: nat, field: string, more: string, rest: string)
    requires Reads(s, i, Doubled(more), [QUOTE] + rest) && (rest == "" || rest[0] != QUOTE)
    ensures Reads(s, i + |Doubled(more)| + 1, "", rest)
    ensures Fields(s, i, field, true) == Fields(s, i + |Doubled(more)| + 1, field + more, false)
    decreases |more|
  {
    hide Reads;
    if more == "" {
      Seqs.AppendNothing(field, more);
      ReadsQuote(s, i, rest);
    } else {
      ReadsOne(s, i, Doubled(more), [QUOTE] + rest);
      Seqs.Associative(field, [more[0]], more[1..]);
      Seqs.DropCons(more, 0);
      if more[0] == QUOTE {
        assert Doubled(more)[1..] == [QUOTE] + Doubled(more[1..]);
        ReadsOne(s, i + 1, Doubled(more)[1..], [QUOTE] + rest);
        assert Doubled(more)[1..][1..] == Doubled(more[1..]);
        QuotedIsRead(s, i + 2, field + [QUOTE], more[1..], rest);
      } else {
        assert Doubled(more)[1..] == Doubled(more[1..]);
        QuotedIsRead(s, i + 1, field + [more[0]], more[1..], rest);
      }
    }
  }

  /** The closing quote. */
  lemma ReadsQuote(s: string, i: nat, rest: string)
    requires Reads(s, i, "", [QUOTE] + rest) && (rest == "" || rest[0] != QUOTE)
    ensures i < |s| && s[i] == QUOTE && !(i + 1 < |s| && s[i + 1] == QUOTE) && Reads(s, i + 1, "", rest)
  {
    assert s[i..] == [QUOTE] + rest;
    assert |s[i..]| == 1 + |rest|;
    Seqs.DropCons(s, i);
    assert s[i + 1..] == rest;
  }

  /** Outside quotes a field goes on up to the comma. */
  lemma {:induction false} PlainIsRead(s: string, i: nat, field: string, more: string, rest: string)
    requires Reads(s, i, more, rest) && ',' !in more && (field == "" && more != "" ==> more[0] != QUOTE)
    ensures Reads(s, i + |more|, "", rest)
    ensures Fields(s, i, field, false) == Fields(s, i + |more|, field + more, false)
    decreases |more|
  {
    hide Reads;
    if more == "" {
      Seqs.AppendNothing(field, more);
    } else {
      ReadsOne(s, i, more, rest);
      assert more[0] != ',';
      Seqs.Associative(field, [more[0]], more[1..]);
      Seqs.DropCons(more, 0);
      PlainIsRead(s, i + 1, field + [more[0]], more[1..], rest);
    }
  }

  lemma QuotedCellIsRead(s: string, i: nat, t: string, after: string, rest: string)
    requires IsBare(after) && Reads(s, i, "\"" + Doubled(t) + "\"" + after, rest) && (rest == "" || rest[0] == ',')
    ensures var j := i + |Doubled(t)| + 2 + |after|;
      Reads(s, j, "", rest) && Fields(s, i, "", false) == Fields(s, j, t + after, false)
  {
    hide Fields, Reads, Doubled;
    QuoteOpens(s, i, Doubled(t), after, rest);
    assert after + rest == "" || (after + rest)[0] != QUOTE;
    QuotedIsRead(s, i + 1, "", t, after + rest);
    assert "" + t == t;
    var k := i + 1 + |Doubled(t)| + 1;
    ReadsParts(s, k, after, rest);
    PlainIsRead(s, k, t, after, rest);
  }

  lemma CellIsRead(s: string, i: nat, c: Cell, rest: string)
    requires IsCell(c) && !c.Open? && Reads(s, i, Written(c), rest) && (rest == "" || rest[0] == ',')
    ensures var j := i + |Written(c)|;
      j <= |s| && Reads(s, j, "", rest) && Fields(s, i, "", false) == Fields(s, j, FieldOf(c), false)
  {
    hide Fields, Reads, Doubled;
    if c.Quoted? {
      QuotedCellIsRead(s, i, c.text, c.after, rest);
    } else {
      PlainIsRead(s, i, "", c.text, rest);
      assert "" + c.text == c.text;
    }
    ReadsInside(s, i + |Written(c)|, rest);
  }

  lemma ReadsInside(s: string, i: nat, rest: string)
    requires Reads(s, i, "", rest)
    ensures i <= |s|
  {
  }

  lemma ReadsParts(s: string, i: nat, a: string, b: string)
    requires Reads(s, i, "", a + b)
    ensures Reads(s, i, a, b)
  {
    assert "" + (a + b) == a + b;
  }

  /** Text in quotes that are never closed lasts to the end. */
  lemma OpenIsRead(s: string, i: nat, t: string)
    requires Reads(s, i, "\"" + Doubled(t), "")
    ensures Fields(s, i, "", false) == [t]
  {
    hide Fields, Reads, Doubled;
    ReadsOne(s, i, "\"" + Doubled(t), "");
    assert ("\"" + Doubled(t))[1..] == Doubled(t);
    assert Fields(s, i, "", false) == Fields(s, i + 1, "", true) by { QuoteBegins(s, i); }
    InsideIsRead(s, i + 1, "", t);
    assert "" + t == t;
  }

  lemma QuoteBegins(s: string, i: nat)
    requires i < |s| && s[i] == QUOTE
    ensures Fields(s, i, "", false) == Fields(s, i + 1, "", true)
  {
  }

  lemma {:induction false} InsideIsRead(s: string, i: nat, field: string, more: string)
    requires Reads(s, i, Doubled(more), "")
    ensures Fields(s, i, field, true) == [field + more]
    decreases |more|
  {
    hide Reads;
    if more == "" {
      Seqs.AppendNothing(field, more);
      LastQuoted(s, i, field);
    } else {
      ReadsOne(s, i, Doubled(more), "");
      Seqs.Associative(field, [more[0]], more[1..]);
      Seqs.DropCons(more, 0);
      if more[0] == QUOTE {
        assert Doubled(more)[1..] == [QUOTE] + Doubled(more[1..]);
        ReadsOne(s, i + 1, Doubled(more)[1..], "");
        assert Doubled(more)[1..][1..] == Doubled(more[1..]);
        InsideIsRead(s, i + 2, field + [QUOTE], more[1..]);
      } else {
        assert Doubled(more)[1..] == Doubled(more[1..]);
        InsideIsRead(s, i + 1, field + [more[0]], more[1..]);
      }
    }
  }

  lemma LastQuoted(s: string, i: nat, field: string)
    requires Reads(s, i, "", "")
    ensures Fields(s, i, field, true) == [field]
  {
    assert |s[i..]| == 0;
  }

  /** The opening quote. */
  lemma QuoteOpens(s: string, i: nat, inside: string, after: string, rest: string)
    requires Reads(s, i, "\"" + inside + "\"" + after, rest)
    ensures i < |s| && Reads(s, i + 1, inside, [QUOTE] + (after + rest))
    ensures Fields(s, i, "", false) == Fields(s, i + 1, "", true)
  {
    var t := "\"" + inside + "\"" + after;
    ReadsOne(s, i, t, rest);
    assert t[1..] + rest == inside + ([QUOTE] + (after + rest));
    QuoteBegins(s, i);
  }

  lemma {:induction false} RowIsReadFrom(cells: seq<Cell>, s: string, i: nat)
    requires AreCells(cells) && Reads(s, i, Row(cells), "")
    ensures Fields(s, i, "", false) == FieldsOf(cells)
    decreases |cells|
  {
    hide Fields, Written, Reads, IsCell, FieldOf;
    var c := cells[0];
    var rest := if |cells| == 1 then "" else "," + Row(cells[1..]);
    ReadsSplit(s, i, Written(c), rest);
    if c.Open? {
      OpenWritten(c);
      OpenIsRead(s, i, c.text);
    } else {
      CellIsRead(s, i, c, rest);
      var j := i + |Written(c)|;
      if |cells| == 1 {
        LastField(s, j, FieldOf(c));
      } else {
        NextField(s, j, FieldOf(c), Row(cells[1..]));
        assert AreCells(cells[1..]) by { RestOfCells(cells); }
        RowIsReadFrom(cells[1..], s, j + 1);
      }
    }
    assert |cells| == 1 ==> FieldsOf(cells[1..]) == [];
  }

  lemma RestOfCells(cells: seq<Cell>)
    requires AreCells(cells) && |cells| > 1
    ensures AreCells(cells[1..])
  {
    hide IsCell;
  }

  lemma OpenWritten(c: Cell)
    requires c.Open?
    ensures Written(c) == "\"" + Doubled(c.text) && FieldOf(c) == c.text
  {
  }

  lemma ReadsSplit(s: string, i: nat, t: string, rest: string)
    requires Reads(s, i, t + rest, "")
    ensures Reads(s, i, t, rest)
  {
    Seqs.AppendNothing(t + rest, "");
  }

  lemma LastField(s: string, i: nat, field: string)
    requires Reads(s, i, "", "")
    ensures Fields(s, i, field, false) == [field]
  {
    assert |s[i..]| == 0;
  }

  lemma NextField(s: string, i: nat, field: string, rest: string)
    requires Reads(s, i, "", "," + rest)
    ensures i < |s| && Reads(s, i + 1, rest, "") && Fields(s, i, field, false) == [field] + Fields(s, i + 1, "", false)
  {
    assert s[i..] == "," + rest;
    assert |s[i..]| == 1 + |rest|;
    Seqs.DropCons(s, i);
    Seqs.AppendNothing(rest, "");
    assert s[i + 1..] == rest;
  }

  /** A written row is read back as its fields, however each of them is written. */
  lemma RowIsRead(cells: seq<Cell>)
    requires AreCells(cells)
    ensures Fields(Row(cells), 0, "", false) == FieldsOf(cells)
  {
    hide Fields, Row, AreCells;
    assert cells != [] by { SomeCell(cells); }
    assert Row(cells)[0..] == Row(cells);
    Seqs.AppendNothing(Row(cells), "");
    RowIsReadFrom(cells, Row(cells), 0);
  }

  lemma SomeCell(cells: seq<Cell>)
    requires AreCells(cells)
    ensures cells != []
  {
  }

  // Every text is a row

  /** Text in quotes up to the closing one, or to the end. */
  lemma {:induction false} QuotedPart(s: string) returns (t: string, closed: bool, rest: string)
    ensures s == Doubled(t) + (if closed then "\"" + rest else "") && (closed ==> rest == "" || rest[0] != '\"')
    ensures closed ==> |rest| < |s|
    decreases |s|
  {
    if s == "" {
      t, closed, rest := "", false, "";
    } else if s[0] != '\"' {
      t, closed, rest := QuotedPart(s[1..]);
      t := [s[0]] + t;
      assert Doubled(t) == [s[0]] + Doubled(t[1..]);
    } else if |s| > 1 && s[1] == '\"' {
      t, closed, rest := QuotedPart(s[2..]);
      t := [s[0]] + t;
      assert Doubled(t) == ['\"', '\"'] + Doubled(t[1..]);
      assert s == ['\"', '\"'] + s[2..];
    } else {
      t, closed, rest := "", true, s[1..];
    }
  }

  /** Text up to a comma, or to the end. */
  lemma {:induction false} BarePart(s: string) returns (t: string, ended: bool, rest: string)
    ensures ',' !in t && s == t + (if ended then "," + rest else "") && (ended ==> |rest| < |s|)
    decreases |s|
  {
    if s == "" {
      t, ended, rest := "", false, "";
    } else if s[0] == ',' {
      t, ended, rest := "", true, s[1..];
    } else {
      t, ended, rest := BarePart(s[1..]);
      t := [s[0]] + t;
    }
  }

  lemma QuotedCell(s: string) returns (c: Cell, ended: bool, rest: string)
    ensures IsCell(c) && "\"" + s == Written(c) + (if ended then "," + rest else "") && (ended ==> |rest| <= |s| && !c.Open?)
  {
    hide Doubled;
    var t, closed, after := QuotedPart(s);
    if closed {
      var more;
      more, ended, rest := BarePart(after);
      c := Quoted(t, more);
      var end := if ended then "," + rest else "";
      assert "\"" + (Doubled(t) + ("\"" + (more + end))) == "\"" + Doubled(t) + "\"" + more + end;
    } else {
      c, ended, rest := Open(t), false, "";
      assert "\"" + (Doubled(t) + "") == "\"" + Doubled(t) + "";
    }
  }

  lemma FirstCell(s: string) returns (c: Cell, ended: bool, rest: string)
    ensures IsCell(c) && s == Written(c) + (if ended then "," + rest else "") && (ended ==> |rest| < |s| && !c.Open?)
  {
    if s != "" && s[0] == '\"' {
      hide IsCell, Written;
      c, ended, rest := QuotedCell(s[1..]);
      assert s == "\"" + s[1..];
    } else {
      var t;
      t, ended, rest := BarePart(s);
      c := Bare(t);
    }
  }

  /** So what is read of any text at all is known. */
  lemma {:induction false} EveryTextIsRow(s: string) returns (cells: seq<Cell>)
    ensures AreCells(cells) && Row(cells) == s
    decreases |s|
  {
    hide IsCell, Written;
    var c, ended, rest := FirstCell(s);
    if ended {
      var more := EveryTextIsRow(rest);
      cells := [c] + more;
      assert cells[1..] == more;
    } else {
      cells := [c];
    }
  }

  function AllQuoted(fields: seq<string>): (cells: seq<Cell>)
    ensures |cells| == |fields| && forall k :: 0 <= k < |cells| ==> cells[k] == Quoted(fields[k], "")
  {
    if fields == [] then [] else [Quoted(fields[0], "")] + AllQuoted(fields[1..])
  }

  /** Any fields at all, over any characters, survive being quoted. */
  lemma QuotedRowIsRead(fields: seq<string>)
    requires fields != []
    ensures Fields(Row(AllQuoted(fields)), 0, "", false) == fields
  {
    hide Fields, Row;
    RowIsRead(AllQuoted(fields));
    FieldsOfQuoted(fields);
  }

  lemma {:induction false} FieldsOfQuoted(fields: seq<string>)
    ensures FieldsOf(AllQuoted(fields)) == fields
  {
    if fields != [] {
      FieldsOfQuoted(fields[1..]);
      Seqs.AppendNothing(fields[0], "");
      Seqs.DropCons(fields, 0);
    }
  }

  /** A field that is not fit to stand without quotes does not survive it. */
  lemma PlainSurvivesExactly(field: string)
    ensures Fields(field, 0, "", false) == [field] <==> IsBare(field)
  {
    if IsBare(field) {
      RowIsRead([Bare(field)]);
      Seqs.AppendNothing(field, "");
      assert FieldsOf([Bare(field)]) == [field];
    } else if field[0] == QUOTE {
      Shorter(field, 1, "", true);
    } else {
      CommaSplits(field, 0, "");
    }
  }

  /** What is read is never longer than what is left to read. */
  lemma {:induction false} Shorter(s: string, i: nat, field: string, inQuotes: bool)
    requires i <= |s|
    ensures |Fields(s, i, field, inQuotes)[0]| <= |field| + |s| - i
    decreases |s| - i
  {
    if i == |s| {
    } else if s[i] == QUOTE {
      if !inQuotes {
        if field != "" {
          Shorter(s, i + 1, field + [QUOTE], false);
        } else {
          Shorter(s, i + 1, field, true);
        }
      } else if i + 1 < |s| && s[i + 1] == QUOTE {
        Shorter(s, i + 2, field + [QUOTE], true);
      } else {
        Shorter(s, i + 1, field, false);
      }
    } else if s[i] == ',' && !inQuotes {
    } else {
      Shorter(s, i + 1, field + [s[i]], inQuotes);
    }
  }

  lemma {:induction false} CommaSplits(s: string, i: nat, field: string)
    requires i <= |s| && ',' in s[i..] && (field == "" ==> s[i] != QUOTE)
    ensures |Fields(s, i, field, false)| > 1
    decreases |s| - i
  {
    Seqs.DropCons(s, i);
    if s[i] == QUOTE {
      CommaSplits(s, i + 1, field + [QUOTE]);
    } else if s[i] != ',' {
      CommaSplits(s, i + 1, field + [s[i]]);
    }
  }
}
