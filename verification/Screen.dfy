/** The terminal row that the line editor draws on. Column 0 is where the edited
    line begins, so negative columns belong to the prompt. The row is unbounded:
    wrapping at the right margin is not part of this model. */
module Screen {
  import Seqs
  import opened Utf8

  /** The bytes drawn in a cell; the further cells of a wide glyph hold none. */
  type Cell = Bytes
  type Row = map<int, Cell>

  const BLANK: Cell := [0x20]

  function Shown(row: Row, c: int): Cell {
    if c in row then row[c] else BLANK
  }

  /** The row after drawing the cells from a column on. */
  ghost predicate Drawn(before: Row, after: Row, at: int, cells: seq<Cell>) {
    forall c {:trigger Shown(after, c)} ::
      Shown(after, c) == if at <= c < at + |cells| then cells[c - at] else Shown(before, c)
  }

  lemma DrawnAppend(before: Row, middle: Row, after: Row, at: int, a: seq<Cell>, next: int, b: seq<Cell>)
    requires next == at + |a|
    requires Drawn(before, middle, at, a) && Drawn(middle, after, next, b)
    ensures Drawn(before, after, at, a + b)
  {
    forall c
      ensures Shown(after, c) == if at <= c < at + |a + b| then (a + b)[c - at] else Shown(before, c)
    {
      assert Shown(middle, c) == if at <= c < at + |a| then a[c - at] else Shown(before, c);
    }
  }

  lemma DrawnCell(before: Row, middle: Row, at: int, a: seq<Cell>, cell: Cell)
    requires Drawn(before, middle, at, a)
    ensures Drawn(before, middle[at + |a| := cell], at, a + [cell])
  {
    var after := middle[at + |a| := cell];
    forall c
      ensures Shown(after, c) == if at <= c < at + |a + [cell]| then (a + [cell])[c - at] else Shown(before, c)
    {
      assert Shown(middle, c) == if at <= c < at + |a| then a[c - at] else Shown(before, c);
    }
  }

  method Draw(row: Row, at: int, cells: seq<Cell>) returns (after: Row)
    ensures Drawn(row, after, at, cells)
  {
    after := row;
    var i := 0;
    while i < |cells|
      invariant i <= |cells|
      invariant Drawn(row, after, at, cells[..i])
    {
      DrawnCell(row, after, at, cells[..i], cells[i]);
      assert cells[..i] + [cells[i]] == cells[..i + 1];
      after := after[at + i := cells[i]];
      i := i + 1;
    }
    assert cells[..i] == cells;
  }

  function Painted(bytes: Bytes, width: nat): (cells: seq<Cell>)
    ensures |cells| == width
  {
    if width == 0 then [] else [bytes] + seq(width - 1, _ => [])
  }

  function Blanks(n: nat): (cells: seq<Cell>)
    ensures |cells| == n
  {
    seq(n, _ => BLANK)
  }

  function Sum(ws: seq<nat>): nat {
    if ws == [] then 0 else ws[0] + Sum(ws[1..])
  }

  lemma {:induction false} SumAppend(a: seq<nat>, b: seq<nat>)
    ensures Sum(a + b) == Sum(a) + Sum(b)
  {
    if a == [] {
      Seqs.AppendNothing(b, a);
    } else {
      SumAppend(a[1..], b);
      Seqs.FirstOfAppend(a, b);
    }
  }

  lemma SumAround(ws: seq<nat>, k: nat)
    requires k < |ws|
    ensures Sum(ws[..k + 1]) == Sum(ws[..k]) + ws[k]
    ensures Sum(ws[k..]) == ws[k] + Sum(ws[k + 1..])
    ensures Sum(ws) == Sum(ws[..k]) + Sum(ws[k..])
  {
    SumAppend(ws[..k], [ws[k]]);
    Seqs.TakeSnoc(ws, k);
    Seqs.DropCons(ws, k);
    SumAppend(ws[..k], ws[k..]);
    Seqs.Split(ws, k);
    assert Sum([ws[k]]) == ws[k];
  }

  /** What a text with the given glyph widths looks like. */
  function Picture(gs: seq<Bytes>, ws: seq<nat>): (cells: seq<Cell>)
    requires |gs| == |ws|
    ensures |cells| == Sum(ws)
  {
    if gs == [] then [] else Painted(gs[0], ws[0]) + Picture(gs[1..], ws[1..])
  }

  lemma {:induction false} PictureAppend(gs: seq<Bytes>, ws: seq<nat>, hs: seq<Bytes>, vs: seq<nat>)
    requires |gs| == |ws| && |hs| == |vs|
    ensures Picture(gs + hs, ws + vs) == Picture(gs, ws) + Picture(hs, vs)
  {
    hide Painted;
    if gs == [] {
      Seqs.AppendNothing(hs, gs);
      Seqs.AppendNothing(vs, ws);
      Seqs.AppendNothing(Picture(hs, vs), Picture(gs, ws));
    } else {
      PictureAppend(gs[1..], ws[1..], hs, vs);
      Seqs.FirstOfAppend(gs, hs);
      Seqs.FirstOfAppend(ws, vs);
      Seqs.Associative(Painted(gs[0], ws[0]), Picture(gs[1..], ws[1..]), Picture(hs, vs));
    }
  }

  lemma PictureOne(g: Bytes, w: nat)
    ensures Picture([g], [w]) == Painted(g, w)
  {
    hide Painted;
    Seqs.DropCons([g], 0);
    Seqs.DropCons([w], 0);
    Seqs.AppendNothing(Painted(g, w), Picture([g][1..], [w][1..]));
  }

  lemma PictureSlice(gs: seq<Bytes>, ws: seq<nat>, i: nat, k: nat)
    requires |gs| == |ws| && i <= k < |gs|
    ensures Picture(gs[i..k + 1], ws[i..k + 1]) == Picture(gs[i..k], ws[i..k]) + Painted(gs[k], ws[k])
  {
    hide Painted, Picture;
    PictureOne(gs[k], ws[k]);
    PictureAppend(gs[i..k], ws[i..k], [gs[k]], [ws[k]]);
    Seqs.SliceSnoc(ws, i, k);
    Seqs.SliceSnoc(gs, i, k);
  }

  lemma SumSlice(ws: seq<nat>, i: nat, k: nat)
    requires i <= k < |ws|
    ensures Sum(ws[i..k + 1]) == Sum(ws[i..k]) + ws[k]
  {
    SumAppend(ws[i..k], [ws[k]]);
    Seqs.SliceSnoc(ws, i, k);
    assert Sum([ws[k]]) == ws[k];
  }

  lemma WholeTail(gs: seq<Bytes>, ws: seq<nat>, i: nat, k: nat)
    requires |gs| == |ws| == k && i <= k
    ensures Sum(ws[i..k]) == Sum(ws[i..]) && Picture(gs[i..k], ws[i..k]) == Picture(gs[i..], ws[i..])
  {
    Seqs.WholeSlice(ws, i, k);
    Seqs.WholeSlice(gs, i, k);
  }

  /** Drawing one more glyph of a run that started at glyph i. */
  lemma DrawnSlice(before: Row, middle: Row, after: Row, at: int, gs: seq<Bytes>, ws: seq<nat>,
                   i: nat, k: nat, next: int)
    requires |gs| == |ws| && i <= k < |gs| && next == at + Sum(ws[i..k])
    requires Drawn(before, middle, at, Picture(gs[i..k], ws[i..k]))
    requires Drawn(middle, after, next, Painted(gs[k], ws[k]))
    ensures Drawn(before, after, at, Picture(gs[i..k + 1], ws[i..k + 1]))
  {
    PictureSlice(gs, ws, i, k);
    DrawnAppend(before, middle, after, at, Picture(gs[i..k], ws[i..k]), next, Painted(gs[k], ws[k]));
  }

  /** The row shows this picture from column 0, then blanks for ever. */
  ghost predicate Shows(row: Row, cells: seq<Cell>) {
    forall c {:trigger Shown(row, c)} :: 0 <= c ==> Shown(row, c) == if c < |cells| then cells[c] else BLANK
  }

  /** Redrawing a tail at its column, followed by enough blanks to cover what
      stood there before, makes the row show the new text. */
  lemma RedrawTail(before: Row, after: Row, head: seq<Cell>, was: seq<Cell>, tail: seq<Cell>, blanks: nat)
    requires Shows(before, head + was)
    requires Drawn(before, after, |head|, tail + Blanks(blanks))
    requires |was| <= |tail| + blanks
    ensures Shows(after, head + tail)
  {
    forall c | 0 <= c
      ensures Shown(after, c) == if c < |head + tail| then (head + tail)[c] else BLANK
    {
      assert Shown(before, c) == if c < |head + was| then (head + was)[c] else BLANK;
    }
  }

  /** Blanking at least the width of what is shown leaves nothing shown. */
  lemma ClearedRow(before: Row, after: Row, cells: seq<Cell>, blanks: nat)
    requires Drawn(before, after, 0, Blanks(blanks)) && |cells| <= blanks
    ensures Shows(before, cells) ==> Shows(after, [])
  {
  }

  /** Drawing a text glyph by glyph on a cleared row. */
  lemma DrawnPush(before: Row, middle: Row, after: Row, gs: seq<Bytes>, ws: seq<nat>, g: Bytes, w: nat, next: int)
    requires |gs| == |ws| && next == Sum(ws)
    requires Drawn(before, middle, 0, Picture(gs, ws)) && Drawn(middle, after, next, Painted(g, w))
    ensures Drawn(before, after, 0, Picture(gs + [g], ws + [w]))
    ensures Sum(ws + [w]) == Sum(ws) + w
  {
    PictureOne(g, w);
    PictureAppend(gs, ws, [g], [w]);
    SumAppend(ws, [w]);
    DrawnAppend(before, middle, after, 0, Picture(gs, ws), next, Painted(g, w));
  }

  lemma ShownOnCleared(before: Row, after: Row, cells: seq<Cell>)
    requires Drawn(before, after, 0, cells)
    ensures Shows(before, []) ==> Shows(after, cells)
  {
  }

  /** Rewriting one cell keeps what is shown exactly when the cell belongs to
      the prompt or holds the same already. */
  lemma RewrittenCell(before: Row, after: Row, at: int, cell: Cell, cells: seq<Cell>)
    requires Drawn(before, after, at, [cell]) && Shows(before, cells)
    ensures Shows(after, cells) <==> at < 0 || Shown(before, at) == cell
  {
    assert Shown(after, at) == cell;
    if 0 <= at && Shown(before, at) != cell {
      assert Shown(before, at) == if at < |cells| then cells[at] else BLANK;
    }
  }

  class Terminal {
    var column: int
    var row: Row

    /** How far the cursor moves when these bytes are drawn. */
    const advance: Bytes -> nat
    /** The column width the locale reports for a code point; negative if none. */
    const wcwidth: nat -> int
    /** Whether the cursor position can be asked for. */
    const answersQueries: bool

    constructor (advance: Bytes -> nat, wcwidth: nat -> int, answersQueries: bool)
      ensures this.advance == advance && this.wcwidth == wcwidth && this.answersQueries == answersQueries
      ensures column == 0 && row == map[]
    {
      this.advance, this.wcwidth, this.answersQueries := advance, wcwidth, answersQueries;
      column, row := 0, map[];
    }

    /** The terminal moves by the reported width where there is one. Without a
        width and without an answer to the position query it must not move. */
    ghost predicate Calibrated() {
      forall c: Bytes {:trigger advance(c)} | IsChunk(c) ::
        var w := wcwidth(Decode(c, 0).codePoint);
        (w >= 0 ==> advance(c) == w) && (w < 0 && !answersQueries ==> advance(c) == 0)
    }

    method PutCodePoint(bytes: Bytes, expectedWidth: int) returns (width: int)
      modifies this
      ensures var step := if bytes == [] then 0 else advance(bytes);
        column == old(column) + step && Drawn(old(row), row, old(column), Painted(bytes, step)) &&
        width == if expectedWidth >= 0 || !answersQueries then expectedWidth else step
    {
      var step := if bytes == [] then 0 else advance(bytes);
      row := Draw(row, column, Painted(bytes, step));
      column := column + step;
      width := if expectedWidth >= 0 || !answersQueries then expectedWidth else step;
    }

    /** Draws a chunk for the first time and measures it. */
    method PutNew(bytes: Bytes, codePoint: nat) returns (width: nat)
      requires Calibrated() && IsChunk(bytes) && Decode(bytes, 0).codePoint == codePoint
      modifies this
      ensures width == advance(bytes) && column == old(column) + width
      ensures Drawn(old(row), row, old(column), Painted(bytes, width))
    {
      var realWidth := PutCodePoint(bytes, wcwidth(codePoint));
      width := if realWidth < 0 then 0 else realWidth;
    }

    method PutBlanks(n: nat)
      modifies this
      ensures column == old(column) + n && Drawn(old(row), row, old(column), Blanks(n))
    {
      var i := 0;
      while i < n
        invariant i <= n && column == old(column) + i
        invariant Drawn(old(row), row, old(column), Blanks(i))
      {
        DrawnCell(old(row), row, old(column), Blanks(i), BLANK);
        assert Blanks(i) + [BLANK] == Blanks(i + 1);
        row := row[column := BLANK];
        column := column + 1;
        i := i + 1;
      }
    }

    method MoveCursor(delta: int)
      modifies this`column
      ensures column == old(column) + delta
    {
      column := column + delta;
    }

    /** Steps back one column and draws a one-byte character there. */
    method ReplaceLast(ch: byte)
      modifies this`row
      ensures Drawn(old(row), row, column - 1, [[ch]])
    {
      row := row[column - 1 := [ch]];
    }
  }
}
