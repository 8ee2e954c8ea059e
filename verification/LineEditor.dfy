/** The line buffer of the console: UTF-8 bytes, one width per glyph, a cursor
    held both as a glyph index and as a byte index, and the terminal row. */
module LineEditor {
  import Seqs
  import opened Utf8
  import opened Screen
  import opened EditModel

  lemma EraseGlyph(gs: seq<Bytes>, k: nat)
    requires IsText(gs) && k < |gs|
    ensures Offset(gs, k) < Offset(gs, k + 1) <= |Join(gs)|
    ensures Join(gs)[..Offset(gs, k)] + Join(gs)[Offset(gs, k + 1)..] == Join(gs[..k] + gs[k + 1..])
  {
    JoinAround(gs, k);
    JoinAppend(gs[..k], gs[k + 1..]);
    assert Join(gs)[..Offset(gs, k)] == Join(gs[..k]);
    assert Join(gs)[Offset(gs, k + 1)..] == Join(gs[k + 1..]);
  }

  lemma JoinSplit(gs: seq<Bytes>, k: nat)
    requires k <= |gs|
    ensures Offset(gs, k) <= |Join(gs)|
    ensures Join(gs)[..Offset(gs, k)] == Join(gs[..k]) && Join(gs)[Offset(gs, k)..] == Join(gs[k..])
  {
    JoinAppend(gs[..k], gs[k..]);
    Seqs.Split(gs, k);
    Seqs.Border(Join(gs[..k]), Join(gs[k..]));
  }

  lemma JoinBetween(a: seq<Bytes>, g: Bytes, b: seq<Bytes>)
    ensures Join(a + [g] + b) == Join(a) + g + Join(b)
    ensures Offset(a + [g] + b, |a|) == |Join(a)|
    ensures Offset(a + [g] + b, |a| + 1) == |Join(a)| + |g|
  {
    JoinAround(a + [g] + b, |a|);
    Seqs.Between(a, g, b);
  }

  lemma InsertGlyph(gs: seq<Bytes>, k: nat, g: Bytes)
    requires k <= |gs|
    ensures Offset(gs, k) <= |Join(gs)|
    ensures Join(gs)[..Offset(gs, k)] + g + Join(gs)[Offset(gs, k)..] == Join(gs[..k] + [g] + gs[k..])
    ensures Offset(gs[..k] + [g] + gs[k..], k) == Offset(gs, k)
    ensures Offset(gs[..k] + [g] + gs[k..], k + 1) == Offset(gs, k) + |g|
  {
    JoinSplit(gs, k);
    JoinBetween(gs[..k], g, gs[k..]);
  }

  lemma GlyphAt(gs: seq<Bytes>, k: nat)
    requires IsText(gs) && k < |gs|
    ensures Offset(gs, k) < Offset(gs, k + 1) <= |Join(gs)|
    ensures Join(gs)[Offset(gs, k)..Offset(gs, k + 1)] == gs[k]
  {
    JoinAround(gs, k);
  }

  /** One width per glyph, each the distance the terminal moves for it. */
  ghost predicate Measured(gs: seq<Bytes>, widths: seq<nat>, advance: Bytes -> nat) {
    |widths| == |gs| && forall i :: 0 <= i < |gs| ==> widths[i] == advance(gs[i])
  }

  /** The bytes divide into glyphs and every glyph has its width. */
  ghost predicate IsConsistent(line: Bytes, widths: seq<nat>, advance: Bytes -> nat) {
    Clean(line) && Measured(Chunks(line), widths, advance)
  }

  /** The row shows the line and nothing after it. */
  ghost predicate IsShown(row: Row, line: Bytes, widths: seq<nat>) {
    Clean(line) && |widths| == |Chunks(line)| && Shows(row, Picture(Chunks(line), widths))
  }

  lemma SliceSum(ws: seq<nat>, i: nat, k: nat)
    requires i <= k <= |ws|
    ensures Sum(ws[..k]) == Sum(ws[..i]) + Sum(ws[i..k])
    ensures Sum(ws[..k]) + Sum(ws[k..]) == Sum(ws)
  {
    hide Sum;
    SumAppend(ws[..i], ws[i..k]);
    Seqs.TakeSlice(ws, i, k);
    SumAppend(ws[..k], ws[k..]);
    Seqs.Split(ws, k);
  }

  /** One glyph more at index k, and all others as they were. */
  ghost predicate Grown(gs: seq<Bytes>, ws: seq<nat>, k: nat, hs: seq<Bytes>, vs: seq<nat>) {
    |gs| == |ws| && k <= |gs| && |hs| == |vs| == |gs| + 1 &&
    hs[..k] == gs[..k] && hs[k + 1..] == gs[k..] && vs[..k] == ws[..k] && vs[k + 1..] == ws[k..]
  }

  ghost predicate Shrunk(gs: seq<Bytes>, ws: seq<nat>, k: nat, hs: seq<Bytes>, vs: seq<nat>) {
    Grown(hs, vs, k, gs, ws)
  }

  /** What removing glyph k leaves of the widths and of the picture. */
  lemma WithoutGlyph(gs: seq<Bytes>, ws: seq<nat>, k: nat, advance: Bytes -> nat)
    requires Measured(gs, ws, advance) && k < |gs|
    ensures var hs, vs := gs[..k] + gs[k + 1..], ws[..k] + ws[k + 1..];
      Measured(hs, vs, advance) && Shrunk(gs, ws, k, hs, vs)
  {
    Seqs.Border(gs[..k], gs[k + 1..]);
    Seqs.Border(ws[..k], ws[k + 1..]);
  }

  lemma WithGlyph(gs: seq<Bytes>, ws: seq<nat>, k: nat, g: Bytes, advance: Bytes -> nat)
    requires Measured(gs, ws, advance) && k <= |gs|
    ensures var hs, vs := gs[..k] + [g] + gs[k..], ws[..k] + [advance(g)] + ws[k..];
      Measured(hs, vs, advance) && Grown(gs, ws, k, hs, vs) && hs[k] == g &&
      Sum(vs[..k]) == Sum(ws[..k]) && Sum(vs[..k + 1]) == Sum(ws[..k]) + advance(g)
  {
    hide Sum;
    SumAround(ws[..k] + [advance(g)] + ws[k..], k);
    Seqs.Between(gs[..k], g, gs[k..]);
    Seqs.Between(ws[..k], advance(g), ws[k..]);
  }

  lemma PictureSplit(gs: seq<Bytes>, ws: seq<nat>, k: nat)
    requires |gs| == |ws| && k <= |gs|
    ensures Picture(gs, ws) == Picture(gs[..k], ws[..k]) + Picture(gs[k..], ws[k..])
    ensures k < |gs| ==> Picture(gs[k..], ws[k..]) == Painted(gs[k], ws[k]) + Picture(gs[k + 1..], ws[k + 1..])
  {
    hide Painted;
    Seqs.Split(gs, k);
    Seqs.Split(ws, k);
    PictureAppend(gs[..k], ws[..k], gs[k..], ws[k..]);
    if k < |gs| {
      Seqs.DropCons(gs, k);
      Seqs.DropCons(ws, k);
    }
  }

  /** The tail redraw after a removal. */
  lemma ShowsWithout(before: Row, middle: Row, after: Row, at: int, next: int,
                     gs: seq<Bytes>, ws: seq<nat>, k: nat, hs: seq<Bytes>, vs: seq<nat>)
    requires Shrunk(gs, ws, k, hs, vs)
    requires at == Sum(ws[..k]) && next == at + Sum(vs[k..])
    requires Drawn(before, middle, at, Picture(hs[k..], vs[k..]))
    requires Drawn(middle, after, next, Blanks(ws[k]))
    ensures Shows(before, Picture(gs, ws)) ==> Shows(after, Picture(hs, vs))
  {
    if Shows(before, Picture(gs, ws)) {
      var head, was, tail := Picture(gs[..k], ws[..k]), Picture(gs[k..], ws[k..]), Picture(hs[k..], vs[k..]);
      PictureSplit(gs, ws, k);
      PictureSplit(hs, vs, k);
      DrawnAppend(before, middle, after, at, tail, next, Blanks(ws[k]));
      RedrawTail(before, after, head, was, tail, ws[k]);
    }
  }

  /** The tail redraw after an insertion. */
  lemma ShowsWith(before: Row, middle: Row, after: Row, at: int, next: int,
                  gs: seq<Bytes>, ws: seq<nat>, k: nat, hs: seq<Bytes>, vs: seq<nat>)
    requires Grown(gs, ws, k, hs, vs)
    requires at == Sum(ws[..k]) && next == at + vs[k]
    requires Drawn(before, middle, at, Painted(hs[k], vs[k]))
    requires Drawn(middle, after, next, Picture(hs[k + 1..], vs[k + 1..]))
    ensures Shows(before, Picture(gs, ws)) ==> Shows(after, Picture(hs, vs))
  {
    if Shows(before, Picture(gs, ws)) {
      var head, was, one, tail := Picture(gs[..k], ws[..k]), Picture(gs[k..], ws[k..]), Painted(hs[k], vs[k]), Picture(hs[k + 1..], vs[k + 1..]);
      PictureSplit(gs, ws, k);
      PictureSplit(hs, vs, k);
      DrawnAppend(before, middle, after, at, one, next, tail);
      assert (one + tail) + Blanks(0) == one + tail;
      RedrawTail(before, after, head, was, one + tail, 0);
    }
  }

  lemma InsertNothing(line: Bytes, at: nat, s: Bytes)
    requires at <= |line| && s == []
    ensures line[..at] + s + line[at..] == line
  {
  }

  /** Inserting the encoding of a code point and a width keeps the two in step
      exactly for code points up to U+10FFFF with the right width: above that
      no byte is inserted, and the widths run ahead of the glyphs. */
  lemma InsertionKeepsStep(line: Bytes, widths: seq<nat>, k: nat, cp: nat, w: nat, advance: Bytes -> nat)
    requires IsConsistent(line, widths, advance) && k <= |widths|
    ensures Offset(Chunks(line), k) <= |line|
    ensures var at := Offset(Chunks(line), k);
      IsConsistent(line[..at] + Encode(cp) + line[at..], widths[..k] + [w] + widths[k..], advance) <==>
      cp <= MAX_CODE_POINT && w == advance(Encode(cp))
  {
    hide Clean, Chunks, IsText, IsGlyph, Encode, Decode;
    JoinChunks(line);
    ChunksAreGlyphs(line);
    OffsetIncreases(Chunks(line), k, k);
    if cp <= MAX_CODE_POINT {
      InsertionInRange(line, widths, k, cp, w, advance);
    } else {
      InsertNothing(line, Offset(Chunks(line), k), Encode(cp));
    }
  }

  lemma InsertionInRange(line: Bytes, widths: seq<nat>, k: nat, cp: nat, w: nat, advance: Bytes -> nat)
    requires IsConsistent(line, widths, advance) && k <= |widths| && cp <= MAX_CODE_POINT
    requires Join(Chunks(line)) == line && IsText(Chunks(line)) && Offset(Chunks(line), k) <= |line|
    ensures var at := Offset(Chunks(line), k);
      IsConsistent(line[..at] + Encode(cp) + line[at..], widths[..k] + [w] + widths[k..], advance) <==> w == advance(Encode(cp))
  {
    hide Clean, Chunks, IsGlyph, Encode, Decode;
    var gs := Chunks(line);
    EncodeIsGlyph(cp);
    InsertGlyph(gs, k, Encode(cp));
    var hs, vs := gs[..k] + [Encode(cp)] + gs[k..], widths[..k] + [w] + widths[k..];
    ChunksJoin(hs);
    if w == advance(Encode(cp)) {
      WithGlyph(gs, widths, k, Encode(cp), advance);
    } else {
      assert vs[k] != advance(hs[k]);
    }
  }

  lemma NothingDrawn(gs: seq<Bytes>, ws: seq<nat>, i: nat, row: Row, at: int)
    requires i <= |gs| == |ws|
    ensures Sum(ws[i..i]) == 0 && Drawn(row, row, at, Picture(gs[i..i], ws[i..i]))
  {
  }

  /** The columns cleared for a line: at least one for every glyph. */
  function ClearWidth(ws: seq<nat>): (n: nat)
    ensures n >= Sum(ws)
  {
    if ws == [] then 0 else (if ws[0] > 0 then ws[0] else 1) + ClearWidth(ws[1..])
  }

  /** One column is added for every glyph without a width. */
  lemma {:induction false} ClearWidthExactly(ws: seq<nat>)
    ensures ClearWidth(ws) == Sum(ws) + multiset(ws)[0]
  {
    if ws != [] {
      ClearWidthExactly(ws[1..]);
      assert ws == [ws[0]] + ws[1..];
    }
  }

  lemma {:induction false} ClearWidthAppend(ws: seq<nat>, w: nat)
    ensures ClearWidth(ws + [w]) == ClearWidth(ws) + if w > 0 then w else 1
  {
    if ws != [] {
      ClearWidthAppend(ws[1..], w);
      assert (ws + [w])[1..] == ws[1..] + [w];
    }
  }

  /** How many of the first n chunks lie before the cursor of the new line:
      all of them without a cursor byte, those ending at or before it otherwise. */
  function Before(cs: seq<Bytes>, n: nat, cursorBytePos: int): (k: nat)
    ensures k <= n
  {
    if cursorBytePos < 0 then n
    else
      var k := GlyphsUpTo(cs, cursorBytePos);
      if n < k then n else k
  }

  lemma BeforeStep(cs: seq<Bytes>, n: nat, cursorBytePos: int)
    requires NoneEmpty(cs) && n < |cs|
    ensures Before(cs, n + 1, cursorBytePos) ==
      if cursorBytePos >= 0 && cursorBytePos < Offset(cs, n + 1) then Before(cs, n, cursorBytePos) else n + 1
    ensures !(cursorBytePos >= 0 && cursorBytePos < Offset(cs, n + 1)) ==> Before(cs, n, cursorBytePos) == n
  {
    if cursorBytePos >= 0 {
      var k := GlyphsUpTo(cs, cursorBytePos);
      GlyphsUpToIsFloor(cs, cursorBytePos);
      if k <= n {
        OffsetIncreases(cs, k + 1, n + 1);
      } else {
        OffsetIncreases(cs, n + 1, k);
      }
    }
  }

  lemma FillStart(cs: seq<Bytes>, row: Row, advance: Bytes -> nat)
    ensures Offset(cs, 0) == 0 && Measured(cs[..0], [], advance) && Before(cs, 0, -1) == 0
    ensures Drawn(row, row, 0, Picture(cs[..0], [])) && Sum([]) == 0
  {
  }

  lemma MeasuredPush(gs: seq<Bytes>, ws: seq<nat>, w: nat, advance: Bytes -> nat)
    requires |ws| < |gs| && Measured(gs[..|ws|], ws, advance) && w == advance(gs[|ws|])
    ensures Measured(gs[..|ws| + 1], ws + [w], advance) && gs[..|ws|] + [gs[|ws|]] == gs[..|ws| + 1]
  {
  }

  class Editor {
    var line: Bytes
    var widths: seq<nat>
    var charPos: nat
    var bytePos: nat
    const screen: Terminal

    constructor (screen: Terminal)
      requires screen.column == 0 && Shows(screen.row, [])
      ensures this.screen == screen && Aligned() && Faithful()
      ensures Contents() == Edit([], 0)
    {
      this.screen := screen;
      line, widths, charPos, bytePos := [], [], 0, 0;
    }

    ghost predicate Consistent()
      reads this
    {
      IsConsistent(line, widths, screen.advance)
    }

    /** Both cursors name the same glyph, and the terminal cursor is on it. */
    ghost predicate Aligned()
      reads this, screen
    {
      Consistent() && charPos <= |widths| && bytePos == Offset(Chunks(line), charPos) &&
      screen.column == Sum(widths[..charPos])
    }

    ghost predicate Faithful()
      reads this, screen
    {
      IsShown(screen.row, line, widths)
    }

    ghost function Contents(): (e: Edit)
      requires Consistent() && charPos <= |widths|
      reads this
      ensures e.Valid()
    {
      Edit(Chunks(line), charPos)
    }

    /** What the line itself has in the column before the cursor. */
    ghost function BeforeCursor(): Cell
      requires Consistent()
      reads this, screen
    {
      var cells, c := Picture(Chunks(line), widths), screen.column - 1;
      if 0 <= c < |cells| then cells[c] else BLANK
    }

    lemma Facts()
      requires Consistent()
      ensures Clean(line) && IsText(Chunks(line)) && NoneEmpty(Chunks(line))
      ensures Join(Chunks(line)) == line
      ensures charPos <= |widths| ==> Offset(Chunks(line), charPos) <= |line|
      ensures widths[..|widths|] == widths && |Chunks(line)| == |widths|
    {
      JoinChunks(line);
      ChunksAreGlyphs(line);
      if charPos <= |widths| { OffsetIncreases(Chunks(line), charPos, charPos); }
    }

    /** Redraws glyph k, whose bytes begin at p. */
    method DrawGlyph(p: nat, k: nat) returns (following: nat)
      requires Consistent() && k < |widths| && p == Offset(Chunks(line), k)
      modifies screen
      ensures following == Offset(Chunks(line), k + 1)
      ensures screen.column == old(screen.column) + widths[k]
      ensures Drawn(old(screen.row), screen.row, old(screen.column), Painted(Chunks(line)[k], widths[k]))
    {
      hide Clean, Chunks, IsGlyph, Encode, Decode;
      ghost var gs := Chunks(line);
      Facts();
      following := NextCharPos(line, p);
      StepGlyph(gs, k, following);
      GlyphAt(gs, k);
      var _ := screen.PutCodePoint(line[p..following], widths[k]);
    }

    /** Redraws the glyphs from index i on; p is the byte index of glyph i. */
    method DrawTail(p: nat, i: nat) returns (tailWidth: nat)
      requires Consistent() && i <= |widths| && p == Offset(Chunks(line), i)
      modifies screen
      ensures tailWidth == Sum(widths[i..]) && screen.column == old(screen.column) + tailWidth
      ensures Drawn(old(screen.row), screen.row, old(screen.column), Picture(Chunks(line)[i..], widths[i..]))
    {
      hide Clean, Chunks, IsGlyph, Encode, Decode, IsConsistent, Picture, Painted, Drawn, Sum, Offset;
      ghost var gs, ws, row0, at := Chunks(line), widths, screen.row, screen.column;
      Facts();
      NothingDrawn(gs, ws, i, row0, at);
      var q, k := p, i;
      tailWidth := 0;
      while k < |widths|
        invariant i <= k <= |ws| && q == Offset(gs, k)
        invariant tailWidth == Sum(ws[i..k]) && screen.column == at + tailWidth
        invariant Drawn(row0, screen.row, at, Picture(gs[i..k], ws[i..k]))
      {
        SumSlice(ws, i, k);
        ghost var row, column := screen.row, screen.column;
        q := DrawGlyph(q, k);
        DrawnSlice(row0, row, screen.row, at, gs, ws, i, k, column);
        tailWidth := tailWidth + widths[k];
        k := k + 1;
      }
      WholeTail(gs, ws, i, k);
    }

    /** Takes the glyph at the cursor, which ends at nextPos, out of the line. */
    method Erase(nextPos: nat)
      requires Consistent() && charPos < |widths|
      requires bytePos == Offset(Chunks(line), charPos) && nextPos == Offset(Chunks(line), charPos + 1)
      modifies this`line, this`widths
      ensures Consistent() && charPos <= |widths| && bytePos == Offset(Chunks(line), charPos)
      ensures Contents() == old(Contents()).Delete()
      ensures Shrunk(old(Chunks(line)), old(widths), charPos, Chunks(line), widths)
      ensures Sum(widths[..charPos]) == old(Sum(widths[..charPos]))
    {
      hide Clean, Chunks, IsGlyph, Encode, Decode;
      ghost var gs := Chunks(line);
      Facts();
      EraseGlyph(gs, charPos);
      ChunksJoin(gs[..charPos] + gs[charPos + 1..]);
      WithoutGlyph(gs, widths, charPos, screen.advance);
      line := line[..bytePos] + line[nextPos..];
      widths := widths[..charPos] + widths[charPos + 1..];
    }

    /** Erases the glyph at the cursor and redraws what follows it. */
    method EraseAndRedraw(nextPos: nat)
      requires Consistent() && charPos < |widths|
      requires bytePos == Offset(Chunks(line), charPos) && nextPos == Offset(Chunks(line), charPos + 1)
      requires screen.column == Sum(widths[..charPos])
      modifies this`line, this`widths, screen
      ensures Aligned() && Contents() == old(Contents()).Delete()
      ensures old(Faithful()) ==> Faithful()
    {
      hide Clean, Chunks, IsGlyph, IsText, Encode, Decode, Drawn, Shows;
      ghost var gs, ws, row0, at := Chunks(line), widths, screen.row, screen.column;
      var w: int := widths[charPos];
      Erase(nextPos);
      var tailWidth: int := DrawTail(bytePos, charPos);
      ghost var row1, next := screen.row, screen.column;
      screen.PutBlanks(w);
      ghost var hs := Chunks(line);
      ShowsWithout(row0, row1, screen.row, at, next, gs, ws, charPos, hs, widths);
      screen.MoveCursor(-(tailWidth + w));
    }

    method DeleteAtCursor()
      requires Aligned()
      modifies this`line, this`widths, screen
      ensures Aligned() && Contents() == old(Contents()).Delete()
      ensures old(Faithful()) ==> Faithful()
    {
      hide Clean, Chunks, IsGlyph, IsText, Encode, Decode, Drawn, Shows;
      if charPos >= |widths| {
        return;
      }
      Facts();
      var nextPos := NextCharPos(line, bytePos);
      StepGlyph(Chunks(line), charPos, nextPos);
      EraseAndRedraw(nextPos);
    }

    method Backspace()
      requires Aligned()
      modifies this, screen
      ensures Aligned() && Contents() == old(Contents()).Backspace()
      ensures old(Faithful()) ==> Faithful()
    {
      hide Clean, Chunks, IsGlyph, IsText, Encode, Decode, Drawn, Shows, IsShown, IsConsistent, Sum, Offset;
      if charPos > 0 {
        ghost var gs := Chunks(line);
        Facts();
        SumAround(widths, charPos - 1);
        var w: int := widths[charPos - 1];
        screen.MoveCursor(-w);
        charPos := charPos - 1;
        var prevPos := PrevCharPos(line, bytePos);
        StepGlyph(gs, charPos, prevPos);
        var end := bytePos;
        bytePos := prevPos;
        EraseAndRedraw(end);
      }
    }

    /** Puts an encoded code point and its width into the line. */
    method InsertBytes(s: Bytes, w: nat)
      requires Consistent() && charPos <= |widths| && bytePos == Offset(Chunks(line), charPos)
      requires IsGlyph(s) && w == screen.advance(s)
      modifies this`line, this`widths
      ensures Consistent() && charPos < |widths|
      ensures bytePos == Offset(Chunks(line), charPos) && bytePos + |s| == Offset(Chunks(line), charPos + 1)
      ensures Chunks(line) == old(Contents()).Insert(s).text
      ensures Grown(old(Chunks(line)), old(widths), charPos, Chunks(line), widths)
      ensures Chunks(line)[charPos] == s && widths[charPos] == w
      ensures Sum(widths[..charPos + 1]) == old(Sum(widths[..charPos])) + w
    {
      hide Clean, Chunks, IsGlyph, Encode, Decode;
      ghost var gs := Chunks(line);
      Facts();
      InsertGlyph(gs, charPos, s);
      ChunksJoin(gs[..charPos] + [s] + gs[charPos..]);
      WithGlyph(gs, widths, charPos, s, screen.advance);
      line := line[..bytePos] + s + line[bytePos..];
      widths := widths[..charPos] + [w] + widths[charPos..];
    }

    /** Redraws what follows the glyph at the cursor and comes back. */
    method RedrawAfterCursor(p: nat)
      requires Consistent() && charPos < |widths| && p == Offset(Chunks(line), charPos + 1)
      modifies screen
      ensures screen.column == old(screen.column)
      ensures Drawn(old(screen.row), screen.row, old(screen.column), Picture(Chunks(line)[charPos + 1..], widths[charPos + 1..]))
    {
      if charPos + 1 < |widths| {
        var tailWidth: int := DrawTail(p, charPos + 1);
        screen.MoveCursor(-tailWidth);
      }
    }

    /** Draws a new glyph and what follows it; p is where the cursor goes. */
    method InsertAndRedraw(s: Bytes, cp: nat) returns (p: nat)
      requires Aligned() && screen.Calibrated()
      requires IsChunk(s) && IsGlyph(s) && Decode(s, 0).codePoint == cp
      modifies this`line, this`widths, screen
      ensures Consistent() && charPos < |widths| && p == Offset(Chunks(line), charPos + 1)
      ensures screen.column == Sum(widths[..charPos + 1])
      ensures Chunks(line) == old(Contents()).Insert(s).text
      ensures old(Faithful()) ==> Faithful()
    {
      hide Clean, Chunks, IsGlyph, IsText, IsChunk, Encode, Decode, Drawn, Shows, IsConsistent, Measured, Grown, Picture, Painted, Join, Offset, Sum;
      ghost var gs, ws, row0, at := Chunks(line), widths, screen.row, screen.column;
      Facts();
      var w := screen.PutNew(s, cp);
      ghost var row1, next := screen.row, screen.column;
      InsertBytes(s, w);
      Facts();
      p := bytePos + |s|;
      RedrawAfterCursor(p);
      ShowsWith(row0, row1, screen.row, at, next, gs, ws, charPos, Chunks(line), widths);
    }

    method Insert(cp: nat)
      requires Aligned() && screen.Calibrated() && cp <= MAX_CODE_POINT
      modifies this, screen
      ensures Aligned() && Contents() == (EncodeIsGlyph(cp); old(Contents()).Insert(Encode(cp)))
      ensures old(Faithful()) ==> Faithful()
    {
      hide Clean, Chunks, IsGlyph, IsText, IsChunk, Encode, Decode, Shows, IsConsistent, Measured, Picture, Join, Offset, Sum;
      EncodeIsGlyph(cp);
      var p := InsertAndRedraw(Encode(cp), cp);
      bytePos := p;
      charPos := charPos + 1;
    }

    /** A code point no bytes are written for: a width goes in without a glyph. */
    method InsertBeyond(cp: nat)
      requires Aligned() && cp > MAX_CODE_POINT
      modifies this, screen
      ensures line == old(line) && bytePos == old(bytePos) && charPos == old(charPos) + 1
      ensures |widths| == old(|widths|) + 1 && !Aligned()
    {
      hide Clean, Chunks, IsGlyph, Decode, Drawn;
      Facts();
      var realWidth := screen.PutCodePoint(Encode(cp), screen.wcwidth(cp));
      var w: nat := if realWidth < 0 then 0 else realWidth;
      if charPos < |widths| {
        var tailWidth: int := DrawTail(bytePos, charPos);
        screen.MoveCursor(-tailWidth);
      }
      widths := widths[..charPos] + [w] + widths[charPos..];
      charPos := charPos + 1;
    }

    method Left()
      requires Aligned()
      modifies this`charPos, this`bytePos, screen`column
      ensures Aligned() && Contents() == old(Contents()).Left()
    {
      hide Clean, Chunks, IsGlyph, IsText;
      if charPos > 0 {
        Facts();
        SumAround(widths, charPos - 1);
        var w: int := widths[charPos - 1];
        screen.MoveCursor(-w);
        charPos := charPos - 1;
        var prevPos := PrevCharPos(line, bytePos);
        StepGlyph(Chunks(line), charPos, prevPos);
        bytePos := prevPos;
      }
    }

    method Right()
      requires Aligned()
      modifies this`charPos, this`bytePos, screen`column
      ensures Aligned() && Contents() == old(Contents()).Right()
    {
      hide Clean, Chunks, IsGlyph, IsText;
      if charPos < |widths| {
        Facts();
        SumAround(widths, charPos);
        screen.MoveCursor(widths[charPos]);
        charPos := charPos + 1;
        var nextPos := NextCharPos(line, bytePos);
        StepGlyph(Chunks(line), charPos - 1, nextPos);
        bytePos := nextPos;
      }
    }

    method MoveToLineStart()
      requires charPos <= |widths| && screen.column == Sum(widths[..charPos])
      modifies this`charPos, this`bytePos, screen`column
      ensures charPos == 0 && bytePos == 0 && screen.column == 0
    {
      var backWidth: int := 0;
      for i := 0 to charPos
        invariant backWidth == Sum(widths[..i])
        modifies {}
      {
        SumAround(widths, i);
        backWidth := backWidth + widths[i];
      }
      screen.MoveCursor(-backWidth);
      charPos := 0;
      bytePos := 0;
    }

    method Home()
      requires Aligned()
      modifies this`charPos, this`bytePos, screen`column
      ensures Aligned() && Contents() == Edit(old(Contents()).text, 0)
    {
      MoveToLineStart();
    }

    method MoveToLineEnd()
      requires Aligned()
      modifies this`charPos, this`bytePos, screen`column
      ensures Aligned() && var e := old(Contents()); Contents() == Edit(e.text, |e.text|)
    {
      hide Clean, Chunks, IsGlyph, IsText;
      Facts();
      var forwardWidth: int := 0;
      for i := charPos to |widths|
        invariant forwardWidth == Sum(widths[charPos..i])
        modifies {}
      {
        SumSlice(widths, charPos, i);
        forwardWidth := forwardWidth + widths[i];
      }
      SliceSum(widths, charPos, |widths|);
      OffsetIncreases(Chunks(line), |widths|, |widths|);
      screen.MoveCursor(forwardWidth);
      charPos := |widths|;
      bytePos := |line|;
    }

    method MoveWordLeft(isSpace: nat -> bool)
      requires Aligned()
      modifies this`charPos, this`bytePos, screen`column
      ensures Aligned() && Contents() == old(Contents()).WordLeft(isSpace)
    {
      if charPos == 0 {
        return;
      }
      var newCharPos, newBytePos, w1 := SkipBack(charPos, bytePos, isSpace, true);
      var w2;
      newCharPos, newBytePos, w2 := SkipBack(newCharPos, newBytePos, isSpace, false);
      var moveWidth: int := w1 + w2;
      screen.MoveCursor(-moveWidth);
      charPos := newCharPos;
      bytePos := newBytePos;
    }

    /** Steps back over glyphs that are all spaces, or all not. */
    method SkipBack(fromChar: nat, fromByte: nat, isSpace: nat -> bool, space: bool)
      returns (newCharPos: nat, newBytePos: nat, moveWidth: nat)
      requires Consistent() && fromChar <= |widths| && fromByte == Offset(Chunks(line), fromChar)
      ensures newCharPos == BackWhile(Chunks(line), fromChar, isSpace, space)
      ensures newBytePos == Offset(Chunks(line), newCharPos)
      ensures Sum(widths[..newCharPos]) == Sum(widths[..fromChar]) - moveWidth
    {
      hide Clean, Chunks, IsGlyph, IsText, Decode, Join;
      ghost var gs := Chunks(line);
      Facts();
      newCharPos, newBytePos, moveWidth := fromChar, fromByte, 0;
      while newCharPos > 0
        invariant newCharPos <= fromChar && newBytePos == Offset(gs, newCharPos)
        invariant Sum(widths[..newCharPos]) == Sum(widths[..fromChar]) - moveWidth
        invariant BackWhile(gs, fromChar, isSpace, space) == BackWhile(gs, newCharPos, isSpace, space)
      {
        SumAround(widths, newCharPos - 1);
        OffsetIncreases(gs, newCharPos, newCharPos);
        var prevByte := PrevCharPos(line, newBytePos);
        StepGlyph(gs, newCharPos - 1, prevByte);
        DecodeAt(gs, newCharPos - 1);
        if isSpace(Decode(line, prevByte).codePoint) != space {
          break;
        }
        moveWidth := moveWidth + widths[newCharPos - 1];
        newCharPos := newCharPos - 1;
        newBytePos := prevByte;
      }
    }

    method MoveWordRight(isSpace: nat -> bool)
      requires Aligned()
      modifies this`charPos, this`bytePos, screen`column
      ensures Aligned() && Contents() == old(Contents()).WordRight(isSpace)
    {
      if charPos >= |widths| {
        return;
      }
      var newCharPos, newBytePos, w1 := SkipForward(charPos, bytePos, isSpace, true);
      var w2, w3;
      newCharPos, newBytePos, w2 := SkipForward(newCharPos, newBytePos, isSpace, false);
      newCharPos, newBytePos, w3 := SkipForward(newCharPos, newBytePos, isSpace, true);
      screen.MoveCursor(w1 + w2 + w3);
      charPos := newCharPos;
      bytePos := newBytePos;
    }

    method SkipForward(fromChar: nat, fromByte: nat, isSpace: nat -> bool, space: bool)
      returns (newCharPos: nat, newBytePos: nat, moveWidth: nat)
      requires Consistent() && fromChar <= |widths| && fromByte == Offset(Chunks(line), fromChar)
      ensures newCharPos == ForwardWhile(Chunks(line), fromChar, isSpace, space)
      ensures newBytePos == Offset(Chunks(line), newCharPos)
      ensures Sum(widths[..newCharPos]) == Sum(widths[..fromChar]) + moveWidth
    {
      hide Clean, Chunks, IsGlyph, IsText, Decode, Join, Offset;
      ghost var gs := Chunks(line);
      Facts();
      newCharPos, newBytePos, moveWidth := fromChar, fromByte, 0;
      while newCharPos < |widths|
        invariant fromChar <= newCharPos <= |gs| && newBytePos == Offset(gs, newCharPos)
        invariant Sum(widths[..newCharPos]) == Sum(widths[..fromChar]) + moveWidth
        invariant ForwardWhile(gs, fromChar, isSpace, space) == ForwardWhile(gs, newCharPos, isSpace, space)
      {
        SumAround(widths, newCharPos);
        ChunkAt(line, newCharPos);
        var d := Decode(line, newBytePos);
        if isSpace(d.codePoint) != space {
          break;
        }
        moveWidth := moveWidth + widths[newCharPos];
        newCharPos := newCharPos + 1;
        newBytePos := newBytePos + d.advance;
      }
    }

    method ClearCurrentLine()
      modifies screen
      ensures screen.column == old(screen.column)
      ensures Drawn(old(screen.row), screen.row, old(screen.column), Blanks(ClearWidth(widths)))
    {
      var totalWidth: int := 0;
      for i := 0 to |widths|
        invariant totalWidth == ClearWidth(widths[..i])
        modifies {}
      {
        ClearWidthAppend(widths[..i], widths[i]);
        assert widths[..i] + [widths[i]] == widths[..i + 1];
        totalWidth := totalWidth + if widths[i] > 0 then widths[i] else 1;
      }
      assert widths[..|widths|] == widths;
      if totalWidth > 0 {
        screen.PutBlanks(totalWidth);
        screen.MoveCursor(-totalWidth);
      }
    }

    /** Decodes, draws and measures the next chunk of the line being set. */
    method DrawNext(idx: nat) returns (advance: nat, width: nat)
      requires screen.Calibrated() && |widths| < |Chunks(line)| && idx == Offset(Chunks(line), |widths|)
      modifies screen
      ensures idx + advance == Offset(Chunks(line), |widths| + 1) && idx + advance <= |line|
      ensures width == screen.advance(Chunks(line)[|widths|])
      ensures screen.column == old(screen.column) + width
      ensures Drawn(old(screen.row), screen.row, old(screen.column), Painted(Chunks(line)[|widths|], width))
    {
      hide Decode, Chunks, Join, Offset, Drawn;
      ChunkAt(line, |widths|);
      var d := Decode(line, idx);
      width := screen.PutNew(line[idx..idx + d.advance], d.codePoint);
      advance := d.advance;
    }

    /** Draws the chunks of a line that has just been set, and measures them. */
    method FillLine(cursorBytePos: int) returns (backWidth: nat)
      requires screen.Calibrated() && widths == [] && charPos == bytePos == 0 && screen.column == 0
      modifies this`widths, this`charPos, this`bytePos, screen
      ensures Measured(Chunks(line), widths, screen.advance) && |Chunks(line)| == |widths|
      ensures cursorBytePos < 0 ==> backWidth == 0
      ensures charPos == Before(Chunks(line), |widths|, cursorBytePos) && bytePos == Offset(Chunks(line), charPos)
      ensures screen.column == Sum(widths) == Sum(widths[..charPos]) + backWidth
      ensures Drawn(old(screen.row), screen.row, 0, Picture(Chunks(line), widths))
    {
      hide Chunks, Decode, Join, Drawn, Measured, Before, Sum, Picture, Offset, Clean;
      ghost var cs, row0 := Chunks(line), screen.row;
      JoinChunks(line);
      OffsetIncreases(cs, 0, 0);
      FillStart(cs, row0, screen.advance);
      var idx := 0;
      backWidth := 0;
      while idx < |line|
        invariant Chunks(line) == cs && |widths| <= |cs| && idx == Offset(cs, |widths|) <= |line|
        invariant Measured(cs[..|widths|], widths, screen.advance)
        invariant charPos == Before(cs, |widths|, cursorBytePos) && bytePos == Offset(cs, charPos)
        invariant cursorBytePos < 0 ==> backWidth == 0
        invariant charPos <= |widths| && screen.column == Sum(widths) == Sum(widths[..charPos]) + backWidth
        invariant Drawn(row0, screen.row, 0, Picture(cs[..|widths|], widths))
        decreases |line| - idx
      {
        ghost var n, ws, row, column := |widths|, widths, screen.row, screen.column;
        assert n < |cs|;
        OffsetIncreases(cs, n, n + 1);
        BeforeStep(cs, n, cursorBytePos);
        var advance, realWidth := DrawNext(idx);
        widths := widths + [realWidth];
        MeasuredPush(cs, ws, realWidth, screen.advance);
        DrawnPush(row0, row, screen.row, cs[..n], ws, cs[n], realWidth, column);
        idx := idx + advance;
        if cursorBytePos >= 0 && cursorBytePos < idx {
          backWidth := backWidth + realWidth;
          assert widths[..charPos] == ws[..charPos];
        } else {
          charPos := charPos + 1;
          bytePos := idx;
          assert widths[..charPos] == widths && ws[..n] == ws;
        }
      }
      OffsetIncreases(cs, |widths|, |cs|);
      assert cs[..|cs|] == cs;
    }

    /** Replaces the line. A cursor byte puts the cursor on the glyph that holds
        it, no cursor byte puts it after the line. The bytes may be anything:
        the editor is in step with them exactly when they are clean. */
    method SetLineContents(newLine: Bytes, cursorBytePos: int := -1)
      requires charPos <= |widths| && screen.column == Sum(widths[..charPos]) && screen.Calibrated()
      modifies this`line, this`widths, this`charPos, this`bytePos, screen
      ensures line == newLine && (Aligned() <==> Clean(newLine))
      ensures charPos <= |widths| && screen.column == Sum(widths[..charPos])
      ensures Clean(newLine) ==> Contents() == if cursorBytePos < 0 then Recalled(newLine) else Completed(newLine, cursorBytePos)
      ensures old(Faithful()) && Clean(newLine) ==> Faithful()
    {
      hide Chunks, Clean, Decode, Drawn, Measured, Sum, Picture, Offset, Shows, ClearWidth, GlyphsUpTo;
      ghost var row0, shown := screen.row, if Faithful() then Picture(Chunks(line), widths) else [];
      MoveToLineStart();
      ClearCurrentLine();
      ghost var row1, blanks := screen.row, ClearWidth(widths);
      line := newLine;
      widths := [];
      bytePos := 0;
      charPos := 0;
      ClearedRow(row0, row1, shown, blanks);
      var backWidth: int := FillLine(cursorBytePos);
      ShownOnCleared(row1, screen.row, Picture(Chunks(line), widths));
      if cursorBytePos >= 0 {
        screen.MoveCursor(-backWidth);
      }
    }

    /** Rewrites the last byte of the line one column back. The row stays right
        exactly when that column is the prompt's or holds the byte already. */
    method RewriteLast()
      requires Aligned() && line != []
      modifies screen`row
      ensures old(Faithful()) ==>
        (Faithful() <==> screen.column == 0 || BeforeCursor() == [line[|line| - 1]])
      ensures Shown(screen.row, screen.column - 1) == [line[|line| - 1]]
    {
      hide Clean, Chunks, Decode, Measured, Picture, Sum;
      screen.ReplaceLast(line[|line| - 1]);
      if old(Faithful()) {
        RewrittenCell(old(screen.row), screen.row, screen.column - 1, [line[|line| - 1]], Picture(Chunks(line), widths));
      }
    }
  }
}
