/** The editor a user has in mind: a sequence of glyphs and one cursor. */
module EditModel {
  import opened Utf8

  datatype Edit = Edit(text: seq<Bytes>, cursor: nat) {
    predicate Valid() {
      cursor <= |text|
    }

    function Insert(g: Bytes): Edit
      requires Valid()
    {
      Edit(text[..cursor] + [g] + text[cursor..], cursor + 1)
    }

    function Backspace(): Edit
      requires Valid()
    {
      if cursor == 0 then this else Edit(text[..cursor - 1] + text[cursor..], cursor - 1)
    }

    function Delete(): Edit
      requires Valid()
    {
      if cursor == |text| then this else Edit(text[..cursor] + text[cursor + 1..], cursor)
    }

    function Left(): Edit {
      if cursor == 0 then this else Edit(text, cursor - 1)
    }

    function Right(): Edit {
      if cursor >= |text| then this else Edit(text, cursor + 1)
    }

    function WordLeft(isSpace: nat -> bool): (e: Edit)
      requires Valid()
      ensures e.Valid()
    {
      Edit(text, BackWhile(text, BackWhile(text, cursor, isSpace, true), isSpace, false))
    }

    function WordRight(isSpace: nat -> bool): (e: Edit)
      requires Valid()
      ensures e.Valid()
    {
      var wordStart := ForwardWhile(text, cursor, isSpace, true);
      var wordEnd := ForwardWhile(text, wordStart, isSpace, false);
      Edit(text, ForwardWhile(text, wordEnd, isSpace, true))
    }
  }

  /** A recalled line, with the cursor after it. */
  function Recalled(line: Bytes): (e: Edit)
    ensures e.Valid()
  {
    Edit(Chunks(line), |Chunks(line)|)
  }

  /** A completed line, with the cursor at the glyph that holds the given byte. */
  function Completed(line: Bytes, bytePos: nat): (e: Edit)
    ensures e.Valid()
  {
    Edit(Chunks(line), GlyphsUpTo(Chunks(line), bytePos))
  }

  /** How many glyphs end at or before a byte position. */
  function GlyphsUpTo(gs: seq<Bytes>, bytePos: nat): (k: nat)
    ensures k <= |gs|
  {
    if gs == [] || bytePos < |gs[0]| then 0 else 1 + GlyphsUpTo(gs[1..], bytePos - |gs[0]|)
  }

  lemma {:induction false} GlyphsUpToIsFloor(gs: seq<Bytes>, bytePos: nat)
    ensures var k := GlyphsUpTo(gs, bytePos);
      Offset(gs, k) <= bytePos && (k < |gs| ==> bytePos < Offset(gs, k + 1))
  {
    var k := GlyphsUpTo(gs, bytePos);
    if k == 0 {
      if gs != [] {
        assert gs[..1] == [gs[0]];
        assert Join([gs[0]]) == gs[0] + Join([]);
      }
    } else {
      GlyphsUpToIsFloor(gs[1..], bytePos - |gs[0]|);
      assert gs[..k][1..] == gs[1..][..k - 1];
      if k < |gs| {
        assert gs[..k + 1][1..] == gs[1..][..k];
      }
    }
  }

  predicate IsSpaceGlyph(g: Bytes, isSpace: nat -> bool) {
    g != [] && isSpace(Decode(g, 0).codePoint)
  }

  function BackWhile(text: seq<Bytes>, k: nat, isSpace: nat -> bool, space: bool): (r: nat)
    requires k <= |text|
    ensures r <= k && forall i :: r <= i < k ==> IsSpaceGlyph(text[i], isSpace) == space
    ensures r > 0 ==> IsSpaceGlyph(text[r - 1], isSpace) != space
  {
    if k > 0 && IsSpaceGlyph(text[k - 1], isSpace) == space then BackWhile(text, k - 1, isSpace, space) else k
  }

  function ForwardWhile(text: seq<Bytes>, k: nat, isSpace: nat -> bool, space: bool): (r: nat)
    requires k <= |text|
    ensures k <= r <= |text| && forall i :: k <= i < r ==> IsSpaceGlyph(text[i], isSpace) == space
    ensures r < |text| ==> IsSpaceGlyph(text[r], isSpace) != space
    decreases |text| - k
  {
    if k < |text| && IsSpaceGlyph(text[k], isSpace) == space then ForwardWhile(text, k + 1, isSpace, space) else k
  }

  /** Going back one word undoes going forward one word exactly from the
      start of a word, or in a text of spaces only, from its start. */
  lemma WordLeftUndoesWordRight(e: Edit, isSpace: nat -> bool)
    requires e.Valid()
    ensures var c := e.cursor;
      e.WordRight(isSpace).WordLeft(isSpace) == e <==>
      (c == 0 && forall i :: 0 <= i < |e.text| ==> IsSpaceGlyph(e.text[i], isSpace)) ||
      (c < |e.text| && !IsSpaceGlyph(e.text[c], isSpace) && (c == 0 || IsSpaceGlyph(e.text[c - 1], isSpace)))
  {
    hide IsSpaceGlyph;
    var c, t := e.cursor, e.text;
    var wordStart := ForwardWhile(t, c, isSpace, true);
    var wordEnd := ForwardWhile(t, wordStart, isSpace, false);
    var r := ForwardWhile(t, wordEnd, isSpace, true);
    BackOver(t, wordEnd, r, isSpace, true);
    if wordStart < wordEnd {
      BackOver(t, wordStart, wordEnd, isSpace, false);
    }
  }

  /** Stepping back over a run of one kind ends where the run began, or before. */
  lemma {:induction false} BackOver(t: seq<Bytes>, start: nat, end: nat, isSpace: nat -> bool, space: bool)
    requires start <= end <= |t| && forall i :: start <= i < end ==> IsSpaceGlyph(t[i], isSpace) == space
    ensures BackWhile(t, end, isSpace, space) == BackWhile(t, start, isSpace, space)
    decreases end
  {
    if start < end {
      BackOver(t, start, end - 1, isSpace, space);
    }
  }

  /** Backspace undoes an insertion, and delete undoes it one step to the left. */
  lemma InsertionIsUndone(e: Edit, g: Bytes)
    requires e.Valid()
    ensures e.Insert(g).Backspace() == e
    ensures e.Insert(g).Left().Delete() == e
  {
    var i := e.Insert(g);
    assert i.text[..e.cursor] == e.text[..e.cursor];
    assert i.text[e.cursor + 1..] == e.text[e.cursor..];
    assert e.text[..e.cursor] + e.text[e.cursor..] == e.text;
  }
}
