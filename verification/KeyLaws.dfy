/** What the keys do, as seen on the line: where the next character lands, what is
    erased, what browsing shows, and what is handed back. */
module KeyLaws {
  import Seqs
  import opened Utf8
  import opened Wrappers
  import opened EditModel
  import opened History
  import opened ReadLine

  /** A code point that is put on the line. */
  predicate IsTyped(cp: nat, env: Env) {
    cp !in {0x04, 0x08, 0x0A, 0x0D, 0x1B, 0x7F} && (cp == 0x09 ==> env.complete.None?)
  }

  /** The line shows as before, and the next character goes in after its first k. */
  ghost predicate TypesAt(s: Session, env: Env, text: seq<Bytes>, k: nat)
    requires s.Valid() && k <= |text|
  {
    Join(s.edit.text) == Join(text) &&
    forall cp {:trigger Encode(cp)} :: IsTyped(cp, env) ==>
      Join(Step(s, Character(cp), env).edit.text) == Join(text[..k]) + Encode(cp) + Join(text[k..])
  }

  lemma TypesAtCursor(s: Session, env: Env)
    requires s.Valid()
    ensures TypesAt(s, env, s.edit.text, s.edit.cursor)
  {
    hide Encode;
    var text, k := s.edit.text, s.edit.cursor;
    forall cp | IsTyped(cp, env)
      ensures Join(Step(s, Character(cp), env).edit.text) == Join(text[..k]) + Encode(cp) + Join(text[k..])
    {
      var g := Encode(cp);
      JoinAppend(text[..k] + [g], text[k..]);
      JoinAppend(text[..k], [g]);
      JoinOne(g);
    }
  }

  lemma JoinOne(g: Bytes)
    ensures Join([g]) == g
  {
    Seqs.AppendNothing(g, []);
    assert Join([g]) == g + Join([g][1..]);
  }

  /** Home goes to the start of the line and end to its end. */
  lemma HomeAndEnd(s: Session, env: Env)
    requires s.Valid()
    ensures TypesAt(Step(s, HomeKey, env), env, s.edit.text, 0)
    ensures TypesAt(Step(s, EndKey, env), env, s.edit.text, |s.edit.text|)
  {
    hide TypesAt, EndsMarked;
    TypesAtCursor(Step(s, HomeKey, env), env);
    TypesAtCursor(Step(s, EndKey, env), env);
  }

  /** The arrows step over one character, and stop at the ends. */
  lemma Arrows(s: Session, env: Env)
    requires s.Valid()
    ensures var c, n := s.edit.cursor, |s.edit.text|;
      TypesAt(Step(s, ArrowLeft, env), env, s.edit.text, if c > 0 then c - 1 else 0) &&
      TypesAt(Step(s, ArrowRight, env), env, s.edit.text, if c < n then c + 1 else n)
  {
    hide TypesAt, EndsMarked;
    TypesAtCursor(Step(s, ArrowLeft, env), env);
    TypesAtCursor(Step(s, ArrowRight, env), env);
  }

  /** A key that is not understood, or escape by itself, changes nothing. */
  lemma UnknownKeys(s: Session, env: Env)
    requires s.Valid()
    ensures TypesAt(Step(s, UnknownSequence, env), env, s.edit.text, s.edit.cursor)
    ensures TypesAt(Step(s, Character(0x1B), env), env, s.edit.text, s.edit.cursor)
  {
    hide TypesAt, EndsMarked;
    TypesAtCursor(Step(s, UnknownSequence, env), env);
    TypesAtCursor(Step(s, Character(0x1B), env), env);
  }

  // Words

  lemma SpaceIsItsCodePoint(cp: nat, isSpace: nat -> bool)
    requires cp <= MAX_CODE_POINT
    ensures IsSpaceGlyph(Encode(cp), isSpace) <==> isSpace(cp)
  {
    hide Encode, Decode;
    DecodeEncode([], cp, []);
    Seqs.AppendNothing(Encode(cp), []);
    EncodeIsGlyph(cp);
  }

  /** A word begins at i. */
  predicate IsWordStart(text: seq<Bytes>, i: nat, isSpace: nat -> bool) {
    i < |text| && !IsSpaceGlyph(text[i], isSpace) && (i > 0 ==> IsSpaceGlyph(text[i - 1], isSpace))
  }

  /** Something stands between two places that is not white space. */
  predicate HasWord(text: seq<Bytes>, from: nat, end: nat, isSpace: nat -> bool)
    requires end <= |text|
  {
    exists j :: from <= j < end && !IsSpaceGlyph(text[j], isSpace)
  }

  /** One word back is the nearest start of a word before the cursor, or the
      start of the line. */
  predicate IsWordBack(text: seq<Bytes>, c: nat, k: nat, isSpace: nat -> bool) {
    k <= c && (k > 0 ==> k < c && IsWordStart(text, k, isSpace)) &&
    forall i :: k < i < c ==> !IsWordStart(text, i, isSpace)
  }

  /** One word on is the nearest start of a word with one behind it that the
      cursor stood before or in, or the end of the line. */
  predicate IsWordOn(text: seq<Bytes>, c: nat, k: nat, isSpace: nat -> bool) {
    c <= k <= |text| && (k < |text| ==> IsWordStart(text, k, isSpace) && HasWord(text, c, k, isSpace)) &&
    forall i :: c <= i < k ==> !(IsWordStart(text, i, isSpace) && HasWord(text, c, i, isSpace))
  }

  lemma WordBack(e: Edit, isSpace: nat -> bool)
    requires e.Valid()
    ensures e.WordLeft(isSpace).text == e.text && IsWordBack(e.text, e.cursor, e.WordLeft(isSpace).cursor, isSpace)
  {
    hide IsSpaceGlyph;
    var wordEnd := BackWhile(e.text, e.cursor, isSpace, true);
    var wordStart := BackWhile(e.text, wordEnd, isSpace, false);
  }

  lemma WordOn(e: Edit, isSpace: nat -> bool)
    requires e.Valid()
    ensures e.WordRight(isSpace).text == e.text && IsWordOn(e.text, e.cursor, e.WordRight(isSpace).cursor, isSpace)
  {
    hide IsSpaceGlyph;
    var wordStart := ForwardWhile(e.text, e.cursor, isSpace, true);
    var wordEnd := ForwardWhile(e.text, wordStart, isSpace, false);
    var r := ForwardWhile(e.text, wordEnd, isSpace, true);
    if r < |e.text| {
      assert wordStart < wordEnd;
    }
  }

  /** Both keys go there, whatever kind of space is meant; the place is unique. */
  lemma Words(s: Session, env: Env, back: nat, on: nat)
    requires s.Valid() && IsWordBack(s.edit.text, s.edit.cursor, back, env.isSpace)
    requires IsWordOn(s.edit.text, s.edit.cursor, on, env.isSpace)
    ensures TypesAt(Step(s, CtrlLeft, env), env, s.edit.text, back)
    ensures TypesAt(Step(s, CtrlRight, env), env, s.edit.text, on)
  {
    hide TypesAt, EndsMarked, IsSpaceGlyph;
    TypesAtCursor(Step(s, CtrlLeft, env), env);
    TypesAtCursor(Step(s, CtrlRight, env), env);
    WordBack(s.edit, env.isSpace);
    WordOn(s.edit, env.isSpace);
  }

  // Erasing

  /** Backspace, by either code, takes the character before the cursor, delete
      the one at the cursor; there they stay. */
  lemma Erased(before: seq<Bytes>, g: Bytes, after: seq<Bytes>, marked: bool, past: Past, env: Env)
    requires past.Valid()
    ensures var s := Session(Edit(before + [g] + after, |before| + 1), marked, past);
      TypesAt(Step(s, Character(0x08), env), env, before + after, |before|) &&
      TypesAt(Step(s, Character(0x7F), env), env, before + after, |before|)
    ensures var s := Session(Edit(before + [g] + after, |before|), marked, past);
      TypesAt(Step(s, DeleteKey, env), env, before + after, |before|)
  {
    hide TypesAt, EndsMarked;
    var text := before + [g] + after;
    assert text[..|before|] == before && text[|before| + 1..] == after;
    var s := Session(Edit(text, |before| + 1), marked, past);
    TypesAtCursor(Step(s, Character(0x08), env), env);
    TypesAtCursor(Step(s, Character(0x7F), env), env);
    TypesAtCursor(Step(Session(Edit(text, |before|), marked, past), DeleteKey, env), env);
  }

  /** At the start of the line there is nothing to take back, at its end nothing
      to delete. */
  lemma NothingErased(text: seq<Bytes>, marked: bool, past: Past, env: Env)
    requires past.Valid()
    ensures TypesAt(Step(Session(Edit(text, 0), marked, past), Character(0x08), env), env, text, 0)
    ensures TypesAt(Step(Session(Edit(text, 0), marked, past), Character(0x7F), env), env, text, 0)
    ensures TypesAt(Step(Session(Edit(text, |text|), marked, past), DeleteKey, env), env, text, |text|)
  {
    hide TypesAt, EndsMarked;
    TypesAtCursor(Step(Session(Edit(text, 0), marked, past), Character(0x08), env), env);
    TypesAtCursor(Step(Session(Edit(text, 0), marked, past), Character(0x7F), env), env);
    TypesAtCursor(Step(Session(Edit(text, |text|), marked, past), DeleteKey, env), env);
  }

  // Completion

  /** The first candidate becomes the line. The cursor is at the last border of a
      character that is not behind the place asked for. If there is nothing new
      to offer, nothing moves. */
  lemma CompletedAt(s: Session, env: Env, cs: Candidates, k: nat)
    requires s.Valid() && env.complete.Some?
    requires cs == env.complete.value(Join(s.edit.text), Offset(s.edit.text, s.edit.cursor)) && cs != []
    requires var text := Chunks(cs[0].0);
      k <= |text| && Offset(text, k) <= cs[0].1 && (k < |text| ==> cs[0].1 < Offset(text, k + 1))
    ensures var t := Step(s, Character(0x09), env);
      if cs == [(Join(s.edit.text), cs[0].1)] then TypesAt(t, env, s.edit.text, s.edit.cursor)
      else TypesAt(t, env, Chunks(cs[0].0), k)
  {
    hide TypesAt, EndsMarked, Chunks, GlyphsUpTo, Offset;
    var text := Chunks(cs[0].0);
    TypesAtCursor(Step(s, Character(0x09), env), env);
    ChunksNotEmpty(cs[0].0);
    GlyphsUpToIsFloor(text, cs[0].1);
    var j := GlyphsUpTo(text, cs[0].1);
    if j < k {
      OffsetIncreases(text, j + 1, k);
    } else if k < j {
      OffsetIncreases(text, k + 1, j);
    }
  }

  lemma ChunksNotEmpty(line: Bytes)
    ensures NoneEmpty(Chunks(line))
  {
  }

  // Typing

  function Characters(cps: seq<nat>): (keys: seq<Key>)
    ensures |keys| == |cps| && forall i :: 0 <= i < |cps| ==> keys[i] == Character(cps[i])
  {
    seq(|cps|, i requires 0 <= i < |cps| => Character(cps[i]))
  }

  /** The keys that end a line, and whether they end the input. */
  predicate Ends(key: Key, endOfStream: bool) {
    if endOfStream then key == EndOfInput || key == Character(0x04) else key == Character(0x0D) || key == Character(0x0A)
  }

  /** A line lasts up to the first key that ends it. */
  lemma {:induction false} LineEnds(s: Session, keys: seq<Key>, end: Key, endOfStream: bool, rest: seq<Key>, env: Env)
    requires s.Valid() && Ends(end, endOfStream)
    requires forall i :: 0 <= i < |keys| ==> !Ends(keys[i], true) && !Ends(keys[i], false)
    ensures Run(s, keys, env).1
    ensures Run(s, keys + [end] + rest, env) == (Run(s, keys, env).0, endOfStream)
    decreases |keys|
  {
    hide Step;
    var all := keys + [end] + rest;
    if keys == [] {
      assert all[0] == end;
    } else {
      assert all[0] == keys[0] && all[1..] == keys[1..] + [end] + rest;
      LineEnds(Step(s, keys[0], env), keys[1..], end, endOfStream, rest, env);
    }
  }

  /** What is typed goes in at the cursor, in order. */
  lemma {:induction false} Typed(s: Session, cps: seq<nat>, env: Env)
    requires s.Valid() && forall i :: 0 <= i < |cps| ==> IsTyped(cps[i], env)
    ensures var (t, eos) := Run(s, Characters(cps), env); var c := s.edit.cursor;
      eos && t.past == s.past &&
      Join(t.edit.text) == Join(s.edit.text[..c]) + EncodeAll(cps) + Join(s.edit.text[c..]) &&
      c <= |t.edit.text| && t.edit.cursor == c + |cps| && t.edit.text[..c] == s.edit.text[..c] &&
      t.edit.text[t.edit.cursor..] == s.edit.text[c..]
    decreases |cps|
  {
    hide Encode, EndsMarked;
    var c, text := s.edit.cursor, s.edit.text;
    if cps == [] {
      JoinAppend(text[..c], text[c..]);
      Seqs.Split(text, c);
      Seqs.AppendNothing(Join(text[..c]), []);
    } else {
      var g := Encode(cps[0]);
      var q := Step(s, Character(cps[0]), env);
      assert Characters(cps)[1..] == Characters(cps[1..]);
      Typed(q, cps[1..], env);
      assert q.edit.text[..c + 1] == text[..c] + [g];
      assert q.edit.text[c + 1..] == text[c..];
      var t := Run(q, Characters(cps[1..]), env).0;
      assert t.edit.text[..c] == t.edit.text[..c + 1][..c] == text[..c];
      JoinAppend(text[..c], [g]);
      JoinOne(g);
      Seqs.Associative(Join(text[..c]), g, EncodeAll(cps[1..]));
    }
  }

  lemma {:induction false} EncodeAllAppend(a: seq<nat>, b: seq<nat>)
    ensures EncodeAll(a + b) == EncodeAll(a) + EncodeAll(b)
    decreases |a|
  {
    hide Encode;
    if a == [] {
      assert a + b == b;
    } else {
      EncodeAllAppend(a[1..], b);
      Seqs.FirstOfAppend(a, b);
      Seqs.Associative(Encode(a[0]), EncodeAll(a[1..]), EncodeAll(b));
    }
  }

  /** The last byte of a character is the character itself, or none below 0x80. */
  lemma LastByte(cp: nat)
    requires cp <= MAX_CODE_POINT
    ensures var g := Encode(cp); g != [] && (if cp < 0x80 then g == [cp] else g[|g| - 1] >= 0x80)
  {
  }

  /** The end of a typed line, and what is left without its last character. */
  lemma TypedEnd(cps: seq<nat>)
    requires cps != [] && forall i :: 0 <= i < |cps| ==> cps[i] <= MAX_CODE_POINT
    ensures var line, n := EncodeAll(cps), |cps| - 1;
      line != [] && if cps[n] < 0x80 then line == EncodeAll(cps[..n]) + [cps[n]] else line[|line| - 1] >= 0x80
  {
    hide Encode;
    var n := |cps| - 1;
    assert cps == cps[..n] + [cps[n]];
    EncodeAllAppend(cps[..n], [cps[n]]);
    LastByte(cps[n]);
    assert [cps[n]][1..] == [] && EncodeAll([cps[n]]) == Encode(cps[n]) + EncodeAll([cps[n]][1..]);
    Seqs.AppendNothing(Encode(cps[n]), []);
  }

  lemma OneSpace(cps: seq<nat>)
    requires forall i :: 0 <= i < |cps| ==> cps[i] <= MAX_CODE_POINT
    ensures EncodeAll(cps) == [0x20] <==> cps == [0x20]
  {
    hide Encode;
    if cps != [] {
      TypedEnd(cps);
      var n := |cps| - 1;
      if n > 0 {
        TypedEnd(cps[..n]);
      }
    }
  }

  /** How a line of these characters is handed back. */
  lemma TypedFinish(cps: seq<nat>, endOfStream: bool, multiline: bool)
    requires forall i :: 0 <= i < |cps| ==> cps[i] <= MAX_CODE_POINT
    ensures var line, n := EncodeAll(cps), |cps| - 1;
      (EndsMarked(line) ==> line != []) &&
      Finish(line, EndsMarked(line), endOfStream, multiline) ==
        if cps != [] && cps[n] == 0x5C then (EncodeAll(cps[..n]) + [0x0A], !multiline)
        else if cps != [] && cps[n] == 0x2F then (if cps[..n] == [0x20] then [] else EncodeAll(cps[..n]), false)
        else if endOfStream then (line, false)
        else (line + [0x0A], multiline)
  {
    hide Encode, EncodeAll;
    var line, n := EncodeAll(cps), |cps| - 1;
    if cps == [] {
      NothingEncoded();
    } else {
      TypedEnd(cps);
      OneSpace(cps[..n]);
      Seqs.Border(EncodeAll(cps[..n]), [line[|line| - 1]]);
    }
  }

  /** A line from its first character to its end: it is handed back as typed, with
      a newline unless the input has ended. A backslash at its end is taken off
      and turns the wish for more lines round; a slash is taken off and asks for
      no more, and what would be a single space goes with it. */
  lemma TypedLine(past: Past, cps: seq<nat>, end: Key, endOfStream: bool, env: Env, multiline: bool)
    requires past.Valid() && env.complete.None? && Ends(end, endOfStream)
    requires forall i :: 0 <= i < |cps| ==> cps[i] <= MAX_CODE_POINT && IsTyped(cps[i], env)
    ensures var (t, eos) := Run(Session(Edit([], 0), false, past), Characters(cps) + [end], env);
      var line, n := EncodeAll(cps), |cps| - 1;
      eos == endOfStream && t.past == past && Join(t.edit.text) == line && IsSafe(t) &&
      Finish(line, t.marked, eos, multiline) ==
        if cps != [] && cps[n] == 0x5C then (EncodeAll(cps[..n]) + [0x0A], !multiline)
        else if cps != [] && cps[n] == 0x2F then (if cps[..n] == [0x20] then [] else EncodeAll(cps[..n]), false)
        else if endOfStream then (line, false)
        else (line + [0x0A], multiline)
  {
    hide Encode, EncodeAll, Step, Run, LastFresh, Finish, EndsMarked;
    var s := Session(Edit([], 0), false, past);
    var keys := Characters(cps);
    var line := EncodeAll(cps);
    Typed(s, cps, env);
    Seqs.AppendNothing(keys + [end], []);
    LineEnds(s, keys, end, endOfStream, [], env);
    var t := Run(s, keys, env).0;
    assert s.edit.text[..0] == [] && s.edit.text[0..] == [];
    Seqs.AppendNothing(line, []);
    assert !EndsMarked([]) by { NothingMarked(); }
    MarkAfterRun(s, keys, env, []);
    FreshWithoutCompletion(s, keys, env);
    TypedFinish(cps, endOfStream, multiline);
  }

  lemma NothingMarked()
    ensures !EndsMarked([])
  {
  }

  lemma NothingEncoded()
    ensures EncodeAll([]) == []
  {
  }

  // What is remembered

  /** A line that has been handed back is remembered without its newline, unless
      nothing is left of it, the entry before is the same, or the input ended. */
  lemma RememberedOnce(past: Past, line: Bytes, kept: Bytes, endOfStream: bool)
    requires past.Valid() && (line == kept + [0x0A] || (line == kept && (kept != [] ==> kept[|kept| - 1] != 0x0A)))
    ensures var r := Remembered(past, line, endOfStream);
      var last := if past.entries == [] then None else Some(past.entries[|past.entries| - 1]);
      (if endOfStream || kept == [] then r == past
       else r.viewing.None? && r.backup == [] && r.entries == past.entries + if last == Some(kept) then [] else [kept])
  {
    Seqs.Border(kept, [0x0A]);
    Seqs.AppendNothing(past.entries, []);
  }

  // Browsing

  function Presses(key: Key, n: nat): (keys: seq<Key>)
    ensures |keys| == n && forall i :: 0 <= i < n ==> keys[i] == key
  {
    seq(n, i => key)
  }

  lemma {:induction false} RunOn(s: Session, a: seq<Key>, b: seq<Key>, env: Env)
    requires s.Valid() && forall i :: 0 <= i < |a| ==> !EndsLine(a[i])
    ensures Run(s, a + b, env) == Run(Run(s, a, env).0, b, env)
    decreases |a|
  {
    hide Step;
    if a == [] {
      assert a + b == b;
    } else {
      Seqs.FirstOfAppend(a, b);
      RunOn(Step(s, a[0], env), a[1..], b, env);
    }
  }

  lemma OneMore(s: Session, key: Key, n: nat, env: Env)
    requires s.Valid() && !EndsLine(key)
    ensures Run(s, Presses(key, n + 1), env).0 == Step(Run(s, Presses(key, n), env).0, key, env)
  {
    hide Step;
    var t := Run(s, Presses(key, n), env).0;
    assert Presses(key, n + 1) == Presses(key, n) + [key];
    RunOn(s, Presses(key, n), [key], env);
    assert [key][1..] == [];
  }

  /** Pressing up on the line is what pressing up means for the history. */
  lemma {:induction false} UpsOnLine(s: Session, n: nat, env: Env)
    requires s.Valid() && s.past.entries != []
    ensures var t := Run(s, Presses(ArrowUp, n), env).0;
      (t.past, Join(t.edit.text)) == Ups(s.past, Join(s.edit.text), n) && (n > 0 ==> t.edit.cursor == |t.edit.text|) &&
      t.past.entries == s.past.entries
    decreases n
  {
    hide Run, Chunks, EndsMarked;
    if n == 0 {
      assert Run(s, Presses(ArrowUp, 0), env).0 == s by { NoKeys(s, env); }
    } else {
      UpsOnLine(s, n - 1, env);
      OneMore(s, ArrowUp, n - 1, env);
      var t := Run(s, Presses(ArrowUp, n - 1), env).0;
      JoinChunks(t.past.Up(Join(t.edit.text)).1.value);
    }
  }

  lemma {:induction false} DownsOnLine(s: Session, n: nat, env: Env)
    requires s.Valid() && s.edit.cursor == |s.edit.text|
    ensures var t := Run(s, Presses(ArrowDown, n), env).0;
      (t.past, Join(t.edit.text)) == Downs(s.past, Join(s.edit.text), n) && t.edit.cursor == |t.edit.text|
    decreases n
  {
    hide Run, Chunks, EndsMarked;
    if n == 0 {
      assert Run(s, Presses(ArrowDown, 0), env).0 == s by { NoKeys(s, env); }
    } else {
      DownsOnLine(s, n - 1, env);
      OneMore(s, ArrowDown, n - 1, env);
      var t := Run(s, Presses(ArrowDown, n - 1), env).0;
      if t.past.Down().1.Some? {
        JoinChunks(t.past.Down().1.value);
      }
    }
  }

  lemma NoKeys(s: Session, env: Env)
    requires s.Valid()
    ensures Run(s, [], env).0 == s
  {
  }

  /** Browsing at the keyboard: after going up and then down again, the unfinished
      line is back exactly when down was pressed as often as up counted; until
      then the entry that many steps from the newest shows. The cursor is at the
      end, and the entries are as they were. */
  lemma Browsing(s: Session, up: nat, down: nat, env: Env)
    requires s.Valid() && s.past.viewing.None? && s.past.entries != [] && up > 0
    ensures var t := Run(s, Presses(ArrowUp, up) + Presses(ArrowDown, down), env).0;
      var entries := s.past.entries; var counted := if up < |entries| then up else |entries|;
      t.past.entries == entries && (t.past.viewing.None? <==> down >= counted) &&
      Join(t.edit.text) == (if down >= counted then Join(s.edit.text) else entries[|entries| - counted + down]) &&
      TypesAt(t, env, t.edit.text, |t.edit.text|)
  {
    hide Run, Ups, Downs, TypesAt;
    RunOn(s, Presses(ArrowUp, up), Presses(ArrowDown, down), env);
    UpsOnLine(s, up, env);
    var q := Run(s, Presses(ArrowUp, up), env).0;
    DownsOnLine(q, down, env);
    BrowsingReturns(s.past, Join(s.edit.text), up, down);
    TypesAtCursor(Run(q, Presses(ArrowDown, down), env).0, env);
  }

  /** With no history, or when nothing is being viewed, the keys find nothing. */
  lemma NothingToBrowse(s: Session, env: Env)
    requires s.Valid()
    ensures s.past.entries == [] ==> TypesAt(Step(s, ArrowUp, env), env, s.edit.text, s.edit.cursor)
    ensures s.past.viewing.None? ==>
      TypesAt(Step(s, ArrowDown, env), env, s.edit.text, s.edit.cursor) && Step(s, ArrowDown, env).past == s.past
  {
    hide TypesAt, EndsMarked;
    TypesAtCursor(Step(s, ArrowUp, env), env);
    TypesAtCursor(Step(s, ArrowDown, env), env);
  }
}
