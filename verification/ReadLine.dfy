/** Reading one line key by key: the abstract run, and the console that refines it. */
module ReadLine {
  import Seqs
  import opened Utf8
  import opened Wrappers
  import opened Screen
  import opened EditModel
  import opened History
  import opened LineEditor

  const TAB := 0x09
  const LINE_FEED: byte := 0x0A
  const RETURN := 0x0D
  const CTRL_D := 0x04
  const ESCAPE := 0x1B
  const SPACE: byte := 0x20
  const BACKSLASH: byte := 0x5C
  const SLASH: byte := 0x2F

  /** A key after the terminal's escape sequences have been decoded. */
  datatype Key =
    | Character(codePoint: nat)
    | EndOfInput
    | ArrowLeft | ArrowRight | CtrlLeft | CtrlRight | HomeKey | EndKey | DeleteKey
    | ArrowUp | ArrowDown
    | UnknownSequence

  type Candidates = seq<(Bytes, nat)>

  datatype Env = Env(complete: Option<(Bytes, nat) -> Candidates>, isSpace: nat -> bool)

  datatype Session = Session(edit: Edit, marked: bool, past: Past) {
    predicate Valid() {
      edit.Valid() && past.Valid()
    }
  }

  /** The line ends with one of the two bytes that change how it is finished. */
  predicate EndsMarked(line: Bytes) {
    line != [] && line[|line| - 1] in {BACKSLASH, SLASH}
  }

  predicate EndsLine(key: Key) {
    key.EndOfInput? || (key.Character? && key.codePoint in {RETURN, LINE_FEED as int, CTRL_D})
  }

  function Offered(line: Bytes, bytePos: nat, key: Key, env: Env): Candidates {
    if key == Character(TAB) && env.complete.Some? then env.complete.value(line, bytePos) else []
  }

  /** What the keys other than completions do. */
  function Edited(s: Session, key: Key, env: Env): (r: Session)
    requires s.Valid()
    ensures r.Valid()
  {
    var e := s.edit;
    match key
    case ArrowLeft => s.(edit := e.Left())
    case ArrowRight => s.(edit := e.Right())
    case CtrlLeft => s.(edit := e.WordLeft(env.isSpace))
    case CtrlRight => s.(edit := e.WordRight(env.isSpace))
    case HomeKey => s.(edit := Edit(e.text, 0))
    case EndKey => s.(edit := Edit(e.text, |e.text|))
    case DeleteKey => s.(edit := e.Delete())
    case ArrowUp => Recall(s, s.past.Up(Join(e.text)))
    case ArrowDown => Recall(s, s.past.Down())
    case UnknownSequence => s
    case EndOfInput => s
    case Character(cp) =>
      if cp == ESCAPE then s
      else if cp == 0x08 || cp == 0x7F then s.(edit := e.Backspace())
      else s.(edit := e.Insert(Encode(cp)))
  }

  function Recall(s: Session, r: (Past, Option<Bytes>)): (t: Session)
    requires s.Valid() && r.0.Valid()
    ensures t.Valid()
  {
    Session(if r.1.Some? then Recalled(r.1.value) else s.edit, s.marked, r.0)
  }

  /** One key. A completion leaves the mark alone; every other key sets it anew. */
  function Step(s: Session, key: Key, env: Env): (r: Session)
    requires s.Valid()
    ensures r.Valid()
  {
    var line := Join(s.edit.text);
    var cs := Offered(line, Offset(s.edit.text, s.edit.cursor), key, env);
    if cs != [] then
      if |cs| > 1 || cs[0].0 != line then s.(edit := Completed(cs[0].0, cs[0].1)) else s
    else
      var t := Edited(s.(marked := false), key, env);
      t.(marked := EndsMarked(Join(t.edit.text)))
  }

  /** The keys up to the one that ends the line, and whether the input ended. */
  function Run(s: Session, keys: seq<Key>, env: Env): (r: (Session, bool))
    requires s.Valid()
    ensures r.0.Valid()
    decreases |keys|
  {
    if keys == [] then (s, true)
    else if EndsLine(keys[0]) then (s, keys[0] != Character(RETURN) && keys[0] != Character(LINE_FEED as int))
    else Run(Step(s, keys[0], env), keys[1..], env)
  }

  /** What completion offers for this key. */
  function OfferedAt(s: Session, key: Key, env: Env): Candidates
    requires s.Valid()
  {
    Offered(Join(s.edit.text), Offset(s.edit.text, s.edit.cursor), key, env)
  }

  predicate Enterable(key: Key) {
    key.Character? ==> key.codePoint <= MAX_CODE_POINT
  }

  /** The key leaves bytes and widths in step: what is put on the line is made
      of whole characters. */
  predicate Keeps(s: Session, key: Key, env: Env)
    requires s.Valid()
  {
    var cs := OfferedAt(s, key, env);
    if cs != [] then (|cs| > 1 || cs[0].0 != Join(s.edit.text)) ==> Clean(cs[0].0) else Enterable(key)
  }

  /** A mark stands for the last byte of the line: there must be one. */
  predicate IsSafe(s: Session) {
    s.marked ==> Join(s.edit.text) != []
  }

  /** The source looks at the last byte of a marked line at every key but a
      completion; of an empty line there is none. */
  predicate IsDefined(s: Session, key: Key, env: Env)
    requires s.Valid()
  {
    OfferedAt(s, key, env) != [] || IsSafe(s)
  }

  /** The whole run is defined, its end included. */
  predicate RunIsDefined(s: Session, keys: seq<Key>, env: Env)
    requires s.Valid()
    decreases |keys|
  {
    if keys == [] || EndsLine(keys[0]) then IsSafe(s)
    else IsDefined(s, keys[0], env) && RunIsDefined(Step(s, keys[0], env), keys[1..], env)
  }

  /** As far as the run is defined, every key keeps bytes and widths in step. */
  predicate RunKeeps(s: Session, keys: seq<Key>, env: Env)
    requires s.Valid()
    decreases |keys|
  {
    keys == [] || EndsLine(keys[0]) || !IsDefined(s, keys[0], env) ||
    (Keeps(s, keys[0], env) && RunKeeps(Step(s, keys[0], env), keys[1..], env))
  }

  /** The line handed back and whether more lines are wanted. */
  function Finish(line: Bytes, marked: bool, endOfStream: bool, multiline: bool): (Bytes, bool)
    requires marked ==> line != []
  {
    if marked then
      var kept := line[..|line| - 1];
      if line[|line| - 1] == BACKSLASH then (kept + [LINE_FEED], !multiline)
      else (if kept == [SPACE] then [] else kept, false)
    else if endOfStream then (line, false)
    else (line + [LINE_FEED], multiline)
  }

  function WithoutNewline(line: Bytes): Bytes {
    if line != [] && line[|line| - 1] == LINE_FEED then line[..|line| - 1] else line
  }

  function Remembered(past: Past, line: Bytes, endOfStream: bool): Past {
    if !endOfStream && line != [] then past.Add(WithoutNewline(line)) else past
  }

  predicate EncodedLine(line: Bytes) {
    Clean(line) && IsEncodedText(Chunks(line))
  }

  /** No malformed bytes on the line, in the history or in what completion offers. */
  predicate EncodedSession(s: Session) {
    IsEncodedText(s.edit.text) && EncodedLine(s.past.backup) &&
    forall i :: 0 <= i < |s.past.entries| ==> EncodedLine(s.past.entries[i])
  }

  ghost predicate EncodedEnv(env: Env) {
    env.complete.Some? ==> forall l, p {:trigger env.complete.value(l, p)} ::
      env.complete.value(l, p) != [] ==> EncodedLine(env.complete.value(l, p)[0].0)
  }

  lemma StepStaysEncoded(s: Session, key: Key, env: Env)
    requires s.Valid() && EncodedSession(s) && EncodedEnv(env) && Enterable(key)
    ensures EncodedSession(Step(s, key, env))
  {
    hide Decode, Encode, Clean, Chunks, IsEncoded;
    var text := s.edit.text;
    EncodedTextIsText(text);
    ChunksJoin(text);
    assert EncodedLine([]) by { EmptyLine(); }
    if key.Character? {
      EncodeIsGlyph(key.codePoint);
      assert IsEncoded(Encode(key.codePoint)) by { EncodedGlyph(key.codePoint); }
    }
  }

  lemma EmptyLine()
    ensures EncodedLine([])
  {
  }

  lemma EncodedGlyph(cp: nat)
    requires cp <= MAX_CODE_POINT
    ensures IsEncoded(Encode(cp))
  {
    hide Encode, Decode;
    EncodeIsGlyph(cp);
  }

  lemma EncodedTextIsText(gs: seq<Bytes>)
    requires IsEncodedText(gs)
    ensures IsText(gs)
  {
    hide IsGlyph;
  }

  /** In a run without malformed bytes from outside, the line is at every moment
      the UTF-8 of a sequence of code points. */
  lemma {:induction false} RunIsUtf8(s: Session, keys: seq<Key>, env: Env)
    requires s.Valid() && EncodedSession(s) && EncodedEnv(env)
    requires forall i :: 0 <= i < |keys| ==> Enterable(keys[i])
    ensures var t := Run(s, keys, env).0;
      EncodedSession(t) && Join(t.edit.text) == EncodeAll(CodePoints(t.edit.text))
    decreases |keys|
  {
    hide Step, IsEncoded, EncodedLine;
    JoinIsUtf8(s.edit.text);
    if keys != [] && !EndsLine(keys[0]) {
      StepStaysEncoded(s, keys[0], env);
      RunIsUtf8(Step(s, keys[0], env), keys[1..], env);
    }
  }

  /** A step makes a safe line unsafe exactly when a marked line is completed to
      the empty one. */
  lemma StepIsSafe(s: Session, key: Key, env: Env)
    requires s.Valid() && IsSafe(s)
    ensures var cs := OfferedAt(s, key, env);
      IsSafe(Step(s, key, env)) <==> !(s.marked && cs != [] && cs[0].0 == [])
  {
    hide Chunks, Edited;
    StepLine(s, key, env);
  }

  /** The line after a completion is what was offered first. */
  lemma StepLine(s: Session, key: Key, env: Env)
    requires s.Valid()
    ensures var cs, t := OfferedAt(s, key, env), Step(s, key, env);
      (cs != [] ==> Join(t.edit.text) == cs[0].0 && t.marked == s.marked) &&
      (cs == [] ==> t.marked == EndsMarked(Join(t.edit.text)))
  {
    hide Chunks, Edited;
    var cs := OfferedAt(s, key, env);
    if cs != [] {
      JoinChunks(cs[0].0);
    }
  }

  /** A mark drawn before the cursor is right: the line has that byte there, or
      the prompt stands there. */
  predicate MarkFits(e: Edit)
    requires e.Valid()
  {
    EndsMarked(Join(e.text)) ==> e.cursor == 0 || e.text[e.cursor - 1] == [Join(e.text)[|Join(e.text)| - 1]]
  }

  /** In this run marks fit and nothing is completed under one. */
  predicate RowKept(s: Session, keys: seq<Key>, env: Env)
    requires s.Valid()
    decreases |keys|
  {
    keys == [] || EndsLine(keys[0]) ||
    (var t := Step(s, keys[0], env);
     (if OfferedAt(s, keys[0], env) != [] then !s.marked else MarkFits(t.edit)) && RowKept(t, keys[1..], env))
  }

  lemma CellOfGlyph(gs: seq<Bytes>, ws: seq<nat>, k: nat)
    requires |gs| == |ws| && k < |gs| && ws[k] == 1
    ensures var c := Sum(ws[..k]); c < |Picture(gs, ws)| && Picture(gs, ws)[c] == gs[k]
  {
    hide Sum, Picture;
    PictureSplit(gs, ws, k);
    assert Painted(gs[k], 1)[0] == gs[k];
  }

  lemma NoWidth(ws: seq<nat>)
    ensures Sum(ws[..0]) == 0
  {
  }

  /** Where nothing empty is offered every run is defined. */
  lemma {:induction false} SafeRun(s: Session, keys: seq<Key>, env: Env)
    requires s.Valid() && IsSafe(s)
    requires env.complete.Some? ==> forall l, p {:trigger env.complete.value(l, p)} ::
      env.complete.value(l, p) == [] || env.complete.value(l, p)[0].0 != []
    ensures RunIsDefined(s, keys, env)
    decreases |keys|
  {
    hide Step, IsSafe;
    if keys != [] && !EndsLine(keys[0]) {
      StepIsSafe(s, keys[0], env);
      SafeRun(Step(s, keys[0], env), keys[1..], env);
    }
  }

  /** A key leaves a mark that agrees with the line exactly when nothing was
      offered, or what was offered ends as the old mark says. */
  lemma MarkAfterStep(s: Session, key: Key, env: Env)
    requires s.Valid()
    ensures var t, cs := Step(s, key, env), OfferedAt(s, key, env);
      t.marked == EndsMarked(Join(t.edit.text)) <==> cs == [] || s.marked == EndsMarked(cs[0].0)
  {
    hide Step;
    StepLine(s, key, env);
  }

  /** The line after the last key that offered no completion; the given one if
      there was no such key. */
  function LastFresh(s: Session, keys: seq<Key>, env: Env, line: Bytes): Bytes
    requires s.Valid()
    decreases |keys|
  {
    if keys == [] || EndsLine(keys[0]) then line
    else
      var t := Step(s, keys[0], env);
      LastFresh(t, keys[1..], env, if OfferedAt(s, keys[0], env) == [] then Join(t.edit.text) else line)
  }

  /** At the end of a run the mark says how the line ended after the last key
      that offered no completion. So it agrees with the line exactly when the
      completions since then did not change that. */
  lemma {:induction false} MarkAfterRun(s: Session, keys: seq<Key>, env: Env, line: Bytes)
    requires s.Valid() && s.marked == EndsMarked(line)
    ensures Run(s, keys, env).0.marked == EndsMarked(LastFresh(s, keys, env, line))
    decreases |keys|
  {
    hide Step, EndsMarked;
    if keys != [] && !EndsLine(keys[0]) {
      StepLine(s, keys[0], env);
      var last := if OfferedAt(s, keys[0], env) == [] then Join(Step(s, keys[0], env).edit.text) else line;
      MarkAfterRun(Step(s, keys[0], env), keys[1..], env, last);
    }
  }

  /** Without completions that line is the final one. */
  lemma {:induction false} FreshWithoutCompletion(s: Session, keys: seq<Key>, env: Env)
    requires s.Valid() && env.complete.None?
    ensures LastFresh(s, keys, env, Join(s.edit.text)) == Join(Run(s, keys, env).0.edit.text)
    decreases |keys|
  {
    hide Step;
    if keys != [] && !EndsLine(keys[0]) {
      FreshWithoutCompletion(Step(s, keys[0], env), keys[1..], env);
    }
  }

  /** Any wrong mark shows in what is handed back. */
  lemma WrongMarkShows(line: Bytes, marked: bool, endOfStream: bool, multiline: bool)
    requires marked ==> line != []
    ensures Finish(line, marked, endOfStream, multiline) == Finish(line, EndsMarked(line), endOfStream, multiline) <==>
      marked == EndsMarked(line)
  {
    if marked != EndsMarked(line) {
      var kept := line[..|line| - 1];
      assert |kept| < |line|;
      assert (kept + [LINE_FEED])[|line| - 1] == LINE_FEED;
    }
  }

  /** A line comes back as its own last byte asks exactly when the last line
      without a completion ended alike. */
  lemma FinishedAsItEnds(s: Session, keys: seq<Key>, env: Env, line: Bytes, multiline: bool)
    requires s.Valid() && s.marked == EndsMarked(line) && RunIsDefined(s, keys, env)
    ensures var (t, eos) := Run(s, keys, env); var text := Join(t.edit.text);
      IsSafe(t) &&
      (Finish(text, t.marked, eos, multiline) == Finish(text, EndsMarked(text), eos, multiline) <==>
       EndsMarked(LastFresh(s, keys, env, line)) == EndsMarked(text))
  {
    hide Run, RunIsDefined, LastFresh, Finish, EndsMarked;
    var (t, eos) := Run(s, keys, env);
    DefinedEnds(s, keys, env);
    MarkAfterRun(s, keys, env, line);
    WrongMarkShows(Join(t.edit.text), t.marked, eos, multiline);
  }

  lemma {:induction false} DefinedEnds(s: Session, keys: seq<Key>, env: Env)
    requires s.Valid() && RunIsDefined(s, keys, env)
    ensures IsSafe(Run(s, keys, env).0)
    decreases |keys|
  {
    hide Step, IsSafe, IsDefined;
    if keys != [] && !EndsLine(keys[0]) {
      DefinedEnds(Step(s, keys[0], env), keys[1..], env);
    }
  }

  /** An environment that completes every line to the given one. */
  function CompletesTo(line: Bytes): Env {
    Env(Some((l: Bytes, p: nat) => [(line, |line|)]), cp => cp == 0x20)
  }

  const NEW_LINE := Session(Edit([], 0), false, Past([], None, []))

  /** A slash typed and then completed keeps its mark. */
  lemma SlashCompleted(line: Bytes, key: Key)
    requires line != [SLASH] && key != Character(TAB)
    ensures var s, env, keys := Session(Completed(line, |line|), true, NEW_LINE.past), CompletesTo(line), [Character(0x2F), Character(TAB), key];
      Join(s.edit.text) == line && OfferedAt(s, key, env) == [] &&
      Run(NEW_LINE, keys, env) == Run(s, [key], env) && (RunIsDefined(NEW_LINE, keys, env) <==> RunIsDefined(s, [key], env))
  {
    hide Chunks, Completed, Encode;
    var env, keys := CompletesTo(line), [Character(0x2F), Character(TAB), key];
    var s1, s2 := Session(Edit([[SLASH]], 1), true, NEW_LINE.past), Session(Completed(line, |line|), true, NEW_LINE.past);
    JoinChunks(line);
    assert Completed(line, |line|).text == Chunks(line) by { CompletedText(line, |line|); }
    assert Step(NEW_LINE, keys[0], env) == s1 by { SlashTyped(env); }
    assert Join([[SLASH]]) == [SLASH] + Join([]);
    assert Step(s1, keys[1], env) == s2;
    assert keys[1..][1..] == [key];
  }

  lemma CompletedText(line: Bytes, bytePos: nat)
    ensures Completed(line, bytePos).text == Chunks(line)
  {
  }

  lemma SlashTyped(env: Env)
    ensures Step(NEW_LINE, Character(0x2F), env) == Session(Edit([[SLASH]], 1), true, NEW_LINE.past)
  {
    assert Encode(0x2F) == [SLASH];
    var t := Step(NEW_LINE, Character(0x2F), env);
    assert t.edit.text == [[SLASH]];
    assert Join([[SLASH]]) == [SLASH] + Join([]);
  }

  /** A mark left over from before a completion costs the line its last byte
      and its newline: "/" completed to "/ab" and finished comes back as "/a". */
  lemma StaleMarkCutsTheLine()
    ensures var slashAb := [SLASH, 0x61, 0x62];
      var (t, eos) := Run(NEW_LINE, [Character(0x2F), Character(TAB), Character(RETURN)], CompletesTo(slashAb));
      Join(t.edit.text) == slashAb && t.marked && Finish(slashAb, t.marked, eos, true) == ([SLASH, 0x61], false)
  {
    var slashAb := [SLASH, 0x61, 0x62];
    SlashCompleted(slashAb, Character(RETURN));
    assert slashAb[..2] == [SLASH, 0x61];
  }

  /** Completed to nothing instead, the next key asks for the last byte of an
      empty line. */
  lemma EmptiedLineIsUndefined()
    ensures !RunIsDefined(NEW_LINE, [Character(0x2F), Character(TAB), ArrowLeft], CompletesTo([]))
  {
    SlashCompleted([], ArrowLeft);
  }

  /** What was typed comes back whole, with a newline, exactly when unmarked;
      a marked line loses its last byte. */
  lemma FinishedLine(line: Bytes, marked: bool, multiline: bool)
    requires marked ==> line != []
    ensures var (l, more) := Finish(line, marked, false, multiline);
      (l == line + [LINE_FEED] <==> !marked) && (!marked ==> more == multiline) && WithoutNewline(line + [LINE_FEED]) == line
  {
    var l := Finish(line, marked, false, multiline).0;
    if marked {
      assert |l| <= |line|;
    }
  }

  lemma DropNewline(line: Bytes)
    requires Clean(line)
    ensures Clean(WithoutNewline(line))
  {
    if line != [] && line[|line| - 1] == LINE_FEED {
      LastGlyph(line);
      DropLastByte(line);
    }
  }

  lemma LastGlyph(line: Bytes)
    requires Clean(line) && line != [] && !IsContinuation(line[|line| - 1])
    ensures |Chunks(line)[|Chunks(line)| - 1]| == 1
  {
    var gs := Chunks(line);
    var n := |gs| - 1;
    ChunksAreGlyphs(line);
    JoinChunks(line);
    JoinAround(gs, n);
    GlyphBytes(gs[n]);
    assert gs[n + 1..] == [];
    assert gs[n][|gs[n]| - 1] == line[|line| - 1];
  }

  /** The history stays free of stray bytes exactly unless a finished line that
      was marked ended with a character of three bytes or more. A mark that
      agrees with the line never stands for such a one. */
  lemma RememberedClean(past: Past, line: Bytes, marked: bool, endOfStream: bool, multiline: bool)
    requires past.Valid() && past.AllClean() && Clean(line) && (marked ==> line != [])
    ensures var r := Remembered(past, Finish(line, marked, endOfStream, multiline).0, endOfStream);
      (r.AllClean() <==> endOfStream || !marked || |Chunks(line)[|Chunks(line)| - 1]| <= 2) &&
      (r.AllClean() <==> forall i :: 0 <= i < |r.entries| ==> Clean(r.entries[i]))
    ensures EndsMarked(line) ==> |Chunks(line)[|Chunks(line)| - 1]| <= 2
  {
    hide Clean, Chunks, EndsMarked;
    if EndsMarked(line) {
      MarkedEnd(line);
    }
    if !endOfStream && marked {
      MarkedRemembered(past, line, multiline);
    } else if !endOfStream {
      FinishedLine(line, marked, multiline);
      CleanPast(past, line);
    }
  }

  /** At the end of this run a mark takes off a part of a long character. */
  predicate CutsCharacter(end: (Session, bool)) {
    var gs := end.0.edit.text;
    !end.1 && end.0.marked && gs != [] && |gs[|gs| - 1]| > 2
  }

  lemma RememberedValid(past: Past, line: Bytes, endOfStream: bool)
    requires past.Valid()
    ensures Remembered(past, line, endOfStream).Valid()
  {
  }

  lemma MarkedEnd(line: Bytes)
    requires Clean(line) && EndsMarked(line)
    ensures |Chunks(line)[|Chunks(line)| - 1]| == 1
  {
    LastGlyph(line);
  }

  /** The line kept of a marked one, as it is remembered. */
  lemma MarkedRemembered(past: Past, line: Bytes, multiline: bool)
    requires past.Valid() && past.AllClean() && Clean(line) && line != []
    ensures var r := Remembered(past, Finish(line, true, false, multiline).0, false);
      (r.AllClean() <==> |Chunks(line)[|Chunks(line)| - 1]| <= 2) &&
      (r.AllClean() <==> forall i :: 0 <= i < |r.entries| ==> Clean(r.entries[i]))
  {
    hide Clean, Chunks;
    var kept := line[..|line| - 1];
    var l := WithoutNewline(Finish(line, true, false, multiline).0);
    DropLastByte(line);
    if Clean(kept) {
      EmptyLine();
      DropNewline(kept);
      assert WithoutNewline(kept + [LINE_FEED]) == kept;
      CleanPast(past, l);
      CleanEntries(past, l);
    } else {
      KeptStray(line);
      assert WithoutNewline(kept + [LINE_FEED]) == kept;
      StrayStays(past, kept);
    }
  }

  lemma CleanEntries(past: Past, l: Bytes)
    requires past.AllClean() && Clean(l)
    ensures past.Add(l).AllClean() && forall i :: 0 <= i < |past.Add(l).entries| ==> Clean(past.Add(l).entries[i])
  {
    hide Clean, Chunks;
    EmptyLine();
  }

  lemma StrayStays(past: Past, l: Bytes)
    requires past.AllClean() && !Clean(l) && l != []
    ensures var r := past.Add(l); r.entries != [] && r.entries[|r.entries| - 1] == l && !r.AllClean()
  {
    hide Clean, Chunks;
  }

  /** What is left of a long character ends in a stray byte: no newline, and not
      a single space. */
  lemma KeptStray(line: Bytes)
    requires Clean(line) && line != [] && !Clean(line[..|line| - 1])
    ensures var kept := line[..|line| - 1]; kept != [] && kept != [SPACE] && kept[|kept| - 1] != LINE_FEED
    ensures line[|line| - 1] !in {BACKSLASH, SLASH}
  {
    hide Clean, Chunks;
    DropLastByte(line);
    var gs := Chunks(line);
    var n := |gs| - 1;
    ChunksAreGlyphs(line);
    JoinChunks(line);
    JoinAround(gs, n);
    GlyphBytes(gs[n]);
    assert gs[n + 1..] == [];
    var g := gs[n];
    assert line == Join(gs[..n]) + g;
    assert line[|line| - 1] == g[|g| - 1] && line[|line| - 2] == g[|g| - 2];
  }

  /** Completed to a character of three bytes, two of them are handed back and
      remembered. */
  lemma StaleMarkLeavesStrayBytes()
    ensures var euro := [0xE2, 0x82, 0xAC];
      var (t, eos) := Run(NEW_LINE, [Character(0x2F), Character(TAB), Character(RETURN)], CompletesTo(euro));
      var line := Finish(euro, true, eos, true).0;
      Clean(euro) && t.marked && Join(t.edit.text) == euro && line == [0xE2, 0x82] &&
      Remembered(t.past, line, eos).entries == [line] && !Clean(line)
  {
    hide Decode, Chunks;
    var euro: Bytes := [0xE2, 0x82, 0xAC];
    var cut := [0xE2, 0x82];
    SlashCompleted(euro, Character(RETURN));
    EuroIsGlyph();
    assert euro[..2] == cut;
    DropLastByte(euro);
  }

  lemma EuroIsGlyph()
    ensures var euro := [0xE2, 0x82, 0xAC]; Clean(euro) && Chunks(euro) == [euro]
  {
    var euro: Bytes := [0xE2, 0x82, 0xAC];
    assert Encode(0x20AC) == euro;
    EncodeIsGlyph(0x20AC);
    ChunksJoin([euro]);
    Seqs.AppendNothing(euro, []);
    assert Join([euro]) == euro + Join([euro][1..]);
  }

  class Console {
    const editor: Editor
    const history: HistoryBuffer
    var marked: bool
    const env: Env

    constructor (editor: Editor, history: HistoryBuffer, env: Env)
      ensures this.editor == editor && this.history == history && this.env == env && !marked
    {
      this.editor, this.history, this.env, marked := editor, history, env, false;
    }

    ghost predicate Ready()
      reads this, editor, editor.screen, history
    {
      editor.Aligned() && editor.screen.Calibrated() && history.State().Valid() && history.State().AllClean()
    }

    ghost function Now(): (s: Session)
      requires Ready()
      reads this, editor, editor.screen, history
      ensures s.Valid()
    {
      Session(editor.Contents(), marked, history.State())
    }

    method HistoryPrev()
      requires Ready() && !marked
      modifies editor, editor.screen, history
      ensures Ready() && Now() == Recall(old(Now()), old(Now()).past.Up(old(editor.line)))
      ensures old(editor.Faithful()) ==> editor.Faithful()
    {
      hide Clean, Chunks, Sum;
      CleanPast(history.State(), editor.line);
      if history.viewing.None? {
        history.BeginViewing(editor.line);
      }
      var newLine := history.Prev();
      if newLine.Some? {
        editor.SetLineContents(newLine.value);
      }
    }

    method HistoryNext()
      requires Ready() && !marked
      modifies editor, editor.screen, history
      ensures Ready() && Now() == Recall(old(Now()), old(Now()).past.Down())
      ensures old(editor.Faithful()) ==> editor.Faithful()
    {
      hide Clean, Chunks, Sum;
      CleanPast(history.State(), editor.line);
      if history.viewing.Some? {
        var newLine := history.Next();
        if newLine.Some? {
          editor.SetLineContents(newLine.value);
        }
      }
    }

    /** Offers the line for completion; true if there was anything to choose from.
        The bytes offered may be any. */
    method TryComplete(key: Key) returns (completed: bool)
      requires Ready()
      modifies editor, editor.screen
      ensures var s, line := old(Now()), old(editor.line);
        var cs := OfferedAt(s, key, env);
        line == Join(s.edit.text) && completed == (cs != []) &&
        var taken := cs != [] && (|cs| > 1 || cs[0].0 != line);
        editor.line == (if taken then cs[0].0 else line) &&
        (Ready() <==> (taken ==> Clean(cs[0].0))) &&
        (Ready() ==> Now() == if taken then s.(edit := Completed(cs[0].0, cs[0].1)) else s)
      ensures old(editor.Faithful()) && Ready() ==> editor.Faithful()
      ensures !completed ==> unchanged(editor) && unchanged(editor.screen)
    {
      hide Clean, Chunks, Sum, Decode, GlyphsUpTo;
      editor.Facts();
      if env.complete.Some? && key == Character(TAB) {
        var candidates := env.complete.value(editor.line, editor.bytePos);
        if candidates != [] {
          if |candidates| > 1 || candidates[0].0 != editor.line {
            editor.SetLineContents(candidates[0].0, candidates[0].1);
          }
          return true;
        }
      }
      return false;
    }

    /** The keys other than completions, with no mark pending. Above U+10FFFF no
        byte is written, and nothing is in step any more. */
    method Dispatch(key: Key)
      requires Ready() && !marked
      modifies editor, editor.screen, history
      ensures old(editor.line) == Join(old(editor.Contents()).text)
      ensures Ready() <==> Enterable(key)
      ensures Enterable(key) ==> Now() == Edited(old(Now()), key, env)
      ensures Enterable(key) && old(editor.Faithful()) ==> editor.Faithful()
    {
      hide Clean, Chunks, Sum, Decode, Encode, IsConsistent, Measured;
      editor.Facts();
      match key
      case ArrowLeft => editor.Left();
      case ArrowRight => editor.Right();
      case CtrlLeft => editor.MoveWordLeft(env.isSpace);
      case CtrlRight => editor.MoveWordRight(env.isSpace);
      case HomeKey => editor.Home();
      case EndKey => editor.MoveToLineEnd();
      case DeleteKey => editor.DeleteAtCursor();
      case ArrowUp => HistoryPrev();
      case ArrowDown => HistoryNext();
      case UnknownSequence =>
      case EndOfInput =>
      case Character(cp) =>
        if cp == ESCAPE {
        } else if cp == 0x08 || cp == 0x7F {
          editor.Backspace();
        } else if cp <= MAX_CODE_POINT {
          editor.Insert(cp);
        } else {
          editor.InsertBeyond(cp);
        }
    }

    /** A pending mark is drawn in the column before the cursor. */
    ghost predicate Settled()
      reads this, editor, editor.screen
    {
      marked ==>
        (EndsMarked(editor.line) &&
         Shown(editor.screen.row, editor.screen.column - 1) == [editor.line[|editor.line| - 1]])
    }

    /** Where the mark is drawn, the line has it or the prompt stands. */
    ghost predicate MarkInPlace()
      requires editor.Consistent()
      reads editor, editor.screen
    {
      EndsMarked(editor.line) ==>
        editor.screen.column == 0 || editor.BeforeCursor() == [editor.line[|editor.line| - 1]]
    }

    method ClearMark()
      requires Ready() && (marked ==> editor.line != [])
      modifies this`marked, editor.screen`row
      ensures Ready() && Now() == old(Now()).(marked := false)
      ensures old(editor.Faithful() && Settled()) ==> editor.Faithful()
    {
      hide Clean, Chunks, Sum, Picture, IsConsistent, Measured;
      if marked {
        editor.RewriteLast();
        marked := false;
      }
    }

    method SetMark()
      requires Ready() && !marked
      modifies this`marked, editor.screen`row
      ensures Ready() && Now() == old(Now()).(marked := EndsMarked(Join(old(Now()).edit.text)))
      ensures old(editor.Faithful()) ==> Settled() && (editor.Faithful() <==> MarkInPlace())
    {
      hide Clean, Chunks, Sum, Picture, Measured, Shows;
      editor.Facts();
      var line := editor.line;
      if line != [] && (line[|line| - 1] == BACKSLASH || line[|line| - 1] == SLASH) {
        editor.RewriteLast();
        marked := true;
      }
    }

    /** One key that does not end the line; false if the source would look at the
        last byte of an empty line. Otherwise bytes, widths, cursors and terminal
        column stay in step exactly for keys that put whole characters on the
        line, and the text is what the abstract step says. Unless a completion
        was taken, the row goes on showing the line exactly when the redrawn mark
        falls in its place. */
    method Press(key: Key) returns (defined: bool)
      requires Ready() && !EndsLine(key)
      modifies this, editor, editor.screen, history
      ensures defined <==> IsDefined(old(Now()), key, env)
      ensures defined ==> (Ready() <==> Keeps(old(Now()), key, env))
      ensures defined && Ready() ==> Now() == Step(old(Now()), key, env)
      ensures defined && Ready() && old(editor.Faithful()) && OfferedAt(old(Now()), key, env) != [] ==> editor.Faithful()
      ensures defined && Ready() && old(editor.Faithful() && Settled()) && OfferedAt(old(Now()), key, env) == [] ==>
        Settled() && (editor.Faithful() <==> MarkInPlace())
    {
      hide Clean, Chunks, Sum, Decode, Encode, IsConsistent, Measured, Settled, Edited;
      editor.Facts();
      var completed := TryComplete(key);
      if completed {
        return true;
      }
      if marked && editor.line == [] {
        return false;
      }
      ClearMark();
      Dispatch(key);
      if key.Character? && key.codePoint > MAX_CODE_POINT {
        return true;
      }
      SetMark();
      return true;
    }

    /** With slashes one column wide, a mark that fits is drawn in its place. */
    lemma FittingMark()
      requires Ready() && SlashesAreOneColumn() && MarkFits(editor.Contents())
      ensures MarkInPlace()
    {
      hide Clean, Chunks, Decode, Sum, Picture, Painted;
      editor.Facts();
      var gs, ws, k, line := Chunks(editor.line), editor.widths, editor.charPos, editor.line;
      if EndsMarked(line) && k > 0 {
        SumAround(ws, k - 1);
        CellOfGlyph(gs, ws, k - 1);
      } else if k == 0 {
        assert Sum(ws[..0]) == 0 by { NoWidth(ws); }
      }
    }

    ghost predicate SlashesAreOneColumn() {
      editor.screen.advance([SLASH]) == 1 && editor.screen.advance([BACKSLASH]) == 1
    }

    /** The keys up to the one that ends the line. */
    method ReadKeys(keys: seq<Key>) returns (defined: bool, endOfStream: bool)
      requires Ready() && RunKeeps(Now(), keys, env)
      modifies this, editor, editor.screen, history
      ensures (defined && (marked ==> editor.line != [])) <==> RunIsDefined(old(Now()), keys, env)
      ensures defined ==> Ready() && (Now(), endOfStream) == Run(old(Now()), keys, env)
      ensures defined && old(editor.Faithful() && Settled()) && SlashesAreOneColumn() && RowKept(old(Now()), keys, env) ==>
        editor.Faithful() && Settled()
    {
      hide Clean, Chunks, Sum, Decode, Encode, IsConsistent, Measured, Step, IsDefined, Keeps, Settled, MarkFits, EndsMarked;
      ghost var start, kept := Now(), editor.Faithful() && Settled() && SlashesAreOneColumn() && RowKept(Now(), keys, env);
      var i := 0;
      endOfStream := true;
      while i < |keys| && !EndsLine(keys[i])
        invariant i <= |keys| && Ready() && RunKeeps(Now(), keys[i..], env)
        invariant Run(start, keys, env) == Run(Now(), keys[i..], env)
        invariant RunIsDefined(start, keys, env) <==> RunIsDefined(Now(), keys[i..], env)
        invariant kept ==> editor.Faithful() && Settled() && SlashesAreOneColumn() && RowKept(Now(), keys[i..], env)
      {
        ghost var now := Now();
        Seqs.DropCons(keys, i);
        defined := Press(keys[i]);
        if !defined {
          return;
        }
        if kept {
          Unmarked(now, keys[i]);
        }
        i := i + 1;
      }
      editor.Facts();
      defined := true;
      if i < |keys| {
        endOfStream := keys[i] != Character(RETURN) && keys[i] != Character(LINE_FEED as int);
      }
    }

    /** What a key leaves settled that keeps the row. */
    lemma Unmarked(before: Session, key: Key)
      requires Ready() && before.Valid() && Now() == Step(before, key, env) && SlashesAreOneColumn()
      requires if OfferedAt(before, key, env) != [] then !before.marked else MarkFits(Now().edit)
      ensures OfferedAt(before, key, env) != [] ==> Settled()
      ensures OfferedAt(before, key, env) == [] ==> MarkInPlace()
    {
      hide Clean, Chunks, Sum, Decode, MarkInPlace, MarkFits, EndsMarked, Edited, Completed;
      if OfferedAt(before, key, env) == [] {
        FittingMark();
      }
    }

    /** The line handed back, the mark taken off; none if there is no byte to
        take. */
    method FinishLine(endOfStream: bool, multiline: bool) returns (r: Option<(Bytes, bool)>)
      ensures r.Some? <==> (marked ==> editor.line != [])
      ensures r.Some? ==> r.value == Finish(editor.line, marked, endOfStream, multiline)
    {
      var line, hasMore := editor.line, multiline;
      if marked {
        if line == [] {
          return None;
        }
        var last := line[|line| - 1];
        line := line[..|line| - 1];
        if last == BACKSLASH {
          line := line + [LINE_FEED];
          hasMore := !hasMore;
        } else {
          if |line| == 1 && line[|line| - 1] == SPACE {
            line := [];
          }
          hasMore := false;
        }
      } else if endOfStream {
        hasMore := false;
      } else {
        line := line + [LINE_FEED];
      }
      r := Some((line, hasMore));
    }

    /** Reads a line from its first key to the one that ends it; nothing comes
        back where the source is not defined. The history is fit for the next
        line exactly unless a marked line lost a part of a long character. */
    method ReadLine(keys: seq<Key>, multiline: bool) returns (r: Option<(Bytes, bool)>)
      requires Ready() && editor.line == [] && !marked
      requires RunKeeps(Now(), keys, env)
      modifies this, editor, editor.screen, history
      ensures r.Some? <==> RunIsDefined(old(Now()), keys, env)
      ensures r.Some? ==>
        var (s, eos) := Run(old(Now()), keys, env); var text := Join(s.edit.text);
        IsSafe(s) && editor.Aligned() && editor.Contents() == s.edit && marked == s.marked &&
        r.value == Finish(text, s.marked, eos, multiline) && history.State() == Remembered(s.past, r.value.0, eos)
      ensures r.Some? ==>
        (history.State().Valid() &&
         (history.State().AllClean() <==> !CutsCharacter(Run(old(Now()), keys, env))))
      ensures r.Some? && old(editor.Faithful()) && SlashesAreOneColumn() && RowKept(old(Now()), keys, env) ==> editor.Faithful()
    {
      hide Clean, Chunks, Sum, Decode, Encode, IsConsistent, Measured, Run, RunKeeps, RunIsDefined, RowKept, Finish, EndsMarked;
      var defined, endOfStream := ReadKeys(keys);
      if !defined {
        return None;
      }
      editor.Facts();
      r := FinishLine(endOfStream, multiline);
      if r.None? {
        return;
      }
      RememberedClean(history.State(), editor.line, marked, endOfStream, multiline);
      RememberedValid(history.State(), r.value.0, endOfStream);
      if !endOfStream && r.value.0 != [] {
        history.Add(WithoutNewline(r.value.0));
      }
    }
  }
}
