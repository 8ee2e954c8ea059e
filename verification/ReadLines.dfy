/** Line after line: the history outlives each of them. */
module ReadLines {
  import Seqs
  import opened Utf8
  import opened Wrappers
  import opened EditModel
  import opened History
  import opened ReadLine

  function Fresh(past: Past): Session {
    Session(Edit([], 0), false, past)
  }

  /** The history after one more line; none where the source is not defined. */
  function AfterLine(past: Past, keys: seq<Key>, env: Env): (r: Option<Past>)
    requires past.Valid()
    ensures r.Some? ==> r.value.Valid()
  {
    if !RunIsDefined(Fresh(past), keys, env) then None
    else
      DefinedEnds(Fresh(past), keys, env);
      var (s, eos) := Run(Fresh(past), keys, env);
      Some(Remembered(s.past, Finish(Join(s.edit.text), s.marked, eos, true).0, eos))
  }

  function AfterLines(past: Past, lines: seq<seq<Key>>, env: Env): (r: Option<Past>)
    requires past.Valid()
    ensures r.Some? ==> r.value.Valid()
    decreases |lines|
  {
    if lines == [] then Some(past)
    else
      var p := AfterLine(past, lines[0], env);
      if p.None? then None else AfterLines(p.value, lines[1..], env)
  }

  /** Every key of every line keeps bytes and widths in step. */
  predicate LinesKeep(past: Past, lines: seq<seq<Key>>, env: Env)
    requires past.Valid()
    decreases |lines|
  {
    lines == [] ||
    (RunKeeps(Fresh(past), lines[0], env) &&
     (AfterLine(past, lines[0], env).None? || LinesKeep(AfterLine(past, lines[0], env).value, lines[1..], env)))
  }

  /** No line ends by taking off a part of a long character. */
  predicate NoneCut(past: Past, lines: seq<seq<Key>>, env: Env)
    requires past.Valid()
    decreases |lines|
  {
    lines == [] ||
    (!CutsCharacter(Run(Fresh(past), lines[0], env)) &&
     (AfterLine(past, lines[0], env).None? || NoneCut(AfterLine(past, lines[0], env).value, lines[1..], env)))
  }

  /** The history and the line are free of stray bytes. */
  predicate CleanSession(s: Session) {
    s.Valid() && IsText(s.edit.text) && s.past.AllClean()
  }

  predicate HasStray(past: Past) {
    exists i :: 0 <= i < |past.entries| && !Clean(past.entries[i])
  }

  lemma StepKeepsClean(s: Session, key: Key, env: Env)
    requires CleanSession(s) && Keeps(s, key, env)
    ensures CleanSession(Step(s, key, env))
  {
    hide Clean, Chunks, Decode, Encode, IsGlyph, EndsMarked;
    ChunksJoin(s.edit.text);
    CleanPast(s.past, Join(s.edit.text));
    var cs := OfferedAt(s, key, env);
    if cs != [] {
      if Clean(cs[0].0) {
        ChunksAreGlyphs(cs[0].0);
      }
    } else {
      if key.Character? {
        EncodeIsGlyph(key.codePoint);
      }
      EditedKeepsClean(s.(marked := false), key, env);
    }
  }

  lemma EditedKeepsClean(s: Session, key: Key, env: Env)
    requires CleanSession(s) && Enterable(key)
    ensures CleanSession(Edited(s, key, env))
  {
    hide Clean, Chunks, Decode, Encode, IsGlyph;
    ChunksJoin(s.edit.text);
    CleanPast(s.past, Join(s.edit.text));
    if key.Character? {
      EncodeIsGlyph(key.codePoint);
    }
    var up, down := s.past.Up(Join(s.edit.text)).1, s.past.Down().1;
    if up.Some? {
      ChunksAreGlyphs(up.value);
    }
    if down.Some? {
      ChunksAreGlyphs(down.value);
    }
  }

  lemma {:induction false} RunKeepsClean(s: Session, keys: seq<Key>, env: Env)
    requires s.Valid() && CleanSession(s) && RunKeeps(s, keys, env) && RunIsDefined(s, keys, env)
    ensures CleanSession(Run(s, keys, env).0)
    decreases |keys|
  {
    hide Step, CleanSession, Keeps, IsDefined;
    if keys != [] && !EndsLine(keys[0]) {
      StepKeepsClean(s, keys[0], env);
      RunKeepsClean(Step(s, keys[0], env), keys[1..], env);
    }
  }

  /** Keys leave the entries of the history alone. */
  lemma {:induction false} RunKeepsEntries(s: Session, keys: seq<Key>, env: Env)
    requires s.Valid()
    ensures Run(s, keys, env).0.past.entries == s.past.entries
    decreases |keys|
  {
    hide Chunks, EndsMarked, Encode;
    if keys != [] && !EndsLine(keys[0]) {
      RunKeepsEntries(Step(s, keys[0], env), keys[1..], env);
    }
  }

  /** Entries are only ever added. */
  lemma {:induction false} StrayStaysForEver(past: Past, lines: seq<seq<Key>>, env: Env)
    requires past.Valid() && HasStray(past) && AfterLines(past, lines, env).Some?
    ensures HasStray(AfterLines(past, lines, env).value)
    decreases |lines|
  {
    hide Clean, Run, Finish, RunIsDefined;
    if lines != [] {
      RunKeepsEntries(Fresh(past), lines[0], env);
      var i :| 0 <= i < |past.entries| && !Clean(past.entries[i]);
      var p := AfterLine(past, lines[0], env).value;
      assert p.entries[i] == past.entries[i];
      StrayStaysForEver(p, lines[1..], env);
    }
  }

  lemma LineAfterClean(past: Past, keys: seq<Key>, env: Env)
    requires past.Valid() && past.AllClean() && RunKeeps(Fresh(past), keys, env) && AfterLine(past, keys, env).Some?
    ensures var p := AfterLine(past, keys, env).value;
      (p.AllClean() <==> !CutsCharacter(Run(Fresh(past), keys, env))) && (p.AllClean() || HasStray(p))
  {
    hide Clean, Chunks, Run, RunKeeps, RunIsDefined, Finish, Remembered;
    var (s, eos) := Run(Fresh(past), keys, env);
    RunKeepsClean(Fresh(past), keys, env);
    ChunksJoin(s.edit.text);
    DefinedEnds(Fresh(past), keys, env);
    RememberedClean(s.past, Join(s.edit.text), s.marked, eos, true);
    assert s.edit.text == [] ==> Join(s.edit.text) == [];
  }

  /** From a clean history, over any number of lines: the history is clean at the
      end exactly when no line ended by taking off a part of a long character. */
  lemma {:induction false} HistoryOverLines(past: Past, lines: seq<seq<Key>>, env: Env)
    requires past.Valid() && past.AllClean() && LinesKeep(past, lines, env) && AfterLines(past, lines, env).Some?
    ensures AfterLines(past, lines, env).value.AllClean() <==> NoneCut(past, lines, env)
    decreases |lines|
  {
    hide Clean, Run, RunKeeps, AfterLine, CutsCharacter;
    if lines != [] {
      LineAfterClean(past, lines[0], env);
      var p := AfterLine(past, lines[0], env).value;
      if p.AllClean() {
        HistoryOverLines(p, lines[1..], env);
      } else {
        StrayStaysForEver(p, lines[1..], env);
      }
    }
  }

  lemma {:induction false} KeysKeep(s: Session, keys: seq<Key>, env: Env)
    requires s.Valid() && env.complete.None? && forall k :: k in keys ==> Enterable(k)
    ensures RunKeeps(s, keys, env)
    decreases |keys|
  {
    hide Step, IsDefined;
    if keys != [] {
      assert keys[0] in keys;
      KeysKeep(Step(s, keys[0], env), keys[1..], env);
    }
  }

  /** Without completion all lines are defined, and the history stays clean. */
  lemma {:induction false} LinesWithoutCompletion(past: Past, lines: seq<seq<Key>>, env: Env)
    requires past.Valid() && past.AllClean() && env.complete.None?
    requires forall line, k :: line in lines && k in line ==> Enterable(k)
    ensures var r := AfterLines(past, lines, env); r.Some? && r.value.AllClean()
    decreases |lines|
  {
    hide Clean, Chunks, Run, RunKeeps, RunIsDefined, Finish, Remembered, CutsCharacter;
    if lines != [] {
      assert lines[0] in lines;
      var s := Fresh(past);
      KeysKeep(s, lines[0], env);
      SafeRun(s, lines[0], env);
      assert AfterLine(past, lines[0], env).Some?;
      FreshMark(past, lines[0], env);
      LineAfterClean(past, lines[0], env);
      LinesWithoutCompletion(AfterLine(past, lines[0], env).value, lines[1..], env);
    }
  }

  lemma FreshMark(past: Past, keys: seq<Key>, env: Env)
    requires past.Valid() && past.AllClean() && env.complete.None?
    requires RunKeeps(Fresh(past), keys, env) && RunIsDefined(Fresh(past), keys, env)
    ensures !CutsCharacter(Run(Fresh(past), keys, env))
  {
    hide Clean, Chunks, Run, RunKeeps, RunIsDefined, LastFresh;
    var s := Fresh(past);
    var end := Run(s, keys, env).0;
    MarkAfterRun(s, keys, env, []);
    FreshWithoutCompletion(s, keys, env);
    RunKeepsClean(s, keys, env);
    ChunksJoin(end.edit.text);
    if end.marked {
      MarkedEnd(Join(end.edit.text));
    }
  }
}
