/** UTF-8 as the line editor reads and writes it (section 3 of RFC 3629), and
    the division of a byte string into the chunks its decoder consumes. */
module Utf8 {
  import Seqs

  type byte = b: int | 0 <= b < 256
  type Bytes = seq<byte>

  const MAX_CODE_POINT := 0x10FFFF
  const REPLACEMENT := 0xFFFD

  /** (b & 0xC0) == 0x80 */
  predicate IsContinuation(b: byte) {
    0x80 <= b < 0xC0
  }

  /** b & (2^bits - 1), given 2^bits */
  function Low(b: byte, modulus: nat): nat
    requires modulus > 0
  {
    b as int % modulus
  }

  datatype Decoded = Decoded(codePoint: nat, advance: nat)

  function Decode(s: Bytes, pos: nat): (d: Decoded)
    requires pos < |s|
    ensures 1 <= d.advance <= 4 && pos + d.advance <= |s|
  {
    var c := s[pos];
    if c < 0x80 then
      Decoded(c, 1)
    else if 0xC0 <= c < 0xE0 && pos + 1 < |s| then
      if !IsContinuation(s[pos + 1]) then Decoded(REPLACEMENT, 1)
      else Decoded(Low(c, 0x20) * 0x40 + Low(s[pos + 1], 0x40), 2)
    else if 0xE0 <= c < 0xF0 && pos + 2 < |s| then
      if !IsContinuation(s[pos + 1]) || !IsContinuation(s[pos + 2]) then Decoded(REPLACEMENT, 1)
      else Decoded(Low(c, 0x10) * 0x1000 + Low(s[pos + 1], 0x40) * 0x40 + Low(s[pos + 2], 0x40), 3)
    else if 0xF0 <= c < 0xF8 && pos + 3 < |s| then
      if !IsContinuation(s[pos + 1]) || !IsContinuation(s[pos + 2]) || !IsContinuation(s[pos + 3]) then
        Decoded(REPLACEMENT, 1)
      else
        Decoded(Low(c, 0x08) * 0x40000 + Low(s[pos + 1], 0x40) * 0x1000 + Low(s[pos + 2], 0x40) * 0x40 + Low(s[pos + 3], 0x40), 4)
    else
      Decoded(REPLACEMENT, 1)
  }

  /** The bytes appended for one code point: none above U+10FFFF. */
  function Encode(cp: nat): (s: Bytes)
    ensures |s| == 0 <==> cp > MAX_CODE_POINT
  {
    if cp <= 0x7F then
      [cp]
    else if cp <= 0x7FF then
      [0xC0 + cp / 0x40 % 0x20, 0x80 + cp % 0x40]
    else if cp <= 0xFFFF then
      [0xE0 + cp / 0x1000 % 0x10, 0x80 + cp / 0x40 % 0x40, 0x80 + cp % 0x40]
    else if cp <= MAX_CODE_POINT then
      [0xF0 + cp / 0x40000 % 0x08, 0x80 + cp / 0x1000 % 0x40, 0x80 + cp / 0x40 % 0x40, 0x80 + cp % 0x40]
    else
      []
  }

  lemma Tail(x: nat)
    requires x < 0x40
    ensures IsContinuation(0x80 + x) && Low(0x80 + x, 0x40) == x
  {
  }

  lemma Digits(n: nat)
    ensures n == n / 0x40 * 0x40 + n % 0x40
    ensures n / 0x40 / 0x40 == n / 0x1000 && n / 0x1000 / 0x40 == n / 0x40000
  {
  }

  lemma TwoBytes(cp: nat)
    requires 0x7F < cp <= 0x7FF
    ensures var e := Encode(cp);
      0xC0 <= e[0] < 0xE0 && IsContinuation(e[1]) && Low(e[0], 0x20) * 0x40 + Low(e[1], 0x40) == cp
  {
    Tail(cp % 0x40);
  }

  lemma ThreeBytes(cp: nat)
    requires 0x7FF < cp <= 0xFFFF
    ensures var e := Encode(cp);
      0xE0 <= e[0] < 0xF0 && IsContinuation(e[1]) && IsContinuation(e[2]) &&
      Low(e[0], 0x10) * 0x1000 + Low(e[1], 0x40) * 0x40 + Low(e[2], 0x40) == cp
  {
    Tail(cp % 0x40);
    Tail(cp / 0x40 % 0x40);
    Digits(cp);
    Digits(cp / 0x40);
    var lead := cp / 0x1000;
    assert lead < 0x10 && Low(0xE0 + lead, 0x10) == lead;
  }

  lemma FourBytes(cp: nat)
    requires 0xFFFF < cp <= MAX_CODE_POINT
    ensures var e := Encode(cp);
      0xF0 <= e[0] < 0xF8 && IsContinuation(e[1]) && IsContinuation(e[2]) && IsContinuation(e[3]) &&
      Low(e[0], 0x08) * 0x40000 + Low(e[1], 0x40) * 0x1000 + Low(e[2], 0x40) * 0x40 + Low(e[3], 0x40) == cp
  {
    Tail(cp % 0x40);
    Tail(cp / 0x40 % 0x40);
    Tail(cp / 0x1000 % 0x40);
    Digits(cp);
    Digits(cp / 0x40);
    Digits(cp / 0x1000);
    var lead := cp / 0x40000;
    assert lead < 0x08 && Low(0xF0 + lead, 0x08) == lead;
  }

  lemma EncodeIsGlyph(cp: nat)
    requires cp <= MAX_CODE_POINT
    ensures IsChunk(Encode(cp)) && IsGlyph(Encode(cp)) && Decode(Encode(cp), 0) == Decoded(cp, |Encode(cp)|)
  {
    if 0x7F < cp <= 0x7FF {
      TwoBytes(cp);
    } else if 0x7FF < cp <= 0xFFFF {
      ThreeBytes(cp);
    } else if 0xFFFF < cp {
      FourBytes(cp);
    }
  }

  /** What the decoder consumes as a whole. */
  predicate IsChunk(c: Bytes) {
    |c| > 0 && Decode(c, 0).advance == |c|
  }

  /** What one step of the decoder consumes when it meets no stray
      continuation byte: an encoded code point, or a lone malformed lead byte. */
  predicate IsGlyph(g: Bytes) {
    IsChunk(g) && !IsContinuation(g[0])
  }

  /** Text without stray continuation bytes, glyph by glyph. */
  predicate IsText(gs: seq<Bytes>) {
    forall i :: 0 <= i < |gs| ==> IsGlyph(gs[i])
  }

  /** A glyph decodes the same in any line that does not continue it. */
  lemma DecodeInContext(before: Bytes, g: Bytes, after: Bytes)
    requires IsGlyph(g)
    requires after == [] || !IsContinuation(after[0])
    ensures Decode(before + g + after, |before|) == Decode(g, 0)
  {
    var s, p := before + g + after, |before|;
    assert forall i :: 0 <= i < |g| ==> s[p + i] == g[i];
    assert s[p] == g[0];
    if |g| == 1 {
      assert p + 1 < |s| ==> s[p + 1] == after[0];
    } else {
      assert s[p + 1] == g[1];
      if |g| >= 3 { assert s[p + 2] == g[2]; }
      if |g| == 4 { assert s[p + 3] == g[3]; }
    }
  }

  /** Decoding inverts encoding, whatever stands before and after. */
  lemma DecodeEncode(before: Bytes, cp: nat, after: Bytes)
    requires cp <= MAX_CODE_POINT
    ensures Decode(before + Encode(cp) + after, |before|) == Decoded(cp, |Encode(cp)|)
  {
    EncodeIsGlyph(cp);
    var s, p, e := before + Encode(cp) + after, |before|, Encode(cp);
    assert s[p] == e[0];
    if |e| >= 2 { assert s[p + 1] == e[1]; }
    if |e| >= 3 { assert s[p + 2] == e[2]; }
    if |e| == 4 { assert s[p + 3] == e[3]; }
  }

  function Join(gs: seq<Bytes>): Bytes {
    if gs == [] then [] else gs[0] + Join(gs[1..])
  }

  function Offset(gs: seq<Bytes>, k: nat): nat
    requires k <= |gs|
  {
    |Join(gs[..k])|
  }

  lemma {:induction false} JoinAppend(a: seq<Bytes>, b: seq<Bytes>)
    ensures Join(a + b) == Join(a) + Join(b)
  {
    if a == [] {
      Seqs.AppendNothing(b, a);
      Seqs.AppendNothing(Join(b), Join(a));
    } else {
      JoinAppend(a[1..], b);
      Seqs.FirstOfAppend(a, b);
      Seqs.Associative(a[0], Join(a[1..]), Join(b));
    }
  }

  lemma JoinAround(gs: seq<Bytes>, k: nat)
    requires k < |gs|
    ensures Join(gs) == Join(gs[..k]) + gs[k] + Join(gs[k + 1..])
    ensures Offset(gs, k + 1) == Offset(gs, k) + |gs[k]|
    ensures Offset(gs, k + 1) <= |Join(gs)|
  {
    JoinAppend(gs[..k], gs[k..]);
    Seqs.Split(gs, k);
    Seqs.DropCons(gs, k);
    Seqs.Associative(Join(gs[..k]), gs[k], Join(gs[k + 1..]));
    JoinAppend(gs[..k], [gs[k]]);
    Seqs.TakeSnoc(gs, k);
    Seqs.AppendNothing(gs[k], Join([]));
    Seqs.DropCons([gs[k]], 0);
  }

  lemma JoinStart(gs: seq<Bytes>)
    requires IsText(gs)
    ensures Join(gs) == [] <==> gs == []
    ensures gs != [] ==> Join(gs)[0] == gs[0][0]
  {
  }

  lemma DecodeAt(gs: seq<Bytes>, k: nat)
    requires IsText(gs) && k < |gs|
    ensures Offset(gs, k) < |Join(gs)|
    ensures Decode(Join(gs), Offset(gs, k)) == Decode(gs[k], 0)
  {
    JoinAround(gs, k);
    JoinStart(gs[k + 1..]);
    DecodeInContext(Join(gs[..k]), gs[k], Join(gs[k + 1..]));
  }

  predicate NoneEmpty(gs: seq<Bytes>) {
    forall i :: 0 <= i < |gs| ==> gs[i] != []
  }

  lemma {:induction false} OffsetIncreases(gs: seq<Bytes>, j: nat, k: nat)
    requires NoneEmpty(gs) && j <= k <= |gs|
    ensures Offset(gs, j) <= Offset(gs, k) <= |Join(gs)|
    ensures j < k ==> Offset(gs, j) < Offset(gs, k)
    ensures j <= Offset(gs, j)
    ensures Offset(gs, |gs|) == |Join(gs)|
    decreases k
  {
    Seqs.WholeTake(gs, |gs|);
    JoinAppend(gs[..k], gs[k..]);
    Seqs.Split(gs, k);
    if k > 0 {
      JoinAround(gs, k - 1);
      OffsetIncreases(gs, if j < k then j else k - 1, k - 1);
    }
  }

  /** The chunks that repeated decoding divides a line into. */
  function Chunks(line: Bytes): (cs: seq<Bytes>)
    ensures |cs| == 0 <==> |line| == 0
    ensures NoneEmpty(cs)
    decreases |line|
  {
    if line == [] then []
    else
      var n := Decode(line, 0).advance;
      [line[..n]] + Chunks(line[n..])
  }

  lemma DecodeShift(line: Bytes, pos: nat)
    requires pos < |line|
    ensures Decode(line[pos..], 0) == Decode(line, pos)
  {
  }

  /** Decoding from a chunk border consumes the next chunk and ends on a border. */
  lemma ChunkAt(line: Bytes, k: nat)
    requires k < |Chunks(line)|
    ensures var cs := Chunks(line); var o := Offset(cs, k);
      Offset(cs, k + 1) == o + |cs[k]| && o + |cs[k]| <= |line| && line[o..o + |cs[k]|] == cs[k] && |cs[k]| > 0 &&
      Decode(line, o).advance == |cs[k]| && Decode(cs[k], 0) == Decode(line, o)
  {
    var cs := Chunks(line);
    JoinChunks(line);
    JoinAround(cs, k);
    SuffixChunks(line, k);
    DecodeShift(line, Offset(cs, k));
    DecodePrefix(line[Offset(cs, k)..]);
  }

  lemma DecodePrefix(s: Bytes)
    requires s != []
    ensures Decode(s[..Decode(s, 0).advance], 0) == Decode(s, 0)
  {
  }

  lemma {:induction false} SuffixChunks(line: Bytes, k: nat)
    requires k <= |Chunks(line)|
    ensures Offset(Chunks(line), k) <= |line|
    ensures Chunks(line)[k..] == Chunks(line[Offset(Chunks(line), k)..])
    decreases k
  {
    hide Decode, Join;
    if k > 0 {
      var n := Decode(line, 0).advance;
      var rest := Chunks(line[n..]);
      SuffixChunks(line[n..], k - 1);
      OffsetCons(line[..n], rest, k);
      DropTwice(line, n, Offset(rest, k - 1));
    } else {
      OffsetZero(Chunks(line));
      assert line[0..] == line;
    }
  }

  lemma OffsetZero(gs: seq<Bytes>)
    ensures Offset(gs, 0) == 0
  {
  }

  lemma OffsetCons(g: Bytes, gs: seq<Bytes>, k: nat)
    requires 0 < k <= |gs| + 1
    ensures Offset([g] + gs, k) == |g| + Offset(gs, k - 1) && ([g] + gs)[k..] == gs[k - 1..]
  {
    assert ([g] + gs)[..k] == [g] + gs[..k - 1];
    Seqs.Border([g], gs[..k - 1]);
  }

  lemma DropTwice(line: Bytes, n: nat, m: nat)
    requires n + m <= |line|
    ensures line[n..][m..] == line[n + m..]
  {
  }

  /** No chunk begins with a continuation byte. */
  predicate Clean(line: Bytes) {
    forall i :: 0 <= i < |Chunks(line)| ==> !IsContinuation(Chunks(line)[i][0])
  }

  lemma {:induction false} ChunksAreGlyphs(line: Bytes)
    requires Clean(line)
    ensures IsText(Chunks(line))
    decreases |line|
  {
    if line != [] {
      var n := Decode(line, 0).advance;
      var c, rest := line[..n], line[n..];
      assert Chunks(line) == [c] + Chunks(rest);
      assert Chunks(line)[0] == c;
      forall i | 0 <= i < |Chunks(rest)| ensures !IsContinuation(Chunks(rest)[i][0]) {
        assert Chunks(line)[i + 1] == Chunks(rest)[i];
      }
      ChunksAreGlyphs(rest);
    }
  }

  lemma {:induction false} JoinChunks(line: Bytes)
    ensures Join(Chunks(line)) == line
    decreases |line|
  {
    if line != [] {
      var n := Decode(line, 0).advance;
      var cs, first, rest := Chunks(line), line[..n], Chunks(line[n..]);
      JoinChunks(line[n..]);
      assert cs == [first] + rest;
      assert cs[1..] == rest;
      assert Join(cs) == first + line[n..];
    }
  }

  /** Text followed by bytes that do not continue it divides into its glyphs first. */
  lemma {:induction false} ChunksAfterText(gs: seq<Bytes>, rest: Bytes)
    requires IsText(gs) && (rest == [] || !IsContinuation(rest[0]))
    ensures Chunks(Join(gs) + rest) == gs + Chunks(rest)
    decreases |gs|
  {
    hide Decode;
    if gs == [] {
      Seqs.AppendNothing(rest, Join(gs));
      Seqs.AppendNothing(Chunks(rest), gs);
    } else {
      ChunksAfterText(gs[1..], rest);
      var after := Join(gs[1..]) + rest;
      JoinStart(gs[1..]);
      Seqs.Associative(gs[0], Join(gs[1..]), rest);
      Seqs.AppendNothing(gs[0], []);
      if gs[1..] == [] { Seqs.AppendNothing(rest, Join(gs[1..])); }
      DecodeInContext([], gs[0], after);
      Seqs.Border(gs[0], after);
      assert Chunks(gs[0] + after) == [gs[0]] + Chunks(after);
      Seqs.Associative([gs[0]], gs[1..], Chunks(rest));
      Seqs.DropCons(gs, 0);
    }
  }

  lemma ChunksJoin(gs: seq<Bytes>)
    requires IsText(gs)
    ensures Clean(Join(gs)) && Chunks(Join(gs)) == gs
  {
    ChunksAfterText(gs, []);
    Seqs.AppendNothing(Join(gs), []);
    Seqs.AppendNothing(gs, Chunks([]));
  }

  /** Taking the last byte off a clean line leaves it clean exactly when the
      last glyph has at most two bytes: of a longer one a stray byte is left. */
  lemma DropLastByte(line: Bytes)
    requires Clean(line) && line != []
    ensures Clean(line[..|line| - 1]) <==> |Chunks(line)[|Chunks(line)| - 1]| <= 2
  {
    var gs := Chunks(line);
    var n := |gs| - 1;
    var g := gs[n];
    ChunksAreGlyphs(line);
    JoinChunks(line);
    JoinAround(gs, n);
    var rest := g[..|g| - 1];
    LastTaken(Join(gs[..n]), g, Join(gs[n + 1..]), line);
    ChunksAfterText(gs[..n], rest);
    PartOfGlyph(g);
    var cs := gs[..n] + Chunks(rest);
    if |g| > 2 {
      assert IsContinuation(cs[n + 1][0]);
    } else {
      assert forall i :: n <= i < |cs| ==> !IsContinuation(cs[i][0]);
    }
  }

  lemma LastTaken(a: Bytes, g: Bytes, b: Bytes, line: Bytes)
    requires line == a + g + b && g != [] && b == []
    ensures line[..|line| - 1] == a + g[..|g| - 1]
  {
  }

  lemma PartOfGlyph(g: Bytes)
    requires IsGlyph(g)
    ensures var cs := Chunks(g[..|g| - 1]);
      |cs| == |g| - 1 && (|g| > 1 ==> !IsContinuation(cs[0][0])) && (|g| > 2 ==> IsContinuation(cs[1][0]))
  {
    GlyphBytes(g);
    var rest := g[..|g| - 1];
    if |g| > 1 {
      assert rest[0] == g[0] && Decode(g, 0).advance == |g|;
      assert Decode(rest, 0).advance == 1;
      assert Chunks(rest) == [rest[..1]] + Chunks(rest[1..]);
    }
    if |g| > 2 {
      assert Chunks(rest[1..]) == [rest[1..][..1]] + Chunks(rest[1..][1..]);
    }
    if |g| > 3 {
      var last := rest[1..][1..];
      assert Chunks(last) == [last[..1]] + Chunks(last[1..]);
    }
  }

  /** The last start of a character before pos: continuation bytes are skipped. */
  predicate IsPrevStart(line: Bytes, pos: nat, q: nat)
    requires pos <= |line|
  {
    if pos == 0 then q == 0
    else
      q < pos && (q == 0 || !IsContinuation(line[q])) &&
      forall i :: q < i < pos ==> IsContinuation(line[i])
  }

  predicate IsNextStart(line: Bytes, pos: nat, q: nat) {
    if pos >= |line| then q == |line|
    else
      pos < q <= |line| && (q == |line| || !IsContinuation(line[q])) &&
      forall i :: pos < i < q ==> IsContinuation(line[i])
  }

  method PrevCharPos(line: Bytes, pos: nat) returns (q: nat)
    requires pos <= |line|
    ensures IsPrevStart(line, pos, q)
  {
    if pos == 0 {
      return 0;
    }
    q := pos - 1;
    while q > 0 && IsContinuation(line[q])
      invariant q < pos
      invariant forall i :: q < i < pos ==> IsContinuation(line[i])
    {
      q := q - 1;
    }
  }

  method NextCharPos(line: Bytes, pos: nat) returns (q: nat)
    ensures IsNextStart(line, pos, q)
  {
    if pos >= |line| {
      return |line|;
    }
    q := pos + 1;
    while q < |line| && IsContinuation(line[q])
      invariant pos < q <= |line|
      invariant forall i :: pos < i < q ==> IsContinuation(line[i])
    {
      q := q + 1;
    }
  }

  lemma GlyphBytes(g: Bytes)
    requires IsGlyph(g)
    ensures !IsContinuation(g[0]) && forall i :: 0 < i < |g| ==> IsContinuation(g[i])
  {
  }

  /** Around a glyph of a text: it begins, and what follows it begins, with a byte
      that continues nothing, and only continuations lie between. */
  lemma AroundGlyph(gs: seq<Bytes>, k: nat)
    requires IsText(gs) && k < |gs|
    ensures var line, p, r := Join(gs), Offset(gs, k), Offset(gs, k + 1);
      p < r <= |line| && !IsContinuation(line[p]) && (forall i :: p < i < r ==> IsContinuation(line[i])) &&
      (r < |line| ==> !IsContinuation(line[r]))
  {
    hide IsContinuation;
    var line, p := Join(gs), Offset(gs, k);
    JoinAround(gs, k);
    GlyphBytes(gs[k]);
    assert forall i :: 0 <= i < |gs[k]| ==> line[p + i] == gs[k][i];
    JoinStart(gs[k + 1..]);
    var r := p + |gs[k]|;
    assert r < |line| ==> line[r] == Join(gs[k + 1..])[0];
    forall i | p < i < r ensures IsContinuation(line[i]) {
      assert line[p + (i - p)] == gs[k][i - p];
    }
    assert line[p + 0] == gs[k][0];
  }

  /** Stepping over bytes is stepping over glyphs, in both directions. */
  lemma StepGlyph(gs: seq<Bytes>, k: nat, q: nat)
    requires IsText(gs) && k < |gs|
    ensures Offset(gs, k + 1) <= |Join(gs)|
    ensures IsNextStart(Join(gs), Offset(gs, k), q) ==> q == Offset(gs, k + 1)
    ensures IsPrevStart(Join(gs), Offset(gs, k + 1), q) ==> q == Offset(gs, k)
  {
    hide IsContinuation, Join, Offset, IsText;
    AroundGlyph(gs, k);
  }

  /** The two ways the editor walks a line, by decoding and by skipping
      continuation bytes, agree at every chunk border exactly when no chunk
      after the first begins with a continuation byte. */
  lemma WalksAgree(line: Bytes, k: nat)
    requires k < |Chunks(line)|
    ensures var b, e := ChunkStart(line, k), ChunkStart(line, k + 1);
      IsNextStart(line, b, e) <==> (k + 1 < |Chunks(line)| ==> !IsContinuation(Chunks(line)[k + 1][0]))
  {
    ChunkBorders(line, k);
    if k + 1 < |Chunks(line)| { ChunkBorders(line, k + 1); }
  }

  function ChunkStart(line: Bytes, k: nat): nat
    requires k <= |Chunks(line)|
  {
    Offset(Chunks(line), k)
  }

  lemma {:induction false} ChunkBytes(line: Bytes, k: nat)
    requires k < |Chunks(line)|
    ensures forall i :: 0 < i < |Chunks(line)[k]| ==> IsContinuation(Chunks(line)[k][i])
    decreases k
  {
    var n := Decode(line, 0).advance;
    assert Chunks(line) == [line[..n]] + Chunks(line[n..]);
    if k > 0 {
      ChunkBytes(line[n..], k - 1);
    }
  }

  lemma ChunkBorders(line: Bytes, k: nat)
    requires k < |Chunks(line)|
    ensures var b, e := ChunkStart(line, k), ChunkStart(line, k + 1);
      b < e <= |line| && line[b..e] == Chunks(line)[k] && (e == |line| <==> k + 1 == |Chunks(line)|)
    ensures var b, e := ChunkStart(line, k), ChunkStart(line, k + 1);
      forall i :: b < i < e ==> IsContinuation(line[i])
  {
    hide Chunks, Decode, Join, IsContinuation;
    var cs, b, e := Chunks(line), ChunkStart(line, k), ChunkStart(line, k + 1);
    JoinChunks(line);
    JoinAround(cs, k);
    ChunkBytes(line, k);
    SliceAround(Join(cs[..k]), cs[k], Join(cs[k + 1..]));
    forall i | b < i < e ensures IsContinuation(line[i]) {
      assert line[i] == cs[k][i - b];
    }
    OffsetIncreases(cs, k + 1, |cs|);
  }

  lemma SliceAround(a: Bytes, g: Bytes, b: Bytes)
    ensures (a + g + b)[|a|..|a| + |g|] == g && forall i :: 0 <= i < |g| ==> (a + g + b)[|a| + i] == g[i]
  {
  }

  /** Glyphs that are encodings of code points, not lone malformed lead bytes. */
  predicate IsEncoded(g: Bytes) {
    IsGlyph(g) && Decode(g, 0).codePoint <= MAX_CODE_POINT && g == Encode(Decode(g, 0).codePoint)
  }

  predicate IsEncodedText(gs: seq<Bytes>) {
    forall i :: 0 <= i < |gs| ==> IsEncoded(gs[i])
  }

  function CodePoints(gs: seq<Bytes>): (cps: seq<nat>)
    requires IsEncodedText(gs)
    ensures |cps| == |gs|
  {
    seq(|gs|, i requires 0 <= i < |gs| => Decode(gs[i], 0).codePoint)
  }

  function EncodeAll(cps: seq<nat>): Bytes {
    if cps == [] then [] else Encode(cps[0]) + EncodeAll(cps[1..])
  }

  /** Encoded text is the UTF-8 of its code points. */
  lemma {:induction false} JoinIsUtf8(gs: seq<Bytes>)
    requires IsEncodedText(gs)
    ensures Join(gs) == EncodeAll(CodePoints(gs))
  {
    if gs != [] {
      JoinIsUtf8(gs[1..]);
      assert CodePoints(gs)[1..] == CodePoints(gs[1..]);
    }
  }

  // The table of RFC 3629, section 3

  /** How many bytes a first byte announces: none if it cannot be one. */
  function Announced(b: byte): nat {
    if b < 0x80 then 1 else if 0xC0 <= b <= 0xDF then 2 else if 0xE0 <= b <= 0xEF then 3 else if 0xF0 <= b <= 0xF7 then 4 else 0
  }

  /** Six bits from each byte that continues. */
  function WithTail(v: int, tail: Bytes): int
    decreases |tail|
  {
    if tail == [] then v else WithTail(v * 64 + tail[0] - 0x80, tail[1..])
  }

  predicate AreTail(tail: Bytes) {
    forall i :: 0 <= i < |tail| ==> 0x80 <= tail[i] <= 0xBF
  }

  function LeadValue(b: byte): int {
    var v: int := b;
    match Announced(b)
    case 2 => v - 0xC0
    case 3 => v - 0xE0
    case 4 => v - 0xF0
    case _ => v
  }

  lemma {:induction false} TailValue(v: int, tail: Bytes)
    ensures |tail| == 0 ==> WithTail(v, tail) == v
    ensures |tail| == 1 ==> WithTail(v, tail) == v * 0x40 + tail[0] - 0x80
    ensures |tail| == 2 ==> WithTail(v, tail) == v * 0x1000 + tail[0] as int * 0x40 + tail[1] - 0x80 * 0x41
    ensures |tail| == 3 ==> WithTail(v, tail) == v * 0x40000 + tail[0] as int * 0x1000 + tail[1] as int * 0x40 + tail[2] - 0x80 * 0x1041
    decreases |tail|
  {
    if 1 <= |tail| <= 3 {
      TailValue(v * 64 + tail[0] - 0x80, tail[1..]);
    }
  }

  lemma TailLow(b: byte)
    ensures 0x80 <= b <= 0xBF <==> IsContinuation(b)
    ensures IsContinuation(b) ==> Low(b, 0x40) == b as int - 0x80
  {
  }

  lemma LeadLow(b: byte)
    ensures Announced(b) == 2 ==> Low(b, 0x20) == LeadValue(b)
    ensures Announced(b) == 3 ==> Low(b, 0x10) == LeadValue(b)
    ensures Announced(b) == 4 ==> Low(b, 0x08) == LeadValue(b)
  {
  }

  /** Whatever the bytes: a sequence that is all there is taken as a whole, with the
      bits of its bytes; otherwise one byte is taken and replaced. */
  lemma DecodedByTable(s: Bytes, pos: nat)
    requires pos < |s|
    ensures var n, d := Announced(s[pos]), Decode(s, pos);
      if 0 < n <= |s| - pos && AreTail(s[pos + 1..pos + n]) then
        d.advance == n && d.codePoint == WithTail(LeadValue(s[pos]), s[pos + 1..pos + n])
      else d == Decoded(0xFFFD, 1)
  {
    hide Low, IsContinuation, LeadValue;
    var n := Announced(s[pos]);
    LeadLow(s[pos]);
    if 0 < n <= |s| - pos {
      var tail := s[pos + 1..pos + n];
      assert forall k :: 0 <= k < |tail| ==> tail[k] == s[pos + 1 + k];
      TailValue(LeadValue(s[pos]), tail);
      forall k | 0 <= k < |tail| ensures (0x80 <= tail[k] <= 0xBF <==> IsContinuation(tail[k])) && (IsContinuation(tail[k]) ==> Low(tail[k], 0x40) == tail[k] as int - 0x80) {
        TailLow(tail[k]);
      }
      assert n == 1 ==> LeadValue(s[pos]) == s[pos] by { SingleLead(s[pos]); }
    }
  }

  lemma SingleLead(b: byte)
    ensures Announced(b) == 1 ==> LeadValue(b) == b
  {
  }

  /** Every code point is written in as few bytes as it needs, and they hold its bits. */
  lemma EncodedByTable(cp: nat)
    ensures var s := Encode(cp);
      |s| == (if cp < 0x80 then 1 else if cp < 0x800 then 2 else if cp < 0x10000 then 3 else if cp <= 0x10FFFF then 4 else 0) &&
      (s != [] ==> Announced(s[0]) == |s| && AreTail(s[1..]) && WithTail(LeadValue(s[0]), s[1..]) == cp)
  {
    hide Decode, WithTail, AreTail;
    EncodedLength(cp);
    if cp <= MAX_CODE_POINT {
      EncodeIsGlyph(cp);
      DecodedByTable(Encode(cp), 0);
      assert Encode(cp)[1..|Encode(cp)|] == Encode(cp)[1..];
    }
  }

  lemma EncodedLength(cp: nat)
    ensures var s := Encode(cp);
      |s| == (if cp < 0x80 then 1 else if cp < 0x800 then 2 else if cp < 0x10000 then 3 else if cp <= 0x10FFFF then 4 else 0) &&
      (s != [] ==> Announced(s[0]) == |s|)
    ensures Encode(cp) != [] ==> AreTail(Encode(cp)[1..])
  {
  }
}
