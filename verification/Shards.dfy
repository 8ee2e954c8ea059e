/** Names of models that come in numbered parts. */
module Shards {
  import Seqs
  import opened Wrappers

  const SUFFIX := ".gguf"

  datatype SplitInfo = SplitInfo(prefix: string, tag: string, index: nat, count: nat)

  predicate IsDigit(c: char) {
    '0' <= c <= '9'
  }

  function DigitOf(c: char): int {
    c as int - '0' as int
  }

  /** Five decimal digits, read and written. */
  predicate IsNumber(s: string) {
    |s| == 5 && IsDigit(s[0]) && IsDigit(s[1]) && IsDigit(s[2]) && IsDigit(s[3]) && IsDigit(s[4])
  }

  function Number(s: string): (n: nat)
    requires IsNumber(s)
    ensures n < 100000
  {
    10000 * DigitOf(s[0]) + 1000 * DigitOf(s[1]) + 100 * DigitOf(s[2]) + 10 * DigitOf(s[3]) + DigitOf(s[4])
  }

  function Digit(n: int): (c: char)
    requires 0 <= n < 10
    ensures IsDigit(c) && DigitOf(c) == n
  {
    ('0' as int + n) as char
  }

  function Five(n: nat): (s: string)
    requires n < 100000
    ensures IsNumber(s)
  {
    [Digit(n / 10000), Digit(n / 1000 % 10), Digit(n / 100 % 10), Digit(n / 10 % 10), Digit(n % 10)]
  }

  lemma FiveIsRead(n: nat)
    requires n < 100000
    ensures Number(Five(n)) == n
  {
    assert n / 10 == 10 * (n / 100) + n / 10 % 10;
    assert n / 100 == 10 * (n / 1000) + n / 100 % 10;
    assert n / 1000 == 10 * (n / 10000) + n / 1000 % 10;
  }

  lemma NumberIsWritten(s: string)
    requires IsNumber(s)
    ensures Five(Number(s)) == s
  {
    hide Five;
    var n := Number(s);
    var (a, b, c, d, e) := (DigitOf(s[0]), DigitOf(s[1]), DigitOf(s[2]), DigitOf(s[3]), DigitOf(s[4]));
    assert n / 10 == 1000 * a + 100 * b + 10 * c + d && n % 10 == e;
    assert n / 100 == 100 * a + 10 * b + c;
    assert n / 1000 == 10 * a + b;
    assert n / 10000 == a;
    assert Five(n) == [s[0], s[1], s[2], s[3], s[4]] by { FiveOf(n, s[0], s[1], s[2], s[3], s[4]); }
  }

  lemma FiveOf(n: nat, a: char, b: char, c: char, d: char, e: char)
    requires n < 100000 && IsDigit(a) && IsDigit(b) && IsDigit(c) && IsDigit(d) && IsDigit(e)
    requires n / 10000 == DigitOf(a) && n / 1000 % 10 == DigitOf(b) && n / 100 % 10 == DigitOf(c) && n / 10 % 10 == DigitOf(d)
    requires n % 10 == DigitOf(e)
    ensures Five(n) == [a, b, c, d, e]
  {
  }

  predicate IsTail(t: string) {
    |t| == 15 && t[0] == '-' && IsNumber(t[1..6]) && t[6] == '-' && (t[7] == 'o' || t[7] == 'O') && (t[8] == 'f' || t[8] == 'F') &&
    t[9] == '-' && IsNumber(t[10..])
  }

  /** A line break cannot be part of a numbered name. */
  predicate IsPrefix(p: string) {
    p != "" && '\n' !in p && '\r' !in p
  }

  predicate IsWordChar(c: char) {
    'A' <= c <= 'Z' || 'a' <= c <= 'z' || IsDigit(c) || c == '_'
  }

  /** How many characters at the end belong to a word. */
  function WordLength(p: string): (n: nat)
    ensures n <= |p|
  {
    if p != "" && IsWordChar(p[|p| - 1]) then 1 + WordLength(p[..|p| - 1]) else 0
  }

  function Upper(s: string): string {
    if s == "" then "" else [if 'a' <= s[0] <= 'z' then (s[0] as int - 32) as char else s[0]] + Upper(s[1..])
  }

  /** The word after the last dash or dot. */
  function TagOf(p: string): string {
    var n := WordLength(p);
    if 0 < n < |p| && (p[|p| - n - 1] == '-' || p[|p| - n - 1] == '.') then Upper(p[|p| - n..]) else ""
  }

  predicate IsNamed(path: string) {
    |path| >= |SUFFIX| && path[|path| - |SUFFIX|..] == SUFFIX
  }

  /** What is left when the suffix and a part number are taken off. */
  function Info(path: string): SplitInfo {
    if !IsNamed(path) then SplitInfo("", "", 0, 0)
    else
      var p := path[..|path| - |SUFFIX|];
      if |p| > 15 && IsTail(p[|p| - 15..]) && IsPrefix(p[..|p| - 15]) then
        var q, t := p[..|p| - 15], p[|p| - 15..];
        SplitInfo(q, TagOf(q), Number(t[1..6]), Number(t[10..]))
      else SplitInfo(p, TagOf(p), 1, 1)
  }

  function Part(prefix: string, i: nat, count: nat): string
    requires i < 100000 && count < 100000
  {
    prefix + ("-" + Five(i) + "-of-" + Five(count) + SUFFIX)
  }

  function PartsFrom(prefix: string, i: nat, count: nat): (parts: seq<string>)
    requires i <= count + 1 && count < 100000
    ensures |parts| == count + 1 - i
    decreases count + 1 - i
  {
    if i > count then [] else [Part(prefix, i, count)] + PartsFrom(prefix, i + 1, count)
  }

  lemma {:induction false} PartsInOrder(prefix: string, i: nat, count: nat, k: nat)
    requires i <= count + 1 && count < 100000 && k < count + 1 - i
    ensures PartsFrom(prefix, i, count)[k] == Part(prefix, i + k, count)
    decreases k
  {
    hide Part;
    if k > 0 {
      PartsInOrder(prefix, i + 1, count, k - 1);
    }
  }

  lemma InfoBounds(url: string)
    ensures Info(url).index < 100000 && Info(url).count < 100000
    ensures Info(url).count != 1 && Info(url).count != 0 ==> IsPrefix(Info(url).prefix)
    ensures Info(url).count > 0 ==> Info(url).tag == TagOf(Info(url).prefix)
  {
    hide IsTail, IsPrefix, TagOf;
  }

  function AllParts(url: string): seq<string> {
    InfoBounds(url);
    if Info(url).count <= 1 then [url] else PartsFrom(Info(url).prefix, 1, Info(url).count)
  }

  method GetAllParts(url: string) returns (parts: seq<string>)
    ensures parts == AllParts(url)
  {
    hide Info, Five, Part;
    InfoBounds(url);
    var split := Info(url);
    if split.count <= 1 {
      return [url];
    }
    parts := [];
    var i := 1;
    while i <= split.count
      invariant 1 <= i <= split.count + 1 && PartsFrom(split.prefix, 1, split.count) == parts + PartsFrom(split.prefix, i, split.count)
    {
      Seqs.Associative(parts, [Part(split.prefix, i, split.count)], PartsFrom(split.prefix, i + 1, split.count));
      parts := parts + [Part(split.prefix, i, split.count)];
      i := i + 1;
    }
    Seqs.AppendNothing(parts, []);
  }

  lemma TailIsRead(i: nat, count: nat)
    requires i < 100000 && count < 100000
    ensures var t := "-" + Five(i) + "-of-" + Five(count); IsTail(t) && Number(t[1..6]) == i && Number(t[10..]) == count
  {
    hide Five, IsNumber, Number;
    var t := "-" + Five(i) + "-of-" + Five(count);
    assert |Five(i)| == 5 && |Five(count)| == 5 by { FiveDigits(i); FiveDigits(count); }
    assert t[1..6] == Five(i) && t[10..] == Five(count);
    FiveIsRead(i);
    FiveIsRead(count);
  }

  lemma FiveDigits(n: nat)
    requires n < 100000
    ensures |Five(n)| == 5
  {
  }

  /** A part is read as the part it is. */
  lemma PartIsRead(prefix: string, i: nat, count: nat)
    requires IsPrefix(prefix) && i < 100000 && count < 100000
    ensures Info(Part(prefix, i, count)) == SplitInfo(prefix, TagOf(prefix), i, count)
  {
    hide Five, IsTail, TagOf, Number, IsPrefix;
    var t := "-" + Five(i) + "-of-" + Five(count);
    var path := Part(prefix, i, count);
    TailIsRead(i, count);
    FiveDigits(i);
    FiveDigits(count);
    assert path == prefix + t + SUFFIX;
    Seqs.Border(prefix + t, SUFFIX);
    Seqs.Border(prefix, t);
    assert path[..|path| - |SUFFIX|] == prefix + t;
    assert prefix != "" by { NotEmpty(prefix); }
  }

  lemma NotEmpty(p: string)
    requires IsPrefix(p)
    ensures p != ""
  {
  }

  /** Every part of a model names the same parts. */
  lemma PartsAgree(url: string, k: nat)
    requires k < |AllParts(url)|
    ensures AllParts(AllParts(url)[k]) == AllParts(url)
    ensures Info(url).count > 1 ==> Info(AllParts(url)[k]) == Info(url).(index := k + 1)
  {
    hide IsPrefix, Part, Info, TagOf, PartsFrom;
    InfoBounds(url);
    var s := Info(url);
    if s.count > 1 {
      PartsInOrder(s.prefix, 1, s.count, k);
      PartIsRead(s.prefix, 1 + k, s.count);
      InfoBounds(Part(s.prefix, 1 + k, s.count));
    }
  }

  /** The spelling that parts are generated with. */
  predicate IsPlainlyNumbered(url: string) {
    |url| >= 20 && url[|url| - 13] == 'o' && url[|url| - 12] == 'f'
  }

  /** A url is among its own parts exactly when it has no part number worth the
      name, or the number is within the count and spelled in small letters. */
  lemma UrlIsAmongItsParts(url: string)
    ensures url in AllParts(url) <==>
      Info(url).count <= 1 || (1 <= Info(url).index <= Info(url).count && IsPlainlyNumbered(url))
  {
    hide Part, Info, IsPlainlyNumbered, PartsFrom, IsPrefix, TagOf;
    InfoBounds(url);
    var s := Info(url);
    if s.count > 1 {
      if url in AllParts(url) {
        var k :| 0 <= k < |AllParts(url)| && AllParts(url)[k] == url;
        PartsInOrder(s.prefix, 1, s.count, k);
        PartIsRead(s.prefix, 1 + k, s.count);
        PartSpelling(s.prefix, 1 + k, s.count);
      }
      if 1 <= s.index <= s.count && IsPlainlyNumbered(url) {
        SameSpelling(url);
        PartsInOrder(s.prefix, 1, s.count, s.index - 1);
        assert AllParts(url)[s.index - 1] == url;
      }
    }
  }

  lemma PartSpelling(prefix: string, i: nat, count: nat)
    requires i < 100000 && count < 100000
    ensures IsPlainlyNumbered(Part(prefix, i, count))
  {
    FiveDigits(i);
    FiveDigits(count);
    var tail := "-" + Five(i) + "-of-" + Five(count) + SUFFIX;
    assert |tail| == 20 && tail[7] == 'o' && tail[8] == 'f';
  }

  /** A plainly numbered url is written the way its parts are. */
  lemma SameSpelling(url: string)
    requires Info(url).count > 1 && IsPlainlyNumbered(url)
    ensures Info(url).index < 100000 && Info(url).count < 100000 && Part(Info(url).prefix, Info(url).index, Info(url).count) == url
  {
    hide Five, Number, TagOf, IsNumber, IsPrefix;
    InfoBounds(url);
    var p := url[..|url| - |SUFFIX|];
    var t := p[|p| - 15..];
    NumberIsWritten(t[1..6]);
    NumberIsWritten(t[10..]);
    assert t[7] == url[|url| - 13] && t[8] == url[|url| - 12];
    assert t == "-" + t[1..6] + "-of-" + t[10..];
    Seqs.Split(p, |p| - 15);
    Seqs.Split(url, |url| - |SUFFIX|);
    Seqs.Associative(p[..|p| - 15], t, SUFFIX);
  }

  // Names as they are written

  const DECIMALS := "0123456789"
  const SMALL := "abcdefghijklmnopqrstuvwxyz"
  const CAPITAL := "ABCDEFGHIJKLMNOPQRSTUVWXYZ"

  predicate AreDecimals(s: string) {
    |s| == 5 && forall i :: 0 <= i < 5 ==> s[i] in DECIMALS
  }

  /** The number that decimal digits stand for. */
  function Decimal(s: string): int {
    if s == "" then 0 else 10 * Decimal(s[..|s| - 1]) + (s[|s| - 1] as int - '0' as int)
  }

  lemma DecimalsMean(s: string)
    ensures IsNumber(s) <==> AreDecimals(s)
    ensures IsNumber(s) ==> Number(s) == Decimal(s)
  {
    if |s| == 5 {
      forall i | 0 <= i < 5 ensures IsDigit(s[i]) <==> s[i] in DECIMALS {
        DigitIsDecimal(s[i]);
      }
      var t := s[..4];
      assert t == [s[0], s[1], s[2], s[3]] && s[..1] == [s[0]];
      FirstDecimals(s);
    }
  }

  lemma DigitIsDecimal(c: char)
    ensures IsDigit(c) <==> c in DECIMALS
  {
    if IsDigit(c) {
      assert DECIMALS[c as int - '0' as int] == c;
    }
  }

  lemma FirstDecimals(s: string)
    requires |s| == 5
    ensures Decimal(s) == 10000 * (s[0] as int - 48) + 1000 * (s[1] as int - 48) + 100 * (s[2] as int - 48) + 10 * (s[3] as int - 48) + s[4] as int - 48
  {
    assert s[..4][..3] == s[..3] && s[..3][..2] == s[..2] && s[..2][..1] == s[..1] && s[..1][..0] == "";
    assert Decimal(s[..1]) == s[0] as int - 48;
    assert Decimal(s[..2]) == 10 * Decimal(s[..1]) + s[1] as int - 48;
    assert Decimal(s[..3]) == 10 * Decimal(s[..2]) + s[2] as int - 48;
    assert Decimal(s[..4]) == 10 * Decimal(s[..3]) + s[3] as int - 48;
  }

  /** A name in parts: a prefix on one line, a number of five digits, "of" in any
      letters, another number. */
  predicate IsNumbered(p: string, prefix: string, first: string, of: string, second: string) {
    p == prefix + ("-" + first + "-" + of + "-" + second) && AreDecimals(first) && AreDecimals(second) &&
    (of == "of" || of == "Of" || of == "oF" || of == "OF") && prefix != "" && '\n' !in prefix && '\r' !in prefix
  }

  lemma NumberedTail(p: string, prefix: string, first: string, of: string, second: string)
    requires IsNumbered(p, prefix, first, of, second)
    ensures |p| > 15 && p[..|p| - 15] == prefix && IsTail(p[|p| - 15..]) && IsPrefix(prefix)
    ensures p[|p| - 15..][1..6] == first && p[|p| - 15..][10..] == second
  {
    hide IsNumber, AreDecimals;
    assert |first| == 5 && |second| == 5 by { DecimalsAreFive(first); DecimalsAreFive(second); }
    var t := "-" + first + "-" + of + "-" + second;
    Seqs.Border(prefix, t);
    assert t[1..6] == first && t[10..] == second && t[7] == of[0] && t[8] == of[1];
    DecimalsMean(first);
    DecimalsMean(second);
  }

  lemma DecimalsAreFive(s: string)
    requires AreDecimals(s)
    ensures |s| == 5
  {
  }

  lemma TailNumbered(p: string)
    requires |p| > 15 && IsTail(p[|p| - 15..]) && IsPrefix(p[..|p| - 15])
    ensures exists prefix, first, of, second :: IsNumbered(p, prefix, first, of, second)
  {
    hide IsNumber, AreDecimals;
    var t := p[|p| - 15..];
    Seqs.Split(p, |p| - 15);
    DecimalsMean(t[1..6]);
    DecimalsMean(t[10..]);
    var of := [t[7], t[8]];
    assert t == "-" + t[1..6] + "-" + of + "-" + t[10..];
    assert IsNumbered(p, p[..|p| - 15], t[1..6], of, t[10..]);
  }

  lemma WithSuffix(p: string)
    ensures var path := p + ".gguf"; IsNamed(path) && path[..|path| - |SUFFIX|] == p
  {
    Seqs.Border(p, ".gguf");
  }

  /** A part is read with its prefix, number and count. */
  lemma InfoOfPart(p: string, prefix: string, first: string, of: string, second: string)
    requires IsNumbered(p, prefix, first, of, second)
    ensures var info := Info(p + ".gguf");
      info.prefix == prefix && info.tag == TagOf(prefix) && info.index == Decimal(first) && info.count == Decimal(second)
  {
    hide IsTail, TagOf, IsNumber, Number, IsPrefix, IsNumbered, IsNamed, Decimal;
    WithSuffix(p);
    NumberedTail(p, prefix, first, of, second);
    NumberedDecimals(p, prefix, first, of, second);
    DecimalsMean(first);
    DecimalsMean(second);
  }

  /** Any other name with the suffix is one part, and without it nothing is read. */
  lemma InfoOfOther(p: string)
    ensures !(exists prefix, first, of, second :: IsNumbered(p, prefix, first, of, second)) ==>
      Info(p + ".gguf") == SplitInfo(p, TagOf(p), 1, 1)
    ensures !(exists q: string :: p == q + ".gguf") ==> Info(p) == SplitInfo("", "", 0, 0)
  {
    hide IsTail, TagOf, IsNumber, IsPrefix, IsNumbered;
    WithSuffix(p);
    if |p| > 15 && IsTail(p[|p| - 15..]) && IsPrefix(p[..|p| - 15]) {
      TailNumbered(p);
    }
    if IsNamed(p) {
      Seqs.Split(p, |p| - |SUFFIX|);
      assert p == p[..|p| - |SUFFIX|] + ".gguf";
    }
  }

  lemma NumberedDecimals(p: string, prefix: string, first: string, of: string, second: string)
    requires IsNumbered(p, prefix, first, of, second)
    ensures IsNumber(first) && IsNumber(second)
  {
    DecimalsMean(first);
    DecimalsMean(second);
  }

  /** A part as it is named. */
  lemma PartAsWritten(prefix: string, i: nat, count: nat)
    requires i < 100000 && count < 100000
    ensures exists first, second :: IsPartName(Part(prefix, i, count), prefix, first, second, i, count)
  {
    hide Five, AreDecimals, Decimal;
    FiveIsRead(i);
    FiveIsRead(count);
    DecimalsMean(Five(i));
    DecimalsMean(Five(count));
    assert IsPartName(Part(prefix, i, count), prefix, Five(i), Five(count), i, count);
  }

  predicate IsPartName(p: string, prefix: string, first: string, second: string, i: nat, count: nat) {
    p == prefix + ("-" + first + "-of-" + second + ".gguf") && AreDecimals(first) && AreDecimals(second) &&
    Decimal(first) == i && Decimal(second) == count
  }

  // Tags

  predicate IsCapitalOf(d: char, c: char) {
    if c in SMALL then exists k :: 0 <= k < 26 && c == SMALL[k] && d == CAPITAL[k] else d == c
  }

  predicate IsWord(s: string) {
    forall i :: 0 <= i < |s| ==> s[i] in SMALL || s[i] in CAPITAL || s[i] in DECIMALS || s[i] == '_'
  }

  lemma SmallAt(c: char)
    ensures 'a' <= c <= 'z' <==> c in SMALL
    ensures 'A' <= c <= 'Z' <==> c in CAPITAL
    ensures c in SMALL ==> IsCapitalOf((c as int - 32) as char, c)
  {
    if 'a' <= c <= 'z' {
      LetterAt(c as int - 'a' as int);
    }
    if 'A' <= c <= 'Z' {
      LetterAt(c as int - 'A' as int);
    }
    if c in SMALL {
      var k :| 0 <= k < |SMALL| && SMALL[k] == c;
      LetterAt(k);
    }
    if c in CAPITAL {
      var k :| 0 <= k < |CAPITAL| && CAPITAL[k] == c;
      LetterAt(k);
    }
  }

  lemma LetterAt(k: nat)
    requires k < 26
    ensures |SMALL| == 26 == |CAPITAL| && SMALL[k] as int == 'a' as int + k && CAPITAL[k] as int == 'A' as int + k
  {
  }

  lemma WordCharMeans(c: char)
    ensures IsWordChar(c) <==> c in SMALL || c in CAPITAL || c in DECIMALS || c == '_'
  {
    SmallAt(c);
    DigitIsDecimal(c);
  }

  lemma {:induction false} UpperMeans(s: string)
    ensures |Upper(s)| == |s| && forall i :: 0 <= i < |s| ==> IsCapitalOf(Upper(s)[i], s[i])
    decreases |s|
  {
    hide IsCapitalOf;
    if s != "" {
      SmallAt(s[0]);
      assert s[0] !in SMALL ==> IsCapitalOf(s[0], s[0]) by { SameLetter(s[0]); }
      UpperMeans(s[1..]);
    }
  }

  lemma SameLetter(c: char)
    ensures c !in SMALL ==> IsCapitalOf(c, c)
  {
  }

  lemma WordEnd(p: string)
    ensures WordLength(p) == if p != "" && IsWordChar(p[|p| - 1]) then 1 + WordLength(p[..|p| - 1]) else 0
  {
    hide IsWordChar;
  }

  lemma OneIsWord(c: char)
    ensures IsWord([c]) <==> IsWordChar(c)
  {
    hide IsWordChar;
    WordCharMeans(c);
    assert [c][0] == c;
  }

  lemma LastOfWord(word: string)
    requires IsWord(word) && word != ""
    ensures IsWordChar(word[|word| - 1]) && IsWord(word[..|word| - 1])
  {
    hide IsWordChar;
    WordCharMeans(word[|word| - 1]);
  }

  lemma {:induction false} WordTaken(before: string, word: string)
    requires IsWord(word) && (before == "" || !IsWord([before[|before| - 1]]))
    ensures WordLength(before + word) == |word|
    decreases |word|
  {
    hide IsWord, IsWordChar, WordLength;
    var p := before + word;
    var n := |word| - 1;
    WordEnd(p);
    if word == "" {
      assert p == before;
      if before != "" {
        OneIsWord(before[|before| - 1]);
      }
    } else {
      LastOfWord(word);
      assert p[..|p| - 1] == before + word[..n] && p[|p| - 1] == word[n];
      WordTaken(before, word[..n]);
    }
  }

  /** The tag is the word behind the last dash or dot, in capital letters; there is
      none if the end of the name is no such word. */
  lemma TagAsWritten(before: string, word: string)
    requires IsWord(word) && (before == "" || !IsWord([before[|before| - 1]]))
    ensures var tag := TagOf(before + word);
      if word != "" && before != "" && before[|before| - 1] in "-." then
        |tag| == |word| && forall i :: 0 <= i < |word| ==> IsCapitalOf(tag[i], word[i])
      else tag == ""
  {
    hide WordLength, Upper, IsCapitalOf, IsWord;
    var p := before + word;
    WordTaken(before, word);
    UpperMeans(word);
    Seqs.Border(before, word);
    assert before != "" ==> p[|p| - |word| - 1] == before[|before| - 1];
  }
}
