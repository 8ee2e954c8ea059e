/** Base64 in the two alphabets of RFC 4648 (sections 4 and 5). */
module Base64 {
  import Seqs
  import opened Wrappers

  type Byte = c: char | c as int < 256 witness 'A'

  datatype Alphabet = Auto | Standard | UrlSafe

  datatype Base64Error = InvalidCharacter

  const PAD: char := '='
  const UPPER := "ABCDEFGHIJKLMNOPQRSTUVWXYZ"
  const LOWER := "abcdefghijklmnopqrstuvwxyz"
  const DIGITS := "0123456789"

  /** The character for six bits. */
  function Alpha(a: Alphabet, v: int): char
    requires 0 <= v < 64
  {
    (UPPER + LOWER + DIGITS + (if a == UrlSafe then "-_" else "+/"))[v]
  }

  /** Three bytes become four characters, one or two at the end are padded. */
  function Encoded(b: seq<Byte>, a: Alphabet, i: nat): string
    requires i <= |b|
    decreases |b| - i
  {
    var n := |b| - i;
    if n == 0 then ""
    else
      var x := b[i] as int;
      if n == 1 then [Alpha(a, x / 4), Alpha(a, x % 4 * 16), PAD, PAD]
      else
        var y := b[i + 1] as int;
        if n == 2 then [Alpha(a, x / 4), Alpha(a, x % 4 * 16 + y / 16), Alpha(a, y % 16 * 4), PAD]
        else
          var z := b[i + 2] as int;
          [Alpha(a, x / 4), Alpha(a, x % 4 * 16 + y / 16), Alpha(a, y % 16 * 4 + z / 64), Alpha(a, z % 64)] +
          Encoded(b, a, i + 3)
  }

  function RequiredEncodeSize(size: nat): nat {
    (size / 3 + (if size % 3 != 0 then 1 else 0)) * 4
  }

  function MaxDecodeSize(size: nat): nat {
    (size / 4 + (if size % 4 != 0 then 1 else 0)) * 3
  }

  method Encode(b: seq<Byte>, a: Alphabet) returns (r: string)
    ensures r == Encoded(b, a, 0)
  {
    hide Encoded;
    r := "";
    var i := 0;
    while i < |b|
      invariant i <= |b| && Encoded(b, a, 0) == r + Encoded(b, a, i)
    {
      var group, next := EncodeGroup(b, a, i);
      Seqs.Associative(r, group, Encoded(b, a, next));
      r := r + group;
      i := next;
    }
    assert Encoded(b, a, i) == "" by { NothingEncoded(b, a); }
    Seqs.AppendNothing(r, "");
  }

  lemma NothingEncoded(b: seq<Byte>, a: Alphabet)
    ensures Encoded(b, a, |b|) == ""
  {
  }

  lemma EncodedStep(b: seq<Byte>, a: Alphabet, i: nat)
    requires i < |b|
    ensures var x := b[i] as int;
      if i + 1 == |b| then Encoded(b, a, i) == [Alpha(a, x / 4), Alpha(a, x % 4 * 16), PAD, PAD] + Encoded(b, a, i + 1)
      else
        var y := b[i + 1] as int;
        if i + 2 == |b| then
          Encoded(b, a, i) == [Alpha(a, x / 4), Alpha(a, x % 4 * 16 + y / 16), Alpha(a, y % 16 * 4), PAD] + Encoded(b, a, i + 2)
        else
          var z := b[i + 2] as int;
          Encoded(b, a, i) ==
            [Alpha(a, x / 4), Alpha(a, x % 4 * 16 + y / 16), Alpha(a, y % 16 * 4 + z / 64), Alpha(a, z % 64)] + Encoded(b, a, i + 3)
  {
    hide Alpha;
    Seqs.AppendNothing(Encoded(b, a, i), "");
    NothingEncoded(b, a);
  }

  method EncodeGroup(b: seq<Byte>, a: Alphabet, from: nat) returns (r: string, i: nat)
    requires from < |b|
    ensures from < i <= |b| && Encoded(b, a, from) == r + Encoded(b, a, i)
  {
    hide Alpha, Encoded;
    EncodedStep(b, a, from);
    i := from;
    var i0 := b[i] as int;
    i := i + 1;
    var c0 := Alpha(a, i0 / 4 % 64);
    if i == |b| {
      return [c0, Alpha(a, i0 % 4 * 16), PAD, PAD], i;
    }
    var i1 := b[i] as int;
    i := i + 1;
    var c1 := Alpha(a, i0 % 4 * 16 + i1 / 16 % 16);
    if i == |b| {
      return [c0, c1, Alpha(a, i1 % 16 * 4), PAD], i;
    }
    var i2 := b[i] as int;
    i := i + 1;
    r := [c0, c1, Alpha(a, i1 % 16 * 4 + i2 / 64 % 4), Alpha(a, i2 % 64)];
  }

  /** The six bits of a character, and the alphabet, which the first special
      character settles when it was open. */
  function Value(a: Alphabet, c: char): Option<(int, Alphabet)> {
    if 'A' <= c <= 'Z' then Some((c as int - 'A' as int, a))
    else if 'a' <= c <= 'z' then Some((c as int - 'a' as int + 26, a))
    else if '0' <= c <= '9' then Some((c as int - '0' as int + 52, a))
    else if c == '+' && a != UrlSafe then Some((62, Standard))
    else if c == '/' && a != UrlSafe then Some((63, Standard))
    else if c == '-' && a != Standard then Some((62, UrlSafe))
    else if c == '_' && a != Standard then Some((63, UrlSafe))
    else None
  }

  function ValueOf(a: Alphabet, c: char): (v: int)
    requires Value(a, c).Some?
    ensures 0 <= v < 64
  {
    Value(a, c).value.0
  }

  /** The bits kept from the last character in front, the first ones of the next
      behind, cut to eight. */
  function ByteOf(last: int, part: int, bits: nat): Byte
    requires 0 <= last < 64 && 0 <= part < 64 && bits in {2, 4, 6}
  {
    if bits == 6 then (last * 4 + part / 16) as char
    else if bits == 4 then (last % 16 * 16 + part / 4) as char
    else (last % 4 * 64 + part) as char
  }

  function Prepended(b: seq<Byte>, r: Result<seq<Byte>, Base64Error>): Result<seq<Byte>, Base64Error> {
    if r.Success? then Success(b + r.value) else r
  }

  predicate OnlyPadding(s: string, i: nat)
    requires i <= |s|
  {
    forall k :: i <= k < |s| ==> s[k] == PAD
  }

  /** The bytes from a place on, with the bits of the last character not used yet. */
  function Decoded(s: string, i: nat, a: Alphabet, last: int, bits: nat, loose: bool): Result<seq<Byte>, Base64Error>
    requires i <= |s| && 0 <= last < 64 && bits in {0, 2, 4, 6}
    decreases |s| - i
  {
    if i == |s| then Success([])
    else if s[i] == PAD then if loose || OnlyPadding(s, i) then Success([]) else Failure(InvalidCharacter)
    else if Value(a, s[i]).None? then Failure(InvalidCharacter)
    else
      var part, b := ValueOf(a, s[i]), Value(a, s[i]).value.1;
      if bits >= 2 then Prepended([ByteOf(last, part, bits)], Decoded(s, i + 1, b, part, bits - 2, loose))
      else Decoded(s, i + 1, b, part, bits + 6, loose)
  }

  lemma PrependedTwice(x: seq<Byte>, y: seq<Byte>, r: Result<seq<Byte>, Base64Error>)
    ensures Prepended(x, Prepended(y, r)) == Prepended(x + y, r)
  {
    if r.Success? {
      Seqs.Associative(x, y, r.value);
    }
  }

  lemma PrependedNothing(x: seq<Byte>, r: Result<seq<Byte>, Base64Error>)
    ensures Prepended([], r) == r && Prepended(x, Success([])) == Success(x)
  {
    if r.Success? {
      Seqs.AppendNothing(r.value, []);
    }
    Seqs.AppendNothing(x, []);
  }

  /** The rest after a padding character may only be padding, unless anything goes. */
  method CheckPadding(s: string, from: nat, loose: bool) returns (ok: bool)
    requires from <= |s|
    ensures ok <==> loose || OnlyPadding(s, from)
  {
    var i := from;
    if !loose {
      while i < |s|
        invariant from <= i <= |s| && forall k :: from <= k < i ==> s[k] == PAD
      {
        if s[i] != '=' {
          return false;
        }
        i := i + 1;
      }
    }
    return true;
  }

  method Decode(s: string, alphabet: Alphabet, loose: bool) returns (r: Result<seq<Byte>, Base64Error>)
    ensures r == Decoded(s, 0, alphabet, 0, 0, loose)
    ensures r.Success? ==> |r.value| <= MaxDecodeSize(|s|)
  {
    hide ByteOf, Value, OnlyPadding;
    var out: seq<Byte> := [];
    var a, last, bits := alphabet, 0, 0;
    var i := 0;
    PrependedNothing([], Decoded(s, 0, alphabet, 0, 0, loose));
    while i < |s| && s[i] != '='
      invariant i <= |s| && 0 <= last < 64 && bits in {0, 2, 4, 6} && 8 * |out| + bits == 6 * i
      invariant Decoded(s, 0, alphabet, 0, 0, loose) == Prepended(out, Decoded(s, i, a, last, bits, loose))
    {
      var v := Value(a, s[i]);
      if v.None? {
        return Failure(InvalidCharacter);
      }
      var part := ValueOf(a, s[i]);
      a := v.value.1;
      if bits + 6 >= 8 {
        ghost var rest := Decoded(s, i + 1, a, part, bits - 2, loose);
        PrependedTwice(out, [ByteOf(last, part, bits)], rest);
        out := out + [ByteOf(last, part, bits)];
        bits := bits - 2;
      } else {
        bits := bits + 6;
      }
      last := part;
      i := i + 1;
    }
    PrependedNothing(out, Success([]));
    var ok := CheckPadding(s, i, loose);
    if i < |s| && !ok {
      return Failure(InvalidCharacter);
    }
    r := Success(out);
  }

  /** The buffer while it is decoded: bytes in front, characters still to be
      read behind. */
  ghost predicate Overlaid(str: array<char>, s: string, written: seq<Byte>, i: nat)
    reads str
  {
    |written| <= i <= str.Length == |s| &&
    (forall k :: 0 <= k < |written| ==> str[k] == written[k]) && (forall k :: i <= k < |s| ==> str[k] == s[k])
  }

  lemma Unread(str: array<char>, s: string, written: seq<Byte>, i: nat)
    requires Overlaid(str, s, written, i)
    ensures i <= str.Length == |s| && |written| <= i && str[..|written|] == written && str[i..] == s[i..]
    ensures i < |s| ==> str[i] == s[i] && Overlaid(str, s, written, i + 1)
  {
  }

  method Put(str: array<char>, out: nat, b: Byte, i: nat, ghost s: string, ghost written: seq<Byte>)
    requires Overlaid(str, s, written, i) && |written| == out < i
    modifies str
    ensures Overlaid(str, s, written + [b], i)
  {
    str[out] := b;
  }

  /** Decoding over the input itself: a byte is only written where the characters
      have been read, and the outcome is that of decoding elsewhere. */
  method DecodeInPlace(str: array<char>, alphabet: Alphabet, loose: bool) returns (r: Result<nat, Base64Error>)
    modifies str
    ensures match Decoded(old(str[..]), 0, alphabet, 0, 0, loose)
      case Success(bytes) => r.Success? && r.value <= str.Length && str[..r.value] == bytes
      case Failure(e) => r == Failure(e)
  {
    hide ByteOf, Value, OnlyPadding, Overlaid;
    ghost var s := str[..];
    ghost var written: seq<Byte> := [];
    var out := 0;
    var a, last, bits := alphabet, 0, 0;
    var i := 0;
    assert Overlaid(str, s, written, 0) by { Untouched(str); }
    PrependedNothing([], Decoded(s, 0, alphabet, 0, 0, loose));
    while i < str.Length && str[i] != '='
      invariant 0 <= last < 64 && bits in {0, 2, 4, 6} && 8 * out + bits == 6 * i
      invariant out == |written| && Overlaid(str, s, written, i) && i <= |s| == str.Length
      invariant Decoded(s, 0, alphabet, 0, 0, loose) == Prepended(written, Decoded(s, i, a, last, bits, loose))
    {
      Unread(str, s, written, i);
      var v := Value(a, str[i]);
      if v.None? {
        return Failure(InvalidCharacter);
      }
      var part := ValueOf(a, str[i]);
      a := v.value.1;
      i := i + 1;
      if bits + 6 >= 8 {
        PrependedTwice(written, [ByteOf(last, part, bits)], Decoded(s, i, a, part, bits - 2, loose));
        Put(str, out, ByteOf(last, part, bits), i, s, written);
        written := written + [ByteOf(last, part, bits)];
        out := out + 1;
        bits := bits - 2;
      } else {
        bits := bits + 6;
      }
      last := part;
    }
    PrependedNothing(written, Success([]));
    Unread(str, s, written, i);
    if i < str.Length {
      PaddingFrom(s, i);
      var ok := CheckPadding(str[i..], 0, loose);
      if !ok {
        return Failure(InvalidCharacter);
      }
    }
    r := Success(out);
  }

  lemma Untouched(str: array<char>)
    ensures Overlaid(str, str[..], [], 0)
  {
  }

  lemma PaddingFrom(s: string, i: nat)
    requires i <= |s|
    ensures OnlyPadding(s[i..], 0) <==> OnlyPadding(s, i)
  {
    if OnlyPadding(s[i..], 0) {
      forall k | i <= k < |s| ensures s[k] == PAD {
        assert s[i..][k - i] == s[k];
      }
    }
  }

  lemma SizeStep(n: nat)
    requires n > 2
    ensures RequiredEncodeSize(n) == 4 + RequiredEncodeSize(n - 3)
  {
    assert n / 3 == 1 + (n - 3) / 3 && n % 3 == (n - 3) % 3;
  }

  lemma {:induction false} EncodedSize(b: seq<Byte>, a: Alphabet, i: nat)
    requires i <= |b|
    ensures |Encoded(b, a, i)| == RequiredEncodeSize(|b| - i)
    decreases |b| - i
  {
    hide Alpha, RequiredEncodeSize;
    if |b| - i > 2 {
      SizeStep(|b| - i);
      EncodedSize(b, a, i + 3);
    } else {
      assert RequiredEncodeSize(0) == 0 && RequiredEncodeSize(1) == 4 && RequiredEncodeSize(2) == 4 by { SmallSizes(); }
    }
  }

  lemma SmallSizes()
    ensures RequiredEncodeSize(0) == 0 && RequiredEncodeSize(1) == 4 && RequiredEncodeSize(2) == 4
  {
  }

  lemma AtUpper(v: int)
    requires 0 <= v < 26
    ensures UPPER[v] as int == 'A' as int + v
  {
  }

  lemma AtLower(v: int)
    requires 0 <= v < 26
    ensures LOWER[v] as int == 'a' as int + v
  {
  }

  lemma AtDigit(v: int)
    requires 0 <= v < 10
    ensures DIGITS[v] as int == '0' as int + v
  {
  }

  function Special(a: Alphabet): string {
    if a == UrlSafe then "-_" else "+/"
  }

  /** The alphabet, range by range. */
  lemma AlphaAt(a: Alphabet, v: int)
    requires 0 <= v < 64
    ensures Alpha(a, v) as int ==
      if v < 26 then 'A' as int + v else if v < 52 then 'a' as int + v - 26 else if v < 62 then '0' as int + v - 52
      else Special(a)[v - 62] as int
  {
    hide Special;
    var special := if a == UrlSafe then "-_" else "+/";
    assert special == Special(a) && |special| == 2 by { SpecialIs(a); }
    AtTable(v, special);
  }

  lemma SpecialIs(a: Alphabet)
    ensures Special(a) == if a == UrlSafe then "-_" else "+/"
  {
  }

  lemma AtTable(v: int, special: string)
    requires 0 <= v < 64 && |special| == 2
    ensures (UPPER + LOWER + DIGITS + special)[v] as int ==
      if v < 26 then 'A' as int + v else if v < 52 then 'a' as int + v - 26 else if v < 62 then '0' as int + v - 52
      else special[v - 62] as int
  {
    if v < 26 {
      AtUpper(v);
    } else if v < 52 {
      AtLower(v - 26);
    } else if v < 62 {
      AtDigit(v - 52);
    }
  }

  /** An alphabet that has not been ruled out. */
  predicate Fits(a: Alphabet, d: Alphabet) {
    d == Auto || d == (if a == UrlSafe then UrlSafe else Standard)
  }

  lemma AlphaIsRead(a: Alphabet, d: Alphabet, v: int)
    requires 0 <= v < 64 && Fits(a, d)
    ensures Alpha(a, v) != PAD && Value(d, Alpha(a, v)).Some? && ValueOf(d, Alpha(a, v)) == v
    ensures Fits(a, Value(d, Alpha(a, v)).value.1)
  {
    hide Alpha;
    AlphaAt(a, v);
  }

  lemma OneRead(s: string, j: nat, a: Alphabet, d: Alphabet, last: int, bits: nat, loose: bool, v: int)
    returns (e: Alphabet)
    requires j < |s| && 0 <= v < 64 && s[j] == Alpha(a, v) && Fits(a, d) && 0 <= last < 64 && bits in {0, 2, 4, 6}
    ensures Fits(a, e)
    ensures Decoded(s, j, d, last, bits, loose) ==
      if bits >= 2 then Prepended([ByteOf(last, v, bits)], Decoded(s, j + 1, e, v, bits - 2, loose))
      else Decoded(s, j + 1, e, v, bits + 6, loose)
  {
    hide Alpha, Value, ByteOf;
    AlphaIsRead(a, d, v);
    e := Value(d, s[j]).value.1;
  }

  /** The bytes that the characters of a group stand for. */
  lemma BytesOf(x: int, y: int, z: int)
    requires 0 <= x < 256 && 0 <= y < 256 && 0 <= z < 256
    ensures ByteOf(x / 4, x % 4 * 16 + y / 16, 6) == x as char
    ensures ByteOf(x % 4 * 16 + y / 16, y % 16 * 4 + z / 64, 4) == y as char
    ensures ByteOf(y % 16 * 4 + z / 64, z % 64, 2) == z as char
  {
    assert (x % 4 * 16 + y / 16) / 16 == x % 4;
    assert (x % 4 * 16 + y / 16) % 16 == y / 16;
    assert (y % 16 * 4 + z / 64) / 4 == y % 16;
    assert (y % 16 * 4 + z / 64) % 4 == z / 64;
  }

  /** The characters of a text from j on. */
  predicate Reads(s: string, j: nat, t: string) {
    j <= |s| && s[j..] == t
  }

  lemma ReadsFour(s: string, j: nat, c0: char, c1: char, c2: char, c3: char, rest: string)
    requires Reads(s, j, [c0, c1, c2, c3] + rest)
    ensures j + 4 <= |s| && s[j] == c0 && s[j + 1] == c1 && s[j + 2] == c2 && s[j + 3] == c3 && Reads(s, j + 4, rest)
  {
    var t := [c0, c1, c2, c3] + rest;
    assert |s[j..]| == 4 + |rest|;
    assert s[j..][0] == t[0] && s[j..][1] == t[1] && s[j..][2] == t[2] && s[j..][3] == t[3];
    assert s[j + 4..] == s[j..][4..] == t[4..] == rest;
  }

  /** A whole group is read back as its three bytes. */
  lemma GroupIsRead(s: string, j: nat, a: Alphabet, d: Alphabet, last: int, loose: bool, x: Byte, y: Byte, z: Byte)
    returns (e: Alphabet)
    requires j + 4 <= |s| && Fits(a, d) && 0 <= last < 64
    requires s[j] == Alpha(a, x as int / 4) && s[j + 1] == Alpha(a, x as int % 4 * 16 + y as int / 16)
    requires s[j + 2] == Alpha(a, y as int % 16 * 4 + z as int / 64) && s[j + 3] == Alpha(a, z as int % 64)
    ensures Fits(a, e)
    ensures Decoded(s, j, d, last, 0, loose) == Prepended([x, y, z], Decoded(s, j + 4, e, z as int % 64, 0, loose))
  {
    hide Alpha, ByteOf, Decoded, Fits;
    var v0, v1, v2, v3 := x as int / 4, x as int % 4 * 16 + y as int / 16, y as int % 16 * 4 + z as int / 64, z as int % 64;
    var d1 := OneRead(s, j, a, d, last, 0, loose, v0);
    var d2 := OneRead(s, j + 1, a, d1, v0, 6, loose, v1);
    var d3 := OneRead(s, j + 2, a, d2, v1, 4, loose, v2);
    e := OneRead(s, j + 3, a, d3, v2, 2, loose, v3);
    BytesOf(x as int, y as int, z as int);
    var rest := Decoded(s, j + 4, e, v3, 0, loose);
    assert x as int as char == x && y as int as char == y && z as int as char == z;
    PrependedTwice([y], [z], rest);
    PrependedTwice([x], [y, z], rest);
    assert [y] + [z] == [y, z] && [x] + [y, z] == [x, y, z];
  }

  /** The last group of two or one bytes, up to its padding. */
  lemma {:induction false} EndIsRead(s: string, j: nat, a: Alphabet, d: Alphabet, last: int, loose: bool, b: seq<Byte>)
    requires Fits(a, d) && 0 <= last < 64 && (|b| == 1 || |b| == 2) && Reads(s, j, Encoded(b, a, 0))
    ensures Decoded(s, j, d, last, 0, loose) == Success(b)
  {
    hide Alpha, ByteOf, Decoded, Fits;
    var x := b[0] as int;
    var y := if |b| == 2 then b[1] as int else 0;
    var v0, v1, v2 := x / 4, x % 4 * 16 + y / 16, y % 16 * 4;
    Seqs.AppendNothing(Encoded(b, a, 0), "");
    ReadsFour(s, j, Alpha(a, v0), Alpha(a, v1), if |b| == 2 then Alpha(a, v2) else PAD, PAD, "");
    var d1 := OneRead(s, j, a, d, last, 0, loose, v0);
    var d2 := OneRead(s, j + 1, a, d1, v0, 6, loose, v1);
    BytesOf(x, y, 0);
    assert b[0] as int as char == b[0];
    if |b| == 2 {
      assert b == [b[0]] + [b[1]] && b[1] as int as char == b[1];
      var d3 := OneRead(s, j + 2, a, d2, v1, 4, loose, v2);
      PaddingIsRead(s, j + 3, d3, v2, 2, loose);
      PrependedTwice([b[0]], [b[1]], Success([]));
      PrependedNothing(b, Success([]));
    } else {
      assert b == [b[0]];
      PaddingIsRead(s, j + 2, d2, v1, 4, loose);
      PrependedNothing(b, Success([]));
    }
  }

  lemma PaddingIsRead(s: string, i: nat, a: Alphabet, last: int, bits: nat, loose: bool)
    requires i < |s| && OnlyPadding(s, i) && 0 <= last < 64 && bits in {0, 2, 4, 6}
    ensures Decoded(s, i, a, last, bits, loose) == Success([])
  {
  }

  lemma {:induction false} DecodeFrom(b: seq<Byte>, i: nat, s: string, j: nat, a: Alphabet, d: Alphabet, last: int, loose: bool)
    requires i <= |b| && Fits(a, d) && 0 <= last < 64 && Reads(s, j, Encoded(b, a, i))
    ensures Decoded(s, j, d, last, 0, loose) == Success(b[i..])
    decreases |b| - i
  {
    hide Alpha, ByteOf, Fits, Decoded;
    var n := |b| - i;
    if n == 0 {
      NothingIsRead(s, j, d, last, loose);
    } else if n < 3 {
      assert Encoded(b, a, i) == Encoded(b[i..], a, 0);
      EndIsRead(s, j, a, d, last, loose, b[i..]);
    } else {
      var x, y, z := b[i] as int, b[i + 1] as int, b[i + 2] as int;
      ReadsFour(s, j, Alpha(a, x / 4), Alpha(a, x % 4 * 16 + y / 16), Alpha(a, y % 16 * 4 + z / 64), Alpha(a, z % 64), Encoded(b, a, i + 3));
      var e := GroupIsRead(s, j, a, d, last, loose, b[i], b[i + 1], b[i + 2]);
      DecodeFrom(b, i + 3, s, j + 4, a, e, z % 64, loose);
      assert b[i..] == [b[i], b[i + 1], b[i + 2]] + b[i + 3..];
    }
  }

  lemma NothingIsRead(s: string, j: nat, d: Alphabet, last: int, loose: bool)
    requires Reads(s, j, "") && 0 <= last < 64
    ensures Decoded(s, j, d, last, 0, loose) == Success([])
  {
    assert |s[j..]| == 0;
  }

  /** Decoding undoes encoding: told the alphabet or not, strict or loose. */
  lemma RoundTrip(b: seq<Byte>, a: Alphabet, d: Alphabet, loose: bool)
    requires Fits(a, d)
    ensures Decoded(Encoded(b, a, 0), 0, d, 0, 0, loose) == Success(b)
  {
    hide Encoded, Decoded;
    var s := Encoded(b, a, 0);
    assert s[0..] == s && b[0..] == b;
    DecodeFrom(b, 0, s, 0, a, d, 0, loose);
  }

  /** Detecting the alphabet accepts just what one of the two alphabets accepts,
      with the same bytes. */
  lemma {:induction false} AutoIsEither(s: string, i: nat, last: int, bits: nat, loose: bool)
    requires i <= |s| && 0 <= last < 64 && bits in {0, 2, 4, 6}
    ensures var r := Decoded(s, i, Auto, last, bits, loose);
      r == Decoded(s, i, Standard, last, bits, loose) || r == Decoded(s, i, UrlSafe, last, bits, loose)
    ensures Decoded(s, i, Auto, last, bits, loose).Failure? ==>
      Decoded(s, i, Standard, last, bits, loose).Failure? && Decoded(s, i, UrlSafe, last, bits, loose).Failure?
    decreases |s| - i
  {
    hide ByteOf, OnlyPadding;
    if i < |s| && s[i] != PAD && Value(Auto, s[i]).Some? && Value(Auto, s[i]).value.1 == Auto {
      if bits >= 2 {
        AutoIsEither(s, i + 1, ValueOf(Auto, s[i]), bits - 2, loose);
      } else {
        AutoIsEither(s, i + 1, ValueOf(Auto, s[i]), bits + 6, loose);
      }
    }
  }

  // The bits, one by one

  /** The character for a number: capital letters, small letters, digits, two signs. */
  predicate IsSign(url: bool, c: char, v: nat) {
    if v < 26 then c as int == 'A' as int + v
    else if v < 52 then c as int == 'a' as int + v - 26
    else if v < 62 then c as int == '0' as int + v - 52
    else if v == 62 then c == if url then '-' else '+'
    else v == 63 && c == if url then '_' else '/'
  }

  lemma SignIsAlpha(a: Alphabet, c: char, v: nat)
    ensures IsSign(a == UrlSafe, c, v) <==> v < 64 && c == Alpha(a, v)
  {
    hide Alpha;
    if v < 64 {
      AlphaAt(a, v);
    }
  }

  /** A byte, or zero behind the last one. */
  function ByteAt(b: seq<Byte>, k: nat): nat {
    if k < |b| then b[k] as int else 0
  }

  /** The j-th six bits of the bytes. */
  function Six(b: seq<Byte>, j: nat): (v: nat)
    ensures v < 64
  {
    var k := 3 * j / 4;
    var pair := ByteAt(b, k) * 256 + ByteAt(b, k + 1);
    pair / (if j % 4 == 0 then 1024 else if j % 4 == 1 then 16 else if j % 4 == 2 then 64 else 256) % 64
  }

  lemma SixNext(b: seq<Byte>, j: nat)
    requires |b| >= 3 && j >= 4
    ensures Six(b[3..], j - 4) == Six(b, j)
  {
    assert 3 * j / 4 == 3 + 3 * (j - 4) / 4 && j % 4 == (j - 4) % 4;
    var k := 3 * (j - 4) / 4;
    assert ByteAt(b[3..], k) == ByteAt(b, k + 3) && ByteAt(b[3..], k + 1) == ByteAt(b, k + 4);
  }

  lemma FirstSixes(b: seq<Byte>)
    requires b != []
    ensures var x, y, z := ByteAt(b, 0), ByteAt(b, 1), ByteAt(b, 2);
      Six(b, 0) == x / 4 && Six(b, 1) == x % 4 * 16 + y / 16 && Six(b, 2) == y % 16 * 4 + z / 64 && Six(b, 3) == z % 64
  {
    var x, y, z := ByteAt(b, 0), ByteAt(b, 1), ByteAt(b, 2);
    FirstBits(x, y);
    MiddleBits(y, z);
    LastBits(z, ByteAt(b, 3));
  }

  lemma FirstBits(x: nat, y: nat)
    requires x < 256 && y < 256
    ensures (x * 256 + y) / 1024 % 64 == x / 4 && (x * 256 + y) / 16 % 64 == x % 4 * 16 + y / 16
  {
    assert (x * 256 + y) / 1024 == x / 4;
    assert (x * 256 + y) / 16 == x * 16 + y / 16;
    assert x * 16 + y / 16 == x / 4 * 64 + (x % 4 * 16 + y / 16);
  }

  lemma MiddleBits(y: nat, z: nat)
    requires y < 256 && z < 256
    ensures (y * 256 + z) / 64 % 64 == y % 16 * 4 + z / 64
  {
    assert (y * 256 + z) / 64 == y * 4 + z / 64;
    assert y * 4 + z / 64 == y / 16 * 64 + (y % 16 * 4 + z / 64);
  }

  lemma LastBits(z: nat, w: nat)
    requires z < 256 && w < 256
    ensures (z * 256 + w) / 256 % 64 == z % 64
  {
    assert (z * 256 + w) / 256 == z;
  }

  /** One sign for every six bits begun, and padding up to a multiple of four. */
  predicate IsEncoding(s: string, b: seq<Byte>, url: bool) {
    |s| % 4 == 0 && 3 * |s| < 4 * (|b| + 3) && 4 * |b| <= 3 * |s| &&
    forall j :: 0 <= j < |s| ==> if 6 * j < 8 * |b| then IsSign(url, s[j], Six(b, j)) else s[j] == '='
  }

  /** The last characters, of one byte or two. */
  lemma LastEncoding(r: string, b: seq<Byte>, a: Alphabet)
    requires |b| == 1 || |b| == 2
    requires var x, y := ByteAt(b, 0), ByteAt(b, 1);
      r == [Alpha(a, x / 4), Alpha(a, x % 4 * 16 + y / 16), if |b| == 1 then PAD else Alpha(a, y % 16 * 4), PAD]
    ensures IsEncoding(r, b, a == UrlSafe)
  {
    hide Alpha, Six, IsSign;
    FirstSixes(b);
    forall j | 0 <= j < |r| && 6 * j < 8 * |b| ensures IsSign(a == UrlSafe, r[j], Six(b, j)) {
      SignIsAlpha(a, r[j], Six(b, j));
    }
  }

  /** Three bytes more. */
  lemma GroupEncoding(r: string, more: string, b: seq<Byte>, a: Alphabet)
    requires |b| >= 3 && IsEncoding(more, b[3..], a == UrlSafe)
    requires var x, y, z := ByteAt(b, 0), ByteAt(b, 1), ByteAt(b, 2);
      r == [Alpha(a, x / 4), Alpha(a, x % 4 * 16 + y / 16), Alpha(a, y % 16 * 4 + z / 64), Alpha(a, z % 64)]
    ensures IsEncoding(r + more, b, a == UrlSafe)
  {
    hide Alpha, Six, IsSign, ByteAt;
    FirstSixes(b);
    var s, url := r + more, a == UrlSafe;
    forall j | 0 <= j < |s| ensures if 6 * j < 8 * |b| then IsSign(url, s[j], Six(b, j)) else s[j] == '=' {
      if j < 4 {
        SignIsAlpha(a, r[j], Six(b, j));
      } else {
        assert s[j] == more[j - 4];
        SixNext(b, j);
      }
    }
  }

  /** Encoding writes down the bits of the bytes, six by six. */
  lemma {:induction false} EncodedBits(b: seq<Byte>, a: Alphabet, i: nat)
    requires i <= |b|
    ensures IsEncoding(Encoded(b, a, i), b[i..], a == UrlSafe)
    decreases |b| - i
  {
    hide Alpha, Encoded, IsEncoding;
    var c := b[i..];
    NothingEncoded(b, a);
    if i == |b| {
      assert IsEncoding("", c, a == UrlSafe) by { NoEncoding(c, a == UrlSafe); }
    } else {
      EncodedStep(b, a, i);
      if i + 3 > |b| {
        Seqs.AppendNothing(Encoded(b, a, i), "");
        LastEncoding(Encoded(b, a, i), c, a);
      } else {
        EncodedBits(b, a, i + 3);
        assert c[3..] == b[i + 3..];
        GroupEncoding(Encoded(b, a, i)[..4], Encoded(b, a, i + 3), c, a);
      }
    }
  }

  lemma NoEncoding(b: seq<Byte>, url: bool)
    requires b == []
    ensures IsEncoding("", b, url)
  {
  }

  /** The k-th byte of the six-bit numbers. */
  function EightOf(vs: seq<nat>, k: nat): nat
    requires 4 * k / 3 + 1 < |vs|
  {
    var i := 4 * k / 3;
    (vs[i] * 64 + vs[i + 1]) / (if k % 3 == 0 then 16 else if k % 3 == 1 then 4 else 1) % 256
  }

  lemma SixBits(last: nat, part: nat)
    requires last < 64 && part < 64
    ensures (last * 64 + part) / 16 % 256 == last * 4 + part / 16
  {
    assert (last * 64 + part) / 16 == last * 4 + part / 16;
  }

  lemma FourBits(last: nat, part: nat)
    requires last < 64 && part < 64
    ensures (last * 64 + part) / 4 % 256 == last % 16 * 16 + part / 4
  {
    assert (last * 64 + part) / 4 == last * 16 + part / 4;
    assert last * 16 + part / 4 == last / 16 * 256 + (last % 16 * 16 + part / 4);
  }

  lemma TwoBits(last: nat, part: nat)
    requires last < 64 && part < 64
    ensures (last * 64 + part) % 256 == last % 4 * 64 + part
  {
    assert last * 64 + part == last / 4 * 256 + (last % 4 * 64 + part);
  }

  lemma EightIs(last: nat, part: nat, bits: nat)
    requires last < 64 && part < 64 && bits in {2, 4, 6}
    ensures ByteOf(last, part, bits) as int == (last * 64 + part) / (if bits == 6 then 16 else if bits == 4 then 4 else 1) % 256
  {
    SixBits(last, part);
    FourBits(last, part);
    TwoBits(last, part);
  }

  /** The characters before the first padding stand for these numbers. */
  predicate AreSigns(s: string, vs: seq<nat>, url: bool) {
    |vs| <= |s| && (|vs| < |s| ==> s[|vs|] == '=') && forall i :: 0 <= i < |vs| ==> IsSign(url, s[i], vs[i])
  }

  lemma SignIsRead(url: bool, c: char, v: nat)
    requires IsSign(url, c, v)
    ensures v < 64 && c != '=' && Value(if url then UrlSafe else Standard, c) == Some((v, if url then UrlSafe else Standard))
  {
    hide Alpha, Value;
    var a := if url then UrlSafe else Standard;
    SignIsAlpha(a, c, v);
    AlphaIsRead(a, a, v);
    SameAlphabet(a, c);
  }

  lemma SameAlphabet(a: Alphabet, c: char)
    requires a != Auto && Value(a, c).Some?
    ensures Value(a, c).value == (ValueOf(a, c), a)
  {
  }

  lemma ReadIsSign(url: bool, c: char)
    requires Value(if url then UrlSafe else Standard, c).Some?
    ensures IsSign(url, c, ValueOf(if url then UrlSafe else Standard, c))
  {
    hide Alpha;
    var a := if url then UrlSafe else Standard;
    AlphaAt(a, ValueOf(a, c));
    SignIsAlpha(a, c, ValueOf(a, c));
  }

  /** Bits that are left over after i signs. */
  predicate LeftOver(bits: nat, i: nat) {
    bits == if i % 4 == 0 then 0 else if i % 4 == 1 then 6 else if i % 4 == 2 then 4 else 2
  }

  lemma CountBytes(i: nat)
    ensures i % 4 == 0 ==> 3 * (i + 1) / 4 == 3 * i / 4
    ensures i % 4 > 0 ==>
      3 * (i + 1) / 4 == 3 * i / 4 + 1 && 4 * (3 * i / 4) / 3 == i - 1 && 3 * i / 4 % 3 == i % 4 - 1
  {
  }

  /** The bytes from the i-th sign on. */
  predicate AreBytesFrom(r: Result<seq<Byte>, Base64Error>, s: string, vs: seq<nat>, i: nat, loose: bool)
    requires i <= |vs|
  {
    match r
    case Success(bytes) =>
      (loose || PadsFrom(s, |vs|)) && |bytes| == 3 * |vs| / 4 - 3 * i / 4 &&
      forall k :: 3 * i / 4 <= k < 3 * |vs| / 4 ==> bytes[k - 3 * i / 4] as int == EightOf(vs, k)
    case Failure(e) => !loose && !PadsFrom(s, |vs|) && e == InvalidCharacter
  }

  predicate PadsFrom(s: string, n: nat) {
    forall k :: n <= k < |s| ==> s[k] == '='
  }

  /** A sign that does not complete a byte. */
  lemma NoByteYet(r: Result<seq<Byte>, Base64Error>, s: string, vs: seq<nat>, i: nat, loose: bool)
    requires i < |vs| && i % 4 == 0 && AreBytesFrom(r, s, vs, i + 1, loose)
    ensures AreBytesFrom(r, s, vs, i, loose)
  {
    CountBytes(i);
  }

  /** A sign that does. */
  lemma ByteMore(b: Byte, r: Result<seq<Byte>, Base64Error>, s: string, vs: seq<nat>, i: nat, loose: bool)
    requires 0 < i < |vs| && i % 4 > 0 && AreBytesFrom(r, s, vs, i + 1, loose)
    requires b as int == EightOf(vs, 3 * i / 4)
    ensures AreBytesFrom(Prepended([b], r), s, vs, i, loose)
  {
    hide EightOf;
    CountBytes(i);
    if r.Success? {
      var q, n := [b] + r.value, 3 * i / 4;
      forall k | n <= k < 3 * |vs| / 4 ensures q[k - n] as int == EightOf(vs, k) {
        if k > n {
          assert q[k - n] == r.value[k - (n + 1)];
        }
      }
    }
  }

  /** Decoding puts the six-bit numbers together and cuts them into bytes. */
  lemma {:induction false} DecodedFrom(s: string, vs: seq<nat>, url: bool, i: nat, last: nat, bits: nat, loose: bool)
    requires AreSigns(s, vs, url) && i <= |vs| && last < 64 && LeftOver(bits, i) && (i > 0 ==> last == vs[i - 1])
    ensures AreBytesFrom(Decoded(s, i, if url then UrlSafe else Standard, last, bits, loose), s, vs, i, loose)
    decreases |vs| - i
  {
    hide ByteOf, Value, IsSign, AreBytesFrom, Prepended, Decoded;
    var a := if url then UrlSafe else Standard;
    if i == |vs| {
      SignsEnd(s, vs, url, last, bits, loose);
    } else {
      SignIsRead(url, s[i], vs[i]);
      if i % 4 > 0 {
        DecodedFrom(s, vs, url, i + 1, vs[i], bits - 2, loose);
        var r := Decoded(s, i + 1, a, vs[i], bits - 2, loose);
        assert Decoded(s, i, a, last, bits, loose) == Prepended([ByteOf(last, vs[i], bits)], r) by { DecodedStep(s, i, a, last, bits, loose); }
        ThisByte(vs, i, last, bits);
        ByteMore(ByteOf(last, vs[i], bits), r, s, vs, i, loose);
      } else {
        DecodedFrom(s, vs, url, i + 1, vs[i], bits + 6, loose);
        DecodedStep(s, i, a, last, bits, loose);
        NoByteYet(Decoded(s, i + 1, a, vs[i], bits + 6, loose), s, vs, i, loose);
      }
    }
  }

  lemma DecodedStep(s: string, i: nat, a: Alphabet, last: int, bits: nat, loose: bool)
    requires i < |s| && s[i] != PAD && Value(a, s[i]).Some? && 0 <= last < 64 && bits in {0, 2, 4, 6}
    ensures var part, b := ValueOf(a, s[i]), Value(a, s[i]).value.1;
      Decoded(s, i, a, last, bits, loose) ==
      if bits >= 2 then Prepended([ByteOf(last, part, bits)], Decoded(s, i + 1, b, part, bits - 2, loose))
      else Decoded(s, i + 1, b, part, bits + 6, loose)
  {
    hide Value, ByteOf;
  }

  lemma ThisByte(vs: seq<nat>, i: nat, last: nat, bits: nat)
    requires 0 < i < |vs| && i % 4 > 0 && LeftOver(bits, i) && last == vs[i - 1] && last < 64 && vs[i] < 64
    ensures 4 * (3 * i / 4) / 3 + 1 < |vs| && ByteOf(last, vs[i], bits) as int == EightOf(vs, 3 * i / 4)
  {
    hide ByteOf;
    CountBytes(i);
    EightIs(last, vs[i], bits);
  }

  lemma SignsEnd(s: string, vs: seq<nat>, url: bool, last: nat, bits: nat, loose: bool)
    requires AreSigns(s, vs, url) && last < 64 && bits in {0, 2, 4, 6}
    ensures AreBytesFrom(Decoded(s, |vs|, if url then UrlSafe else Standard, last, bits, loose), s, vs, |vs|, loose)
  {
    hide IsSign, EightOf;
  }

  /** Text is decoded exactly when it is made of signs up to the first padding, and,
      unless anything goes, of padding from there on. The bytes are those of its
      numbers, bit by bit; bits that make no whole byte are left. */
  lemma DecodedBits(s: string, vs: seq<nat>, url: bool, loose: bool)
    requires AreSigns(s, vs, url)
    ensures var r := Decoded(s, 0, if url then UrlSafe else Standard, 0, 0, loose);
      (r.Success? <==> loose || forall k :: |vs| <= k < |s| ==> s[k] == '=') &&
      (r.Success? ==> |r.value| == 3 * |vs| / 4 && forall k :: 0 <= k < |r.value| ==> r.value[k] as int == EightOf(vs, k)) &&
      (r.Failure? ==> r.error == InvalidCharacter)
  {
    hide Decoded, IsSign, EightOf;
    DecodedFrom(s, vs, url, 0, 0, 0, loose);
  }

  /** Any other character in front of the padding is an error. */
  lemma {:induction false} NoSignFails(s: string, i: nat, k: nat, url: bool, last: nat, bits: nat, loose: bool)
    requires i <= k < |s| && (forall j :: i <= j <= k ==> s[j] != '=') && last < 64 && bits in {0, 2, 4, 6}
    requires forall v: nat :: !IsSign(url, s[k], v)
    ensures Decoded(s, i, if url then UrlSafe else Standard, last, bits, loose) == Failure(InvalidCharacter)
    decreases k - i
  {
    hide ByteOf, Value, IsSign;
    var a := if url then UrlSafe else Standard;
    if Value(a, s[i]).Some? {
      ReadIsSign(url, s[i]);
      SignIsRead(url, s[i], ValueOf(a, s[i]));
      if bits >= 2 {
        NoSignFails(s, i + 1, k, url, ValueOf(a, s[i]), bits - 2, loose);
      } else {
        NoSignFails(s, i + 1, k, url, ValueOf(a, s[i]), bits + 6, loose);
      }
    }
  }

  /** The sizes that are asked for are those of whole groups. */
  lemma SizesAreWhole(size: nat)
    ensures exists k :: RequiredEncodeSize(size) == 4 * k && 3 * (k - 1) < size <= 3 * k
    ensures exists k :: MaxDecodeSize(size) == 3 * k && 4 * (k - 1) < size <= 4 * k
  {
    var k, m := (size + 2) / 3, (size + 3) / 4;
    assert RequiredEncodeSize(size) == 4 * k && 3 * (k - 1) < size <= 3 * k;
    assert MaxDecodeSize(size) == 3 * m && 4 * (m - 1) < size <= 4 * m;
  }
}
