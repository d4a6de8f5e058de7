/** UTF-8 as Go's unicode/utf8 writes and reads it (section 3 of RFC 3629). A Go string is a sequence of
    bytes, each held in a char below 256; a rune is its code point. */
module Utf8 {

  const RUNE_ERROR := 0xFFFD

  type Rune = r: int | 0 <= r <= 0x10FFFF && !(0xD800 <= r <= 0xDFFF)

  predicate IsBytes(s: string) {
    forall k :: 0 <= k < |s| ==> s[k] as int < 256
  }

  function Byte(b: int): (c: char)
    requires 0 <= b < 256
    ensures c as int == b
  {
    b as char
  }

  function RuneLen(r: Rune): (n: nat)
    ensures 1 <= n <= 4
  {
    if r <= 0x7F then 1 else if r <= 0x7FF then 2 else if r <= 0xFFFF then 3 else 4
  }

  function EncodeRune(r: Rune): (s: string)
    ensures |s| == RuneLen(r)
  {
    if r <= 0x7F then [Byte(r)]
    else if r <= 0x7FF then [Byte(0xC0 + r / 64), Byte(0x80 + r % 64)]
    else if r <= 0xFFFF then [Byte(0xE0 + r / 4096), Byte(0x80 + r / 64 % 64), Byte(0x80 + r % 64)]
    else [Byte(0xF0 + r / 262144), Byte(0x80 + r / 4096 % 64), Byte(0x80 + r / 64 % 64), Byte(0x80 + r % 64)]
  }

  predicate Continues(s: string, k: nat, lo: int, hi: int) {
    k < |s| && lo <= s[k] as int <= hi
  }

  function Low6(c: char): int {
    c as int % 64
  }

  /** The first rune of a non-empty byte string and how many bytes it took; an ill-formed start reads as
      U+FFFD and takes one byte. */
  function DecodeRune(s: string): (r: (Rune, nat))
    requires s != []
    ensures 1 <= r.1 <= |s|
  {
    var b := s[0] as int;
    if b < 0x80 then (b, 1)
    else if 0xC2 <= b <= 0xDF && Continues(s, 1, 0x80, 0xBF) then ((b - 0xC0) * 64 + Low6(s[1]), 2)
    else if 0xE0 <= b <= 0xEF
            && Continues(s, 1, if b == 0xE0 then 0xA0 else 0x80, if b == 0xED then 0x9F else 0xBF)
            && Continues(s, 2, 0x80, 0xBF)
    then ((b - 0xE0) * 4096 + Low6(s[1]) * 64 + Low6(s[2]), 3)
    else if 0xF0 <= b <= 0xF4
            && Continues(s, 1, if b == 0xF0 then 0x90 else 0x80, if b == 0xF4 then 0x8F else 0xBF)
            && Continues(s, 2, 0x80, 0xBF) && Continues(s, 3, 0x80, 0xBF)
    then ((b - 0xF0) * 262144 + Low6(s[1]) * 4096 + Low6(s[2]) * 64 + Low6(s[3]), 4)
    else (RUNE_ERROR, 1)
  }

  lemma Digits(r: int)
    requires 0 <= r <= 0x10FFFF
    ensures r == r / 64 * 64 + r % 64
    ensures r / 64 == r / 4096 * 64 + r / 64 % 64
    ensures r / 4096 == r / 262144 * 64 + r / 4096 % 64
  {}

  /** Reading back what was written. */
  lemma DecodeEncode(r: Rune, rest: string)
    ensures DecodeRune(EncodeRune(r) + rest) == (r, RuneLen(r))
  {
    var s := EncodeRune(r) + rest;
    assert forall k :: 0 <= k < RuneLen(r) ==> s[k] == EncodeRune(r)[k];
    Digits(r);
    if RuneLen(r) == 2 {
      Read2(r, s);
    } else if RuneLen(r) == 3 {
      Read3(r, s);
    } else if RuneLen(r) == 4 {
      Read4(r, s);
    }
  }

  lemma Read2(r: Rune, s: string)
    requires 0x7F < r <= 0x7FF && |s| >= 2
    requires s[0] as int == 0xC0 + r / 64 && s[1] as int == 0x80 + r % 64
    ensures DecodeRune(s) == (r, 2)
  {}

  lemma Read3(r: Rune, s: string)
    requires 0x7FF < r <= 0xFFFF && |s| >= 3
    requires s[0] as int == 0xE0 + r / 4096 && s[1] as int == 0x80 + r / 64 % 64 && s[2] as int == 0x80 + r % 64
    ensures DecodeRune(s) == (r, 3)
  {
    Digits(r);
    assert Low6(s[1]) == r / 64 % 64 && Low6(s[2]) == r % 64;
  }

  lemma Read4(r: Rune, s: string)
    requires 0xFFFF < r && |s| >= 4
    requires s[0] as int == 0xF0 + r / 262144 && s[1] as int == 0x80 + r / 4096 % 64
    requires s[2] as int == 0x80 + r / 64 % 64 && s[3] as int == 0x80 + r % 64
    ensures DecodeRune(s) == (r, 4)
  {
    Digits(r);
    assert Low6(s[1]) == r / 4096 % 64 && Low6(s[2]) == r / 64 % 64 && Low6(s[3]) == r % 64;
  }

  /** The bytes begin with the encoding of some rune. */
  ghost predicate WellFormed(s: string) {
    exists r: Rune :: EncodeRune(r) <= s
  }

  /** Writing back what was read: the bytes that were taken are reproduced exactly when the start is well-formed,
      U+FFFD itself included; an ill-formed start, and only that, reads as U+FFFD in one byte. */
  lemma EncodeDecode(s: string)
    requires s != [] && IsBytes(s)
    ensures EncodeRune(DecodeRune(s).0) == s[..DecodeRune(s).1] <==> WellFormed(s)
    ensures DecodeRune(s) == (RUNE_ERROR, 1) <==> !WellFormed(s)
    ensures DecodeRune(s).0 == RUNE_ERROR ==> s[0] as int >= 0x80
  {
    var (r, n) := DecodeRune(s);
    if (r, n) == (RUNE_ERROR, 1) {
      IllFormed(s);
      assert |EncodeRune(r)| == 3;
    } else {
      Reproduces(s);
      assert EncodeRune(r) <= s;
    }
  }

  lemma IllFormed(s: string)
    requires s != [] && DecodeRune(s) == (RUNE_ERROR, 1)
    ensures !WellFormed(s)
  {
    forall w: Rune ensures !(EncodeRune(w) <= s) {
      if EncodeRune(w) <= s {
        var rest := s[RuneLen(w)..];
        assert s == EncodeRune(w) + rest;
        DecodeEncode(w, rest);
      }
    }
  }

  /** What does not read as an ill-formed byte is reproduced. */
  lemma Reproduces(s: string)
    requires s != [] && DecodeRune(s) != (RUNE_ERROR, 1)
    ensures EncodeRune(DecodeRune(s).0) == s[..DecodeRune(s).1]
  {
    var n := DecodeRune(s).1;
    if n == 2 {
      Rewrite2(s);
    } else if n == 3 {
      Rewrite3(s);
    } else if n == 4 {
      Rewrite4(s);
    }
  }

  lemma Rewrite2(s: string)
    requires s != [] && DecodeRune(s).1 == 2
    ensures EncodeRune(DecodeRune(s).0) == s[..2]
  {}

  lemma Rewrite3(s: string)
    requires s != [] && DecodeRune(s).1 == 3
    ensures EncodeRune(DecodeRune(s).0) == s[..3]
  {
    var r := DecodeRune(s).0;
    Positional(r, 0, s[0] as int - 0xE0, Low6(s[1]), Low6(s[2]));
    assert EncodeRune(r) == [s[0], s[1], s[2]];
  }

  lemma Rewrite4(s: string)
    requires s != [] && DecodeRune(s).1 == 4
    ensures EncodeRune(DecodeRune(s).0) == s[..4]
  {
    var r := DecodeRune(s).0;
    Positional(r, s[0] as int - 0xF0, Low6(s[1]), Low6(s[2]), Low6(s[3]));
    assert EncodeRune(r) == [s[0], s[1], s[2], s[3]];
  }

  lemma Positional(r: int, a: int, b: int, c: int, d: int)
    requires 0 <= a && 0 <= b < 64 && 0 <= c < 64 && 0 <= d < 64
    requires r == a * 262144 + b * 4096 + c * 64 + d
    ensures r % 64 == d && r / 64 == a * 4096 + b * 64 + c
    ensures r / 64 % 64 == c && r / 4096 == a * 64 + b
    ensures r / 4096 % 64 == b && r / 262144 == a
  {
    Low(r, a * 4096 + b * 64 + c, d);
    Low(a * 4096 + b * 64 + c, a * 64 + b, c);
    Low(a * 64 + b, a, b);
    assert r / 4096 == a * 64 + b;
    assert r / 262144 == a;
  }

  lemma Low(r: int, q: int, d: int)
    requires r == q * 64 + d && 0 <= d < 64
    ensures r / 64 == q && r % 64 == d
  {}
}
