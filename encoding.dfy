/**
 * How the application's strings are measured and encoded. A Dafny `string`
 * is a sequence of Unicode scalar values; JavaScript's `length` counts
 * UTF-16 code units instead, and bcrypt reads a password as its UTF-8
 * bytes. Both are written out here.
 */
module Encoding {

  /** The UTF-16 code units of one character: a character beyond U+FFFF takes a surrogate pair. */
  function Utf16Units(c: char): nat {
    if c <= '\U{FFFF}' then 1 else 2
  }

  /** `s.length`: the number of UTF-16 code units of `s`. */
  function Utf16Length(s: string): (n: nat)
    ensures |s| <= n <= 2 * |s|
  {
    if s == [] then 0 else Utf16Units(s[0]) + Utf16Length(s[1..])
  }

  /** Every character of `s` lies in the Basic Multilingual Plane. */
  predicate InBmp(s: string) {
    forall i :: 0 <= i < |s| ==> s[i] <= '\U{FFFF}'
  }

  /** `length` counts the characters exactly when none of them lies beyond the Basic Multilingual Plane. */
  lemma {:induction false} Utf16LengthBmp(s: string)
    ensures Utf16Length(s) == |s| <==> InBmp(s)
  {
    if s != [] {
      Utf16LengthBmp(s[1..]);
      assert InBmp(s) <==> s[0] <= '\U{FFFF}' && InBmp(s[1..]) by {
        if s[0] <= '\U{FFFF}' && InBmp(s[1..]) {
          forall i | 0 < i < |s| ensures s[i] <= '\U{FFFF}' {
            assert s[i] == s[1..][i - 1];
          }
        }
      }
    }
  }

  /** A byte. */
  type Byte = b: int | 0 <= b < 256

  /** The UTF-8 encoding of one character: one to four bytes, six bits of the code point in each continuation byte. */
  function Utf8Char(c: char): (b: seq<Byte>)
    ensures 1 <= |b| <= 4
  {
    var n := c as int;
    if n < 0x80 then [n]
    else if n < 0x800 then [0xC0 + n / 64, 0x80 + n % 64]
    else if n < 0x10000 then [0xE0 + n / 64 / 64, 0x80 + n / 64 % 64, 0x80 + n % 64]
    else [0xF0 + n / 64 / 64 / 64, 0x80 + n / 64 / 64 % 64, 0x80 + n / 64 % 64, 0x80 + n % 64]
  }

  /** The length of a UTF-8 sequence, read from its first byte alone. */
  function SequenceLength(lead: Byte): nat {
    if lead < 0x80 then 1 else if lead < 0xE0 then 2 else if lead < 0xF0 then 3 else 4
  }

  /** The code point that the bytes of one encoded character carry. */
  function DecodeChar(b: seq<Byte>): int
    requires 1 <= |b| <= 4
  {
    var b0, n := b[0] as int, |b|;
    if n == 1 then b0
    else if n == 2 then (b0 - 0xC0) * 64 + (b[1] as int - 0x80)
    else if n == 3 then ((b0 - 0xE0) * 64 + (b[1] as int - 0x80)) * 64 + (b[2] as int - 0x80)
    else (((b0 - 0xF0) * 64 + (b[1] as int - 0x80)) * 64 + (b[2] as int - 0x80)) * 64 + (b[3] as int - 0x80)
  }

  /** The first byte of an encoded character tells how many bytes it has. */
  lemma Utf8CharLength(c: char)
    ensures SequenceLength(Utf8Char(c)[0]) == |Utf8Char(c)|
  {
  }

  /** Decoding the bytes of a character gives its code point back. */
  lemma DecodeUtf8Char(c: char)
    ensures DecodeChar(Utf8Char(c)) == c as int
  {
    var n := c as int;
    var q := n / 64;
    var r := q / 64;
    assert n == q * 64 + n % 64;
    assert q == r * 64 + q % 64;
    assert r == r / 64 * 64 + r % 64;
  }

  /** Two characters with the same encoding are the same character. */
  lemma Utf8CharInjective(c: char, d: char)
    requires Utf8Char(c) == Utf8Char(d)
    ensures c == d
  {
    DecodeUtf8Char(c);
    DecodeUtf8Char(d);
  }

  /** The UTF-8 encoding of a string: its characters' encodings one after another. */
  function Utf8(s: string): (b: seq<Byte>)
    ensures |s| <= |b| <= 4 * |s|
  {
    if s == [] then [] else Utf8Char(s[0]) + Utf8(s[1..])
  }

  /** Encoding distributes over concatenation. */
  lemma {:induction false} Utf8Append(a: string, b: string)
    ensures Utf8(a + b) == Utf8(a) + Utf8(b)
  {
    if a == [] {
      assert a + b == b;
    } else {
      assert (a + b)[0] == a[0];
      assert (a + b)[1..] == a[1..] + b;
      Utf8Append(a[1..], b);
    }
  }

  /** Two strings with the same encoding are the same string: UTF-8 loses nothing. */
  lemma {:induction false} Utf8Injective(s: string, t: string)
    requires Utf8(s) == Utf8(t)
    ensures s == t
    decreases |s|
  {
    if s != [] {
      var bs := Utf8Char(s[0]);
      var bt := Utf8Char(t[0]);
      Utf8CharLength(s[0]);
      Utf8CharLength(t[0]);
      assert Utf8(s)[0] == bs[0] && Utf8(t)[0] == bt[0];
      assert Utf8(s)[..|bs|] == bs && Utf8(t)[..|bt|] == bt;
      Utf8CharInjective(s[0], t[0]);
      assert Utf8(s)[|bs|..] == Utf8(s[1..]);
      assert Utf8(t)[|bt|..] == Utf8(t[1..]);
      Utf8Injective(s[1..], t[1..]);
      assert s == [s[0]] + s[1..] && t == [t[0]] + t[1..];
    }
  }
}
