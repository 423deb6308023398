/**
 * Text and byte helpers shared by the model.
 *
 * - `Utf8` is the encoding Swift applies in `Data(someString.utf8)`: the upload
 *   body is built from such segments, so its bytes are defined through it.
 *   `Decode` is its inverse, and `DecodeEncode` proves the round trip.
 * - `Lower` is the letter-case folding that the search bar applies with
 *   `lowercased()`, restricted to ASCII.
 * - `Contains` is substring search (`String.contains`), proved equal to the
 *   existence of an occurrence.
 */
module Text {
  import opened Wrappers

  newtype byte = x: int | 0 <= x < 256

  /** `p` is a prefix of `s`. */
  predicate IsPrefix<T(==)>(p: seq<T>, s: seq<T>) {
    |p| <= |s| && s[..|p|] == p
  }

  /** `p` is a suffix of `s`. */
  predicate IsSuffix<T(==)>(p: seq<T>, s: seq<T>) {
    |p| <= |s| && s[|s| - |p|..] == p
  }

  // ---------------------------------------------------------------------
  // UTF-8
  // ---------------------------------------------------------------------

  /** A code point that is a Unicode scalar value (what a Dafny `char` holds). */
  predicate IsScalar(v: int) {
    (0 <= v < 0xD800) || (0xE000 <= v < 0x11_0000)
  }

  /** True when every character of `s` is 7-bit ASCII. */
  predicate IsAscii(s: string) {
    forall i | 0 <= i < |s| :: s[i] as int < 0x80
  }

  /** UTF-8 encoding of one scalar value (RFC 3629, section 3). */
  function EncodeChar(c: char): (r: seq<byte>)
    ensures 1 <= |r| <= 4
    ensures |r| == 1 <==> c as int < 0x80
    ensures |r| == 1 ==> r[0] as int == c as int
  {
    var cp := c as int;
    if cp < 0x80 then
      [cp as byte]
    else if cp < 0x800 then
      [(0xC0 + cp / 64) as byte, (0x80 + cp % 64) as byte]
    else if cp < 0x1_0000 then
      [(0xE0 + cp / 4096) as byte, (0x80 + (cp / 64) % 64) as byte, (0x80 + cp % 64) as byte]
    else
      [(0xF0 + cp / 262144) as byte, (0x80 + (cp / 4096) % 64) as byte,
       (0x80 + (cp / 64) % 64) as byte, (0x80 + cp % 64) as byte]
  }

  /** Concatenation of a sequence of byte strings. */
  function Flatten(xs: seq<seq<byte>>): seq<byte>
    decreases |xs|
  {
    if |xs| == 0 then [] else xs[0] + Flatten(xs[1..])
  }

  lemma {:induction false} FlattenAppend(xs: seq<seq<byte>>, ys: seq<seq<byte>>)
    ensures Flatten(xs + ys) == Flatten(xs) + Flatten(ys)
    decreases |xs|
  {
    if |xs| == 0 {
      assert xs + ys == ys;
    } else {
      assert (xs + ys)[0] == xs[0];
      assert (xs + ys)[1..] == xs[1..] + ys;
      FlattenAppend(xs[1..], ys);
    }
  }

  /** The encodings of the characters of `s`, one per character. */
  function EncodeEach(s: string): (r: seq<seq<byte>>)
    ensures |r| == |s|
    ensures forall i | 0 <= i < |s| :: r[i] == EncodeChar(s[i])
  {
    seq(|s|, i requires 0 <= i < |s| => EncodeChar(s[i]))
  }

  /** UTF-8 encoding of a string: the bytes of `Data(s.utf8)`. */
  function Utf8(s: string): seq<byte> {
    Flatten(EncodeEach(s))
  }

  /** The encoding of a non-empty string starts with the encoding of its first character. */
  lemma Utf8Cons(s: string)
    requires |s| > 0
    ensures Utf8(s) == EncodeChar(s[0]) + Utf8(s[1..])
  {
    assert EncodeEach(s)[1..] == EncodeEach(s[1..]);
  }

  /** Each character takes one to four bytes. */
  lemma {:induction false} Utf8Bounds(s: string)
    ensures |s| <= |Utf8(s)| <= 4 * |s|
    decreases |s|
  {
    if |s| > 0 {
      Utf8Cons(s);
      Utf8Bounds(s[1..]);
    }
  }

  /** Is `b` a continuation byte 10xxxxxx? */
  predicate IsTrail(b: byte) {
    0x80 <= b < 0xC0
  }

  /**
   * Decodes the character at the front of `bs`, returning it with the number
   * of bytes it occupies; None on a malformed, over-long or truncated sequence.
   */
  function DecodeChar(bs: seq<byte>): (r: Option<(char, nat)>)
    ensures r.Some? ==> 1 <= r.value.1 <= |bs| && r.value.1 <= 4
  {
    if |bs| == 0 then None
    else if bs[0] < 0x80 then
      Some((bs[0] as int as char, 1))
    else if 0xC0 <= bs[0] < 0xE0 && |bs| >= 2 && IsTrail(bs[1]) then
      var v := (bs[0] as int - 0xC0) * 64 + (bs[1] as int - 0x80);
      if 0x80 <= v then Some((v as char, 2)) else None
    else if 0xE0 <= bs[0] < 0xF0 && |bs| >= 3 && IsTrail(bs[1]) && IsTrail(bs[2]) then
      var v := (bs[0] as int - 0xE0) * 4096 + (bs[1] as int - 0x80) * 64 + (bs[2] as int - 0x80);
      if 0x800 <= v && IsScalar(v) then Some((v as char, 3)) else None
    else if 0xF0 <= bs[0] < 0xF8 && |bs| >= 4 && IsTrail(bs[1]) && IsTrail(bs[2]) && IsTrail(bs[3]) then
      var v := (bs[0] as int - 0xF0) * 262144 + (bs[1] as int - 0x80) * 4096
             + (bs[2] as int - 0x80) * 64 + (bs[3] as int - 0x80);
      if 0x1_0000 <= v && IsScalar(v) then Some((v as char, 4)) else None
    else None
  }

  /** Decodes a whole byte sequence; None if any character is malformed. */
  function Decode(bs: seq<byte>): Option<string>
    decreases |bs|
  {
    if |bs| == 0 then Some([])
    else match DecodeChar(bs)
      case None => None
      case Some((c, n)) =>
        match Decode(bs[n..])
        case None => None
        case Some(rest) => Some([c] + rest)
  }

  /** Decoding the encoding of one character gives it back, whatever follows. */
  lemma DecodeEncodeChar(c: char, rest: seq<byte>)
    ensures DecodeChar(EncodeChar(c) + rest) == Some((c, |EncodeChar(c)|))
  {
    var cp := c as int;
    if cp < 0x80 {
    } else if cp < 0x800 {
      DecodeTwo(c, rest);
    } else if cp < 0x1_0000 {
      DecodeThree(c, rest);
    } else {
      DecodeFour(c, rest);
    }
  }

  /** Splitting off the low six bits of a code point. */
  lemma Split6(x: int)
    requires 0 <= x
    ensures x == (x / 64) * 64 + x % 64 && 0 <= x % 64 < 64
  {
  }

  lemma DecodeTwo(c: char, rest: seq<byte>)
    requires 0x80 <= c as int < 0x800
    ensures DecodeChar(EncodeChar(c) + rest) == Some((c, 2))
  {
    var cp := c as int;
    var bs := EncodeChar(c) + rest;
    Split6(cp);
    assert bs[0] as int == 0xC0 + cp / 64 && bs[1] as int == 0x80 + cp % 64;
  }

  lemma DecodeThree(c: char, rest: seq<byte>)
    requires 0x800 <= c as int < 0x1_0000
    ensures DecodeChar(EncodeChar(c) + rest) == Some((c, 3))
  {
    var cp := c as int;
    var bs := EncodeChar(c) + rest;
    Split6(cp);
    Split6(cp / 64);
    assert cp / 4096 == (cp / 64) / 64;
    var v := (bs[0] as int - 0xE0) * 4096 + (bs[1] as int - 0x80) * 64 + (bs[2] as int - 0x80);
    assert bs[0] as int == 0xE0 + cp / 4096 && bs[1] as int == 0x80 + (cp / 64) % 64
        && bs[2] as int == 0x80 + cp % 64;
    assert v == cp;
  }

  lemma DecodeFour(c: char, rest: seq<byte>)
    requires 0x1_0000 <= c as int
    ensures DecodeChar(EncodeChar(c) + rest) == Some((c, 4))
  {
    var cp := c as int;
    var bs := EncodeChar(c) + rest;
    Split6(cp);
    Split6(cp / 64);
    Split6(cp / 4096);
    assert cp / 4096 == (cp / 64) / 64;
    assert cp / 262144 == (cp / 4096) / 64;
    assert 0xF0 <= bs[0] < 0xF8 && IsTrail(bs[1]) && IsTrail(bs[2]) && IsTrail(bs[3]);
    assert bs[0] as int == 0xF0 + cp / 262144 && bs[1] as int == 0x80 + (cp / 4096) % 64
        && bs[2] as int == 0x80 + (cp / 64) % 64 && bs[3] as int == 0x80 + cp % 64;
    var v := (bs[0] as int - 0xF0) * 262144 + (bs[1] as int - 0x80) * 4096
           + (bs[2] as int - 0x80) * 64 + (bs[3] as int - 0x80);
    assert v == cp;
  }

  /** `Decode` inverts `Utf8`: the encoding loses no information. */
  lemma {:induction false} DecodeEncode(s: string)
    ensures Decode(Utf8(s)) == Some(s)
    decreases |s|
  {
    if |s| > 0 {
      var e := EncodeChar(s[0]);
      Utf8Cons(s);
      DecodeEncodeChar(s[0], Utf8(s[1..]));
      assert Utf8(s)[|e|..] == Utf8(s[1..]);
      DecodeEncode(s[1..]);
      assert [s[0]] + s[1..] == s;
    }
  }

  /** Encoding distributes over concatenation, so a body may be encoded piece by piece. */
  lemma Utf8Append(a: string, b: string)
    ensures Utf8(a + b) == Utf8(a) + Utf8(b)
  {
    assert EncodeEach(a + b) == EncodeEach(a) + EncodeEach(b);
    FlattenAppend(EncodeEach(a), EncodeEach(b));
  }

  /** An ASCII string encodes to one byte per character, each equal to its code. */
  lemma {:induction false} Utf8Ascii(s: string)
    requires IsAscii(s)
    ensures |Utf8(s)| == |s|
    ensures forall i | 0 <= i < |s| :: Utf8(s)[i] as int == s[i] as int
    decreases |s|
  {
    if |s| > 0 {
      assert IsAscii(s[1..]) by {
        forall i | 0 <= i < |s| - 1 ensures s[1..][i] as int < 0x80 {
          assert s[1..][i] == s[i + 1];
        }
      }
      Utf8Ascii(s[1..]);
      Utf8Cons(s);
    }
  }

  // ---------------------------------------------------------------------
  // Case folding and substring search
  // ---------------------------------------------------------------------

  /** ASCII lowercase of one character; other characters are unchanged. */
  function LowerChar(c: char): (r: char)
    ensures 'A' <= c <= 'Z' ==> r as int == c as int + 32
    ensures !('A' <= c <= 'Z') ==> r == c
  {
    if 'A' <= c <= 'Z' then (c as int + 32) as char else c
  }

  /** `s.lowercased()`, restricted to the ASCII letters. */
  function Lower(s: string): (r: string)
    ensures |r| == |s|
    ensures forall i | 0 <= i < |s| :: r[i] == LowerChar(s[i])
  {
    seq(|s|, i requires 0 <= i < |s| => LowerChar(s[i]))
  }

  /** Lowercasing twice is lowercasing once. */
  lemma LowerIdempotent(s: string)
    ensures Lower(Lower(s)) == Lower(s)
  {
    forall i | 0 <= i < |s| ensures Lower(Lower(s))[i] == Lower(s)[i] {
      var c := s[i];
      if 'A' <= c <= 'Z' {
        assert !('A' <= LowerChar(c) <= 'Z');
      }
    }
  }

  /** `t` occurs in `s` starting at index `i`. */
  predicate OccursAt(s: string, t: string, i: int) {
    0 <= i && i + |t| <= |s| && s[i..i + |t|] == t
  }

  /** Substring search: does `t` occur anywhere in `s`? */
  function Contains(s: string, t: string): (b: bool)
    ensures b <==> exists i | 0 <= i <= |s| :: OccursAt(s, t, i)
    decreases |s|
  {
    if |t| > |s| then
      false
    else if s[..|t|] == t then
      assert OccursAt(s, t, 0);
      true
    else
      var r := Contains(s[1..], t);
      assert r ==> exists i | 0 <= i <= |s| :: OccursAt(s, t, i) by {
        if r {
          var j :| 0 <= j <= |s[1..]| && OccursAt(s[1..], t, j);
          assert s[1..][j..j + |t|] == s[j + 1..j + 1 + |t|];
          assert OccursAt(s, t, j + 1);
        }
      }
      assert (exists i | 0 <= i <= |s| :: OccursAt(s, t, i)) ==> r by {
        if exists i | 0 <= i <= |s| :: OccursAt(s, t, i) {
          var i :| 0 <= i <= |s| && OccursAt(s, t, i);
          assert i != 0;
          assert s[1..][i - 1..i - 1 + |t|] == s[i..i + |t|];
          assert OccursAt(s[1..], t, i - 1);
        }
      }
      r
  }

  /** Every string contains itself, and each of its prefixes. */
  lemma ContainsPrefix(s: string, t: string)
    requires |t| <= |s| && s[..|t|] == t
    ensures Contains(s, t)
  {
    assert OccursAt(s, t, 0);
  }

  /** Substring containment is transitive. */
  lemma ContainsTransitive(a: string, b: string, c: string)
    requires Contains(a, b) && Contains(b, c)
    ensures Contains(a, c)
  {
    var i :| 0 <= i <= |a| && OccursAt(a, b, i);
    var j :| 0 <= j <= |b| && OccursAt(b, c, j);
    assert a[i + j..i + j + |c|] == c by {
      forall k | 0 <= k < |c| ensures a[i + j..i + j + |c|][k] == c[k] {
        assert a[i + j + k] == a[i..i + |b|][j + k];
        assert b[j..j + |c|][k] == b[j + k];
      }
    }
    assert OccursAt(a, c, i + j);
  }
}
