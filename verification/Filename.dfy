/** The bound on a client's filename (boundedFilename in internal/upload/service.go): a cut at a
    character boundary of UTF-8, as section 3 of RFC 3629 defines it. */
module Filename {

  newtype byte = x: int | 0 <= x < 256

  const UPLOAD_MAX_FILENAME_BYTES := 255

  // ---------- UTF-8 ----------

  /** A byte 10xxxxxx. */
  predicate IsTail(b: byte) { 0x80 <= b <= 0xBF }

  /** utf8.RuneStart */
  predicate RuneStart(b: byte) { !IsTail(b) }

  /** The number of bytes of the character at the front of `s`, or 0 when there is no well-formed one:
      the productions UTF8-1 to UTF8-4. */
  function CharLength(s: seq<byte>): (n: nat)
    ensures n <= 4 && n <= |s|
  {
    if |s| >= 1 && s[0] <= 0x7F then 1
    else if |s| >= 2 && 0xC2 <= s[0] <= 0xDF && IsTail(s[1]) then 2
    else if |s| >= 3 && IsThree(s[0], s[1]) && IsTail(s[2]) then 3
    else if |s| >= 4 && IsFour(s[0], s[1]) && IsTail(s[2]) && IsTail(s[3]) then 4
    else 0
  }

  predicate IsThree(a: byte, b: byte) {
    || (a == 0xE0 && 0xA0 <= b <= 0xBF)
    || (0xE1 <= a <= 0xEC && IsTail(b))
    || (a == 0xED && 0x80 <= b <= 0x9F)
    || (0xEE <= a <= 0xEF && IsTail(b))
  }

  predicate IsFour(a: byte, b: byte) {
    || (a == 0xF0 && 0x90 <= b <= 0xBF)
    || (0xF1 <= a <= 0xF3 && IsTail(b))
    || (a == 0xF4 && 0x80 <= b <= 0x8F)
  }

  /** A sequence of well-formed characters. */
  predicate ValidUtf8(s: seq<byte>) {
    s == [] || (CharLength(s) > 0 && ValidUtf8(s[CharLength(s)..]))
  }

  // ---------- it is the encoding of characters ----------

  /** A Unicode scalar value: a code point that is no surrogate. */
  ghost predicate IsScalar(c: int) {
    0 <= c < 0xD800 || 0xE000 <= c <= 0x10FFFF
  }

  /** Its encoding, by the table of section 3. */
  ghost function Encode(c: int): (s: seq<byte>)
    requires IsScalar(c)
    ensures 1 <= |s| <= 4
  {
    if c < 0x80 then [c as byte]
    else if c < 0x800 then [(0xC0 + c / 64) as byte, (0x80 + c % 64) as byte]
    else if c < 0x1_0000 then
      [(0xE0 + c / 4096) as byte, (0x80 + c / 64 % 64) as byte, (0x80 + c % 64) as byte]
    else
      [(0xF0 + c / 262144) as byte, (0x80 + c / 4096 % 64) as byte, (0x80 + c / 64 % 64) as byte,
       (0x80 + c % 64) as byte]
  }

  ghost predicate AllScalars(cs: seq<int>) {
    forall i :: 0 <= i < |cs| ==> IsScalar(cs[i])
  }

  ghost function EncodeAll(cs: seq<int>): seq<byte>
    requires AllScalars(cs)
  {
    if cs == [] then [] else Encode(cs[0]) + EncodeAll(cs[1..])
  }

  lemma EncodedIsCharacter(c: int, rest: seq<byte>)
    requires IsScalar(c)
    ensures CharLength(Encode(c) + rest) == |Encode(c)|
  {
    if c < 0x800 {
      assert CharLength(Encode(c) + rest) == |Encode(c)|;
    } else {
      LongIsCharacter(c, rest);
    }
  }

  lemma LongIsCharacter(c: int, rest: seq<byte>)
    requires IsScalar(c) && c >= 0x800
    ensures CharLength(Encode(c) + rest) == |Encode(c)|
  {
    var s, n := Encode(c) + rest, |Encode(c)|;
    assert s[..n] == Encode(c);
    if c < 0x1_0000 {
      assert IsThree(s[0], s[1]) && IsTail(s[2]);
    } else {
      assert IsFour(s[0], s[1]) && IsTail(s[2]) && IsTail(s[3]);
    }
  }

  lemma SixBits(high: int, low: int)
    requires 0 <= low < 64
    ensures (high * 64 + low) / 64 == high && (high * 64 + low) % 64 == low
  {
  }

  /** Four digits to the base 64 are read off a number again. */
  lemma FourDigits(x: int, y: int, z: int, w: int)
    requires 0 <= x && 0 <= y < 64 && 0 <= z < 64 && 0 <= w < 64
    ensures var c := ((x * 64 + y) * 64 + z) * 64 + w;
            && c % 64 == w && c / 64 % 64 == z && c / 4096 % 64 == y && c / 262144 == x
            && c / 64 == (x * 64 + y) * 64 + z && c / 4096 == x * 64 + y
  {
    var c := ((x * 64 + y) * 64 + z) * 64 + w;
    SixBits((x * 64 + y) * 64 + z, w);
    SixBits(x * 64 + y, z);
    SixBits(x, y);
    assert c / 4096 == c / 64 / 64 && c / 262144 == c / 64 / 64 / 64;
  }

  lemma CharacterIsEncoded(s: seq<byte>) returns (c: int)
    requires CharLength(s) > 0
    ensures IsScalar(c) && Encode(c) == s[..CharLength(s)]
  {
    var n := CharLength(s);
    if n == 1 {
      c := s[0] as int;
    } else if n == 2 {
      var z, w := s[0] as int - 0xC0, s[1] as int - 0x80;
      FourDigits(0, 0, z, w);
      c := z * 64 + w;
    } else if n == 3 {
      var y, z, w := s[0] as int - 0xE0, s[1] as int - 0x80, s[2] as int - 0x80;
      FourDigits(0, y, z, w);
      c := (y * 64 + z) * 64 + w;
    } else {
      c := FourIsEncoded(s);
    }
  }

  lemma FourIsEncoded(s: seq<byte>) returns (c: int)
    requires CharLength(s) == 4
    ensures IsScalar(c) && Encode(c) == s[..4]
  {
    var x, y, z, w := s[0] as int - 0xF0, s[1] as int - 0x80, s[2] as int - 0x80, s[3] as int - 0x80;
    FourDigits(x, y, z, w);
    c := ((x * 64 + y) * 64 + z) * 64 + w;
  }

  lemma {:induction false} DecodeAll(s: seq<byte>) returns (cs: seq<int>)
    requires ValidUtf8(s)
    ensures AllScalars(cs) && EncodeAll(cs) == s
  {
    if s == [] {
      cs := [];
    } else {
      var n := CharLength(s);
      var c := CharacterIsEncoded(s);
      var rest := DecodeAll(s[n..]);
      cs := [c] + rest;
      assert s == s[..n] + s[n..];
    }
  }

  lemma {:induction false} EncodedIsValid(cs: seq<int>)
    requires AllScalars(cs)
    ensures ValidUtf8(EncodeAll(cs))
  {
    if cs != [] {
      EncodedIsValid(cs[1..]);
      var rest := EncodeAll(cs[1..]);
      EncodedIsCharacter(cs[0], rest);
      assert (Encode(cs[0]) + rest)[|Encode(cs[0])|..] == rest;
    }
  }

  /** The well-formed byte strings are exactly the encodings of sequences of scalar values. */
  lemma ValidUtf8Exactly(s: seq<byte>)
    ensures ValidUtf8(s) <==> exists cs :: AllScalars(cs) && EncodeAll(cs) == s
  {
    if ValidUtf8(s) {
      var cs := DecodeAll(s);
    }
    if cs :| AllScalars(cs) && EncodeAll(cs) == s {
      EncodedIsValid(cs);
    }
  }

  // ---------- cutting ----------

  /** A prefix of a valid string is valid exactly when what follows it is nothing or begins a character. */
  lemma {:induction false} ValidPrefixExactly(s: seq<byte>, k: nat)
    requires ValidUtf8(s) && k <= |s|
    ensures ValidUtf8(s[..k]) <==> k == |s| || RuneStart(s[k])
  {
    if s != [] {
      var n := CharLength(s);
      if k == 0 {
        assert s[..0] == [];
      } else if k < n {
        // Cut inside the first character: what is left of it is no character.
        assert CharLength(s[..k]) == 0;
        assert IsTail(s[k]);
      } else {
        ValidPrefixExactly(s[n..], k - n);
        assert CharLength(s[..k]) == n;
        assert s[..k][n..] == s[n..][..k - n];
        assert k < |s| ==> s[k] == s[n..][k - n];
      }
    }
  }

  /** In a valid string a character begins within any four bytes, or the string ends there. */
  lemma {:induction false} BoundaryNearby(s: seq<byte>, k: nat)
    requires ValidUtf8(s) && k < |s|
    ensures exists j: nat :: k - 3 <= j <= k && RuneStart(s[j])
  {
    var n := CharLength(s);
    if k < n {
      assert RuneStart(s[0]);
    } else {
      BoundaryNearby(s[n..], k - n);
      var j: nat :| (k - n) - 3 <= j <= k - n && RuneStart(s[n..][j]);
      assert RuneStart(s[n + j]);
    }
  }

  /** Where the loop stops for any bytes at all: the last place up to `from` that can begin a character,
      or the start. */
  predicate IsCut(name: seq<byte>, from: nat, cut: nat) {
    && cut <= from < |name|
    && (cut == 0 || RuneStart(name[cut]))
    && forall i :: cut < i <= from ==> IsTail(name[i])
  }

  /** boundedFilename */
  method BoundedFilename(name: seq<byte>) returns (bounded: seq<byte>)
    ensures bounded <= name && |bounded| <= 255
    ensures |name| <= 255 ==> bounded == name
    ensures |name| > 255 ==> IsCut(name, 255, |bounded|)
    ensures ValidUtf8(name) ==> LongestValid(name, bounded) && (bounded == name || |bounded| >= 252)
  {
    if |name| <= UPLOAD_MAX_FILENAME_BYTES {
      if ValidUtf8(name) {
        assert name[..|name|] == name;
      }
      return name;
    }
    var cut := UPLOAD_MAX_FILENAME_BYTES;
    while cut > 0 && !RuneStart(name[cut])
      invariant 0 <= cut <= UPLOAD_MAX_FILENAME_BYTES
      invariant forall i :: cut < i <= UPLOAD_MAX_FILENAME_BYTES ==> IsTail(name[i])
    {
      cut := cut - 1;
    }
    bounded := name[..cut];
    if ValidUtf8(name) {
      CutIsLongestValid(name, cut);
    }
  }

  /** `bounded` is the longest prefix of `name` that fits the cap and is valid UTF-8. */
  ghost predicate LongestValid(name: seq<byte>, bounded: seq<byte>) {
    && bounded <= name && |bounded| <= UPLOAD_MAX_FILENAME_BYTES && ValidUtf8(bounded)
    && forall k :: 0 <= k <= |name| && k <= UPLOAD_MAX_FILENAME_BYTES && ValidUtf8(name[..k]) ==> k <= |bounded|
  }

  lemma CutIsLongestValid(name: seq<byte>, cut: nat)
    requires ValidUtf8(name) && IsCut(name, UPLOAD_MAX_FILENAME_BYTES, cut)
    ensures LongestValid(name, name[..cut]) && cut >= UPLOAD_MAX_FILENAME_BYTES - 3
  {
    BoundaryNearby(name, UPLOAD_MAX_FILENAME_BYTES);
    ValidPrefixExactly(name, cut);
    forall k | 0 <= k <= UPLOAD_MAX_FILENAME_BYTES && ValidUtf8(name[..k]) ensures k <= cut {
      ValidPrefixExactly(name, k);
    }
  }
}
