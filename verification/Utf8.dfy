/** Which byte strings are UTF-8: the ones the JSON library agrees to serialise. The checker follows the byte
    ranges of RFC 3629, section 4; what it accepts is exactly what the encoding of section 3 produces. */
module Utf8 {
  import opened Bytes

  predicate IsContinuation(b: byte) { 0x80 <= b <= 0xBF }

  /** Length of the well-formed character a string starts with, 0 if it starts with none. */
  function CharLength(s: seq<byte>): (n: nat)
    ensures n <= |s| && n <= 4
    ensures forall i :: 0 < i < n ==> IsContinuation(s[i])
    ensures n > 0 ==> !IsContinuation(s[0])
  {
    if s == [] then 0
    else if s[0] <= 0x7F then 1
    else if 0xC2 <= s[0] <= 0xDF && |s| >= 2 && IsContinuation(s[1]) then 2
    else if 0xE0 <= s[0] <= 0xEF && |s| >= 3 && SecondByteOk(s[0], s[1]) && IsContinuation(s[2]) then 3
    else if && 0xF0 <= s[0] <= 0xF4 && |s| >= 4 && SecondByteOk(s[0], s[1])
            && IsContinuation(s[2]) && IsContinuation(s[3]) then 4
    else 0
  }

  /** The narrower range of the second byte after E0, ED, F0 and F4. */
  predicate SecondByteOk(lead: byte, second: byte) {
    && IsContinuation(second)
    && (lead == 0xE0 ==> second >= 0xA0)
    && (lead == 0xED ==> second <= 0x9F)
    && (lead == 0xF0 ==> second >= 0x90)
    && (lead == 0xF4 ==> second <= 0x8F)
  }

  predicate ValidUtf8(s: seq<byte>) {
    s == [] || (CharLength(s) > 0 && ValidUtf8(s[CharLength(s)..]))
  }

  /** Cutting a valid string leaves a valid one exactly when the cut does not fall inside a character. */
  lemma {:induction false} CutIsValid(s: seq<byte>, k: nat)
    requires ValidUtf8(s) && k <= |s|
    ensures ValidUtf8(s[..k]) <==> k == |s| || !IsContinuation(s[k])
    decreases |s|
  {
    var n := CharLength(s);
    if k >= n && s != [] {
      assert CharLength(s[..k]) == n;
      assert s[..k][n..] == s[n..][..k - n];
      CutIsValid(s[n..], k - n);
    } else if 0 < k {
      assert CharLength(s[..k]) == 0;
    }
  }

  // --- the encoding ---

  predicate IsSurrogate(c: int) { 0xD800 <= c <= 0xDFFF }

  type CodePoint = c: int | 0 <= c <= 0x10FFFF

  /** A Unicode scalar value. */
  type Scalar = c: CodePoint | !IsSurrogate(c)

  /** The bit layout of RFC 3629, section 3. */
  function Encode(c: Scalar): (b: seq<byte>)
    ensures 1 <= |b| <= 4
  {
    if c <= 0x7F then [c]
    else if c <= 0x7FF then [0xC0 + c / 0x40, 0x80 + c % 0x40]
    else if c <= 0xFFFF then [0xE0 + c / 0x1000, 0x80 + c / 0x40 % 0x40, 0x80 + c % 0x40]
    else [0xF0 + c / 0x4_0000, 0x80 + c / 0x1000 % 0x40, 0x80 + c / 0x40 % 0x40, 0x80 + c % 0x40]
  }

  function EncodeAll(cs: seq<Scalar>): seq<byte> {
    if cs == [] then [] else Encode(cs[0]) + EncodeAll(cs[1..])
  }

  /** A number from its base-64 digits. */
  function Digits64(d2: int, d1: int, d0: int): int { 0x1000 * d2 + 0x40 * d1 + d0 }

  lemma Digits64Unique(d2: int, d1: int, d0: int)
    requires 0 <= d1 < 0x40 && 0 <= d0 < 0x40
    ensures var c := Digits64(d2, d1, d0); c / 0x1000 == d2 && c / 0x40 % 0x40 == d1 && c % 0x40 == d0
    ensures Digits64(d2, d1, d0) / 0x40 == 0x40 * d2 + d1
  {
    var c := Digits64(d2, d1, d0);
    Split64(0x40 * d2 + d1, d0);
    Split64(d2, d1);
    assert c / 0x1000 == c / 0x40 / 0x40;
  }

  lemma Split64(high: int, low: int)
    requires 0 <= low < 0x40
    ensures (0x40 * high + low) / 0x40 == high && (0x40 * high + low) % 0x40 == low
  {
  }

  lemma Digits64Of(c: nat)
    ensures c == Digits64(c / 0x1000, c / 0x40 % 0x40, c % 0x40)
  {
    assert c / 0x40 / 0x40 == c / 0x1000;
  }

  /** The scalar value whose six-bit digits a character holds. */
  function DecodeChar(s: seq<byte>): int
    requires CharLength(s) > 0
  {
    var n := CharLength(s);
    if n == 1 then s[0]
    else if n == 2 then Digits64(0, s[0] as int - 0xC0, s[1] as int - 0x80)
    else if n == 3 then Digits64(s[0] as int - 0xE0, s[1] as int - 0x80, s[2] as int - 0x80)
    else Digits64(0x40 * (s[0] as int - 0xF0) + (s[1] as int - 0x80), s[2] as int - 0x80, s[3] as int - 0x80)
  }

  predicate IsDigit64(d: int) { 0 <= d < 0x40 }

  lemma ThreeBytes(d2: int, d1: int, d0: int, rest: seq<byte>)
    requires IsDigit64(d1) && IsDigit64(d0) && 0x800 <= Digits64(d2, d1, d0) <= 0xFFFF
    requires !IsSurrogate(Digits64(d2, d1, d0))
    ensures 0 <= d2 < 0x10 && CharLength([0xE0 + d2, 0x80 + d1, 0x80 + d0] + rest) == 3
  {
    var s: seq<byte> := [0xE0 + d2, 0x80 + d1, 0x80 + d0] + rest;
    assert s[0] == 0xE0 + d2 && s[1] == 0x80 + d1 && s[2] == 0x80 + d0;
    assert SecondByteOk(s[0], s[1]);
  }

  lemma FourBytes(d3: int, d2: int, d1: int, d0: int, rest: seq<byte>)
    requires IsDigit64(d2) && IsDigit64(d1) && IsDigit64(d0)
    requires 0xFFFF < Digits64(0x40 * d3 + d2, d1, d0) <= 0x10FFFF
    ensures 0 <= d3 <= 4 && CharLength([0xF0 + d3, 0x80 + d2, 0x80 + d1, 0x80 + d0] + rest) == 4
  {
    var s: seq<byte> := [0xF0 + d3, 0x80 + d2, 0x80 + d1, 0x80 + d0] + rest;
    assert s[0] == 0xF0 + d3 && s[1] == 0x80 + d2 && s[2] == 0x80 + d1 && s[3] == 0x80 + d0;
    assert SecondByteOk(s[0], s[1]);
  }

  lemma HighDigits(c: nat)
    ensures c / 0x1000 == 0x40 * (c / 0x4_0000) + c / 0x1000 % 0x40
  {
    assert c / 0x1000 / 0x40 == c / 0x4_0000;
  }

  /** An encoded scalar value is one character, whatever follows it. */
  lemma EncodedIsCharacter(c: Scalar, rest: seq<byte>)
    ensures CharLength(Encode(c) + rest) == |Encode(c)|
  {
    if c <= 0x7FF {
      assert c > 0x7F ==> (Encode(c) + rest)[1] == 0x80 + c % 0x40;
    } else if c <= 0xFFFF {
      hide CharLength, Digits64, IsSurrogate;
      Digits64Of(c);
      ThreeBytes(c / 0x1000, c / 0x40 % 0x40, c % 0x40, rest);
    } else {
      hide CharLength, Digits64, IsSurrogate;
      Digits64Of(c);
      HighDigits(c);
      FourBytes(c / 0x4_0000, c / 0x1000 % 0x40, c / 0x40 % 0x40, c % 0x40, rest);
    }
  }

  lemma TwoByteCharacter(s: seq<byte>)
    requires CharLength(s) == 2
    ensures var c := DecodeChar(s); 0x7F < c <= 0x7FF && Encode(c) == s[..2]
  {
    Split64(s[0] as int - 0xC0, s[1] as int - 0x80);
  }

  lemma ThreeByteRange(s: seq<byte>)
    requires CharLength(s) == 3
    ensures IsDigit64(s[1] as int - 0x80) && IsDigit64(s[2] as int - 0x80)
    ensures 0x7FF < DecodeChar(s) <= 0xFFFF && !IsSurrogate(DecodeChar(s))
  {
  }

  lemma ThreeByteCharacter(s: seq<byte>)
    requires CharLength(s) == 3
    ensures var c := DecodeChar(s); 0x7FF < c <= 0xFFFF && !IsSurrogate(c) && Encode(c) == s[..3]
  {
    ThreeByteRange(s);
    hide CharLength, IsSurrogate;
    Digits64Unique(s[0] as int - 0xE0, s[1] as int - 0x80, s[2] as int - 0x80);
    hide Digits64;
  }

  lemma FourByteRange(s: seq<byte>)
    requires CharLength(s) == 4
    ensures IsDigit64(s[1] as int - 0x80) && IsDigit64(s[2] as int - 0x80) && IsDigit64(s[3] as int - 0x80)
    ensures 0xFFFF < DecodeChar(s) <= 0x10FFFF
  {
  }

  lemma FourByteCharacter(s: seq<byte>)
    requires CharLength(s) == 4
    ensures var c := DecodeChar(s); 0xFFFF < c <= 0x10FFFF && Encode(c) == s[..4]
  {
    FourByteRange(s);
    hide CharLength;
    var high := 0x40 * (s[0] as int - 0xF0) + (s[1] as int - 0x80);
    Digits64Unique(high, s[2] as int - 0x80, s[3] as int - 0x80);
    Split64(s[0] as int - 0xF0, s[1] as int - 0x80);
    HighDigits(DecodeChar(s));
    hide Digits64;
  }

  /** A character encodes the scalar value it decodes to. */
  lemma CharacterIsEncoded(s: seq<byte>)
    requires CharLength(s) > 0
    ensures var c := DecodeChar(s); 0 <= c <= 0x10FFFF && !IsSurrogate(c) && Encode(c) == s[..CharLength(s)]
  {
    match CharLength(s) {
      case 2 => TwoByteCharacter(s);
      case 3 => ThreeByteCharacter(s);
      case 4 => FourByteCharacter(s);
      case _ => SingleByteCharacter(s);
    }
  }

  lemma SingleByteCharacter(s: seq<byte>)
    requires CharLength(s) == 1
    ensures var c := DecodeChar(s); c <= 0x7F && Encode(c) == s[..1]
  {
  }

  /** And decoding undoes the encoding. */
  lemma DecodedIsOriginal(c: Scalar)
    ensures CharLength(Encode(c)) == |Encode(c)| && DecodeChar(Encode(c)) == c
  {
    EncodedIsCharacter(c, []);
    assert Encode(c) + [] == Encode(c);
    hide CharLength;
    Digits64Of(c);
    HighDigits(c);
  }

  lemma {:induction false} EncodedIsValid(cs: seq<Scalar>)
    ensures ValidUtf8(EncodeAll(cs))
  {
    hide CharLength, Encode;
    if cs != [] {
      var s, rest := EncodeAll(cs), EncodeAll(cs[1..]);
      EncodedIsValid(cs[1..]);
      EncodedIsCharacter(cs[0], rest);
      assert s[CharLength(s)..] == rest;
    }
  }

  lemma {:induction false} ValidIsEncoded(s: seq<byte>) returns (cs: seq<Scalar>)
    requires ValidUtf8(s)
    ensures s == EncodeAll(cs)
    decreases |s|
  {
    hide CharLength, Encode;
    if s == [] {
      cs := [];
    } else {
      CharacterIsEncoded(s);
      var c := DecodeChar(s);
      var rest := ValidIsEncoded(s[CharLength(s)..]);
      cs := [c] + rest;
      assert cs[1..] == rest;
    }
  }

  /** The checker accepts exactly the encodings of sequences of scalar values. */
  lemma ValidExactlyWhenEncoded(s: seq<byte>)
    ensures ValidUtf8(s) <==> exists cs :: s == EncodeAll(cs)
  {
    if ValidUtf8(s) {
      var cs := ValidIsEncoded(s);
    }
    if exists cs :: s == EncodeAll(cs) {
      var cs :| s == EncodeAll(cs);
      EncodedIsValid(cs);
    }
  }

  lemma {:induction false} EncodeAllConcat(a: seq<Scalar>, b: seq<Scalar>)
    ensures EncodeAll(a + b) == EncodeAll(a) + EncodeAll(b)
  {
    hide Encode;
    if a == [] {
      assert a + b == b;
    } else {
      assert (a + b)[1..] == a[1..] + b;
      EncodeAllConcat(a[1..], b);
    }
  }

  /** No two sequences of scalar values have the same encoding. */
  lemma {:induction false} EncodingIsInjective(a: seq<Scalar>, b: seq<Scalar>)
    requires EncodeAll(a) == EncodeAll(b)
    ensures a == b
  {
    hide CharLength, Encode;
    if a == [] || b == [] {
      return;
    }
    var s := EncodeAll(a);
    EncodedIsCharacter(a[0], EncodeAll(a[1..]));
    EncodedIsCharacter(b[0], EncodeAll(b[1..]));
    assert Encode(a[0]) == s[..CharLength(s)] == Encode(b[0]);
    EncodeIsInjective(a[0], b[0]);
    assert EncodeAll(a[1..]) == s[CharLength(s)..] == EncodeAll(b[1..]);
    EncodingIsInjective(a[1..], b[1..]);
    assert a == [a[0]] + a[1..] && b == [b[0]] + b[1..];
  }

  lemma EncodeIsInjective(a: Scalar, b: Scalar)
    requires Encode(a) == Encode(b)
    ensures a == b
  {
    hide CharLength, Encode, DecodeChar;
    DecodedIsOriginal(a);
    DecodedIsOriginal(b);
  }

  // --- where a cut falls ---

  /** The first k bytes of an encoding are whole characters. */
  ghost predicate IsBoundary(cs: seq<Scalar>, k: nat) {
    exists n: nat :: n <= |cs| && |EncodeAll(cs[..n])| == k
  }

  lemma PrefixStep(cs: seq<Scalar>, n: nat)
    requires 0 < n <= |cs|
    ensures EncodeAll(cs[..n]) == Encode(cs[0]) + EncodeAll(cs[1..][..n - 1])
  {
    assert cs[..n][1..] == cs[1..][..n - 1];
  }

  lemma BoundaryStep(cs: seq<Scalar>, k: nat)
    requires cs != []
    ensures IsBoundary(cs, k) <==> k == 0 || (k >= |Encode(cs[0])| && IsBoundary(cs[1..], k - |Encode(cs[0])|))
  {
    hide Encode;
    var first := |Encode(cs[0])|;
    if IsBoundary(cs, k) {
      var n: nat :| n <= |cs| && |EncodeAll(cs[..n])| == k;
      if n > 0 {
        PrefixStep(cs, n);
        assert n - 1 <= |cs[1..]| && |EncodeAll(cs[1..][..n - 1])| == k - first;
      }
    }
    if k == 0 {
      assert |EncodeAll(cs[..0])| == 0;
    } else if k >= first && IsBoundary(cs[1..], k - first) {
      var n: nat :| n <= |cs[1..]| && |EncodeAll(cs[1..][..n])| == k - first;
      PrefixStep(cs, n + 1);
      assert |EncodeAll(cs[..n + 1])| == k;
    }
  }

  /** Boundaries are the places where no continuation byte follows. */
  lemma {:induction false} BoundaryByte(cs: seq<Scalar>, k: nat)
    requires k <= |EncodeAll(cs)|
    ensures IsBoundary(cs, k) <==> k == |EncodeAll(cs)| || !IsContinuation(EncodeAll(cs)[k])
  {
    hide CharLength, Encode, IsBoundary, IsContinuation;
    if cs == [] {
      assert IsBoundary(cs, 0) by { NothingIsBoundary(cs); }
    } else {
      BoundaryStep(cs, k);
      var s, first := EncodeAll(cs), |Encode(cs[0])|;
      EncodedIsCharacter(cs[0], EncodeAll(cs[1..]));
      if k >= first {
        BoundaryByte(cs[1..], k - first);
      }
    }
  }

  lemma NothingIsBoundary(cs: seq<Scalar>)
    ensures IsBoundary(cs, 0)
  {
    assert |EncodeAll(cs[..0])| == 0;
  }

  /** So cutting an encoding leaves UTF-8 exactly when it is cut between characters. */
  lemma CutBetweenCharacters(cs: seq<Scalar>, k: nat)
    requires k <= |EncodeAll(cs)|
    ensures ValidUtf8(EncodeAll(cs)[..k]) <==> IsBoundary(cs, k)
  {
    EncodedIsValid(cs);
    CutIsValid(EncodeAll(cs), k);
    BoundaryByte(cs, k);
  }
}
