/** UTF-8 as section 3 and section 4 of RFC 3629 define it: encoding a scalar value,
    and decoding the first one of a byte string.  A byte that starts no well-formed
    sequence is invalid on its own.
 */
module Utf8 {
  import opened Bytes

  datatype Decoded = Rune(code: nat, size: nat) | Invalid

  const REPLACEMENT: nat := 0xFFFD

  predicate Scalar(c: nat) {
    c <= 0x10FFFF && !(0xD800 <= c <= 0xDFFF)
  }

  predicate Continuation(b: byte) {
    0x80 <= b <= 0xBF
  }

  function Encode(c: nat): (s: seq<byte>)
    requires Scalar(c)
    ensures 1 <= |s| <= 4
  {
    if c < 0x80 then [c]
    else if c < 0x800 then [0xC0 + c / 64, 0x80 + c % 64]
    else if c < 0x10000 then [0xE0 + c / 4096, 0x80 + c / 64 % 64, 0x80 + c % 64]
    else [0xF0 + c / 262144, 0x80 + c / 4096 % 64, 0x80 + c / 64 % 64, 0x80 + c % 64]
  }

  function Decode(s: seq<byte>): (d: Decoded)
    requires |s| > 0
    ensures d.Rune? ==> 1 <= d.size <= |s|
  {
    var b := s[0] as int;
    if b < 0x80 then Rune(b, 1)
    else if 0xC2 <= b <= 0xDF then
      if |s| >= 2 && Continuation(s[1]) then Rune((b - 0xC0) * 64 + (s[1] as int - 0x80), 2) else Invalid
    else if 0xE0 <= b <= 0xEF then
      if |s| >= 3 && (if b == 0xE0 then 0xA0 else 0x80) <= s[1] <= (if b == 0xED then 0x9F else 0xBF) && Continuation(s[2])
      then Rune((b - 0xE0) * 4096 + (s[1] as int - 0x80) * 64 + (s[2] as int - 0x80), 3) else Invalid
    else if 0xF0 <= b <= 0xF4 then
      if |s| >= 4 && (if b == 0xF0 then 0x90 else 0x80) <= s[1] <= (if b == 0xF4 then 0x8F else 0xBF)
         && Continuation(s[2]) && Continuation(s[3])
      then Rune((b - 0xF0) * 262144 + (s[1] as int - 0x80) * 4096 + (s[2] as int - 0x80) * 64 + (s[3] as int - 0x80), 4) else Invalid
    else Invalid
  }

  // How many bytes a scan moves past.
  function Width(s: seq<byte>): (n: nat)
    requires |s| > 0
    ensures 1 <= n <= |s|
  {
    var d := Decode(s);
    if d.Rune? then d.size else 1
  }

  // Decoding finds scalar values only and is undone by encoding.
  lemma EncodeDecode(s: seq<byte>)
    requires |s| > 0 && Decode(s).Rune?
    ensures Scalar(Decode(s).code)
    ensures Encode(Decode(s).code) == s[..Decode(s).size]
  {
    match Decode(s).size {
      case 1 => assert s[..1] == [s[0]];
      case 2 => EncodeTwo(s);
      case 3 => EncodeThree(s);
      case _ => EncodeFour(s);
    }
  }

  lemma EncodeTwo(s: seq<byte>)
    requires |s| > 0 && Decode(s).Rune? && Decode(s).size == 2
    ensures Scalar(Decode(s).code) && Encode(Decode(s).code) == s[..2]
  {
    Digits2(s[0] - 0xC0, s[1] - 0x80);
    assert s[..2] == [s[0], s[1]];
  }

  lemma EncodeThree(s: seq<byte>)
    requires |s| > 0 && Decode(s).Rune? && Decode(s).size == 3
    ensures Scalar(Decode(s).code) && Encode(Decode(s).code) == s[..3]
  {
    Digits3(s[0] - 0xE0, s[1] - 0x80, s[2] - 0x80);
    assert s[..3] == [s[0], s[1], s[2]];
  }

  lemma EncodeFour(s: seq<byte>)
    requires |s| > 0 && Decode(s).Rune? && Decode(s).size == 4
    ensures Scalar(Decode(s).code) && Encode(Decode(s).code) == s[..4]
  {
    Digits4(s[0] - 0xF0, s[1] - 0x80, s[2] - 0x80, s[3] - 0x80);
    assert s[..4] == [s[0], s[1], s[2], s[3]];
  }

  lemma Digits2(a: nat, b: nat)
    requires b < 64
    ensures (a * 64 + b) / 64 == a && (a * 64 + b) % 64 == b
  {
  }

  lemma Digits3(a: nat, b: nat, c: nat)
    requires b < 64 && c < 64
    ensures var v := a * 4096 + b * 64 + c; v / 4096 == a && v / 64 % 64 == b && v % 64 == c
  {
    Digits2(a * 64 + b, c);
    Digits2(a, b);
  }

  lemma Digits4(a: nat, b: nat, c: nat, d: nat)
    requires b < 64 && c < 64 && d < 64
    ensures var v := a * 262144 + b * 4096 + c * 64 + d;
            v / 262144 == a && v / 4096 % 64 == b && v / 64 % 64 == c && v % 64 == d
  {
    Digits2(a * 4096 + b * 64 + c, d);
    Digits3(a, b, c);
  }

  lemma DecodeTwo(c: nat, rest: seq<byte>)
    requires 0x80 <= c < 0x800
    ensures Decode([0xC0 + c / 64, 0x80 + c % 64] + rest) == Rune(c, 2)
  {
  }

  lemma DecodeThree(c: nat, rest: seq<byte>)
    requires 0x800 <= c < 0x10000 && Scalar(c)
    ensures Decode([0xE0 + c / 4096, 0x80 + c / 64 % 64, 0x80 + c % 64] + rest) == Rune(c, 3)
  {
    assert c == c / 4096 * 4096 + (c / 64 % 64) * 64 + c % 64;
  }

  lemma DecodeFour(c: nat, rest: seq<byte>)
    requires 0x10000 <= c && Scalar(c)
    ensures Decode([0xF0 + c / 262144, 0x80 + c / 4096 % 64, 0x80 + c / 64 % 64, 0x80 + c % 64] + rest) == Rune(c, 4)
  {
    FourDigits(c);
    DecodeDigits(c / 262144, c / 4096 % 64, c / 64 % 64, c % 64, rest);
  }

  lemma FourDigits(c: nat)
    requires 0x10000 <= c <= 0x10FFFF
    ensures var w, x, y, z := c / 262144, c / 4096 % 64, c / 64 % 64, c % 64;
            c == w * 262144 + x * 4096 + y * 64 + z && w <= 4 && (w == 0 ==> x >= 0x10) && (w == 4 ==> x <= 0x0F)
  {
    assert c / 64 / 64 == c / 4096 && c / 4096 / 64 == c / 262144;
  }

  lemma DecodeDigits(w: nat, x: nat, y: nat, z: nat, rest: seq<byte>)
    requires w <= 4 && x < 64 && y < 64 && z < 64 && (w == 0 ==> x >= 0x10) && (w == 4 ==> x <= 0x0F)
    ensures Decode([0xF0 + w, 0x80 + x, 0x80 + y, 0x80 + z] + rest) == Rune(w * 262144 + x * 4096 + y * 64 + z, 4)
  {
  }

  // Encoding a scalar value is undone by decoding, whatever follows.
  lemma DecodeEncode(c: nat, rest: seq<byte>)
    requires Scalar(c)
    ensures Decode(Encode(c) + rest) == Rune(c, |Encode(c)|)
  {
    if c < 0x80 {
      assert ([c] + rest)[0] == c;
    } else {
      hide Decode;
      if c < 0x800 {
        DecodeTwo(c, rest);
      } else if c < 0x10000 {
        DecodeThree(c, rest);
      } else {
        DecodeFour(c, rest);
      }
    }
  }

  function EncodeAll(cs: seq<nat>): seq<byte>
    requires forall i :: 0 <= i < |cs| ==> Scalar(cs[i])
  {
    if cs == [] then [] else Encode(cs[0]) + EncodeAll(cs[1..])
  }

  // No position of the scan is invalid.
  predicate Valid(s: seq<byte>) {
    s == [] || (Decode(s).Rune? && Valid(s[Width(s)..]))
  }

  // A byte string is valid exactly when it is the encoding of scalar values.
  lemma {:induction false} ValidIsEncoded(s: seq<byte>) returns (cs: seq<nat>)
    requires Valid(s)
    ensures forall i :: 0 <= i < |cs| ==> Scalar(cs[i])
    ensures s == EncodeAll(cs)
  {
    if s == [] {
      cs := [];
    } else {
      EncodeDecode(s);
      var rest := ValidIsEncoded(s[Width(s)..]);
      cs := [Decode(s).code] + rest;
      assert cs[1..] == rest;
      assert s == s[..Width(s)] + s[Width(s)..];
    }
  }

  lemma {:induction false} EncodedIsValid(cs: seq<nat>)
    requires forall i :: 0 <= i < |cs| ==> Scalar(cs[i])
    ensures Valid(EncodeAll(cs))
  {
    if cs != [] {
      DecodeEncode(cs[0], EncodeAll(cs[1..]));
      EncodedIsValid(cs[1..]);
      assert EncodeAll(cs)[|Encode(cs[0])|..] == EncodeAll(cs[1..]);
    }
  }
}
