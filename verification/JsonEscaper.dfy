/** Writing bytes as a JSON string: the scanner that copies untouched stretches
    lazily, the escaping it performs rune by rune, and a reader for JSON strings
    (section 7 of RFC 8259) that undoes it.
 */
module JsonEscaper {
  import opened Bytes
  import opened Utf8
  import opened Options

  const QUOTE: byte := 0x22
  const BACKSLASH: byte := 0x5C
  const CR: byte := 13

  // ---------------------------------------------------------------------------
  // Escaping one rune at a time

  function Hex(d: nat): byte
    requires d < 16
  {
    if d < 10 then 0x30 + d else 0x61 + (d - 10)
  }

  // The bytes below 128 that are copied as they are.
  predicate SafeAscii(b: byte) {
    0x20 <= b < 0x80 && b != BACKSLASH && b != QUOTE && b != 0x3C && b != 0x3E && b != 0x26
  }

  function EscapeUnit(c: nat): seq<byte>
    requires c < 0x10000
  {
    [BACKSLASH, 0x75, Hex(c / 4096), Hex(c / 256 % 16), Hex(c / 16 % 16), Hex(c % 16)]
  }

  // The text written for the first rune.
  function EscapeFirst(s: seq<byte>): seq<byte>
    requires |s| > 0
  {
    var d := Decode(s);
    if d.Invalid? then EscapeUnit(REPLACEMENT)
    else if d.code < 0x80 then
      if SafeAscii(s[0]) then [s[0]]
      else if s[0] == BACKSLASH || s[0] == QUOTE then [BACKSLASH, s[0]]
      else if s[0] == LF then [BACKSLASH, 0x6E]
      else if s[0] == CR then [BACKSLASH, 0x72]
      else EscapeUnit(s[0])
    else if d.code == 0x2028 || d.code == 0x2029 then EscapeUnit(d.code)
    else s[..d.size]
  }

  function Escape(s: seq<byte>): seq<byte> {
    if s == [] then [] else EscapeFirst(s) + Escape(s[Width(s)..])
  }

  // Whether the first rune is copied as it is.
  predicate CopiedAsIs(s: seq<byte>)
    requires |s| > 0
  {
    var d := Decode(s);
    d.Rune? && (if d.code < 0x80 then SafeAscii(s[0]) else d.code != 0x2028 && d.code != 0x2029)
  }

  lemma CopiedFirst(s: seq<byte>)
    requires |s| > 0 && CopiedAsIs(s)
    ensures EscapeFirst(s) == s[..Width(s)]
  {
  }

  // ---------------------------------------------------------------------------
  // The lazy scanner

  // What remains to be written at position i when s[start..i] is still uncopied.
  lemma FlushStep(s: seq<byte>, start: nat, i: nat)
    requires start <= i < |s|
    ensures var w := Width(s[i..]);
            && i + w <= |s|
            && s[i..][w..] == s[i + w..]
            && Escape(s[i..]) == EscapeFirst(s[i..]) + Escape(s[i + w..])
            && s[start..i + w] == s[start..i] + s[i..][..w]
  {
    var w := Width(s[i..]);
    assert s[i..][w..] == s[i + w..];
    assert s[start..i + w] == s[start..i] + s[i..][..w];
  }

  // The texts the scanner writes are those of the rune-by-rune escaper.
  lemma EscapeTexts(s: seq<byte>)
    requires |s| > 0
    ensures var b, d := s[0], Decode(s);
            && (b < 0x80 ==> Width(s) == 1 && CopiedAsIs(s) == SafeAscii(b))
            && (b < 0x80 && !SafeAscii(b) ==>
                  EscapeFirst(s) == if b == BACKSLASH || b == QUOTE then [BACKSLASH, b]
                                    else if b == LF then [BACKSLASH, 0x6E]
                                    else if b == CR then [BACKSLASH, 0x72]
                                    else [BACKSLASH, 0x75, 0x30, 0x30, Hex(b as int / 16), Hex(b as int % 16)])
            && (d.Invalid? ==> Width(s) == 1 && EscapeFirst(s) == [BACKSLASH, 0x75, 0x66, 0x66, 0x66, 0x64])
            && (b >= 0x80 && d.Rune? ==>
                  && Width(s) == d.size
                  && CopiedAsIs(s) == (d.code != 0x2028 && d.code != 0x2029)
                  && (!CopiedAsIs(s) ==>
                        EscapeFirst(s) == [BACKSLASH, 0x75, 0x32, 0x30, 0x32, Hex(d.code % 16)]))
  {
    if s[0] < 0x80 {
      assert EscapeUnit(s[0])[2..] == [0x30, 0x30, Hex(s[0] as int / 16), Hex(s[0] as int % 16)];
    } else if Decode(s).Rune? {
      hide EscapeUnit;
      EncodeDecode(s);
      WideUnits();
    } else {
      WideUnits();
    }
  }

  lemma WideUnits()
    ensures EscapeUnit(REPLACEMENT) == [BACKSLASH, 0x75, 0x66, 0x66, 0x66, 0x64]
    ensures EscapeUnit(0x2028) == [BACKSLASH, 0x75, 0x32, 0x30, 0x32, Hex(0x2028 % 16)]
    ensures EscapeUnit(0x2029) == [BACKSLASH, 0x75, 0x32, 0x30, 0x32, Hex(0x2029 % 16)]
  {
  }

  method WriteBytesAsString(buf: seq<byte>, s: seq<byte>) returns (out: seq<byte>)
    ensures out == buf + [QUOTE] + Escape(s) + [QUOTE]
  {
    hide Escape, EscapeFirst, Decode, CopiedAsIs, SafeAscii, EscapeUnit, Hex, Width;
    out := buf + [QUOTE];
    var start: nat, i: nat := 0, 0;
    assert s[0..] == s;
    while i < |s|
      invariant start <= i <= |s|
      invariant out + (s[start..i] + Escape(s[i..])) == buf + [QUOTE] + Escape(s)
    {
      FlushStep(s, start, i);
      EscapeTexts(s[i..]);
      var b := s[i];
      var text: seq<byte>;
      var size: nat := 1;
      if b < 0x80 {
        if SafeAscii(b) {
          CopyStep(s, start, i);
          i := i + 1;
          continue;
        }
        if b == BACKSLASH || b == QUOTE {
          text := [BACKSLASH, b];
        } else if b == LF {
          text := [BACKSLASH, 0x6E];
        } else if b == CR {
          text := [BACKSLASH, 0x72];
        } else {
          text := [BACKSLASH, 0x75, 0x30, 0x30, Hex(b as int / 16), Hex(b as int % 16)];
        }
      } else {
        var d := Decode(s[i..]);
        if d.Invalid? {
          text := [BACKSLASH, 0x75, 0x66, 0x66, 0x66, 0x64];
        } else if d.code == 0x2028 || d.code == 0x2029 {
          text := [BACKSLASH, 0x75, 0x32, 0x30, 0x32, Hex(d.code % 16)];
          size := d.size;
        } else {
          CopyStep(s, start, i);
          i := i + d.size;
          continue;
        }
      }
      WriteStep(out, s[start..i], text, Escape(s[i + size..]));
      if start < i {
        out := out + s[start..i];
      }
      out := out + text;
      i := i + size;
      start := i;
    }
    EscapeNothing(s);
    if start < |s| {
      out := out + s[start..];
    }
    out := out + [QUOTE];
  }

  lemma CopyStep(s: seq<byte>, start: nat, i: nat)
    requires start <= i < |s| && CopiedAsIs(s[i..])
    ensures i + Width(s[i..]) <= |s|
    ensures s[start..i] + Escape(s[i..]) == s[start..i + Width(s[i..])] + Escape(s[i + Width(s[i..])..])
  {
    hide Escape, EscapeFirst, CopiedAsIs, Width;
    FlushStep(s, start, i);
    CopiedFirst(s[i..]);
  }

  lemma WriteStep(out: seq<byte>, stretch: seq<byte>, text: seq<byte>, rest: seq<byte>)
    ensures out + (stretch + (text + rest)) == out + stretch + text + ([] + rest)
    ensures stretch == [] ==> out + stretch == out
  {
  }

  lemma EscapeNothing(s: seq<byte>)
    ensures s[|s|..] == [] && Escape(s[|s|..]) == []
  {
  }

  // ---------------------------------------------------------------------------
  // Reading a JSON string

  function HexValue(b: byte): (v: Option<nat>)
    ensures v.Some? ==> v.value < 16
  {
    if 0x30 <= b <= 0x39 then Some(b as int - 0x30)
    else if 0x61 <= b <= 0x66 then Some(b as int - 0x61 + 10)
    else if 0x41 <= b <= 0x46 then Some(b as int - 0x41 + 10)
    else None
  }

  // A code unit written as a backslash, a u and four hexadecimal digits.
  function ReadUnit(t: seq<byte>): (u: Option<nat>)
    ensures u.Some? ==> u.value < 0x10000 && |t| >= 6
  {
    if |t| < 6 || t[0] != BACKSLASH || t[1] != 0x75 then None
    else
      var a, b, c, d := HexValue(t[2]), HexValue(t[3]), HexValue(t[4]), HexValue(t[5]);
      if a.Some? && b.Some? && c.Some? && d.Some?
      then Some(a.value * 4096 + b.value * 256 + c.value * 16 + d.value)
      else None
  }

  // The bytes an escape stands for and its length.
  function ReadEscape(t: seq<byte>): (r: Option<(seq<byte>, nat)>)
    ensures r.Some? ==> 2 <= r.value.1 <= |t|
  {
    if |t| < 2 then None
    else
      match t[1]
      case 0x22 => Some(([QUOTE], 2))
      case 0x5C => Some(([BACKSLASH], 2))
      case 0x2F => Some(([0x2F], 2))
      case 0x62 => Some(([8], 2))
      case 0x66 => Some(([12], 2))
      case 0x6E => Some(([LF], 2))
      case 0x72 => Some(([CR], 2))
      case 0x74 => Some(([TAB], 2))
      case _ =>
        var u := ReadUnit(t);
        if u.None? then None
        else if 0xD800 <= u.value <= 0xDBFF then
          var low := ReadUnit(t[6..]);
          if low.Some? && 0xDC00 <= low.value <= 0xDFFF
          then Some((Encode(0x10000 + (u.value - 0xD800) * 1024 + (low.value - 0xDC00)), 12))
          else None
        else if 0xDC00 <= u.value <= 0xDFFF then None
        else Some((Encode(u.value), 6))
  }

  // The text after an opening quote, read up to the closing one: the content and what
  // follows the quote.
  function ReadString(t: seq<byte>): Option<(seq<byte>, seq<byte>)>
    decreases |t|
  {
    if t == [] || t[0] < 0x20 then None
    else if t[0] == QUOTE then Some(([], t[1..]))
    else if t[0] == BACKSLASH then
      var e := ReadEscape(t);
      if e.None? then None else Prepend(e.value.0, ReadString(t[e.value.1..]))
    else Prepend([t[0]], ReadString(t[1..]))
  }

  function Prepend(p: seq<byte>, r: Option<(seq<byte>, seq<byte>)>): Option<(seq<byte>, seq<byte>)> {
    if r.None? then None else Some((p + r.value.0, r.value.1))
  }

  // ---------------------------------------------------------------------------
  // Reading back what was written

  // The bytes a reader gets for the first rune: an invalid byte becomes U+FFFD.
  function CleanFirst(s: seq<byte>): seq<byte>
    requires |s| > 0
  {
    if Decode(s).Invalid? then Encode(REPLACEMENT) else s[..Width(s)]
  }

  function Clean(s: seq<byte>): seq<byte> {
    if s == [] then [] else CleanFirst(s) + Clean(s[Width(s)..])
  }

  // Stretches of ordinary bytes are read as they are.
  lemma {:induction false} ReadRaw(p: seq<byte>, rest: seq<byte>)
    requires forall i :: 0 <= i < |p| ==> p[i] >= 0x20 && p[i] != QUOTE && p[i] != BACKSLASH
    ensures ReadString(p + rest) == Prepend(p, ReadString(rest))
  {
    if p == [] {
      assert p + rest == rest;
      var r := ReadString(rest);
      assert r.Some? ==> [] + r.value.0 == r.value.0;
    } else {
      ReadRaw(p[1..], rest);
      assert (p + rest)[1..] == p[1..] + rest;
      var r := ReadString(rest);
      assert r.Some? ==> [p[0]] + (p[1..] + r.value.0) == p + r.value.0;
    }
  }

  lemma HexRoundTrip(d: nat)
    requires d < 16
    ensures HexValue(Hex(d)) == Some(d)
  {
  }

  lemma UnitRoundTrip(c: nat, rest: seq<byte>)
    requires c < 0x10000
    ensures ReadUnit(EscapeUnit(c) + rest) == Some(c)
  {
    hide Hex, HexValue;
    HexDigits(c);
    HexRoundTrip(c / 4096);
    HexRoundTrip(c / 256 % 16);
    HexRoundTrip(c / 16 % 16);
    HexRoundTrip(c % 16);
  }

  lemma HexDigits(c: nat)
    ensures c == c / 4096 * 4096 + (c / 256 % 16) * 256 + (c / 16 % 16) * 16 + c % 16
  {
    assert c / 16 / 16 == c / 256 && c / 256 / 16 == c / 4096;
  }

  lemma ReadEscapedUnit(c: nat, rest: seq<byte>)
    requires c < 0x10000 && Scalar(c)
    ensures ReadString(EscapeUnit(c) + rest) == Prepend(Encode(c), ReadString(rest))
  {
    hide Hex, ReadUnit, Encode;
    var t := EscapeUnit(c) + rest;
    UnitRoundTrip(c, rest);
    assert t[1] == 0x75;
    assert ReadEscape(t) == Some((Encode(c), 6));
    assert t[6..] == rest;
  }

  lemma ReadFirst(s: seq<byte>, rest: seq<byte>)
    requires |s| > 0
    ensures ReadString(EscapeFirst(s) + rest) == Prepend(CleanFirst(s), ReadString(rest))
  {
    var d := Decode(s);
    if d.Invalid? {
      ReadEscapedUnit(REPLACEMENT, rest);
    } else {
      EncodeDecode(s);
      if CopiedAsIs(s) {
        CopiedFirst(s);
        WideBytes(s);
        ReadRaw(s[..Width(s)], rest);
      } else if d.code < 0x80 {
        ReadEscapedAscii(s, rest);
      } else {
        ReadEscapedUnit(d.code, rest);
      }
    }
  }

  lemma ReadEscapedAscii(s: seq<byte>, rest: seq<byte>)
    requires |s| > 0 && s[0] < 0x80 && !SafeAscii(s[0])
    ensures ReadString(EscapeFirst(s) + rest) == Prepend(CleanFirst(s), ReadString(rest))
  {
    var b := s[0];
    var t := EscapeFirst(s) + rest;
    assert CleanFirst(s) == [b];
    if b == BACKSLASH || b == QUOTE || b == LF || b == CR {
      assert t[2..] == rest;
      assert ReadEscape(t) == Some(([b], 2));
    } else {
      ReadEscapedUnit(b, rest);
    }
  }

  // The bytes of a copied rune are ordinary.
  lemma WideBytes(s: seq<byte>)
    requires |s| > 0 && CopiedAsIs(s)
    ensures forall i :: 0 <= i < Width(s) ==>
              s[i] >= 0x20 && s[i] != QUOTE && s[i] != BACKSLASH && s[i] != 0x3C && s[i] != 0x3E && s[i] != 0x26
  {
  }

  // A JSON reader gets back exactly the bytes written, up to the closing quote, with
  // every invalid byte replaced.
  lemma {:induction false} ReadBack(s: seq<byte>, rest: seq<byte>)
    ensures ReadString(Escape(s) + [QUOTE] + rest) == Some((Clean(s), rest))
    decreases |s|
  {
    if s == [] {
      assert Escape(s) + [QUOTE] + rest == [QUOTE] + rest;
      assert ([QUOTE] + rest)[1..] == rest;
    } else {
      hide EscapeFirst, CleanFirst, Decode, Width;
      var tail := s[Width(s)..];
      ReadFirst(s, Escape(tail) + [QUOTE] + rest);
      ReadBack(tail, rest);
      assert Escape(s) + [QUOTE] + rest == EscapeFirst(s) + (Escape(tail) + [QUOTE] + rest);
    }
  }

  // The replacement changes nothing exactly on valid UTF-8.
  lemma {:induction false} CleanIff(s: seq<byte>)
    ensures Clean(s) == s <==> Valid(s)
    ensures |Clean(s)| >= |s|
    decreases |s|
  {
    if s != [] {
      var w := Width(s);
      CleanIff(s[w..]);
      assert s == s[..w] + s[w..];
      if Decode(s).Rune? {
        assert Clean(s) == s[..w] + Clean(s[w..]);
        if Clean(s) == s {
          assert Clean(s[w..]) == Clean(s)[w..] == s[w..];
        }
      } else {
        assert |Encode(REPLACEMENT)| == 3;
      }
    }
  }

  // Nothing a browser or a line reader could trip over is written: no control byte,
  // no angle bracket, no ampersand.
  lemma {:induction false} NothingUnsafe(s: seq<byte>)
    ensures forall i :: 0 <= i < |Escape(s)| ==>
              Escape(s)[i] >= 0x20 && Escape(s)[i] != 0x3C && Escape(s)[i] != 0x3E && Escape(s)[i] != 0x26
    decreases |s|
  {
    if s != [] {
      NothingUnsafe(s[Width(s)..]);
      FirstSafe(s);
    }
  }

  lemma FirstSafe(s: seq<byte>)
    requires |s| > 0
    ensures forall i :: 0 <= i < |EscapeFirst(s)| ==>
              EscapeFirst(s)[i] >= 0x20 && EscapeFirst(s)[i] != 0x3C && EscapeFirst(s)[i] != 0x3E && EscapeFirst(s)[i] != 0x26
  {
    if CopiedAsIs(s) {
      CopiedFirst(s);
      WideBytes(s);
    }
  }

  // Nor is a raw line or paragraph separator, U+2028 or U+2029.
  lemma {:induction false} NoRawSeparator(s: seq<byte>, i: nat)
    requires i + 3 <= |Escape(s)|
    ensures Escape(s)[i..i + 3] != Encode(0x2028) && Escape(s)[i..i + 3] != Encode(0x2029)
    decreases |s|
  {
    hide EscapeFirst, CopiedAsIs;
    var out := Escape(s);
    var first := EscapeFirst(s);
    var w := Width(s);
    assert out == first + Escape(s[w..]);
    if i >= |first| {
      NoRawSeparator(s[w..], i - |first|);
      assert out[i..i + 3] == Escape(s[w..])[i - |first|..i - |first| + 3];
    } else if out[i] == 0xE2 {
      LeadsAlone(s, i);
      NotSeparator(s);
      assert out[i..i + 3] == [s[0], s[1], s[2]];
    } else {
      assert out[i..i + 3][0] == out[i];
    }
  }

  lemma NotSeparator(s: seq<byte>)
    requires |s| >= 3 && CopiedAsIs(s) && s[0] == 0xE2
    ensures [s[0], s[1], s[2]] != Encode(0x2028) && [s[0], s[1], s[2]] != Encode(0x2029)
  {
  }

  // The lead byte 0xE2 is only written at the start of a copied rune of three bytes.
  lemma LeadsAlone(s: seq<byte>, i: nat)
    requires |s| > 0 && i < |EscapeFirst(s)| && EscapeFirst(s)[i] == 0xE2
    ensures i == 0 && CopiedAsIs(s) && Width(s) == 3 && EscapeFirst(s) == s[..3] == [s[0], s[1], s[2]]
  {
    if CopiedAsIs(s) {
      CopiedFirst(s);
    }
  }

  // ---------------------------------------------------------------------------
  // What is left alone

  // Every rune is a scalar value other than a control character, a quote, a backslash,
  // an angle bracket, an ampersand and the two separators.
  predicate Harmless(s: seq<byte>) {
    s == [] ||
    (Decode(s).Rune? && HarmlessRune(Decode(s).code) && Harmless(s[Width(s)..]))
  }

  predicate HarmlessRune(c: nat) {
    c >= 0x20 && c !in {0x22, 0x5C, 0x3C, 0x3E, 0x26, 0x2028, 0x2029}
  }

  lemma FirstLonger(s: seq<byte>)
    requires |s| > 0
    ensures |EscapeFirst(s)| >= Width(s)
    ensures |EscapeFirst(s)| == Width(s) <==> Decode(s).Rune? && HarmlessRune(Decode(s).code)
    ensures |EscapeFirst(s)| == Width(s) ==> EscapeFirst(s) == s[..Width(s)]
  {
    if Decode(s).Rune? {
      EncodeDecode(s);
    }
  }

  lemma {:induction false} EscapeLonger(s: seq<byte>)
    ensures |Escape(s)| >= |s|
    ensures |Escape(s)| == |s| <==> Harmless(s)
    ensures Harmless(s) ==> Escape(s) == s
    decreases |s|
  {
    if s != [] {
      FirstLonger(s);
      EscapeLonger(s[Width(s)..]);
      assert s == s[..Width(s)] + s[Width(s)..];
      hide EscapeFirst, Decode, HarmlessRune;
    }
  }

  // A text is written as it is exactly when it is harmless.
  lemma UnchangedIff(s: seq<byte>)
    ensures Escape(s) == s <==> Harmless(s)
  {
    EscapeLonger(s);
  }
}
