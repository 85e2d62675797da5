/** Bytes, UTF-8 and JSON strings, as the logical backup format uses them.

    `Decode` is Go's utf8.DecodeRune (section 4 of RFC 3629). `Escape` is the simple escaper,
    one rune at a time; `Unescape` reads the inside of a JSON string (section 7 of RFC 8259)
    the way encoding/json does, and is written without reference to `Escape`. */
module BackupText {
  import opened Common

  type Byte = b: int | 0 <= b < 256
  type Text = seq<Byte>

  function Ascii(s: string): (t: Text)
    requires forall i :: 0 <= i < |s| ==> s[i] < 128 as char
    ensures |t| == |s|
    ensures forall i :: 0 <= i < |s| ==> t[i] == s[i] as int && t[i] < 128
  {
    seq(|s|, i requires 0 <= i < |s| => s[i] as int)
  }

  const QUOTE: Byte := 0x22
  const BACKSLASH: Byte := 0x5C

  // ---- UTF-8 ----

  predicate Continues(b: Byte) { 0x80 <= b <= 0xBF }

  /** Six more bits, from a continuation byte; `Top` and `Low` take them off again. */
  function Push(high: int, b: int): int { high * 64 + b - 0x80 }

  function Low(rune: int): Byte { 0x80 + rune % 64 }

  function Top(rune: int): int { rune / 64 }

  lemma PushInverse(high: int, b: int)
    requires 0x80 <= b <= 0xBF
    ensures Top(Push(high, b)) == high && Low(Push(high, b)) == b
  {
  }

  /** The first rune of `s` and how many bytes it takes, or nothing if `s` does not start
      with a well-formed UTF-8 sequence. */
  function Decode(s: Text): (r: Option<(int, nat)>)
    requires |s| > 0
    ensures r.Some? ==> 1 <= r.value.1 <= 4 && r.value.1 <= |s|
    ensures s[0] < 0x80 ==> r == Some((s[0], 1))
  {
    if s[0] < 0x80 then Some((s[0], 1))
    else if 0xC2 <= s[0] <= 0xDF && |s| >= 2 && Continues(s[1]) then
      Some((Push(s[0] - 0xC0, s[1]), 2))
    else if 0xE0 <= s[0] <= 0xEF && |s| >= 3 && Continues(s[1]) && Continues(s[2])
         && (s[0] == 0xE0 ==> s[1] >= 0xA0) && (s[0] == 0xED ==> s[1] <= 0x9F) then
      Some((Push(Push(s[0] - 0xE0, s[1]), s[2]), 3))
    else if 0xF0 <= s[0] <= 0xF4 && |s| >= 4 && Continues(s[1]) && Continues(s[2]) && Continues(s[3])
         && (s[0] == 0xF0 ==> s[1] >= 0x90) && (s[0] == 0xF4 ==> s[1] <= 0x8F) then
      Some((Push(Push(Push(s[0] - 0xF0, s[1]), s[2]), s[3]), 4))
    else None
  }

  predicate Scalar(rune: int) {
    0 <= rune < 0xD800 || 0xE000 <= rune <= 0x10FFFF
  }

  /** A Unicode scalar value as UTF-8. */
  function Encode(rune: int): Text
    requires Scalar(rune)
  {
    if rune < 0x80 then [rune]
    else if rune < 0x800 then [0xC0 + Top(rune), Low(rune)]
    else if rune < 0x10000 then [0xE0 + Top(Top(rune)), Low(Top(rune)), Low(rune)]
    else [0xF0 + Top(Top(Top(rune))), Low(Top(Top(rune))), Low(Top(rune)), Low(rune)]
  }

  /** Reading a rune and writing it again gives back its own bytes. */
  lemma EncodeDecode(s: Text)
    requires |s| > 0 && Decode(s).Some?
    ensures Scalar(Decode(s).value.0)
    ensures Encode(Decode(s).value.0) == s[..Decode(s).value.1]
  {
    var n := Decode(s).value.1;
    if n == 2 {
      Encode2(s[0] - 0xC0, s[1]);
      assert s[..2] == [s[0], s[1]];
    } else if n == 3 {
      Encode3(s[0] - 0xE0, s[1], s[2]);
      assert s[..3] == [s[0], s[1], s[2]];
    } else if n == 4 {
      Encode4(s[0] - 0xF0, s[1], s[2], s[3]);
      assert s[..4] == [s[0], s[1], s[2], s[3]];
    }
  }

  lemma Encode2(a: int, b: Byte)
    requires 2 <= a < 32 && Continues(b)
    ensures Scalar(Push(a, b)) && Encode(Push(a, b)) == [0xC0 + a, b]
  {
    PushInverse(a, b);
  }

  lemma Encode3(a: int, b: Byte, c: Byte)
    requires 0 <= a < 16 && Continues(b) && Continues(c)
    requires (a == 0 ==> b >= 0xA0) && (a == 13 ==> b <= 0x9F)
    ensures Scalar(Push(Push(a, b), c)) && Encode(Push(Push(a, b), c)) == [0xE0 + a, b, c]
  {
    PushInverse(a, b);
    PushInverse(Push(a, b), c);
  }

  lemma Encode4(a: int, b: Byte, c: Byte, d: Byte)
    requires 0 <= a < 5 && Continues(b) && Continues(c) && Continues(d)
    requires (a == 0 ==> b >= 0x90) && (a == 4 ==> b <= 0x8F)
    ensures Scalar(Push(Push(Push(a, b), c), d)) && Encode(Push(Push(Push(a, b), c), d)) == [0xF0 + a, b, c, d]
  {
    PushInverse(a, b);
    PushInverse(Push(a, b), c);
    PushInverse(Push(Push(a, b), c), d);
  }

  /** And the other way round, for every scalar value, whatever follows it. */
  lemma DecodeTwo(a: int, b: Byte, rest: Text)
    requires 2 <= a < 32 && Continues(b)
    ensures Decode([0xC0 + a, b] + rest) == Some((Push(a, b), 2))
  {
  }

  lemma DecodeThree(a: int, b: Byte, c: Byte, rest: Text)
    requires 0 <= a < 16 && Continues(b) && Continues(c)
    requires (a == 0 ==> b >= 0xA0) && (a == 0xD ==> b <= 0x9F)
    ensures Decode([0xE0 + a, b, c] + rest) == Some((Push(Push(a, b), c), 3))
  {
  }

  lemma DecodeFour(a: int, b: Byte, c: Byte, d: Byte, rest: Text)
    requires 0 <= a <= 4 && Continues(b) && Continues(c) && Continues(d)
    requires (a == 0 ==> b >= 0x90) && (a == 4 ==> b <= 0x8F)
    ensures Decode([0xF0 + a, b, c, d] + rest) == Some((Push(Push(Push(a, b), c), d), 4))
  {
  }

  lemma Split64(x: int)
    requires x >= 0
    ensures x == 64 * Top(x) + (Low(x) - 0x80) && Continues(Low(x)) && Top(x) >= 0 && Push(Top(x), Low(x)) == x
  {
  }

  lemma ThreeShape(rune: int, a: int, l: int, b: int, m: int)
    requires Scalar(rune) && 0x800 <= rune < 0x10000
    requires rune == 64 * a + l && a == 64 * b + m && 0 <= l < 64 && 0 <= m < 64
    ensures 0 <= b < 16 && (b == 0 ==> m >= 0x20) && (b == 0xD ==> m <= 0x1F)
  {
  }

  lemma FourShape(rune: int, a: int, l: int, b: int, m: int, c: int, n: int)
    requires Scalar(rune) && 0x10000 <= rune
    requires rune == 64 * a + l && a == 64 * b + m && b == 64 * c + n && 0 <= l < 64 && 0 <= m < 64 && 0 <= n < 64
    ensures 0 <= c <= 4 && (c == 0 ==> n >= 0x10) && (c == 4 ==> n <= 0x0F)
  {
  }

  lemma DecodeEncodeTwo(rune: int, rest: Text)
    requires 0x80 <= rune < 0x800
    ensures Decode(Encode(rune) + rest) == Some((rune, 2)) && |Encode(rune)| == 2
  {
    Split64(rune);
    DecodeTwo(Top(rune), Low(rune), rest);
  }

  lemma DecodeEncodeThree(rune: int, rest: Text)
    requires Scalar(rune) && 0x800 <= rune < 0x10000
    ensures Decode(Encode(rune) + rest) == Some((rune, 3)) && |Encode(rune)| == 3
  {
    var a := Top(rune);
    Split64(rune);
    Split64(a);
    ThreeShape(rune, a, Low(rune) - 0x80, Top(a), Low(a) - 0x80);
    DecodeThree(Top(a), Low(a), Low(rune), rest);
  }

  /** Four bytes, whatever the quotients and remainders are that they come from. */
  lemma FourBytes(rune: int, a: int, l: Byte, b: int, m: Byte, c: int, n: Byte, rest: Text)
    requires Scalar(rune) && 0x10000 <= rune
    requires rune == 64 * a + (l - 0x80) && a == 64 * b + (m - 0x80) && b == 64 * c + (n - 0x80)
    requires Continues(l) && Continues(m) && Continues(n)
    ensures 0 <= c <= 4 && Decode([0xF0 + c, n, m, l] + rest) == Some((rune, 4))
  {
    FourShape(rune, a, l - 0x80, b, m - 0x80, c, n - 0x80);
    DecodeFour(c, n, m, l, rest);
  }

  lemma DecodeEncodeFour(rune: int, rest: Text)
    requires Scalar(rune) && 0x10000 <= rune
    ensures Decode(Encode(rune) + rest) == Some((rune, 4)) && |Encode(rune)| == 4
  {
    var a, b := Top(rune), Top(Top(rune));
    Split64(rune);
    Split64(a);
    Split64(b);
    FourBytes(rune, a, Low(rune), b, Low(a), Top(b), Low(b), rest);
  }

  lemma DecodeEncode(rune: int, rest: Text)
    requires Scalar(rune)
    ensures Decode(Encode(rune) + rest) == Some((rune, |Encode(rune)|))
  {
    if rune >= 0x10000 {
      DecodeEncodeFour(rune, rest);
    } else if rune >= 0x800 {
      DecodeEncodeThree(rune, rest);
    } else if rune >= 0x80 {
      DecodeEncodeTwo(rune, rest);
    }
  }

  /** What follows a rune does not change how it is read. */
  lemma DecodeLocal(s: Text, rest: Text)
    requires |s| > 0 && Decode(s).Some?
    ensures Decode(s[..Decode(s).value.1] + rest) == Decode(s)
  {
    var n := Decode(s).value.1;
    var t := s[..n] + rest;
    assert forall i :: 0 <= i < n ==> t[i] == s[i];
  }

  predicate ValidUtf8(s: Text) {
    s == [] || (Decode(s).Some? && ValidUtf8(s[Decode(s).value.1..]))
  }

  const REPLACEMENT: Text := [0xEF, 0xBF, 0xBD]  // U+FFFD

  /** The text with every byte that is not part of a well-formed sequence replaced. */
  function Sanitize(s: Text): Text {
    if s == [] then []
    else
      match Decode(s)
      case Some((_, n)) => s[..n] + Sanitize(s[n..])
      case None => REPLACEMENT + Sanitize(s[1..])
  }

  /** Sanitizing changes nothing exactly when there is nothing to replace. */
  lemma {:induction false} SanitizeValid(s: Text)
    ensures |Sanitize(s)| >= |s|
    ensures ValidUtf8(s) <==> Sanitize(s) == s
  {
    if s != [] {
      match Decode(s)
      case Some((_, n)) =>
        SanitizeValid(s[n..]);
        assert s == s[..n] + s[n..];
        if Sanitize(s) == s {
          assert Sanitize(s)[n..] == s[n..];
        }
      case None =>
        SanitizeValid(s[1..]);
    }
  }

  lemma ValidStep(front: Text, rest: Text)
    requires front != [] && Decode(front).Some? && Decode(front).value.1 == |front| && ValidUtf8(rest)
    ensures ValidUtf8(front + rest)
  {
    DecodeLocal(front, rest);
    assert front[..|front|] == front && (front + rest)[|front|..] == rest;
  }

  lemma {:induction false} ValidConcat(a: Text, b: Text)
    requires ValidUtf8(a) && ValidUtf8(b)
    ensures ValidUtf8(a + b)
  {
    if a == [] {
      assert a + b == b;
    } else {
      var n := Decode(a).value.1;
      ValidConcat(a[n..], b);
      FirstRuneAlone(a);
      ValidStep(a[..n], a[n..] + b);
      Regroup(a, n, b);
    }
  }

  lemma FirstRuneAlone(s: Text)
    requires |s| > 0 && Decode(s).Some?
    ensures Decode(s[..Decode(s).value.1]) == Decode(s)
  {
    DecodeLocal(s, []);
    assert s[..Decode(s).value.1] + [] == s[..Decode(s).value.1];
  }

  lemma Regroup(a: Text, n: nat, b: Text)
    requires n <= |a|
    ensures a[..n] + (a[n..] + b) == a + b
  {
  }

  lemma {:induction false} ValidAscii(s: Text)
    requires forall i :: 0 <= i < |s| ==> s[i] < 128
    ensures ValidUtf8(s)
  {
    if s != [] {
      ValidAscii(s[1..]);
    }
  }

  lemma {:induction false} SanitizedIsValid(s: Text)
    ensures ValidUtf8(Sanitize(s))
  {
    if s != [] {
      match Decode(s)
      case Some((_, n)) =>
        SanitizedIsValid(s[n..]);
        FirstRuneIsValid(s);
        ValidConcat(s[..n], Sanitize(s[n..]));
      case None =>
        SanitizedIsValid(s[1..]);
        assert REPLACEMENT[3..] == [];
        ValidConcat(REPLACEMENT, Sanitize(s[1..]));
    }
  }

  // ---- writing a JSON string ----

  function HexDigit(d: int): Byte
    requires 0 <= d < 16
  {
    if d < 10 then 0x30 + d else 0x61 + d - 10
  }

  /** The letter of a two-character escape, if the byte has one. */
  function EscapeLetter(b: Byte): Option<Byte> {
    if b == 0x5C || b == 0x22 then Some(b)
    else if b == 0x08 then Some(0x62)
    else if b == 0x0C then Some(0x66)
    else if b == 0x0A then Some(0x6E)
    else if b == 0x0D then Some(0x72)
    else if b == 0x09 then Some(0x74)
    else None
  }

  /** Written as \u00XX: the other control characters, and <, > and &. */
  predicate NeedsHex(b: Byte) {
    b < 0x20 || b == 0x3C || b == 0x3E || b == 0x26
  }

  function HexEscape(b: Byte): Text {
    [0x5C, 0x75, 0x30, 0x30, HexDigit(b / 16), HexDigit(b % 16)]
  }

  function EscapeByte(b: Byte): (t: Text)
    requires b < 0x80
    ensures |t| > 0
  {
    if EscapeLetter(b).Some? then [BACKSLASH, EscapeLetter(b).value]
    else if NeedsHex(b) then HexEscape(b)
    else [b]
  }

  const U2028: Text := [0x5C, 0x75, 0x32, 0x30, 0x32, 0x38]
  const U2029: Text := [0x5C, 0x75, 0x32, 0x30, 0x32, 0x39]
  const UFFFD: Text := [0x5C, 0x75, 0x66, 0x66, 0x66, 0x64]

  /** The escaped form of a rune of two bytes or more. */
  function EscapeRune(rune: int, bytes: Text): Text {
    if rune == 0x2028 then U2028 else if rune == 0x2029 then U2029 else bytes
  }

  function Escape(s: Text): Text {
    if s == [] then []
    else if s[0] < 0x80 then EscapeByte(s[0]) + Escape(s[1..])
    else
      match Decode(s)
      case Some((rune, n)) => EscapeRune(rune, s[..n]) + Escape(s[n..])
      case None => UFFFD + Escape(s[1..])
  }

  function JsonString(s: Text): Text {
    [QUOTE] + Escape(s) + [QUOTE]
  }

  /** Two characters where there is a short form, four hexadecimal digits otherwise. */
  lemma TheEscapes()
    ensures EscapeByte(0x22) == Ascii("\\\"") && EscapeByte(0x5C) == Ascii("\\\\")
    ensures EscapeByte(0x08) == Ascii("\\b") && EscapeByte(0x0C) == Ascii("\\f") && EscapeByte(0x0A) == Ascii("\\n")
    ensures EscapeByte(0x0D) == Ascii("\\r") && EscapeByte(0x09) == Ascii("\\t")
    ensures EscapeByte(0x00) == Ascii("\\u0000") && EscapeByte(0x1F) == Ascii("\\u001f")
    ensures EscapeByte(0x3C) == Ascii("\\u003c") && EscapeByte(0x3E) == Ascii("\\u003e") && EscapeByte(0x26) == Ascii("\\u0026")
    ensures forall b: Byte :: 0x20 <= b < 0x80 && b != 0x22 && b != 0x5C && b != 0x3C && b != 0x3E && b != 0x26 ==> EscapeByte(b) == [b]
  {
  }

  /** The line and paragraph separators, U+2028 and U+2029, in UTF-8. */
  predicate SeparatorAt(t: Text, i: int) {
    0 <= i <= |t| - 3 && t[i] == 0xE2 && t[i + 1] == 0x80 && (t[i + 2] == 0xA8 || t[i + 2] == 0xA9)
  }

  /** Fit for a script in a page: no control character, nothing that could open a tag or an
      entity, and no separator. */
  ghost predicate FitForAPage(t: Text) {
    && (forall i :: 0 <= i < |t| ==> t[i] >= 0x20 && t[i] != '<' as int && t[i] != '>' as int && t[i] != '&' as int)
    && forall i :: !SeparatorAt(t, i)
  }

  /** A separator behind a piece that is ASCII or one rune is in the one or in the other. */
  lemma SeparatorIsIn(piece: Text, rest: Text, i: int)
    requires (forall j :: 0 <= j < |piece| ==> piece[j] < 0x80) || (piece != [] && Decode(piece).Some? && Decode(piece).value.1 == |piece|)
    requires SeparatorAt(piece + rest, i)
    ensures SeparatorAt(piece, i) || SeparatorAt(rest, i - |piece|)
  {
    if i < |piece| {
      assert piece[i] == 0xE2;
    }
  }

  lemma FitPiece(piece: Text, rest: Text)
    requires FitForAPage(piece) && FitForAPage(rest)
    requires (forall i :: 0 <= i < |piece| ==> piece[i] < 0x80) || (piece != [] && Decode(piece).Some? && Decode(piece).value.1 == |piece|)
    ensures FitForAPage(piece + rest)
  {
    forall i ensures SeparatorAt(piece + rest, i) ==> SeparatorAt(piece, i) || SeparatorAt(rest, i - |piece|) {
      if SeparatorAt(piece + rest, i) {
        SeparatorIsIn(piece, rest, i);
      }
    }
  }

  lemma {:induction false} EscapedIsFit(s: Text)
    ensures FitForAPage(Escape(s))
  {
    if s != [] {
      if s[0] < 0x80 {
        EscapedIsFit(s[1..]);
        ByteIsFit(s[0]);
        FitPiece(EscapeByte(s[0]), Escape(s[1..]));
      } else if Decode(s).Some? {
        var (rune, n) := Decode(s).value;
        EscapedIsFit(s[n..]);
        FirstRuneAlone(s);
        RuneIsFit(s);
        FitPiece(EscapeRune(rune, s[..n]), Escape(s[n..]));
      } else {
        EscapedIsFit(s[1..]);
        FitPiece(UFFFD, Escape(s[1..]));
      }
    }
  }

  lemma ByteIsFit(b: Byte)
    requires b < 0x80
    ensures FitForAPage(EscapeByte(b)) && forall i :: 0 <= i < |EscapeByte(b)| ==> EscapeByte(b)[i] < 0x80
  {
  }

  lemma RuneIsFit(s: Text)
    requires |s| > 0 && s[0] >= 0x80 && Decode(s).Some?
    ensures FitForAPage(EscapeRune(Decode(s).value.0, s[..Decode(s).value.1]))
  {
    var (rune, n) := Decode(s).value;
    forall i ensures !SeparatorAt(s[..n], i) || rune == 0x2028 || rune == 0x2029 {
      if SeparatorAt(s[..n], i) {
        assert i == 0 && s[0] == 0xE2 && s[1] == 0x80;
      }
    }
  }

  // ---- reading one ----

  function HexValue(b: Byte): (d: Option<int>)
    ensures d.Some? ==> 0 <= d.value < 16
  {
    if 0x30 <= b <= 0x39 then Some(b - 0x30)
    else if 0x61 <= b <= 0x66 then Some(b - 0x61 + 10)
    else if 0x41 <= b <= 0x46 then Some(b - 0x41 + 10)
    else None
  }

  /** The code unit of a \uXXXX escape at the start of `s`. */
  function CodeUnit(s: Text): (u: Option<int>)
    ensures u.Some? ==> |s| >= 6 && 0 <= u.value < 0x10000
  {
    if |s| >= 6 && s[0] == BACKSLASH && s[1] == 0x75
       && HexValue(s[2]).Some? && HexValue(s[3]).Some? && HexValue(s[4]).Some? && HexValue(s[5]).Some? then
      Some(Nibble(Nibble(Nibble(HexValue(s[2]).value, HexValue(s[3]).value), HexValue(s[4]).value), HexValue(s[5]).value))
    else None
  }

  function Nibble(high: int, low: int): int { high * 16 + low }

  /** The text a \u escape stands for and how many bytes of `s` spell it: two escapes when
      they are a surrogate pair, and U+FFFD for a surrogate on its own. */
  function ReadUnicode(s: Text): (r: Option<(Text, nat)>)
    ensures r.Some? ==> 6 <= r.value.1 <= |s|
  {
    match CodeUnit(s)
    case None => None
    case Some(u) =>
      if Scalar(u) then Some((Encode(u), 6))
      else
        match CodeUnit(s[6..])
        case Some(v) =>
          if u < 0xDC00 && 0xDC00 <= v < 0xE000
          then Some((Encode((u - 0xD800) * 1024 + (v - 0xDC00) + 0x10000), 12))
          else Some((REPLACEMENT, 6))
        case None => Some((REPLACEMENT, 6))
  }

  function ReadShort(b: Byte): Option<Byte> {
    if b == 0x22 || b == 0x5C || b == 0x2F then Some(b)
    else if b == 0x62 then Some(0x08)
    else if b == 0x66 then Some(0x0C)
    else if b == 0x6E then Some(0x0A)
    else if b == 0x72 then Some(0x0D)
    else if b == 0x74 then Some(0x09)
    else None
  }

  /** The first character of a JSON string's inside: what it stands for, and its length. */
  function ReadChar(s: Text): (r: Option<(Text, nat)>)
    requires |s| > 0 && s[0] != QUOTE
    ensures r.Some? ==> 1 <= r.value.1 <= |s|
  {
    if s[0] == BACKSLASH then
      if |s| < 2 then None
      else if ReadShort(s[1]).Some? then Some(([ReadShort(s[1]).value], 2))
      else ReadUnicode(s)
    else if s[0] < 0x20 then None
    else
      match Decode(s)
      case Some((_, n)) => Some((s[..n], n))
      case None => Some((REPLACEMENT, 1))
  }

  /** Read up to the closing quote; the answer is the decoded text and what comes after. */
  function Unescape(s: Text): (r: Option<(Text, Text)>)
    ensures r.Some? ==> |r.value.1| < |s|
    decreases |s|
  {
    if s == [] then None
    else if s[0] == QUOTE then Some(([], s[1..]))
    else
      match ReadChar(s)
      case None => None
      case Some((text, n)) =>
        match Unescape(s[n..])
        case None => None
        case Some((more, rest)) => Some((text + more, rest))
  }

  // ---- the round trip ----

  lemma ReadPlainByte(b: Byte, rest: Text)
    requires b < 0x80 && EscapeLetter(b).None? && !NeedsHex(b)
    ensures b != QUOTE && ReadChar([b] + rest) == Some(([b], 1))
  {
    assert ([b] + rest)[..1] == [b];
  }

  lemma LetterReads(b: Byte)
    requires EscapeLetter(b).Some?
    ensures ReadShort(EscapeLetter(b).value) == Some(b)
  {
  }

  lemma ReadLetter(b: Byte, rest: Text)
    requires EscapeLetter(b).Some?
    ensures ReadChar([BACKSLASH, EscapeLetter(b).value] + rest) == Some(([b], 2))
  {
    LetterReads(b);
  }

  lemma HexReads(d: int)
    requires 0 <= d < 16
    ensures HexValue(HexDigit(d)) == Some(d)
  {
  }

  lemma CodeUnitOf(s: Text, a: int, b: int, c: int, d: int)
    requires |s| >= 6 && s[0] == BACKSLASH && s[1] == 0x75
    requires HexValue(s[2]) == Some(a) && HexValue(s[3]) == Some(b) && HexValue(s[4]) == Some(c) && HexValue(s[5]) == Some(d)
    ensures CodeUnit(s) == Some(Nibble(Nibble(Nibble(a, b), c), d))
  {
  }

  lemma ReadHex(b: Byte, rest: Text)
    requires b < 0x80
    ensures ReadChar(HexEscape(b) + rest) == Some(([b], 6))
  {
    var s := HexEscape(b) + rest;
    HexReads(0);
    HexReads(b / 16);
    HexReads(b % 16);
    CodeUnitOf(s, 0, 0, b / 16, b % 16);
    assert CodeUnit(s) == Some(b);
  }

  lemma ReadEscapedByte(b: Byte, rest: Text)
    requires b < 0x80
    ensures EscapeByte(b)[0] != QUOTE
    ensures ReadChar(EscapeByte(b) + rest) == Some(([b], |EscapeByte(b)|))
  {
    if EscapeLetter(b).Some? {
      ReadLetter(b, rest);
    } else if NeedsHex(b) {
      ReadHex(b, rest);
    } else {
      ReadPlainByte(b, rest);
    }
  }

  lemma ReadEscapedRune(s: Text, rest: Text)
    requires |s| > 0 && s[0] >= 0x80 && Decode(s).Some?
    ensures var (rune, n) := Decode(s).value;
            var e := EscapeRune(rune, s[..n]);
            |e| > 0 && e[0] != QUOTE && ReadChar(e + rest) == Some((s[..n], |e|))
  {
    var (rune, n) := Decode(s).value;
    EncodeDecode(s);
    if rune == 0x2028 || rune == 0x2029 {
      assert CodeUnit(EscapeRune(rune, s[..n]) + rest) == Some(rune);
    } else {
      DecodeLocal(s, rest);
      assert (s[..n] + rest)[..n] == s[..n];
    }
  }

  lemma ReadReplacement(rest: Text)
    ensures ReadChar(UFFFD + rest) == Some((REPLACEMENT, 6))
  {
    assert CodeUnit(UFFFD + rest) == Some(0xFFFD);
  }

  lemma UnescapeChar(piece: Text, rest: Text, text: Text)
    requires |piece| > 0 && piece[0] != QUOTE
    requires ReadChar(piece + rest) == Some((text, |piece|))
    ensures Unescape(piece + rest) ==
      match Unescape(rest)
      case None => None
      case Some((more, after)) => Some((text + more, after))
  {
    assert (piece + rest)[|piece|..] == rest;
  }

  /** Reading what the escaper wrote gives the input back, with each byte that was not
      valid UTF-8 replaced by U+FFFD. */
  lemma {:induction false} UnescapeEscape(s: Text, rest: Text)
    ensures Unescape(Escape(s) + [QUOTE] + rest) == Some((Sanitize(s), rest))
  {
    if s == [] {
      assert Escape(s) + [QUOTE] + rest == [QUOTE] + rest;
    } else {
      var n := if Decode(s).Some? then Decode(s).value.1 else 1;
      var piece := if s[0] < 0x80 then EscapeByte(s[0])
                   else if Decode(s).Some? then EscapeRune(Decode(s).value.0, s[..n]) else UFFFD;
      var tail := Escape(s[n..]) + [QUOTE] + rest;
      assert Escape(s) + [QUOTE] + rest == piece + tail;
      UnescapeEscape(s[n..], rest);
      if s[0] < 0x80 {
        ReadEscapedByte(s[0], tail);
        assert s[..1] == [s[0]];
        UnescapeChar(piece, tail, s[..1]);
      } else if Decode(s).Some? {
        ReadEscapedRune(s, tail);
        UnescapeChar(piece, tail, s[..n]);
      } else {
        ReadReplacement(tail);
        UnescapeChar(piece, tail, REPLACEMENT);
      }
    }
  }

  /** So text that is valid UTF-8 comes back exactly, and only such text does. */
  lemma JsonStringRoundTrip(s: Text, rest: Text)
    ensures JsonString(s)[0] == QUOTE
    ensures Unescape((JsonString(s) + rest)[1..]) == Some((Sanitize(s), rest))
    ensures ValidUtf8(s) <==> Unescape((JsonString(s) + rest)[1..]) == Some((s, rest))
  {
    assert (JsonString(s) + rest)[1..] == Escape(s) + [QUOTE] + rest;
    UnescapeEscape(s, rest);
    SanitizeValid(s);
  }

  /** Whatever went in, what comes out is valid UTF-8. */
  lemma {:induction false} EscapedIsValid(s: Text)
    ensures ValidUtf8(Escape(s))
  {
    if s != [] {
      if s[0] < 0x80 {
        EscapedIsValid(s[1..]);
        ValidAscii(EscapeByte(s[0]));
        ValidConcat(EscapeByte(s[0]), Escape(s[1..]));
      } else if Decode(s).Some? {
        EscapedIsValid(s[Decode(s).value.1..]);
        EscapedRuneIsValid(s);
        ValidConcat(EscapeRune(Decode(s).value.0, s[..Decode(s).value.1]), Escape(s[Decode(s).value.1..]));
      } else {
        EscapedIsValid(s[1..]);
        ValidAscii(UFFFD);
        ValidConcat(UFFFD, Escape(s[1..]));
      }
    }
  }

  lemma EscapedRuneIsValid(s: Text)
    requires |s| > 0 && Decode(s).Some?
    ensures ValidUtf8(EscapeRune(Decode(s).value.0, s[..Decode(s).value.1]))
  {
    var rune := Decode(s).value.0;
    if rune == 0x2028 {
      ValidAscii(U2028);
    } else if rune == 0x2029 {
      ValidAscii(U2029);
    } else {
      FirstRuneIsValid(s);
    }
  }

  lemma FirstRuneIsValid(s: Text)
    requires |s| > 0 && Decode(s).Some?
    ensures ValidUtf8(s[..Decode(s).value.1])
  {
    var n := Decode(s).value.1;
    FirstRuneAlone(s);
    assert s[..n][n..] == [];
  }

  lemma JsonStringIsValid(s: Text)
    ensures ValidUtf8(JsonString(s))
  {
    EscapedIsValid(s);
    ValidAscii([QUOTE]);
    ValidConcat([QUOTE], Escape(s));
    ValidConcat([QUOTE] + Escape(s), [QUOTE]);
  }
}
