/** How one SQL value is spelled in a backup, and how it is read back.

    Integers and base64 (section 4 of RFC 4648) are spelled out. How an instant and a float
    are spelled is a parameter: `Formats` holds the four conversions, and a value whose
    spelling does not read back as itself is not `Carriable`. */
module BackupValues {
  import opened Common
  import opened BackupText

  datatype SqlValue =
    | SNull
    | SBytes(bytes: Text)
    | SText(text: Text)
    | STime(instant: int)
    | SInt(int64: int)
    | SFloat(bits: int)
    | SBool(truth: bool)
    | SOther  // a type the encoder does not know

  datatype Value = Value(kind: Text, data: Text)

  datatype Formats = Formats(
    formatTime: int -> Text, parseTime: Text -> Option<int>,
    formatFloat: int -> Text, parseFloat: Text -> Option<int>)

  predicate IsInt64(n: int) {
    -0x8000_0000_0000_0000 <= n < 0x8000_0000_0000_0000
  }

  const NULL := Ascii("null")
  const BYTES := Ascii("bytes")
  const STRING := Ascii("string")
  const TIME := Ascii("time")
  const INTEGER := Ascii("integer")
  const FLOAT := Ascii("float")
  const BOOL := Ascii("bool")

  // ---- integers ----

  function FormatNat(n: nat): (t: Text)
    ensures |t| > 0
    ensures forall i :: 0 <= i < |t| ==> 0x30 <= t[i] <= 0x39
  {
    if n < 10 then [0x30 + n] else FormatNat(n / 10) + [0x30 + n % 10]
  }

  function FormatInt(n: int): Text {
    if n < 0 then [0x2D] + FormatNat(-n) else FormatNat(n)
  }

  function ParseNat(t: Text): Option<nat> {
    if t == [] then None
    else if !(0x30 <= t[|t| - 1] <= 0x39) then None
    else if |t| == 1 then Some(t[0] - 0x30)
    else
      match ParseNat(t[..|t| - 1])
      case None => None
      case Some(n) => Some(n * 10 + (t[|t| - 1] - 0x30))
  }

  /** An optional sign, digits, and a value that fits 64 bits. */
  function ParseInt(t: Text): Option<int> {
    if t != [] && t[0] == 0x2D then InRange(ParseNat(t[1..]), -1)
    else if t != [] && t[0] == 0x2B then InRange(ParseNat(t[1..]), 1)
    else InRange(ParseNat(t), 1)
  }

  function InRange(n: Option<nat>, sign: int): Option<int> {
    match n
    case None => None
    case Some(m) => if IsInt64(sign * m) then Some(sign * m) else None
  }

  lemma {:induction false} ParseFormatNat(n: nat)
    ensures ParseNat(FormatNat(n)) == Some(n)
  {
    if n >= 10 {
      ParseFormatNat(n / 10);
      var t := FormatNat(n);
      assert t[..|t| - 1] == FormatNat(n / 10);
    }
  }

  lemma ParseFormatInt(n: int)
    ensures ParseInt(FormatInt(n)) == (if IsInt64(n) then Some(n) else None)
  {
    if n < 0 {
      ParseFormatNat(-n);
      ParseMinus(FormatNat(-n));
    } else {
      ParseFormatNat(n);
    }
  }

  lemma ParseMinus(t: Text)
    ensures ParseInt([0x2D] + t) == InRange(ParseNat(t), -1)
  {
    assert ([0x2D] + t)[1..] == t;
  }

  // ---- base64 ----

  const PAD: Byte := 0x3D

  function Letter(six: int): Byte
    requires 0 <= six < 64
  {
    if six < 26 then 0x41 + six
    else if six < 52 then 0x61 + (six - 26)
    else if six < 62 then 0x30 + (six - 52)
    else if six == 62 then 0x2B
    else 0x2F
  }

  function SixBits(b: Byte): Option<int> {
    if 0x41 <= b <= 0x5A then Some(b - 0x41)
    else if 0x61 <= b <= 0x7A then Some(b - 0x61 + 26)
    else if 0x30 <= b <= 0x39 then Some(b - 0x30 + 52)
    else if b == 0x2B then Some(62)
    else if b == 0x2F then Some(63)
    else None
  }

  function Encode64(s: Text): Text {
    if s == [] then []
    else if |s| == 1 then [Letter(s[0] / 4), Letter(s[0] % 4 * 16), PAD, PAD]
    else if |s| == 2 then [Letter(s[0] / 4), Letter(s[0] % 4 * 16 + s[1] / 16), Letter(s[1] % 16 * 4), PAD]
    else
      [Letter(s[0] / 4), Letter(s[0] % 4 * 16 + s[1] / 16), Letter(s[1] % 16 * 4 + s[2] / 64), Letter(s[2] % 64)]
      + Encode64(s[3..])
  }

  /** Groups of four, with padding only at the very end. Bits a short last group leaves over
      are not looked at. */
  function DecodeGroups(t: Text): Option<Text> {
    if t == [] then Some([])
    else if |t| < 4 then None
    else
      match (SixBits(t[0]), SixBits(t[1]))
      case (Some(a), Some(b)) =>
        if t[2] == PAD then
          if t[3] == PAD && |t| == 4 then Some([ByteOf(a, b / 16, 4)]) else None
        else
          (match SixBits(t[2])
           case None => None
           case Some(c) =>
             if t[3] == PAD then
               if |t| == 4 then Some([ByteOf(a, b / 16, 4), ByteOf(b % 16, c / 4, 16)]) else None
             else
               match (SixBits(t[3]), DecodeGroups(t[4..]))
               case (Some(d), Some(more)) =>
                 Some([ByteOf(a, b / 16, 4), ByteOf(b % 16, c / 4, 16), ByteOf(c % 4, d, 64)] + more)
               case _ => None)
      case _ => None
  }

  /** `high` in the upper bits and `low` in the lower `width`. */
  function ByteOf(high: int, low: int, width: int): Byte {
    if 0 <= high * width + low < 256 then high * width + low else 0
  }

  /** Line breaks are passed over wherever they stand. */
  function WithoutBreaks(t: Text): Text {
    if t == [] then []
    else if t[0] == 0x0A || t[0] == 0x0D then WithoutBreaks(t[1..])
    else [t[0]] + WithoutBreaks(t[1..])
  }

  function Decode64(t: Text): Option<Text> {
    DecodeGroups(WithoutBreaks(t))
  }

  lemma LetterBits(six: int)
    requires 0 <= six < 64
    ensures SixBits(Letter(six)) == Some(six)
    ensures Letter(six) != PAD && Letter(six) < 128 && Letter(six) != 0x0A && Letter(six) != 0x0D
  {
  }

  predicate Alphabetic(t: Text) {
    forall i :: 0 <= i < |t| ==> t[i] < 128 && t[i] != 0x0A && t[i] != 0x0D
  }

  lemma {:induction false} NoBreaks(t: Text)
    requires Alphabetic(t)
    ensures WithoutBreaks(t) == t
  {
    if t != [] {
      NoBreaks(t[1..]);
    }
  }

  /** One whole group of three bytes. */
  lemma GroupRoundTrip(a: Byte, b: Byte, c: Byte)
    ensures var w, x, y, z := a / 4, a % 4 * 16 + b / 16, b % 16 * 4 + c / 64, c % 64;
            && 0 <= w < 64 && 0 <= x < 64 && 0 <= y < 64 && 0 <= z < 64
            && ByteOf(w, x / 16, 4) == a && ByteOf(x % 16, y / 4, 16) == b && ByteOf(y % 4, z, 64) == c
  {
  }

  predicate SixBit(six: int) { 0 <= six < 64 }

  lemma DecodeFourLetters(w: int, x: int, y: int, z: int, t: Text)
    requires SixBit(w) && SixBit(x) && SixBit(y) && SixBit(z)
    ensures DecodeGroups([Letter(w), Letter(x), Letter(y), Letter(z)] + t) ==
      match DecodeGroups(t)
      case None => None
      case Some(more) => Some([ByteOf(w, x / 16, 4), ByteOf(x % 16, y / 4, 16), ByteOf(y % 4, z, 64)] + more)
  {
    LetterBits(w);
    LetterBits(x);
    LetterBits(y);
    LetterBits(z);
    assert ([Letter(w), Letter(x), Letter(y), Letter(z)] + t)[4..] == t;
  }

  lemma DecodeShort(w: int, x: int, y: int)
    requires SixBit(w) && SixBit(x) && SixBit(y)
    ensures DecodeGroups([Letter(w), Letter(x), PAD, PAD]) == Some([ByteOf(w, x / 16, 4)])
    ensures DecodeGroups([Letter(w), Letter(x), Letter(y), PAD]) == Some([ByteOf(w, x / 16, 4), ByteOf(x % 16, y / 4, 16)])
  {
    LetterBits(w);
    LetterBits(x);
    LetterBits(y);
  }

  lemma {:induction false} DecodeEncode64(s: Text)
    ensures DecodeGroups(Encode64(s)) == Some(s)
  {
    if s != [] {
      var a, b, c := s[0], if |s| > 1 then s[1] else 0, if |s| > 2 then s[2] else 0;
      var w, x, y, z := a / 4, a % 4 * 16 + b / 16, b % 16 * 4 + c / 64, c % 64;
      GroupRoundTrip(a, b, c);
      if |s| >= 3 {
        DecodeEncode64(s[3..]);
        DecodeFourLetters(w, x, y, z, Encode64(s[3..]));
        assert s == [a, b, c] + s[3..];
      } else {
        DecodeShort(w, x, y);
        assert s == if |s| == 2 then [a, b] else [a];
      }
    }
  }

  lemma {:induction false} EncodedIsAlphabetic(s: Text)
    ensures Alphabetic(Encode64(s))
  {
    if |s| >= 3 {
      EncodedIsAlphabetic(s[3..]);
    }
  }

  // ---- a value ----

  function EncodeValue(v: SqlValue, f: Formats): Option<Value> {
    match v
    case SNull => Some(Value(NULL, []))
    case SBytes(bytes) => Some(Value(BYTES, Encode64(bytes)))
    case SText(text) => Some(Value(STRING, text))
    case STime(instant) => Some(Value(TIME, f.formatTime(instant)))
    case SInt(n) => Some(Value(INTEGER, FormatInt(n)))
    case SFloat(bits) => Some(Value(FLOAT, f.formatFloat(bits)))
    case SBool(b) => Some(Value(BOOL, if b then Ascii("true") else Ascii("false")))
    case SOther => None
  }

  function ParseBool(t: Text): Option<bool> {
    if t == Ascii("1") || t == Ascii("t") || t == Ascii("T") || t == Ascii("TRUE") || t == Ascii("true") || t == Ascii("True")
    then Some(true)
    else if t == Ascii("0") || t == Ascii("f") || t == Ascii("F") || t == Ascii("FALSE") || t == Ascii("false") || t == Ascii("False")
    then Some(false)
    else None
  }

  function Wrap<T>(o: Option<T>, make: T -> SqlValue): Option<SqlValue> {
    match o
    case None => None
    case Some(x) => Some(make(x))
  }

  function DecodeValue(v: Value, f: Formats): Option<SqlValue> {
    if v.kind == NULL then Some(SNull)
    else if v.kind == BYTES then Wrap(Decode64(v.data), b => SBytes(b))
    else if v.kind == STRING then Some(SText(v.data))
    else if v.kind == TIME then Wrap(f.parseTime(v.data), t => STime(t))
    else if v.kind == INTEGER then Wrap(ParseInt(v.data), n => SInt(n))
    else if v.kind == FLOAT then Wrap(f.parseFloat(v.data), b => SFloat(b))
    else if v.kind == BOOL then Wrap(ParseBool(v.data), b => SBool(b))
    else None
  }

  /** A value the encoder knows, in range, and whose time or float spelling reads back. */
  predicate Carriable(v: SqlValue, f: Formats) {
    match v
    case STime(t) => f.parseTime(f.formatTime(t)) == Some(t) && ValidUtf8(f.formatTime(t))
    case SFloat(b) => f.parseFloat(f.formatFloat(b)) == Some(b) && ValidUtf8(f.formatFloat(b))
    case SInt(n) => IsInt64(n)
    case SOther => false
    case _ => true
  }

  /** What a value is after a trip through JSON: itself, but for text that is not UTF-8. */
  function Carried(v: SqlValue): SqlValue {
    if v.SText? then SText(Sanitize(v.text)) else v
  }

  /** What JSON does to an encoded value on the way. */
  function CleanValue(v: Value): Value {
    Value(Sanitize(v.kind), Sanitize(v.data))
  }

  lemma KindsAreDistinct()
    ensures NULL != BYTES && NULL != STRING && NULL != TIME && NULL != INTEGER && NULL != FLOAT && NULL != BOOL
    ensures BYTES != STRING && BYTES != TIME && BYTES != INTEGER && BYTES != FLOAT && BYTES != BOOL
    ensures STRING != TIME && STRING != INTEGER && STRING != FLOAT && STRING != BOOL
    ensures TIME != INTEGER && TIME != FLOAT && TIME != BOOL
    ensures INTEGER != FLOAT && INTEGER != BOOL && FLOAT != BOOL
  {
    assert NULL[0] == 0x6E && TIME[0] == 0x74 && INTEGER[0] == 0x69 && FLOAT[0] == 0x66 && STRING[0] == 0x73;
    assert BYTES[1] == 0x79 && BOOL[1] == 0x6F && BYTES[0] == 0x62 && BOOL[0] == 0x62;
  }

  lemma SanitizeAscii(t: Text)
    requires forall i :: 0 <= i < |t| ==> t[i] < 128
    ensures Sanitize(t) == t
  {
    ValidAscii(t);
    SanitizeValid(t);
  }

  lemma FormatIntIsAscii(n: int)
    ensures forall i :: 0 <= i < |FormatInt(n)| ==> FormatInt(n)[i] < 128
  {
  }

  /** The data of every value but a text comes through JSON untouched. */
  lemma DataSurvives(v: SqlValue, f: Formats)
    requires Carriable(v, f)
    ensures EncodeValue(v, f).Some?
    ensures Sanitize(EncodeValue(v, f).value.kind) == EncodeValue(v, f).value.kind
    ensures !v.SText? ==> Sanitize(EncodeValue(v, f).value.data) == EncodeValue(v, f).value.data
  {
    SanitizeAscii(EncodeValue(v, f).value.kind);
    match v
    case SBytes(bytes) => EncodedIsAlphabetic(bytes); SanitizeAscii(Encode64(bytes));
    case SInt(n) => FormatIntIsAscii(n); SanitizeAscii(FormatInt(n));
    case STime(t) => SanitizeValid(f.formatTime(t));
    case SFloat(b) => SanitizeValid(f.formatFloat(b));
    case SBool(b) => SanitizeAscii(EncodeValue(v, f).value.data);
    case _ =>
  }

  /** What the decoder does for each kind. */
  lemma DecodeKinds(data: Text, f: Formats)
    ensures DecodeValue(Value(NULL, data), f) == Some(SNull)
    ensures DecodeValue(Value(STRING, data), f) == Some(SText(data))
    ensures Decode64(data).Some? ==> DecodeValue(Value(BYTES, data), f) == Some(SBytes(Decode64(data).value))
    ensures f.parseTime(data).Some? ==> DecodeValue(Value(TIME, data), f) == Some(STime(f.parseTime(data).value))
    ensures ParseInt(data).Some? ==> DecodeValue(Value(INTEGER, data), f) == Some(SInt(ParseInt(data).value))
    ensures f.parseFloat(data).Some? ==> DecodeValue(Value(FLOAT, data), f) == Some(SFloat(f.parseFloat(data).value))
    ensures ParseBool(data).Some? ==> DecodeValue(Value(BOOL, data), f) == Some(SBool(ParseBool(data).value))
  {
    KindsAreDistinct();
  }

  lemma BytesComeBack(bytes: Text)
    ensures Decode64(Encode64(bytes)) == Some(bytes)
  {
    DecodeEncode64(bytes);
    EncodedIsAlphabetic(bytes);
    NoBreaks(Encode64(bytes));
  }

  /** Encoding a value, sending it through JSON and decoding it gives the value back, each
      in its own type; only text that was not UTF-8 has changed. */
  lemma ValueRoundTrip(v: SqlValue, f: Formats)
    requires Carriable(v, f)
    ensures EncodeValue(v, f).Some?
    ensures DecodeValue(CleanValue(EncodeValue(v, f).value), f) == Some(Carried(v))
  {
    DataSurvives(v, f);
    DecodeKinds(CleanValue(EncodeValue(v, f).value).data, f);
    match v
    case SBytes(bytes) => BytesComeBack(bytes);
    case SInt(n) => ParseFormatInt(n);
    case SBool(b) => TrueIsNotFalse();
    case _ =>
  }

  lemma TrueIsNotFalse()
    ensures ParseBool(Ascii("true")) == Some(true) && ParseBool(Ascii("false")) == Some(false)
  {
    var t := Ascii("false");
    assert t[0] == 0x66;
    assert Ascii("1")[0] == 0x31 && Ascii("t")[0] == 0x74 && Ascii("T")[0] == 0x54 && Ascii("TRUE")[0] == 0x54
      && Ascii("true")[0] == 0x74 && Ascii("True")[0] == 0x54;
  }

  /** So a value survives exactly when it is not a text that is not UTF-8. */
  lemma ValueSurvivesIff(v: SqlValue)
    ensures Carried(v) == v <==> (v.SText? ==> ValidUtf8(v.text))
  {
    if v.SText? {
      SanitizeValid(v.text);
    }
  }

  // ---- the format, spelled out ----

  lemma TheKinds(v: SqlValue, f: Formats)
    requires !v.SOther?
    ensures EncodeValue(v, f).Some?
    ensures EncodeValue(v, f).value.kind == Ascii(match v
                                                  case SNull => "null"
                                                  case SBytes(_) => "bytes"
                                                  case SText(_) => "string"
                                                  case STime(_) => "time"
                                                  case SInt(_) => "integer"
                                                  case SFloat(_) => "float"
                                                  case SBool(_) => "bool"
                                                  case SOther => "")
    ensures v.SText? ==> EncodeValue(v, f).value.data == v.text
    ensures v.SBool? ==> EncodeValue(v, f).value.data == if v.truth then Ascii("true") else Ascii("false")
  {
  }

  /** No other kind is read. */
  lemma OnlyTheKindsAreRead(v: Value, f: Formats)
    requires DecodeValue(v, f).Some?
    ensures v.kind in {Ascii("null"), Ascii("bytes"), Ascii("string"), Ascii("time"), Ascii("integer"), Ascii("float"), Ascii("bool")}
  {
  }

  /** Examples of section 10 of RFC 4648: short groups of both kinds and a whole one; and the
      last two of its alphabet. */
  lemma Base64Examples()
    ensures Encode64(Ascii("f")) == Ascii("Zg==") && Encode64(Ascii("fo")) == Ascii("Zm8=")
    ensures Encode64(Ascii("foo")) == Ascii("Zm9v") && Encode64([0xFB, 0xEF, 0xFF]) == Ascii("++//")
  {
  }

  /** Decimal, most significant digit first, and a minus when it is below zero. */
  lemma {:induction false} DigitsAreDecimal(n: nat)
    ensures n < 10 ==> FormatNat(n) == [0x30 + n]
    ensures n >= 10 ==> FormatNat(n) == FormatNat(n / 10) + FormatNat(n % 10) && FormatNat(n)[0] != 0x30
  {
    if n >= 100 {
      DigitsAreDecimal(n / 10);
    }
  }

  lemma IntegersAreDecimal(n: int)
    ensures n >= 0 ==> FormatInt(n) == FormatNat(n)
    ensures n < 0 ==> FormatInt(n) == Ascii("-") + FormatNat(-n)
  {
  }
}
