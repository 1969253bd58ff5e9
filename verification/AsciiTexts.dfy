/** JSON text in which every character beyond ASCII is written as an escape, as the JSON printer of the source's
    library writes it unless it is told otherwise. */
module AsciiTexts {
  import opened Wrappers
  import opened Json

  predicate IsPrintable(c: char) {
    c <= '~'
  }

  function Hex4(n: nat): string
    requires n < 0x10000
  {
    [HexDigit(n / 16 / 16 / 16), HexDigit(n / 16 / 16 % 16), HexDigit(n / 16 % 16), HexDigit(n % 16)]
  }

  /** A character, or its escape; beyond the basic plane that is a surrogate pair. */
  function AsciiChar(c: char): string {
    var n := c as int;
    if IsPrintable(c) then [c]
    else if n < 0x10000 then "\\u" + Hex4(n)
    else "\\u" + Hex4(0xD800 + (n - 0x10000) / 0x400) + "\\u" + Hex4(0xDC00 + (n - 0x10000) % 0x400)
  }

  function Ascii(s: string): string {
    if s == "" then "" else AsciiChar(s[0]) + Ascii(s[1..])
  }

  lemma {:induction false} AsciiOfSum(a: string, b: string)
    ensures Ascii(a + b) == Ascii(a) + Ascii(b)
  {
    hide AsciiChar;
    if a == "" {
      assert a + b == b;
    } else {
      assert (a + b)[1..] == a[1..] + b;
      AsciiOfSum(a[1..], b);
      Associative(AsciiChar(a[0]), Ascii(a[1..]), Ascii(b));
    }
  }

  lemma {:induction false} AsciiOfPrintable(s: string)
    requires forall i | 0 <= i < |s| :: IsPrintable(s[i])
    ensures Ascii(s) == s
  {
    if s != "" {
      AsciiOfPrintable(s[1..]);
      assert s == [s[0]] + s[1..];
    }
  }

  /** Printable text in front stays as it is. */
  lemma PrintableFront(s: string, n: nat)
    requires n <= |s| && forall i | 0 <= i < n :: IsPrintable(s[i])
    ensures Ascii(s) == s[..n] + Ascii(s[n..])
  {
    assert s == s[..n] + s[n..];
    AsciiOfSum(s[..n], s[n..]);
    AsciiOfPrintable(s[..n]);
  }

  /** The first character of the escaped text, which is either the same or the start of an escape. */
  lemma AsciiHead(s: string)
    requires s != ""
    ensures Ascii(s) != ""
    ensures IsPrintable(s[0]) ==> Ascii(s)[0] == s[0] && Ascii(s)[1..] == Ascii(s[1..])
    ensures !IsPrintable(s[0]) ==> Ascii(s)[0] == '\\'
  {
    if IsPrintable(s[0]) {
      assert Ascii(s) == [s[0]] + Ascii(s[1..]);
    }
  }

  lemma AsciiStart(s: string, c: char)
    requires IsPrintable(c) && c != '\\'
    ensures StartsWith(Ascii(s), c) <==> StartsWith(s, c)
    ensures StartsWith(s, c) ==> Ascii(s)[1..] == Ascii(s[1..])
  {
    if s != "" {
      AsciiHead(s);
    }
  }

  lemma {:induction false} AsciiSkipSpace(s: string)
    ensures SkipSpace(Ascii(s)) == Ascii(SkipSpace(s))
  {
    if s != "" {
      AsciiHead(s);
      AsciiSkipSpace(s[1..]);
    }
  }

  // ---------- reading escaped strings ----------

  lemma DigitsCode(a: nat, b: nat, c: nat, d: nat)
    requires a < 16 && b < 16 && c < 16 && d < 16
    ensures HexCode([HexDigit(a), HexDigit(b), HexDigit(c), HexDigit(d)]) == Some(a * 4096 + b * 256 + c * 16 + d)
  {
    hide HexValue, HexDigit;
    HexDigitValue(a);
    HexDigitValue(b);
    HexDigitValue(c);
    HexDigitValue(d);
  }

  lemma Hex4Code(n: nat)
    requires n < 0x10000
    ensures HexCode(Hex4(n)) == Some(n)
  {
    hide HexCode, HexDigit;
    DigitsCode(n / 16 / 16 / 16, n / 16 / 16 % 16, n / 16 % 16, n % 16);
  }

  lemma ReadEscape(n: nat, rest: string)
    requires n < 0xD800 || 0xE000 <= n < 0x10000
    ensures Unescape("u" + Hex4(n) + rest) == Parse(n as char, rest)
  {
    hide HexCode, Hex4;
    var s := "u" + Hex4(n) + rest;
    assert |Hex4(n)| == 4 by {
      FourDigits(n);
    }
    assert s[1..5] == Hex4(n) && s[5..] == rest;
    Hex4Code(n);
  }

  lemma DigitIsPrintable(d: nat)
    requires d < 16
    ensures IsPrintable(HexDigit(d))
  {
  }

  lemma FourDigits(n: nat)
    requires n < 0x10000
    ensures |Hex4(n)| == 4 && forall i | 0 <= i < 4 :: IsPrintable(Hex4(n)[i])
  {
    hide HexDigit;
    DigitIsPrintable(n / 16 / 16 / 16);
    DigitIsPrintable(n / 16 / 16 % 16);
    DigitIsPrintable(n / 16 % 16);
    DigitIsPrintable(n % 16);
  }

  lemma ReadPair(high: nat, low: nat, rest: string)
    requires 0xD800 <= high < 0xDC00 <= low < 0xE000
    ensures Unescape("u" + Hex4(high) + "\\u" + Hex4(low) + rest) == Parse(Paired(high, low), rest)
  {
    hide HexCode, Hex4, Paired;
    FourDigits(high);
    FourDigits(low);
    var s := "u" + Hex4(high) + "\\u" + Hex4(low) + rest;
    assert s[1..5] == Hex4(high) && s[5..7] == "\\u" && s[7..11] == Hex4(low) && s[11..] == rest;
    Hex4Code(high);
    Hex4Code(low);
  }

  /** The escape of a character is read as that character. */
  lemma ReadAsciiChar(c: char, rest: string)
    requires !IsPrintable(c)
    ensures var text := AsciiChar(c) + rest; text != "" && text[0] == '\\' && Unescape(text[1..]) == Parse(c, rest)
  {
    hide Unescape, Hex4;
    var n := c as int;
    var text := AsciiChar(c) + rest;
    if n < 0x10000 {
      ReadEscape(n, rest);
      assert text[1..] == "u" + Hex4(n) + rest;
    } else {
      var high, low := 0xD800 + (n - 0x10000) / 0x400, 0xDC00 + (n - 0x10000) % 0x400;
      ReadPair(high, low, rest);
      assert text[1..] == "u" + Hex4(high) + "\\u" + Hex4(low) + rest;
    }
  }

  lemma HexIsPrintable(s: string)
    requires |s| == 4 && HexCode(s).Some?
    ensures forall i | 0 <= i < 4 :: IsPrintable(s[i])
  {
    assert HexValue(s[0]).Some? && HexValue(s[1]).Some? && HexValue(s[2]).Some? && HexValue(s[3]).Some?;
  }

  /** What an escape sequence consists of is printable, and what follows it does not matter to it. */
  lemma AsciiUnescape(s: string)
    requires Unescape(s).Parse?
    ensures Unescape(Ascii(s)) == Parse(Unescape(s).value, Ascii(Unescape(s).rest))
  {
    if s[0] == 'u' {
      AsciiUnescapeUnicode(s);
    } else {
      PrintableFront(s, 1);
      assert Ascii(s)[1..] == Ascii(s[1..]);
    }
  }

  lemma AsciiUnescapeUnicode(s: string)
    requires s != "" && s[0] == 'u' && Unescape(s).Parse?
    ensures Unescape(Ascii(s)) == Parse(Unescape(s).value, Ascii(Unescape(s).rest))
  {
    hide HexCode, HexValue, Paired;
    HexIsPrintable(s[1..5]);
    assert forall i | 1 <= i < 5 :: s[i] == s[1..5][i - 1];
    var code := HexCode(s[1..5]).value;
    if code < 0xD800 || 0xE000 <= code < 0x10000 {
      PrintableFront(s, 5);
      var t := Ascii(s);
      assert t[1..5] == s[1..5] && t[5..] == Ascii(s[5..]) && t[0] == s[0];
    } else {
      HexIsPrintable(s[7..11]);
      assert forall i | 7 <= i < 11 :: s[i] == s[7..11][i - 7];
      assert s[5] == s[5..7][0] && s[6] == s[5..7][1];
      PrintableFront(s, 11);
      var t := Ascii(s);
      assert t[1..5] == s[1..5] && t[5..7] == s[5..7] && t[7..11] == s[7..11] && t[11..] == Ascii(s[11..]);
    }
  }

  lemma UnescapeShortens(s: string)
    requires Unescape(s).Parse?
    ensures |Unescape(s).rest| < |s|
  {
  }

  lemma {:induction false} AsciiString(s: string)
    requires ParseString(s).Parse?
    ensures ParseString(Ascii(s)) == Parse(ParseString(s).value, Ascii(ParseString(s).rest))
    decreases |s|
  {
    hide Unescape, AsciiChar, Ascii;
    AsciiHead(s);
    if s[0] == '\\' {
      UnescapeShortens(s[1..]);
      AsciiUnescape(s[1..]);
      AsciiString(Unescape(s[1..]).rest);
    } else if s[0] != '\"' {
      AsciiString(s[1..]);
      if !IsPrintable(s[0]) {
        AsciiStep(s);
        ReadAsciiChar(s[0], Ascii(s[1..]));
      }
    }
  }

  lemma AsciiStep(s: string)
    requires s != ""
    ensures Ascii(s) == AsciiChar(s[0]) + Ascii(s[1..])
  {
  }

  // ---------- reading escaped values ----------

  lemma {:induction false} AsciiDigits(s: string)
    ensures DigitCount(Ascii(s)) == DigitCount(s)
  {
    if s != "" {
      AsciiHead(s);
      AsciiDigits(s[1..]);
    }
  }

  lemma AsciiNat(s: string)
    requires ParseNat(s).Parse?
    ensures ParseNat(Ascii(s)) == Parse(ParseNat(s).value, Ascii(ParseNat(s).rest))
  {
    hide DigitCount, DigitsValue;
    var n := DigitCount(s);
    AsciiDigits(s);
    PrintableFront(s, n);
    var t := Ascii(s);
    assert t[..n] == s[..n] && t[n..] == Ascii(s[n..]) && t[0] == s[0];
    if n < |s| {
      AsciiHead(s[n..]);
      assert t[n] == t[n..][0];
    }
  }

  lemma AsciiNumber(s: string)
    requires ParseNumber(s).Parse?
    ensures ParseNumber(Ascii(s)) == Parse(ParseNumber(s).value, Ascii(ParseNumber(s).rest))
  {
    hide ParseNat, Ascii;
    AsciiStart(s, '-');
    if StartsWith(s, '-') {
      AsciiNat(s[1..]);
    } else {
      AsciiNat(s);
    }
  }

  lemma AsciiLiteral(s: string, literal: string)
    requires |s| >= |literal| && s[..|literal|] == literal && forall i | 0 <= i < |literal| :: IsPrintable(literal[i])
    ensures |Ascii(s)| >= |literal| && Ascii(s)[..|literal|] == literal
    ensures Ascii(s)[|literal|..] == Ascii(s[|literal|..])
  {
    assert forall i | 0 <= i < |literal| :: s[i] == literal[i];
    PrintableFront(s, |literal|);
  }

  lemma AsciiScalar(s: string)
    requires ParseScalar(s).Parse?
    ensures ParseScalar(Ascii(s)) == Parse(ParseScalar(s).value, Ascii(ParseScalar(s).rest))
  {
    hide ParseString, ParseNumber, Ascii;
    AsciiStart(s, 'n');
    AsciiStart(s, 't');
    AsciiStart(s, 'f');
    AsciiStart(s, '\"');
    if StartsWith(s, 'n') {
      AsciiLiteral(s, "null");
    } else if StartsWith(s, 't') {
      AsciiLiteral(s, "true");
    } else if StartsWith(s, 'f') {
      AsciiLiteral(s, "false");
    } else if StartsWith(s, '\"') {
      AsciiString(s[1..]);
    } else {
      AsciiNumber(s);
    }
  }

  lemma {:induction false} AsciiValue(s: string)
    requires ParseValue(s).Parse?
    ensures ParseValue(Ascii(s)) == Parse(ParseValue(s).value, Ascii(ParseValue(s).rest))
    decreases |s|, 1
  {
    hide ParseItems, ParseFields, ParseScalar, Ascii, SkipSpace;
    AsciiStart(s, '[');
    AsciiStart(s, '{');
    if StartsWith(s, '[') || StartsWith(s, '{') {
      var inner := SkipSpace(s[1..]);
      AsciiSkipSpace(s[1..]);
      AsciiStart(inner, ']');
      AsciiStart(inner, '}');
      if StartsWith(s, '[') && !StartsWith(inner, ']') {
        AsciiItems(inner);
      } else if StartsWith(s, '{') && !StartsWith(inner, '}') {
        AsciiFields(inner);
      }
    } else {
      AsciiScalar(s);
    }
  }

  lemma {:induction false} AsciiItems(s: string)
    requires ParseItems(s).Parse?
    ensures ParseItems(Ascii(s)) == Parse(ParseItems(s).value, Ascii(ParseItems(s).rest))
    decreases |s|, 2
  {
    hide ParseValue, Ascii, SkipSpace;
    AsciiValue(s);
    var rest := ParseValue(s).rest;
    var after := SkipSpace(rest);
    AsciiSkipSpace(rest);
    AsciiStart(after, ']');
    AsciiStart(after, ',');
    if !StartsWith(after, ']') {
      AsciiSkipSpace(after[1..]);
      AsciiItems(SkipSpace(after[1..]));
    }
  }

  lemma {:induction false} AsciiFields(s: string)
    requires ParseFields(s).Parse?
    ensures ParseFields(Ascii(s)) == Parse(ParseFields(s).value, Ascii(ParseFields(s).rest))
    decreases |s|, 2
  {
    hide ParseValue, ParseString, Ascii, SkipSpace;
    AsciiStart(s, '\"');
    AsciiString(s[1..]);
    var afterKey := ParseString(s[1..]).rest;
    var colon := SkipSpace(afterKey);
    AsciiSkipSpace(afterKey);
    AsciiStart(colon, ':');
    AsciiSkipSpace(colon[1..]);
    AsciiValue(SkipSpace(colon[1..]));
    var rest := ParseValue(SkipSpace(colon[1..])).rest;
    var after := SkipSpace(rest);
    AsciiSkipSpace(rest);
    AsciiStart(after, '}');
    AsciiStart(after, ',');
    if !StartsWith(after, '}') {
      AsciiSkipSpace(after[1..]);
      AsciiFields(SkipSpace(after[1..]));
    }
  }

  /** Escaping keeps the meaning of every JSON text. */
  lemma EscapingKeepsMeaning(s: string)
    requires Loads(s).Some?
    ensures Loads(Ascii(s)) == Loads(s)
  {
    AsciiSkipSpace(s);
    AsciiValue(SkipSpace(s));
    AsciiSkipSpace(ParseValue(SkipSpace(s)).rest);
  }

  lemma {:induction false} AsciiIsPrintable(s: string)
    ensures forall i | 0 <= i < |Ascii(s)| :: IsPrintable(Ascii(s)[i])
  {
    if s != "" {
      AsciiIsPrintable(s[1..]);
      AsciiCharFacts(s[0]);
    }
  }

  lemma AsciiCharFacts(c: char)
    ensures 1 <= |AsciiChar(c)| <= 12 && forall i | 0 <= i < |AsciiChar(c)| :: IsPrintable(AsciiChar(c)[i])
  {
    hide Hex4;
    var n := c as int;
    if !IsPrintable(c) {
      if n < 0x10000 {
        FourDigits(n);
      } else {
        FourDigits(0xD800 + (n - 0x10000) / 0x400);
        FourDigits(0xDC00 + (n - 0x10000) % 0x400);
      }
    }
  }

  /** A value that is written with escapes and a line end is read back. */
  lemma AsciiLineRoundTrip(v: Json)
    ensures Loads(Ascii(Canonical(v)) + "\n") == Some(v)
  {
    hide Canonical, Loads;
    LineRoundTrip(v);
    EscapingKeepsMeaning(Canonical(v) + "\n");
    AsciiOfSum(Canonical(v), "\n");
    AsciiOfPrintable("\n");
  }

  // ---------- length ----------

  lemma {:induction false} AsciiLength(s: string)
    ensures |s| <= |Ascii(s)| <= 12 * |s|
  {
    hide AsciiChar;
    if s != "" {
      AsciiCharFacts(s[0]);
      AsciiLength(s[1..]);
    }
  }

  lemma EscapeLength(c: char)
    ensures |Ascii(Escape(c))| <= 12
  {
    hide AsciiChar;
    if IsPlain(c) {
      assert Escape(c) == [c];
      AsciiLength([c]);
    } else {
      ControlEscape(c);
      AsciiOfPrintable(Escape(c));
    }
  }

  lemma ControlEscape(c: char)
    requires !IsPlain(c)
    ensures |Escape(c)| <= 6 && forall i | 0 <= i < |Escape(c)| :: IsPrintable(Escape(c)[i])
  {
  }

  lemma {:induction false} QuotedLength(s: string)
    ensures |Ascii(Quoted(s))| <= 12 * |s| + 1
  {
    hide Escape, AsciiChar;
    if s == "" {
      AsciiOfPrintable("\"");
    } else {
      AsciiOfSum(Escape(s[0]), Quoted(s[1..]));
      EscapeLength(s[0]);
      QuotedLength(s[1..]);
    }
  }

  /** What one field takes, with the character behind it. */
  function FieldLength(key: string, v: Json): nat {
    |Ascii(Quoted(key))| + |Ascii(Canonical(v))| + 3
  }

  lemma FieldTextLength(key: string, v: Json)
    ensures |Ascii("\"" + Quoted(key) + ":" + Canonical(v))| + 1 == FieldLength(key, v)
  {
    hide Canonical, Quoted;
    AsciiOfSum("\"" + Quoted(key) + ":", Canonical(v));
    AsciiOfSum("\"" + Quoted(key), ":");
    AsciiOfSum("\"", Quoted(key));
    AsciiOfPrintable("\"");
    AsciiOfPrintable(":");
  }

  lemma {:induction false} FieldsLength(v: Json, keys: seq<string>, bound: nat)
    requires v.Obj? && keys != [] && forall k | k in keys :: k in v.fields && FieldLength(k, v.fields[k]) <= bound
    ensures |Ascii(FieldsText(v, keys))| <= bound * |keys|
    decreases |keys|
  {
    hide Canonical, Quoted, FieldsText, FieldLength, Ascii;
    FieldsTextStep(v, keys);
    var text := "\"" + Quoted(keys[0]) + ":" + Canonical(v.fields[keys[0]]);
    FieldTextLength(keys[0], v.fields[keys[0]]);
    if |keys| == 1 {
      AsciiOfSum(text, "}");
      AsciiOfPrintable("}");
    } else {
      FieldsLength(v, keys[1..], bound);
      AsciiOfSum(text, "," + FieldsText(v, keys[1..]));
      AsciiOfSum(",", FieldsText(v, keys[1..]));
      AsciiOfPrintable(",");
    }
  }

  lemma ObjectLength(fields: map<string, Json>, bound: nat)
    requires fields != map[] && forall k | k in fields :: FieldLength(k, fields[k]) <= bound
    ensures |Ascii(Canonical(Obj(fields)))| <= 1 + bound * |fields|
  {
    hide Canonical, FieldsText, SortedKeys, FieldLength, Ascii;
    var v := Obj(fields);
    var keys := SortedKeys(fields.Keys);
    ContainerText(v);
    SomeKey(fields);
    SortedKeysCount(fields.Keys);
    FieldsLength(v, keys, bound);
    AsciiOfSum("{", FieldsText(v, keys));
    AsciiOfPrintable("{");
  }
}
