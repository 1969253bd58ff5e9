/** How many bytes text takes, and why writing a decoded value canonically never takes more of them. */
module Sizes {
  import opened Wrappers
  import opened Json

  /** The encodings that the JSON decoder of the source recognises in bytes. */
  datatype Encoding = Utf8 | Utf16 | Utf32

  function CharSize(e: Encoding, c: char): nat {
    match e
    case Utf8 => if c as int < 0x80 then 1 else if c as int < 0x800 then 2 else if c as int < 0x10000 then 3 else 4
    case Utf16 => if c as int < 0x10000 then 2 else 4
    case Utf32 => 4
  }

  function TextSize(e: Encoding, s: string): nat {
    if s == "" then 0 else CharSize(e, s[0]) + TextSize(e, s[1..])
  }

  /** The size of an ASCII character. */
  function Unit(e: Encoding): nat {
    match e
    case Utf8 => 1
    case Utf16 => 2
    case Utf32 => 4
  }

  lemma {:induction false} SizeOfSum(e: Encoding, a: string, b: string)
    ensures TextSize(e, a + b) == TextSize(e, a) + TextSize(e, b)
  {
    if a == "" {
      assert a + b == b;
    } else {
      assert (a + b)[1..] == a[1..] + b;
      SizeOfSum(e, a[1..], b);
    }
  }

  /** Every character takes at least one unit; an ASCII character takes exactly one. */
  lemma {:induction false} SizeBounds(e: Encoding, s: string)
    ensures TextSize(e, s) >= Unit(e) * |s|
    ensures (forall i | 0 <= i < |s| :: s[i] as int < 0x80) ==> TextSize(e, s) == Unit(e) * |s|
  {
    if s != "" {
      SizeBounds(e, s[1..]);
      assert CharSize(e, s[0]) >= Unit(e);
    }
  }

  lemma SizeSplits(e: Encoding, s: string, n: nat)
    requires n <= |s|
    ensures TextSize(e, s) == TextSize(e, s[..n]) + TextSize(e, s[n..])
    ensures TextSize(e, s) >= Unit(e) * n + TextSize(e, s[n..])
  {
    assert s == s[..n] + s[n..];
    SizeOfSum(e, s[..n], s[n..]);
    SizeBounds(e, s[..n]);
  }

  lemma {:induction false} SkippingSpaceOnlyShortens(e: Encoding, s: string)
    ensures TextSize(e, SkipSpace(s)) <= TextSize(e, s)
  {
    if s != "" && s[0] in " \t\n\r" {
      SkippingSpaceOnlyShortens(e, s[1..]);
    }
  }

  /** One character was read, and then space was skipped. */
  lemma SizeAfter(e: Encoding, s: string)
    requires s != ""
    ensures TextSize(e, SkipSpace(s[1..])) + Unit(e) <= TextSize(e, s)
    ensures TextSize(e, s[1..]) + Unit(e) <= TextSize(e, s)
  {
    SizeSplits(e, s, 1);
    SkippingSpaceOnlyShortens(e, s[1..]);
  }

  // ---------- strings ----------

  lemma EscapeIsAscii(c: char)
    requires !IsPlain(c)
    ensures |Escape(c)| <= 6 && forall i | 0 <= i < |Escape(c)| :: Escape(c)[i] as int < 0x80
  {
  }

  lemma EscapeSize(e: Encoding, c: char)
    ensures IsPlain(c) ==> TextSize(e, Escape(c)) == CharSize(e, c)
    ensures !IsPlain(c) ==> TextSize(e, Escape(c)) == Unit(e) * |Escape(c)| <= 6 * Unit(e)
    ensures TextSize(e, Escape(c)) <= 6 * Unit(e)
  {
    if IsPlain(c) {
      assert Escape(c) == [c];
      assert [c][1..] == "";
    } else {
      EscapeIsAscii(c);
      SizeBounds(e, Escape(c));
    }
  }

  lemma QuotedSize(e: Encoding, s: string)
    requires s != ""
    ensures TextSize(e, Quoted(s)) == TextSize(e, Escape(s[0])) + TextSize(e, Quoted(s[1..]))
  {
    SizeOfSum(e, Escape(s[0]), Quoted(s[1..]));
  }

  /** An escape sequence is never shorter than the escape that is written for its character. */
  lemma UnescapedSize(e: Encoding, s: string)
    requires Unescape(s).Parse?
    ensures TextSize(e, Escape(Unescape(s).value)) + TextSize(e, Unescape(s).rest) <= Unit(e) + TextSize(e, s)
  {
    var c := Unescape(s).value;
    EscapeSize(e, c);
    if s[0] == 'u' {
      SizeSplits(e, s, 5);
      if |s| >= 11 {
        SizeSplits(e, s, 11);
      }
    } else {
      SizeSplits(e, s, 1);
      assert |Escape(c)| <= 2;
    }
  }

  lemma {:induction false} ParsedStringSize(e: Encoding, s: string)
    requires ParseString(s).Parse?
    ensures TextSize(e, Quoted(ParseString(s).value)) + TextSize(e, ParseString(s).rest) <= TextSize(e, s)
    decreases |s|
  {
    hide Escape, CharSize;
    var text := ParseString(s).value;
    if s[0] == '\"' {
      SizeOfQuote(e);
      SizeSplits(e, s, 1);
    } else {
      QuotedSize(e, text);
      if s[0] == '\\' {
        var rest := Unescape(s[1..]).rest;
        UnescapedSize(e, s[1..]);
        ParsedStringSize(e, rest);
        assert text[1..] == ParseString(rest).value;
        SizeSplits(e, s, 1);
      } else {
        ParsedStringSize(e, s[1..]);
        assert text[1..] == ParseString(s[1..]).value;
        EscapeSize(e, s[0]);
      }
    }
  }

  lemma SizeOfQuote(e: Encoding)
    ensures TextSize(e, "\"") == Unit(e) && Quoted("") == "\""
  {
    assert "\""[1..] == "";
  }

  // ---------- numbers ----------

  lemma {:induction false} ShortestDigits(d: string)
    requires d != "" && forall i | 0 <= i < |d| :: IsDigit(d[i])
    ensures |NatText(DigitsValue(d))| <= |d|
  {
    var front := d[..|d| - 1];
    if front == "" {
      assert DigitsValue(front) == 0;
    } else {
      ShortestDigits(front);
    }
  }

  lemma NatTextSize(e: Encoding, n: nat)
    ensures TextSize(e, NatText(n)) == Unit(e) * |NatText(n)|
  {
    NatTextIsDecimal(n);
    SizeBounds(e, NatText(n));
  }

  lemma ParsedNatSize(e: Encoding, s: string)
    requires ParseNat(s).Parse?
    ensures TextSize(e, NatText(ParseNat(s).value)) + TextSize(e, ParseNat(s).rest) <= TextSize(e, s)
  {
    var n := DigitCount(s);
    ShortestDigits(s[..n]);
    SizeSplits(e, s, n);
    NatTextSize(e, ParseNat(s).value);
    assert Unit(e) * |NatText(ParseNat(s).value)| <= Unit(e) * n;
  }

  lemma ParsedNumberSize(e: Encoding, s: string)
    requires ParseNumber(s).Parse?
    ensures TextSize(e, Canonical(ParseNumber(s).value)) + TextSize(e, ParseNumber(s).rest) <= TextSize(e, s)
  {
    hide NatText, ParseNat, CharSize;
    if s != "" && s[0] == '-' {
      ParsedNatSize(e, s[1..]);
      var n := ParseNat(s[1..]).value;
      SizeSplits(e, s, 1);
      assert "-"[1..] == "" && TextSize(e, "-") == Unit(e) by {
        SizeBounds(e, "-");
      }
      SizeOfSum(e, "-", NatText(n));
    } else {
      ParsedNatSize(e, s);
    }
  }

  // ---------- values ----------

  /** What one item takes inside an array, with the character behind it. */
  function ItemSize(e: Encoding, v: Json): nat {
    TextSize(e, Canonical(v)) + Unit(e)
  }

  function ItemsSize(e: Encoding, items: seq<Json>): nat {
    if items == [] then 0 else ItemSize(e, items[0]) + ItemsSize(e, items[1..])
  }

  lemma {:induction false} ItemsTextSize(e: Encoding, v: Json, i: nat)
    requires v.Arr? && i < |v.items|
    ensures TextSize(e, ItemsText(v, i)) == ItemsSize(e, v.items[i..])
    decreases |v.items| - i
  {
    hide CharSize, Canonical;
    var text := Canonical(v.items[i]);
    assert v.items[i..][1..] == v.items[i + 1..];
    if i + 1 == |v.items| {
      SizeOfSum(e, text, "]");
      SizeBounds(e, "]");
    } else {
      ItemsTextSize(e, v, i + 1);
      SizeOfSum(e, text, "," + ItemsText(v, i + 1));
      SizeOfSum(e, ",", ItemsText(v, i + 1));
      SizeBounds(e, ",");
    }
  }

  /** What one field takes inside an object, with the character behind it. */
  function FieldSize(e: Encoding, key: string, v: Json): nat {
    TextSize(e, Quoted(key)) + TextSize(e, Canonical(v)) + 3 * Unit(e)
  }

  function FieldsSize(e: Encoding, fields: map<string, Json>, keys: seq<string>): nat
    requires forall k | k in keys :: k in fields
  {
    if keys == [] then 0 else FieldSize(e, keys[0], fields[keys[0]]) + FieldsSize(e, fields, keys[1..])
  }

  lemma FieldTextSize(e: Encoding, key: string, v: Json)
    ensures TextSize(e, "\"" + Quoted(key) + ":" + Canonical(v)) + Unit(e) == FieldSize(e, key, v)
  {
    hide CharSize, Canonical, Quoted;
    SizeOfSum(e, "\"" + Quoted(key) + ":", Canonical(v));
    SizeOfSum(e, "\"" + Quoted(key), ":");
    SizeOfSum(e, "\"", Quoted(key));
    SizeBounds(e, "\"");
    SizeBounds(e, ":");
  }

  lemma {:induction false} FieldsTextSize(e: Encoding, v: Json, keys: seq<string>)
    requires v.Obj? && keys != [] && (forall k | k in keys :: k in v.fields)
    ensures TextSize(e, FieldsText(v, keys)) == FieldsSize(e, v.fields, keys)
    decreases |keys|
  {
    hide CharSize, Canonical, Quoted, FieldsText;
    FieldsTextStep(v, keys);
    var text := "\"" + Quoted(keys[0]) + ":" + Canonical(v.fields[keys[0]]);
    FieldTextSize(e, keys[0], v.fields[keys[0]]);
    if |keys| == 1 {
      SizeOfSum(e, text, "}");
      SizeBounds(e, "}");
    } else {
      FieldsTextSize(e, v, keys[1..]);
      SizeOfSum(e, text, "," + FieldsText(v, keys[1..]));
      SizeOfSum(e, ",", FieldsText(v, keys[1..]));
      SizeBounds(e, ",");
    }
  }

  lemma {:induction false} FieldsSizeOfSum(e: Encoding, fields: map<string, Json>, a: seq<string>, b: seq<string>)
    requires (forall k | k in a :: k in fields) && (forall k | k in b :: k in fields)
    requires forall k | k in a + b :: k in fields
    ensures FieldsSize(e, fields, a + b) == FieldsSize(e, fields, a) + FieldsSize(e, fields, b)
  {
    hide FieldSize;
    if a == [] {
      assert a + b == b;
    } else {
      assert (a + b)[1..] == a[1..] + b;
      FieldsSizeOfSum(e, fields, a[1..], b);
    }
  }

  lemma {:induction false} FieldsSizeDependsOn(
      e: Encoding, f: map<string, Json>, g: map<string, Json>, keys: seq<string>)
    requires forall k | k in keys :: k in f && k in g && f[k] == g[k]
    ensures FieldsSize(e, f, keys) == FieldsSize(e, g, keys)
  {
    hide FieldSize;
    if keys != [] {
      FieldsSizeDependsOn(e, f, g, keys[1..]);
    }
  }

  /** The fields of an object take the same space in whatever order they are taken. */
  function TotalSize(e: Encoding, fields: map<string, Json>): nat {
    FieldsSize(e, fields, SortedKeys(fields.Keys))
  }

  lemma WithoutKey(keys: seq<string>, j: nat)
    requires Increasing(keys) && j < |keys|
    ensures keys[..j] + keys[j + 1..] == SortedKeys((set k | k in keys) - {keys[j]})
  {
    var rest := keys[..j] + keys[j + 1..];
    forall i | 0 <= i < |keys| && i != j ensures keys[i] != keys[j] {
      BeforeIsTotal(keys[i], keys[j]);
    }
    assert forall i | 0 <= i < |rest| :: rest[i] == if i < j then keys[i] else keys[i + 1];
    assert Increasing(rest);
    forall k ensures k in rest <==> k in keys && k != keys[j] {
      if k in keys && k != keys[j] {
        var i :| 0 <= i < |keys| && keys[i] == k;
        assert rest[if i < j then i else i - 1] == k;
      }
    }
    assert (set k | k in rest) == (set k | k in keys) - {keys[j]};
    SortedKeysAreUnique(rest);
  }

  lemma MiddleFieldSize(e: Encoding, fields: map<string, Json>, a: seq<string>, key: string, b: seq<string>)
    requires key in fields && (forall k | k in a :: k in fields) && (forall k | k in b :: k in fields)
    requires (forall k | k in a + b :: k in fields) && (forall k | k in a + ([key] + b) :: k in fields)
    ensures FieldsSize(e, fields, a + ([key] + b)) == FieldSize(e, key, fields[key]) + FieldsSize(e, fields, a + b)
  {
    hide FieldSize;
    FieldsSizeOfSum(e, fields, a, [key] + b);
    assert ([key] + b)[1..] == b;
    FieldsSizeOfSum(e, fields, a, b);
  }

  lemma TotalWithout(e: Encoding, fields: map<string, Json>, key: string)
    requires key in fields
    ensures TotalSize(e, fields) == FieldSize(e, key, fields[key]) + TotalSize(e, fields - {key})
  {
    hide FieldSize, FieldsSize, SortedKeys, Increasing;
    var keys := SortedKeys(fields.Keys);
    var j :| 0 <= j < |keys| && keys[j] == key;
    var a, b := keys[..j], keys[j + 1..];
    assert keys == a + ([key] + b);
    assert (set k | k in keys) == fields.Keys;
    WithoutKey(keys, j);
    var others := fields - {key};
    assert others.Keys == fields.Keys - {key};
    assert a + b == SortedKeys(others.Keys);
    MiddleFieldSize(e, fields, a, key, b);
    FieldsSizeDependsOn(e, fields, others, a + b);
  }

  /** A field that is read in front of others, one of which may replace it. */
  lemma AddedFieldSize(e: Encoding, key: string, v: Json, tail: map<string, Json>)
    ensures TotalSize(e, map[key := v] + tail) <= FieldSize(e, key, v) + TotalSize(e, tail)
  {
    hide FieldSize, TotalSize;
    var all := map[key := v] + tail;
    if key in tail {
      assert all == tail;
    } else {
      TotalWithout(e, all, key);
      assert all - {key} == tail;
    }
  }

  lemma OneFieldSize(e: Encoding, key: string, v: Json)
    ensures TotalSize(e, map[key := v]) == FieldSize(e, key, v)
  {
    hide FieldSize;
    TotalWithout(e, map[key := v], key);
    assert map[key := v] - {key} == map[];
  }

  lemma ContainerSize(e: Encoding, v: Json)
    ensures v.Arr? && v.items != [] ==> TextSize(e, Canonical(v)) == Unit(e) + ItemsSize(e, v.items)
    ensures v.Obj? && v.fields != map[] ==> TextSize(e, Canonical(v)) == Unit(e) + TotalSize(e, v.fields)
    ensures v == Arr([]) || v == Obj(map[]) ==> TextSize(e, Canonical(v)) == 2 * Unit(e)
  {
    hide CharSize, Canonical, ItemsText, FieldsText, SortedKeys, ItemsSize, FieldsSize;
    if v.Arr? {
      ContainerText(v);
      if v.items != [] {
        SizeOfSum(e, "[", ItemsText(v, 0));
        SizeBounds(e, "[");
        ItemsTextSize(e, v, 0);
        assert v.items[0..] == v.items;
      } else {
        SizeBounds(e, "[]");
      }
    } else if v.Obj? {
      ContainerText(v);
      if v.fields != map[] {
        SomeKey(v.fields);
        SizeOfSum(e, "{", FieldsText(v, SortedKeys(v.fields.Keys)));
        SizeBounds(e, "{");
        FieldsTextSize(e, v, SortedKeys(v.fields.Keys));
      } else {
        SizeBounds(e, "{}");
      }
    }
  }

  // ---------- writing what was read ----------

  lemma ParsedScalarSize(e: Encoding, s: string)
    requires ParseScalar(s).Parse?
    ensures TextSize(e, Canonical(ParseScalar(s).value)) + TextSize(e, ParseScalar(s).rest) <= TextSize(e, s)
  {
    hide CharSize, ParseString, ParseNumber, Quoted;
    if StartsWith(s, 'n') || StartsWith(s, 't') {
      SizeSplits(e, s, 4);
    } else if StartsWith(s, 'f') {
      SizeSplits(e, s, 5);
    } else if StartsWith(s, '\"') {
      ParsedStringSize(e, s[1..]);
      SizeSplits(e, s, 1);
      SizeOfSum(e, "\"", Quoted(ParseString(s[1..]).value));
      SizeBounds(e, "\"");
    } else {
      ParsedNumberSize(e, s);
    }
  }

  /** A value that was read takes at least the space that its canonical text takes, in every encoding. */
  lemma {:induction false} ParsedValueSize(e: Encoding, s: string)
    requires ParseValue(s).Parse?
    ensures TextSize(e, Canonical(ParseValue(s).value)) + TextSize(e, ParseValue(s).rest) <= TextSize(e, s)
    decreases |s|, 1
  {
    hide CharSize, Canonical, ParseItems, ParseFields, ParseScalar, ItemsSize, TotalSize;
    if StartsWith(s, '[') {
      var inner := SkipSpace(s[1..]);
      SizeAfter(e, s);
      ContainerSize(e, ParseValue(s).value);
      if StartsWith(inner, ']') {
        SizeAfter(e, inner);
      } else {
        ParsedItemsSize(e, inner);
      }
    } else if StartsWith(s, '{') {
      var inner := SkipSpace(s[1..]);
      SizeAfter(e, s);
      ContainerSize(e, ParseValue(s).value);
      if StartsWith(inner, '}') {
        SizeAfter(e, inner);
      } else {
        ParsedFieldsSize(e, inner);
      }
    } else {
      ParsedScalarSize(e, s);
    }
  }

  lemma {:induction false} ParsedItemsSize(e: Encoding, s: string)
    requires ParseItems(s).Parse?
    ensures ParseItems(s).value != []
    ensures ItemsSize(e, ParseItems(s).value) + TextSize(e, ParseItems(s).rest) <= TextSize(e, s)
    decreases |s|, 2
  {
    hide CharSize, Canonical, ParseValue;
    ParsedValueSize(e, s);
    var head, after := ParseValue(s).value, SkipSpace(ParseValue(s).rest);
    SkippingSpaceOnlyShortens(e, ParseValue(s).rest);
    SizeAfter(e, after);
    if StartsWith(after, ']') {
      assert [head][1..] == [];
    } else {
      var more := SkipSpace(after[1..]);
      ParsedItemsSize(e, more);
      assert ([head] + ParseItems(more).value)[1..] == ParseItems(more).value;
    }
  }

  /** A key and its value were read, up to the character behind them. */
  lemma ParsedFieldSize(e: Encoding, s: string, key: string, afterKey: string, v: Json, rest: string)
    requires StartsWith(s, '\"') && ParseString(s[1..]) == Parse(key, afterKey)
    requires SkipSpace(afterKey) != "" && ParseValue(SkipSpace(SkipSpace(afterKey)[1..])) == Parse(v, rest)
    requires TextSize(e, Canonical(v)) + TextSize(e, rest) <= TextSize(e, SkipSpace(SkipSpace(afterKey)[1..]))
    requires SkipSpace(rest) != ""
    ensures FieldSize(e, key, v) + TextSize(e, SkipSpace(rest)[1..]) <= TextSize(e, s)
    ensures FieldSize(e, key, v) + TextSize(e, SkipSpace(SkipSpace(rest)[1..])) <= TextSize(e, s)
  {
    hide CharSize, Canonical, ParseValue, ParseString, Quoted;
    SizeAfter(e, s);
    ParsedStringSize(e, s[1..]);
    SkippingSpaceOnlyShortens(e, afterKey);
    SizeAfter(e, SkipSpace(afterKey));
    SkippingSpaceOnlyShortens(e, rest);
    SizeAfter(e, SkipSpace(rest));
  }

  lemma {:induction false} ParsedFieldsSize(e: Encoding, s: string)
    requires ParseFields(s).Parse?
    ensures ParseFields(s).value != map[]
    ensures TotalSize(e, ParseFields(s).value) + TextSize(e, ParseFields(s).rest) <= TextSize(e, s)
    decreases |s|, 2
  {
    hide CharSize, Canonical, ParseValue, ParseString, FieldSize, TotalSize;
    var key, afterKey := ParseString(s[1..]).value, ParseString(s[1..]).rest;
    var valueText := SkipSpace(SkipSpace(afterKey)[1..]);
    ParsedValueSize(e, valueText);
    var v, rest := ParseValue(valueText).value, ParseValue(valueText).rest;
    ParsedFieldSize(e, s, key, afterKey, v, rest);
    var after := SkipSpace(rest);
    if StartsWith(after, '}') {
      OneFieldSize(e, key, v);
      assert key in ParseFields(s).value;
    } else {
      var more := SkipSpace(after[1..]);
      ParsedFieldsSize(e, more);
      AddedFieldSize(e, key, v, ParseFields(more).value);
      assert ParseFields(s).value == map[key := v] + ParseFields(more).value;
      assert key in ParseFields(s).value;
    }
  }

  /** Decoding text and writing the value canonically never makes it longer, in any one encoding. */
  lemma RewritingNeverGrows(e: Encoding, s: string)
    requires Loads(s).Some?
    ensures TextSize(e, Canonical(Loads(s).value)) <= TextSize(e, s)
  {
    SkippingSpaceOnlyShortens(e, s);
    ParsedValueSize(e, SkipSpace(s));
  }

  /** Another encoding can take more: UTF-8 never more than UTF-32, and up to half as much again as UTF-16. */
  lemma {:induction false} Utf8Against(s: string)
    ensures TextSize(Utf8, s) <= TextSize(Utf32, s) && 2 * TextSize(Utf8, s) <= 3 * TextSize(Utf16, s)
  {
    if s != "" {
      Utf8Against(s[1..]);
    }
  }
}
