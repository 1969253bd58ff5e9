/** JSON values and their canonical text.

    `Canonical` is the printer that both the signature and the same-generation comparison use:
    no whitespace, keys in code point order, non-ASCII text left as it is. `Loads` is a parser for JSON
    texts without fractions and exponents. The round trip between the two is what makes comparing texts
    as good as comparing values. */
module Json {
  import opened Wrappers

  datatype Json =
    | Null
    | Bool(b: bool)
    | Num(n: int)
    | Str(s: string)
    | Arr(items: seq<Json>)
    | Obj(fields: map<string, Json>)

  // ---------- key order ----------

  /** Code point order on strings, strictly. */
  predicate Before(a: string, b: string) {
    if b == "" then false
    else if a == "" then true
    else a[0] < b[0] || (a[0] == b[0] && Before(a[1..], b[1..]))
  }

  lemma BeforeIsTotal(a: string, b: string)
    ensures Before(a, b) || a == b || Before(b, a)
    ensures !(Before(a, b) && (a == b || Before(b, a)))
  {
    if a != "" && b != "" && a[0] == b[0] {
      BeforeIsTotal(a[1..], b[1..]);
      assert a == [a[0]] + a[1..] && b == [b[0]] + b[1..];
    }
  }

  lemma BeforeIsTransitive(a: string, b: string, c: string)
    requires Before(a, b) && Before(b, c)
    ensures Before(a, c)
  {
  }

  /** That is: `a` is a proper prefix of `b`, or it has the smaller character where they first differ. */
  lemma BeforeIsLexicographic(a: string, b: string)
    ensures Before(a, b) <==> exists n: nat :: Precedes(a, b, n)
  {
    if a != "" && b != "" && a[0] == b[0] {
      BeforeIsLexicographic(a[1..], b[1..]);
      if n: nat :| Precedes(a[1..], b[1..], n) {
        assert a[..n + 1] == [a[0]] + a[1..][..n] && b[..n + 1] == [b[0]] + b[1..][..n];
        assert Precedes(a, b, n + 1);
      }
      if n: nat :| Precedes(a, b, n) {
        assert n > 0;
        assert a[1..][..n - 1] == a[..n][1..] && b[1..][..n - 1] == b[..n][1..];
        assert Precedes(a[1..], b[1..], n - 1);
      }
    } else if Before(a, b) {
      assert Precedes(a, b, 0);
    } else {
      forall n: nat ensures !Precedes(a, b, n) {
        if 0 < n <= |a| && n < |b| {
          assert a[..n][0] == a[0] && b[..n][0] == b[0];
        }
      }
    }
  }

  predicate Precedes(a: string, b: string, n: nat) {
    n <= |a| && n < |b| && a[..n] == b[..n] && (n == |a| || a[n] < b[n])
  }

  predicate IsLeast(k: string, keys: set<string>) {
    k in keys && forall other | other in keys && other != k :: Before(k, other)
  }

  lemma LeastExists(keys: set<string>)
    requires keys != {}
    ensures exists k :: IsLeast(k, keys)
  {
    var some :| some in keys;
    if keys == {some} {
      assert IsLeast(some, keys);
    } else {
      LeastExists(keys - {some});
      var k :| IsLeast(k, keys - {some});
      BeforeIsTotal(some, k);
      if Before(k, some) {
        assert IsLeast(k, keys);
      } else {
        forall other | other in keys && other != some ensures Before(some, other) {
          if other != k {
            BeforeIsTransitive(some, k, other);
          }
        }
        assert IsLeast(some, keys);
      }
    }
  }

  lemma LeastIsUnique(keys: set<string>)
    ensures forall k, l :: IsLeast(k, keys) && IsLeast(l, keys) ==> k == l
  {
    forall k, l | IsLeast(k, keys) && IsLeast(l, keys) ensures k == l {
      BeforeIsTotal(k, l);
    }
  }

  predicate Increasing(keys: seq<string>) {
    forall i, j | 0 <= i < j < |keys| :: Before(keys[i], keys[j])
  }

  function SortedKeys(keys: set<string>): (r: seq<string>)
    ensures Increasing(r)
    ensures forall k :: k in r <==> k in keys
  {
    if keys == {} then []
    else
      LeastExists(keys);
      LeastIsUnique(keys);
      var k :| IsLeast(k, keys);
      [k] + SortedKeys(keys - {k})
  }

  /** Whatever order the keys were inserted in, sorting them gives the same list: there is only one
      increasing enumeration of a key set. */
  lemma {:induction false} SortedKeysAreUnique(keys: seq<string>)
    requires Increasing(keys)
    ensures keys == SortedKeys(set k | k in keys)
  {
    var all := set k | k in keys;
    if keys != [] {
      assert IsLeast(keys[0], all);
      LeastIsUnique(all);
      assert keys[0] !in keys[1..] by {
        BeforeIsTotal(keys[0], keys[0]);
      }
      assert keys == [keys[0]] + keys[1..];
      assert (set k | k in keys[1..]) == all - {keys[0]};
      SortedKeysAreUnique(keys[1..]);
    }
  }

  lemma {:induction false} SortedKeysCount(keys: set<string>)
    ensures |SortedKeys(keys)| == |keys|
  {
    if keys != {} {
      var k := SortedKeys(keys)[0];
      assert k in keys;
      SortedKeysCount(keys - {k});
    }
  }

  // ---------- printer ----------

  function HexDigit(d: nat): char
    requires d < 16
  {
    "0123456789abcdef"[d]
  }

  /** One character inside a string literal, escaped as in section 7 of RFC 8259. */
  function Escape(c: char): string {
    if c == '\"' then "\\\""
    else if c == '\\' then "\\\\"
    else if c == '\n' then "\\n"
    else if c == '\r' then "\\r"
    else if c == '\t' then "\\t"
    else if c == '\U{8}' then "\\b"
    else if c == '\U{C}' then "\\f"
    else if c < ' ' then "\\u00" + [HexDigit(c as int / 16), HexDigit(c as int % 16)]
    else [c]
  }

  function Quoted(s: string): string {
    if s == "" then "\"" else Escape(s[0]) + Quoted(s[1..])
  }

  function Digit(d: nat): char
    requires d < 10
  {
    "0123456789"[d]
  }

  function NatText(n: nat): string {
    if n < 10 then [Digit(n)] else NatText(n / 10) + [Digit(n % 10)]
  }

  function IntText(n: int): string {
    if n < 0 then "-" + NatText(-n) else NatText(n)
  }

  function Canonical(v: Json): string
    decreases v
  {
    match v
    case Null => "null"
    case Bool(b) => if b then "true" else "false"
    case Num(n) => IntText(n)
    case Str(s) => "\"" + Quoted(s)
    case Arr(items) => if items == [] then "[]" else "[" + ItemsText(v, 0)
    case Obj(fields) => if fields == map[] then "{}" else "{" + FieldsText(v, SortedKeys(fields.Keys))
  }

  /** The items of an array from index i on, with the closing bracket. */
  function ItemsText(v: Json, i: nat): string
    requires v.Arr? && i < |v.items|
    decreases v, |v.items| - i
  {
    Canonical(v.items[i]) + (if i + 1 == |v.items| then "]" else "," + ItemsText(v, i + 1))
  }

  /** The fields of an object with the given keys, in that order, with the closing brace. */
  function FieldsText(v: Json, keys: seq<string>): string
    requires v.Obj? && forall k | k in keys :: k in v.fields
    decreases v, |keys|
  {
    if keys == [] then "}"
    else
      "\"" + Quoted(keys[0]) + ":" + Canonical(v.fields[keys[0]]) +
      (if |keys| == 1 then "}" else "," + FieldsText(v, keys[1..]))
  }

  // ---------- parser ----------

  datatype Parsed<+T> = NoParse | Parse(value: T, rest: string)

  predicate StartsWith(s: string, c: char) {
    s != "" && s[0] == c
  }

  function SkipSpace(s: string): (r: string)
    ensures |r| <= |s|
    ensures s == "" || s[0] !in " \t\n\r" ==> r == s
  {
    if s != "" && s[0] in " \t\n\r" then SkipSpace(s[1..]) else s
  }

  function HexValue(c: char): Option<nat> {
    if '0' <= c <= '9' then Some(c as int - '0' as int)
    else if 'a' <= c <= 'f' then Some(c as int - 'a' as int + 10)
    else if 'A' <= c <= 'F' then Some(c as int - 'A' as int + 10)
    else None
  }

  function HexCode(s: string): Option<nat>
    requires |s| == 4
  {
    match (HexValue(s[0]), HexValue(s[1]), HexValue(s[2]), HexValue(s[3]))
    case (Some(a), Some(b), Some(c), Some(d)) => Some(a * 4096 + b * 256 + c * 16 + d)
    case _ => None
  }

  /** The character of `uXXXX`, or of two such escapes that are a surrogate pair. Half a pair is refused. */
  function UnescapeUnicode(s: string): (r: Parsed<char>)
    requires |s| >= 5
    ensures r.Parse? ==> |r.rest| < |s|
  {
    match HexCode(s[1..5])
    case None => NoParse
    case Some(code) =>
      if code < 0xD800 || 0xE000 <= code < 0x10000 then Parse(code as char, s[5..])
      else if code < 0xDC00 && |s| >= 11 && s[5..7] == "\\u" then
        match HexCode(s[7..11])
        case None => NoParse
        case Some(low) =>
          if 0xDC00 <= low < 0xE000 then Parse(Paired(code, low), s[11..]) else NoParse
      else NoParse
  }

  /** The character of a surrogate pair. */
  function Paired(high: nat, low: nat): char
    requires 0xD800 <= high < 0xDC00 <= low < 0xE000
  {
    (0x10000 + (high - 0xD800) * 0x400 + (low - 0xDC00)) as char
  }

  /** The character an escape sequence stands for; `s` starts after the backslash. */
  function Unescape(s: string): (r: Parsed<char>)
    ensures r.Parse? ==> |r.rest| < |s|
  {
    if s == "" then NoParse
    else if s[0] == '\"' || s[0] == '\\' || s[0] == '/' then Parse(s[0], s[1..])
    else if s[0] == 'n' then Parse('\n', s[1..])
    else if s[0] == 'r' then Parse('\r', s[1..])
    else if s[0] == 't' then Parse('\t', s[1..])
    else if s[0] == 'b' then Parse('\U{8}', s[1..])
    else if s[0] == 'f' then Parse('\U{C}', s[1..])
    else if s[0] == 'u' && |s| >= 5 then UnescapeUnicode(s)
    else NoParse
  }

  /** A string literal, from behind its opening quote. Bare control characters are refused. */
  function ParseString(s: string): (r: Parsed<string>)
    ensures r.Parse? ==> |r.rest| < |s|
  {
    if s == "" then NoParse
    else if s[0] == '\"' then Parse("", s[1..])
    else if s[0] == '\\' then
      match Unescape(s[1..])
      case NoParse => NoParse
      case Parse(c, rest) =>
        (match ParseString(rest)
         case NoParse => NoParse
         case Parse(text, end) => Parse([c] + text, end))
    else if s[0] < ' ' then NoParse
    else
      match ParseString(s[1..])
      case NoParse => NoParse
      case Parse(text, end) => Parse([s[0]] + text, end)
  }

  predicate IsDigit(c: char) {
    '0' <= c <= '9'
  }

  function DigitCount(s: string): (n: nat)
    ensures n <= |s|
    ensures forall i | 0 <= i < n :: IsDigit(s[i])
    ensures n < |s| ==> !IsDigit(s[n])
  {
    if s != "" && IsDigit(s[0]) then 1 + DigitCount(s[1..]) else 0
  }

  function DigitsValue(s: string): nat
    requires forall i | 0 <= i < |s| :: IsDigit(s[i])
  {
    if s == "" then 0
    else
      var d := s[|s| - 1];
      assert IsDigit(d);
      DigitsValue(s[..|s| - 1]) * 10 + (d as int - '0' as int)
  }

  /** An unsigned integer: no leading zero, no fraction, no exponent. */
  function ParseNat(s: string): (r: Parsed<nat>)
    ensures r.Parse? ==> |r.rest| < |s|
  {
    var n := DigitCount(s);
    if n == 0 then NoParse
    else if s[0] == '0' && n > 1 then NoParse
    else if n < |s| && s[n] in ".eE" then NoParse
    else Parse(DigitsValue(s[..n]), s[n..])
  }

  function ParseNumber(s: string): (r: Parsed<Json>)
    ensures r.Parse? ==> |r.rest| < |s|
  {
    if s != "" && s[0] == '-' then
      match ParseNat(s[1..])
      case NoParse => NoParse
      case Parse(n, rest) => Parse(Num(0 - n), rest)
    else
      match ParseNat(s)
      case NoParse => NoParse
      case Parse(n, rest) => Parse(Num(n), rest)
  }

  /** A value that holds no other values. */
  function ParseScalar(s: string): (r: Parsed<Json>)
    ensures r.Parse? ==> |r.rest| < |s|
  {
    if StartsWith(s, 'n') then
      if |s| >= 4 && s[..4] == "null" then Parse(Null, s[4..]) else NoParse
    else if StartsWith(s, 't') then
      if |s| >= 4 && s[..4] == "true" then Parse(Bool(true), s[4..]) else NoParse
    else if StartsWith(s, 'f') then
      if |s| >= 5 && s[..5] == "false" then Parse(Bool(false), s[5..]) else NoParse
    else if StartsWith(s, '\"') then
      match ParseString(s[1..])
      case NoParse => NoParse
      case Parse(text, rest) => Parse(Str(text), rest)
    else ParseNumber(s)
  }

  function ParseValue(s: string): (r: Parsed<Json>)
    ensures r.Parse? ==> |r.rest| < |s|
    decreases |s|, 1
  {
    if StartsWith(s, '[') then
      var inner := SkipSpace(s[1..]);
      if StartsWith(inner, ']') then Parse(Arr([]), inner[1..])
      else
        match ParseItems(inner)
        case NoParse => NoParse
        case Parse(items, rest) => Parse(Arr(items), rest)
    else if StartsWith(s, '{') then
      var inner := SkipSpace(s[1..]);
      if StartsWith(inner, '}') then Parse(Obj(map[]), inner[1..])
      else
        match ParseFields(inner)
        case NoParse => NoParse
        case Parse(fields, rest) => Parse(Obj(fields), rest)
    else ParseScalar(s)
  }

  /** One or more array items and the closing bracket. */
  function ParseItems(s: string): (r: Parsed<seq<Json>>)
    ensures r.Parse? ==> |r.rest| < |s|
    decreases |s|, 2
  {
    match ParseValue(s)
    case NoParse => NoParse
    case Parse(head, rest) =>
      var after := SkipSpace(rest);
      if StartsWith(after, ']') then Parse([head], after[1..])
      else if StartsWith(after, ',') then
        match ParseItems(SkipSpace(after[1..]))
        case NoParse => NoParse
        case Parse(tail, end) => Parse([head] + tail, end)
      else NoParse
  }

  /** One or more fields and the closing brace. A later field of the same name wins. */
  function ParseFields(s: string): (r: Parsed<map<string, Json>>)
    ensures r.Parse? ==> |r.rest| < |s|
    decreases |s|, 2
  {
    if !(StartsWith(s, '\"')) then NoParse
    else
      match ParseString(s[1..])
      case NoParse => NoParse
      case Parse(key, afterKey) =>
        var colon := SkipSpace(afterKey);
        if !(StartsWith(colon, ':')) then NoParse
        else
          match ParseValue(SkipSpace(colon[1..]))
          case NoParse => NoParse
          case Parse(value, rest) =>
            var after := SkipSpace(rest);
            if StartsWith(after, '}') then Parse(map[key := value], after[1..])
            else if StartsWith(after, ',') then
              match ParseFields(SkipSpace(after[1..]))
              case NoParse => NoParse
              case Parse(tail, end) => Parse(map[key := value] + tail, end)
            else NoParse
  }

  function Loads(s: string): Option<Json> {
    match ParseValue(SkipSpace(s))
    case NoParse => None
    case Parse(v, rest) => if SkipSpace(rest) == "" then Some(v) else None
  }

  // ---------- the printer and the parser are inverse ----------

  /** What can follow a value in canonical text, or a line end behind it. */
  predicate Closes(rest: string) {
    rest == "" || rest[0] in ",]}\n"
  }

  predicate IsPlain(c: char) {
    c != '\"' && c != '\\' && c >= ' '
  }

  lemma UnescapeShort(c: char, rest: string)
    requires |Escape(c)| == 2
    ensures Escape(c)[0] == '\\' && !IsPlain(c) && Unescape([Escape(c)[1]] + rest) == Parse(c, rest)
  {
    assert ([Escape(c)[1]] + rest)[1..] == rest;
  }

  lemma UnescapeLong(c: char, rest: string)
    requires |Escape(c)| == 6
    ensures Escape(c)[0] == '\\' && !IsPlain(c) && Unescape(Escape(c)[1..] + rest) == Parse(c, rest)
  {
    var high, low := c as int / 16, c as int % 16;
    UnescapeHex(high, low, rest);
    assert Escape(c)[1..] == ['u', '0', '0', HexDigit(high), HexDigit(low)];
  }

  lemma EscapeLengths(c: char)
    ensures (IsPlain(c) && Escape(c) == [c]) || |Escape(c)| == 2 || |Escape(c)| == 6
  {
  }

  lemma UnescapeEscape(c: char, rest: string)
    ensures (Escape(c) == [c] && IsPlain(c)) ||
            (Escape(c) != "" && Escape(c)[0] == '\\' && Unescape((Escape(c) + rest)[1..]) == Parse(c, rest))
  {
    hide Escape, Unescape;
    var e := Escape(c);
    EscapeLengths(c);
    if |e| == 2 {
      UnescapeShort(c, rest);
      assert (e + rest)[1..] == [e[1]] + rest;
    } else if |e| == 6 {
      UnescapeLong(c, rest);
      assert (e + rest)[1..] == e[1..] + rest;
    }
  }

  lemma UnescapeHex(high: nat, low: nat, rest: string)
    requires high < 16 && low < 16
    ensures Unescape(['u', '0', '0', HexDigit(high), HexDigit(low)] + rest) == Parse((high * 16 + low) as char, rest)
  {
    var s := ['u', '0', '0', HexDigit(high), HexDigit(low)] + rest;
    assert s[1..5] == ['0', '0', HexDigit(high), HexDigit(low)];
    HexDigitValue(high);
    HexDigitValue(low);
    assert s[5..] == rest;
  }

  lemma HexDigitValue(d: nat)
    requires d < 16
    ensures HexValue(HexDigit(d)) == Some(d)
  {
  }

  lemma ParseEscaped(c: char, tail: string, text: string, rest: string)
    requires ParseString(tail) == Parse(text, rest)
    ensures ParseString(Escape(c) + tail) == Parse([c] + text, rest)
  {
    var s := Escape(c) + tail;
    UnescapeEscape(c, tail);
    assert s[0] == Escape(c)[0];
    if Escape(c) == [c] {
      assert s[1..] == tail;
    }
  }

  lemma Associative(a: string, b: string, c: string)
    ensures (a + b) + c == a + (b + c)
  {
  }

  lemma {:induction false} ParseQuoted(s: string, rest: string)
    ensures ParseString(Quoted(s) + rest) == Parse(s, rest)
  {
    if s == "" {
      assert (Quoted(s) + rest)[1..] == rest;
    } else {
      ParseQuoted(s[1..], rest);
      ParseEscaped(s[0], Quoted(s[1..]) + rest, s[1..], rest);
      Associative(Escape(s[0]), Quoted(s[1..]), rest);
      assert s == [s[0]] + s[1..];
    }
  }

  lemma {:induction false} NatTextIsDecimal(n: nat)
    ensures NatText(n) != ""
    ensures forall i | 0 <= i < |NatText(n)| :: IsDigit(NatText(n)[i])
    ensures DigitsValue(NatText(n)) == n
    ensures NatText(n)[0] == '0' ==> n == 0
    ensures n == 0 ==> NatText(n) == "0"
  {
    DigitFacts(n % 10);
    if n >= 10 {
      NatTextIsDecimal(n / 10);
      var t := NatText(n);
      assert t[..|t| - 1] == NatText(n / 10);
    }
    else { assert NatText(n)[..0] == ""; }
  }

  lemma DigitFacts(d: nat)
    requires d < 10
    ensures IsDigit(Digit(d)) && Digit(d) as int - '0' as int == d
  {
  }

  lemma {:induction false} DigitCountOfDigits(digits: string, rest: string)
    requires forall i | 0 <= i < |digits| :: IsDigit(digits[i])
    requires Closes(rest)
    ensures DigitCount(digits + rest) == |digits|
  {
    if digits != "" {
      assert (digits + rest)[1..] == digits[1..] + rest;
      DigitCountOfDigits(digits[1..], rest);
    } else {
      assert digits + rest == rest;
    }
  }

  lemma ParsePrintedNat(n: nat, rest: string)
    requires Closes(rest)
    ensures ParseNat(NatText(n) + rest) == Parse(n, rest)
  {
    var digits := NatText(n);
    NatTextIsDecimal(n);
    DigitCountOfDigits(digits, rest);
    assert (digits + rest)[..|digits|] == digits && (digits + rest)[|digits|..] == rest;
  }

  /** Only the shortest decimal text of a number is read as a number: no leading zeros, and neither fraction nor
      exponent behind it. */
  lemma NumbersAreExact(s: string, n: nat, rest: string)
    ensures ParseNat(s) == Parse(n, rest) <==>
            s == NatText(n) + rest && (rest == "" || (!IsDigit(rest[0]) && rest[0] !in ".eE"))
  {
    hide NatText, DigitsValue, DigitCount;
    var k := DigitCount(s);
    NatTextIsDecimal(n);
    if ParseNat(s) == Parse(n, rest) {
      ShortestText(s[..k]);
      assert s == s[..k] + s[k..];
    } else if s == NatText(n) + rest && (rest == "" || !IsDigit(rest[0])) {
      DigitCountStops(NatText(n), rest);
      assert s[..k] == NatText(n) && s[k..] == rest;
    }
  }

  lemma {:induction false} DigitCountStops(digits: string, rest: string)
    requires forall i | 0 <= i < |digits| :: IsDigit(digits[i])
    requires rest == "" || !IsDigit(rest[0])
    ensures DigitCount(digits + rest) == |digits|
  {
    if digits != "" {
      assert (digits + rest)[1..] == digits[1..] + rest;
      DigitCountStops(digits[1..], rest);
    } else {
      assert digits + rest == rest;
    }
  }

  lemma {:induction false} ShortestText(d: string)
    requires d != "" && (forall i | 0 <= i < |d| :: IsDigit(d[i])) && (d[0] == '0' ==> |d| == 1)
    ensures NatText(DigitsValue(d)) == d && (d[0] != '0' ==> DigitsValue(d) > 0)
  {
    hide NatText, IsDigit;
    var front, last := d[..|d| - 1], d[|d| - 1];
    assert d == front + [last];
    DigitOf(last);
    if front == "" {
      assert DigitsValue(front) == 0;
    } else {
      ShortestText(front);
      AppendDigit(DigitsValue(front), last as int - '0' as int);
    }
  }

  lemma AppendDigit(n: nat, d: nat)
    requires n > 0 && d < 10
    ensures NatText(n * 10 + d) == NatText(n) + [Digit(d)]
  {
  }

  lemma DigitOf(c: char)
    requires IsDigit(c)
    ensures 0 <= c as int - '0' as int < 10 && Digit(c as int - '0' as int) == c
    ensures NatText(c as int - '0' as int) == [c] && (c != '0' ==> c as int - '0' as int > 0)
  {
  }

  lemma ParseNegative(digits: string, n: nat, rest: string)
    requires ParseNat(digits + rest) == Parse(n, rest)
    ensures ParseNumber("-" + digits + rest) == Parse(Num(0 - n), rest)
  {
    Associative("-", digits, rest);
    assert ("-" + (digits + rest))[1..] == digits + rest;
  }

  lemma ParsePositive(digits: string, n: nat, rest: string)
    requires ParseNat(digits + rest) == Parse(n, rest)
    requires digits != "" && digits[0] != '-'
    ensures ParseNumber(digits + rest) == Parse(Num(n), rest)
  {
    assert (digits + rest)[0] == digits[0];
  }

  lemma ParsePrintedInt(n: int, rest: string)
    requires Closes(rest)
    ensures ParseNumber(IntText(n) + rest) == Parse(Num(n), rest)
    ensures IntText(n) != "" && (IntText(n)[0] == '-' || IsDigit(IntText(n)[0]))
  {
    var size := if n < 0 then -n else n;
    ParsePrintedNat(size, rest);
    NatTextIsDecimal(size);
    if n < 0 {
      ParseNegative(NatText(size), size, rest);
    } else {
      ParsePositive(NatText(size), size, rest);
    }
  }

  /** Canonical text starts with a character that is neither space nor a closing bracket. */
  lemma CanonicalHead(v: Json)
    ensures Canonical(v) != "" && Canonical(v)[0] !in " \t\n\r]},"
  {
    if v.Num? {
      NatTextIsDecimal(if v.n < 0 then -v.n else v.n);
    }
  }

  lemma ParseLiteral(v: Json, rest: string)
    requires v.Null? || v.Bool?
    ensures ParseValue(Canonical(v) + rest) == Parse(v, rest)
  {
    var text := Canonical(v);
    var s := text + rest;
    assert s[0] == text[0] && s[..|text|] == text && s[|text|..] == rest;
  }

  lemma ParseBracketed(inner: string, items: seq<Json>, rest: string)
    requires inner != "" && SkipSpace(inner) == inner && inner[0] != ']'
    requires ParseItems(inner) == Parse(items, rest)
    ensures ParseValue("[" + inner) == Parse(Arr(items), rest)
  {
    assert ("[" + inner)[1..] == inner;
  }

  lemma ParseBraced(inner: string, fields: map<string, Json>, rest: string)
    requires StartsWith(inner, '\"') && SkipSpace(inner) == inner
    requires ParseFields(inner) == Parse(fields, rest)
    ensures ParseValue("{" + inner) == Parse(Obj(fields), rest)
  {
    assert ("{" + inner)[1..] == inner;
  }

  lemma ParseEmpty(rest: string)
    ensures ParseValue("[]" + rest) == Parse(Arr([]), rest)
    ensures ParseValue("{}" + rest) == Parse(Obj(map[]), rest)
  {
    assert ("[]" + rest)[1..] == "]" + rest && ("{}" + rest)[1..] == "}" + rest;
    assert ("]" + rest)[1..] == rest && ("}" + rest)[1..] == rest;
  }

  lemma ParseStr(t: string, rest: string)
    ensures ParseScalar(Canonical(Str(t)) + rest) == Parse(Str(t), rest)
    ensures StartsWith(Canonical(Str(t)) + rest, '\"')
  {
    ParseQuoted(t, rest);
    Associative("\"", Quoted(t), rest);
    assert ("\"" + (Quoted(t) + rest))[1..] == Quoted(t) + rest;
  }

  lemma ParseNum(n: int, rest: string)
    requires Closes(rest)
    ensures ParseScalar(Canonical(Num(n)) + rest) == Parse(Num(n), rest)
    ensures !StartsWith(Canonical(Num(n)) + rest, '[') && !StartsWith(Canonical(Num(n)) + rest, '{')
  {
    ParsePrintedInt(n, rest);
    assert (IntText(n) + rest)[0] == IntText(n)[0];
  }

  /** Reading back printed text gives the value and leaves exactly the text behind it. */
  lemma {:induction false} ParsePrinted(v: Json, rest: string)
    requires Closes(rest)
    ensures ParseValue(Canonical(v) + rest) == Parse(v, rest)
    decreases v
  {
    match v
    case Null => ParseLiteral(v, rest);
    case Bool(b) => ParseLiteral(v, rest);
    case Num(n) => ParseNum(n, rest);
    case Str(t) => ParseStr(t, rest);
    case Arr(items) => ParsePrintedArray(v, rest);
    case Obj(fields) => ParsePrintedObject(v, rest);
  }

  lemma ContainerText(v: Json)
    requires v.Arr? || v.Obj?
    ensures v.Arr? && v.items != [] ==> Canonical(v) == "[" + ItemsText(v, 0)
    ensures v.Obj? && v.fields != map[] ==> Canonical(v) == "{" + FieldsText(v, SortedKeys(v.fields.Keys))
    ensures v == Arr([]) ==> Canonical(v) == "[]"
    ensures v == Obj(map[]) ==> Canonical(v) == "{}"
  {
  }

  /** The text of an object, for its keys in code point order, whatever order they were inserted in; no spaces. */
  lemma ObjectText(fields: map<string, Json>, keys: seq<string>)
    requires Increasing(keys) && (set k | k in keys) == fields.Keys
    ensures Canonical(Obj(fields)) == "{" + FieldTexts(fields, keys) + "}"
  {
    hide Canonical;
    SortedKeysAreUnique(keys);
    ContainerText(Obj(fields));
    if keys != [] {
      assert keys[0] in fields;
      FieldsTextIsJoined(Obj(fields), keys);
      Associative("{", FieldTexts(fields, keys), "}");
    } else {
      assert fields == map[];
    }
  }

  /** The fields, separated by commas. */
  function FieldTexts(fields: map<string, Json>, keys: seq<string>): string
    requires forall k | k in keys :: k in fields
  {
    if keys == [] then ""
    else
      "\"" + Quoted(keys[0]) + ":" + Canonical(fields[keys[0]]) +
      if |keys| == 1 then "" else "," + FieldTexts(fields, keys[1..])
  }

  lemma {:induction false} FieldsTextIsJoined(v: Json, keys: seq<string>)
    requires v.Obj? && keys != [] && (forall k | k in keys :: k in v.fields)
    ensures FieldsText(v, keys) == FieldTexts(v.fields, keys) + "}"
    decreases |keys|
  {
    hide Canonical, Quoted, FieldsText;
    FieldsTextStep(v, keys);
    var text := "\"" + Quoted(keys[0]) + ":" + Canonical(v.fields[keys[0]]);
    if |keys| > 1 {
      FieldsTextIsJoined(v, keys[1..]);
      Associative(text, "," + FieldTexts(v.fields, keys[1..]), "}");
      Associative(",", FieldTexts(v.fields, keys[1..]), "}");
    } else {
      Associative(text, "", "}");
      assert text + "" == text;
    }
  }

  /** A character of a string is written as it is unless it is a quote, a backslash or a control character. */
  lemma QuotedIsPlain(s: string)
    requires forall i | 0 <= i < |s| :: s[i] != '\"' && s[i] != '\\' && s[i] as int >= 0x20
    ensures Canonical(Str(s)) == "\"" + s + "\""
  {
    PlainQuoted(s);
    Associative("\"", s, "\"");
  }

  /** What is escaped has the short form of section 7 of RFC 8259 if there is one, and four lower-case digits if not. */
  lemma EscapeForms(c: char)
    requires !IsPlain(c)
    ensures c == '\"' || c == '\\' ==> Escape(c) == "\\" + [c]
    ensures c == '\n' ==> Escape(c) == "\\n"
    ensures c == '\r' ==> Escape(c) == "\\r"
    ensures c == '\t' ==> Escape(c) == "\\t"
    ensures c == '\U{8}' ==> Escape(c) == "\\b"
    ensures c == '\U{C}' ==> Escape(c) == "\\f"
    ensures c !in "\"\\\n\r\t\U{8}\U{C}" ==>
              && |Escape(c)| == 6 && Escape(c)[..4] == "\\u00"
              && forall i | 4 <= i < 6 :: Escape(c)[i] in "0123456789abcdef"
  {
  }

  /** Values without members. */
  lemma ScalarTexts()
    ensures Canonical(Null) == "null" && Canonical(Bool(true)) == "true" && Canonical(Bool(false)) == "false"
    ensures Canonical(Arr([])) == "[]" && Canonical(Obj(map[])) == "{}"
  {
  }

  /** The items of an array in their order, separated by commas; no spaces. */
  lemma ArrayText(items: seq<Json>)
    ensures Canonical(Arr(items)) == "[" + ItemTexts(items) + "]"
  {
    hide Canonical;
    ContainerText(Arr(items));
    if items != [] {
      ItemsTextIsJoined(Arr(items), 0);
      assert items[0..] == items;
      Associative("[", ItemTexts(items), "]");
    }
  }

  function ItemTexts(items: seq<Json>): string {
    if items == [] then ""
    else Canonical(items[0]) + if |items| == 1 then "" else "," + ItemTexts(items[1..])
  }

  lemma {:induction false} ItemsTextIsJoined(v: Json, i: nat)
    requires v.Arr? && i < |v.items|
    ensures ItemsText(v, i) == ItemTexts(v.items[i..]) + "]"
    decreases |v.items| - i
  {
    hide Canonical, ItemsText;
    ItemsTextStep(v, i);
    var text := Canonical(v.items[i]);
    assert v.items[i..][1..] == v.items[i + 1..];
    if i + 1 < |v.items| {
      ItemsTextIsJoined(v, i + 1);
      Associative(text, "," + ItemTexts(v.items[i + 1..]), "]");
      Associative(",", ItemTexts(v.items[i + 1..]), "]");
    } else {
      assert text + "" == text;
    }
  }

  lemma {:induction false} PlainQuoted(s: string)
    requires forall i | 0 <= i < |s| :: s[i] != '\"' && s[i] != '\\' && s[i] as int >= 0x20
    ensures Quoted(s) == s + "\""
  {
    if s != "" {
      PlainQuoted(s[1..]);
      assert Escape(s[0]) == [s[0]];
      assert s == [s[0]] + s[1..];
      Associative([s[0]], s[1..], "\"");
    }
  }

  lemma {:induction false} ParsePrintedArray(v: Json, rest: string)
    requires v.Arr? && Closes(rest)
    ensures ParseValue(Canonical(v) + rest) == Parse(v, rest)
    decreases v, |v.items| + 1
  {
    hide Canonical, ItemsText, ParseValue, ParseItems;
    ContainerText(v);
    if v.items == [] {
      ParseEmpty(rest);
    } else {
      ParsePrintedItems(v, 0, rest);
      ItemsHead(v, 0, rest);
      ParseBracketed(ItemsText(v, 0) + rest, v.items, rest);
      Associative("[", ItemsText(v, 0), rest);
    }
  }

  lemma {:induction false} ParsePrintedObject(v: Json, rest: string)
    requires v.Obj? && Closes(rest)
    ensures ParseValue(Canonical(v) + rest) == Parse(v, rest)
    decreases v, |SortedKeys(v.fields.Keys)| + 1
  {
    hide Canonical, FieldsText, ParseValue, ParseFields, SortedKeys;
    ContainerText(v);
    if v.fields == map[] {
      ParseEmpty(rest);
    } else {
      var keys := SortedKeys(v.fields.Keys);
      SomeKey(v.fields);
      ParsePrintedFields(v, keys, rest);
      FieldsHead(v, keys, rest);
      assert (map k | k in keys :: v.fields[k]) == v.fields;
      ParseBraced(FieldsText(v, keys) + rest, v.fields, rest);
      Associative("{", FieldsText(v, keys), rest);
    }
  }

  lemma SomeKey(fields: map<string, Json>)
    requires fields != map[]
    ensures SortedKeys(fields.Keys) != []
  {
    var k :| k in fields.Keys;
    assert k in SortedKeys(fields.Keys);
  }

  lemma ItemsHead(v: Json, i: nat, rest: string)
    requires v.Arr? && i < |v.items|
    ensures var s := ItemsText(v, i) + rest; s != "" && s[0] !in " \t\n\r]}," && SkipSpace(s) == s
  {
    CanonicalHead(v.items[i]);
    assert (ItemsText(v, i) + rest)[0] == Canonical(v.items[i])[0];
  }

  lemma FieldsHead(v: Json, keys: seq<string>, rest: string)
    requires v.Obj? && keys != [] && (forall k | k in keys :: k in v.fields)
    ensures var s := FieldsText(v, keys) + rest; StartsWith(s, '\"') && SkipSpace(s) == s
  {
  }

  lemma ParseItemsStep(s: string, head: Json, rest: string)
    requires ParseValue(s) == Parse(head, rest)
    ensures StartsWith(rest, ']') ==> ParseItems(s) == Parse([head], rest[1..])
    ensures StartsWith(rest, ',') && SkipSpace(rest[1..]) == rest[1..] && ParseItems(rest[1..]).Parse? ==>
              ParseItems(s) == Parse([head] + ParseItems(rest[1..]).value, ParseItems(rest[1..]).rest)
  {
  }

  lemma ItemsTextStep(v: Json, i: nat)
    requires v.Arr? && i < |v.items|
    ensures ItemsText(v, i) == Canonical(v.items[i]) + if i + 1 == |v.items| then "]" else "," + ItemsText(v, i + 1)
  {
  }

  lemma {:induction false} ParsePrintedItems(v: Json, i: nat, rest: string)
    requires v.Arr? && i < |v.items|
    ensures ParseItems(ItemsText(v, i) + rest) == Parse(v.items[i..], rest)
    decreases v, |v.items| - i
  {
    hide Canonical, ItemsText, ParseValue, ParseItems;
    ItemsTextStep(v, i);
    var text := Canonical(v.items[i]);
    if i + 1 == |v.items| {
      var tail := "]" + rest;
      ParsePrinted(v.items[i], tail);
      ParseItemsStep(text + tail, v.items[i], tail);
      Associative(text, "]", rest);
      assert tail[1..] == rest;
      assert v.items[i..] == [v.items[i]];
    } else {
      var next := ItemsText(v, i + 1) + rest;
      var tail := "," + next;
      ParsePrinted(v.items[i], tail);
      ParseItemsStep(text + tail, v.items[i], tail);
      ItemsHead(v, i + 1, rest);
      ParsePrintedItems(v, i + 1, rest);
      assert tail[1..] == next;
      Associative(text, "," + ItemsText(v, i + 1), rest);
      Associative(",", ItemsText(v, i + 1), rest);
      assert v.items[i..] == [v.items[i]] + v.items[i + 1..];
    }
  }

  lemma ParseFieldsStep(s: string, key: string, value: Json, afterKey: string, rest: string)
    requires StartsWith(s, '\"') && ParseString(s[1..]) == Parse(key, afterKey)
    requires StartsWith(afterKey, ':') && SkipSpace(afterKey[1..]) == afterKey[1..]
    requires ParseValue(afterKey[1..]) == Parse(value, rest)
    ensures StartsWith(rest, '}') ==> ParseFields(s) == Parse(map[key := value], rest[1..])
    ensures StartsWith(rest, ',') && SkipSpace(rest[1..]) == rest[1..] && ParseFields(rest[1..]).Parse? ==>
              ParseFields(s) == Parse(map[key := value] + ParseFields(rest[1..]).value, ParseFields(rest[1..]).rest)
  {
    hide ParseValue, ParseString, SkipSpace;
  }

  lemma ParseFieldText(quoted: string, text: string, key: string, value: Json, tail: string)
    requires ParseString(quoted + (":" + (text + tail))) == Parse(key, ":" + (text + tail))
    requires ParseValue(text + tail) == Parse(value, tail) && SkipSpace(text + tail) == text + tail
    ensures var s := "\"" + quoted + ":" + text + tail;
            && (StartsWith(tail, '}') ==> ParseFields(s) == Parse(map[key := value], tail[1..]))
            && (StartsWith(tail, ',') && SkipSpace(tail[1..]) == tail[1..] && ParseFields(tail[1..]).Parse? ==>
                  ParseFields(s) ==
                  Parse(map[key := value] + ParseFields(tail[1..]).value, ParseFields(tail[1..]).rest))
  {
    hide ParseValue, ParseString, ParseFields, SkipSpace;
    var afterKey := ":" + (text + tail);
    var s := "\"" + (quoted + afterKey);
    assert s == "\"" + quoted + ":" + text + tail;
    assert s[1..] == quoted + afterKey;
    assert afterKey[1..] == text + tail;
    ParseFieldsStep(s, key, value, afterKey, tail);
  }

  lemma ParsePrintedField(key: string, value: Json, tail: string)
    requires ParseValue(Canonical(value) + tail) == Parse(value, tail)
    ensures var s := "\"" + Quoted(key) + ":" + Canonical(value) + tail;
            && (StartsWith(tail, '}') ==> ParseFields(s) == Parse(map[key := value], tail[1..]))
            && (StartsWith(tail, ',') && SkipSpace(tail[1..]) == tail[1..] && ParseFields(tail[1..]).Parse? ==>
                  ParseFields(s) ==
                  Parse(map[key := value] + ParseFields(tail[1..]).value, ParseFields(tail[1..]).rest))
  {
    ParseQuoted(key, ":" + (Canonical(value) + tail));
    CanonicalHead(value);
    assert (Canonical(value) + tail)[0] == Canonical(value)[0];
    ParseFieldText(Quoted(key), Canonical(value), key, value, tail);
  }

  lemma FieldsTextStep(v: Json, keys: seq<string>)
    requires v.Obj? && keys != [] && (forall k | k in keys :: k in v.fields)
    ensures var text := "\"" + Quoted(keys[0]) + ":" + Canonical(v.fields[keys[0]]);
            FieldsText(v, keys) == text + if |keys| == 1 then "}" else "," + FieldsText(v, keys[1..])
  {
  }

  lemma {:induction false} ParsePrintedFields(v: Json, keys: seq<string>, rest: string)
    requires v.Obj? && keys != [] && (forall k | k in keys :: k in v.fields) && Increasing(keys)
    ensures ParseFields(FieldsText(v, keys) + rest) == Parse(map k | k in keys :: v.fields[k], rest)
    decreases v, |keys|
  {
    hide Canonical, FieldsText, Quoted, ParseValue, ParseFields;
    FieldsTextStep(v, keys);
    var key := keys[0];
    var value := v.fields[key];
    var text := "\"" + Quoted(key) + ":" + Canonical(value);
    if |keys| == 1 {
      var tail := "}" + rest;
      ParsePrinted(value, tail);
      ParsePrintedField(key, value, tail);
      assert tail[1..] == rest;
      Associative(text, "}", rest);
      assert (map k | k in keys :: v.fields[k]) == map[key := value];
    } else {
      var more := FieldsText(v, keys[1..]);
      var tail := "," + (more + rest);
      ParsePrinted(value, tail);
      ParsePrintedField(key, value, tail);
      assert tail[1..] == more + rest;
      FieldsHead(v, keys[1..], rest);
      ParsePrintedFields(v, keys[1..], rest);
      Associative(text, "," + more, rest);
      Associative(",", more, rest);
      KeysSplit(v.fields, keys);
    }
  }

  lemma KeysSplit(fields: map<string, Json>, keys: seq<string>)
    requires keys != [] && (forall k | k in keys :: k in fields) && Increasing(keys)
    ensures map[keys[0] := fields[keys[0]]] + (map k | k in keys[1..] :: fields[k]) == (map k | k in keys :: fields[k])
  {
  }

  /** What the agent writes to its cache file is read back as the same value. */
  lemma RoundTrip(v: Json)
    ensures Loads(Canonical(v)) == Some(v)
  {
    ParsePrinted(v, "");
    CanonicalHead(v);
    assert Canonical(v) + "" == Canonical(v);
  }

  /** The same with a line end, as other files hold it. */
  lemma LineRoundTrip(v: Json)
    ensures Loads(Canonical(v) + "\n") == Some(v)
  {
    ParsePrinted(v, "\n");
    CanonicalHead(v);
    assert SkipSpace("\n") == "" by {
      assert "\n"[1..] == "";
    }
  }

  /** Canonical text is injective: signatures and the same-generation check, which only see the text,
      tell apart any two different values. */
  lemma CanonicalIsInjective(v: Json, w: Json)
    requires Canonical(v) == Canonical(w)
    ensures v == w
  {
    RoundTrip(v);
    RoundTrip(w);
  }
}
