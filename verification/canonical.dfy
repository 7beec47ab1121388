/** The canonical JSON printer behind plan digests, with a parser that undoes it. */
module Canonical {
  import opened Paths

  /** JSON values as JavaScript holds them: an object is a list of fields in insertion order. */
  datatype Json =
    | Null
    | Boolean(value: bool)
    | Number(number: Numeric)
    | Text(text: string)
    | Array(items: seq<Json>)
    | Object(fields: seq<(string, Json)>)

  /** A finite number, as 0.digits times a power of ten: the digits and the exponent that Number::toString
      (section 6.1.6.1.20 of ECMA-262) chooses. Both zeros print alike. */
  datatype Numeric = Zero | Finite(negative: bool, digits: string, point: int)

  predicate AllDigits(s: string) {
    forall c | c in s :: '0' <= c <= '9'
  }

  /** Neither the first nor the last digit is a zero. */
  predicate Significant(digits: string) {
    digits != "" && AllDigits(digits) && digits[0] != '0' && digits[|digits| - 1] != '0'
  }

  /** Object keys are distinct and numbers in their one form, at every depth. */
  predicate Proper(v: Json) {
    match v
    case Number(n) => n.Finite? ==> Significant(n.digits)
    case Array(items) => forall i | 0 <= i < |items| :: Proper(items[i])
    case Object(fields) =>
      && (forall i, j | 0 <= i < j < |fields| :: fields[i].0 != fields[j].0)
      && (forall i | 0 <= i < |fields| :: Proper(fields[i].1))
    case _ => true
  }

  // ---- JSON.stringify on strings and numbers ----

  const HEX := "0123456789abcdef"

  function Escape(c: char): string {
    if c == '\"' then "\\\""
    else if c == '\\' then "\\\\"
    else if c as int == 8 then "\\b"
    else if c == '\t' then "\\t"
    else if c == '\n' then "\\n"
    else if c as int == 12 then "\\f"
    else if c == '\r' then "\\r"
    else if c as int < 32 then "\\u00" + [if c as int < 16 then '0' else '1', HEX[c as int % 16]]
    else [c]
  }

  function Escaped(s: string): string {
    if s == "" then "" else Escape(s[0]) + Escaped(s[1..])
  }

  function Quoted(s: string): string {
    "\"" + Escaped(s) + "\""
  }

  function Decimal(n: nat): (c: char)
    requires n < 10
    ensures '0' <= c <= '9'
  {
    ('0' as int + n) as char
  }

  function Digits(n: nat): string {
    if n < 10 then [Decimal(n)] else Digits(n / 10) + [Decimal(n % 10)]
  }

  function Zeros(n: nat): (z: string)
    ensures |z| == n && forall c | c in z :: c == '0'
  {
    if n == 0 then "" else "0" + Zeros(n - 1)
  }

  function Exponent(e: int): string {
    "e" + (if e < 0 then "-" + Digits(-e) else "+" + Digits(e))
  }

  /** The digits with the decimal point in its place, or an exponent if that is too far away. */
  function Magnitude(digits: string, point: int): string
    requires digits != ""
  {
    if |digits| <= point <= 21 then digits + Zeros(point - |digits|)
    else if 0 < point <= 21 then digits[..point] + "." + digits[point..]
    else if -6 < point <= 0 then "0." + (Zeros(-point) + digits)
    else if |digits| == 1 then digits + Exponent(point - 1)
    else digits[..1] + "." + digits[1..] + Exponent(point - 1)
  }

  function Numeral(n: Numeric): string {
    if n.Zero? || n.digits == "" then "0"
    else (if n.negative then "-" else "") + Magnitude(n.digits, n.point)
  }

  // ---- The printer ----

  function Place<T>(field: (string, T), sorted: seq<(string, T)>): seq<(string, T)> {
    if sorted == [] || Less(field.0, sorted[0].0) then [field] + sorted
    else [sorted[0]] + Place(field, sorted[1..])
  }

  /** The fields in the order of `Object.keys(value).sort()`. */
  function ByKey<T>(fields: seq<(string, T)>): seq<(string, T)> {
    if fields == [] then [] else Place(fields[0], ByKey(fields[1..]))
  }

  function Commas(parts: seq<string>): string {
    if parts == [] then ""
    else if |parts| == 1 then parts[0]
    else parts[0] + "," + Commas(parts[1..])
  }

  function Field(field: (string, string)): string {
    Quoted(field.0) + ":" + field.1
  }

  function FieldTexts(fields: seq<(string, string)>): (parts: seq<string>)
    ensures |parts| == |fields|
  {
    if fields == [] then [] else [Field(fields[0])] + FieldTexts(fields[1..])
  }

  function Print(v: Json): string {
    match v
    case Null => "null"
    case Boolean(b) => if b then "true" else "false"
    case Number(n) => Numeral(n)
    case Text(s) => Quoted(s)
    case Array(items) => "[" + Commas(seq(|items|, i requires 0 <= i < |items| => Print(items[i]))) + "]"
    case Object(fields) =>
      "{"
      + Commas(FieldTexts(ByKey(seq(|fields|, i requires 0 <= i < |fields| => (fields[i].0, Print(fields[i].1))))))
      + "}"
  }

  /** The same value with the keys of every object in order. */
  function Ordered(v: Json): Json {
    match v
    case Array(items) => Array(seq(|items|, i requires 0 <= i < |items| => Ordered(items[i])))
    case Object(fields) =>
      Object(ByKey(seq(|fields|, i requires 0 <= i < |fields| => (fields[i].0, Ordered(fields[i].1)))))
    case _ => v
  }

  // ---- The parser ----

  datatype Parsed<T> = Bad | Good(value: T, rest: string)

  function HexValue(c: char): int {
    if '0' <= c <= '9' then c as int - '0' as int
    else if 'a' <= c <= 'f' then c as int - 'a' as int + 10
    else -1
  }

  function SimpleEscape(c: char): string {
    if c in "\"\\/" then [c]
    else if c == 'b' then [8 as char]
    else if c == 't' then "\t"
    else if c == 'n' then "\n"
    else if c == 'f' then [12 as char]
    else if c == 'r' then "\r"
    else ""
  }

  /** The rest of a string literal whose opening quote has been read. */
  function ParseText(s: string): (p: Parsed<string>)
    ensures p.Good? ==> |p.rest| < |s|
  {
    if s == "" then Bad
    else if s[0] == '\"' then Good("", s[1..])
    else if s[0] != '\\' then
      match ParseText(s[1..])
      case Bad => Bad
      case Good(t, rest) => if s[0] as int < 32 then Bad else Good([s[0]] + t, rest)
    else if |s| < 2 then Bad
    else if s[1] != 'u' then
      match ParseText(s[2..])
      case Bad => Bad
      case Good(t, rest) => if SimpleEscape(s[1]) == "" then Bad else Good(SimpleEscape(s[1]) + t, rest)
    else if |s| < 6 || s[2] != '0' || s[3] != '0' || HexValue(s[4]) < 0 || HexValue(s[5]) < 0 then Bad
    else
      match ParseText(s[6..])
      case Bad => Bad
      case Good(t, rest) => Good([(HexValue(s[4]) * 16 + HexValue(s[5])) as char] + t, rest)
  }

  predicate StartsWithDigit(s: string) {
    s != "" && '0' <= s[0] <= '9'
  }

  /** Digits are read as long as there are any. */
  function Digit(c: char): nat
    requires '0' <= c <= '9'
  {
    c as int - '0' as int
  }

  function ParseDigits(s: string, value: nat): (p: (nat, string))
    ensures |p.1| <= |s|
  {
    if StartsWithDigit(s) then ParseDigits(s[1..], value * 10 + Digit(s[0])) else (value, s)
  }

  /** The digits at the front. */
  function Run(s: string): (r: string)
    ensures |r| <= |s| && s[..|r|] == r && AllDigits(r)
  {
    if StartsWithDigit(s) then [s[0]] + Run(s[1..]) else ""
  }

  function ParseExponent(s: string): (p: Parsed<int>)
    ensures p.Good? ==> |p.rest| <= |s|
  {
    if s == "" || s[0] !in "eE" then Good(0, s)
    else
      var signed := |s| > 1 && s[1] in "+-";
      var digits := if signed then s[2..] else s[1..];
      if !StartsWithDigit(digits) then Bad
      else
        var p := ParseDigits(digits[1..], Digit(digits[0]));
        Good(if signed && s[1] == '-' then -(p.0 as int) else p.0, p.1)
  }

  function WithoutLastZeros(s: string): string {
    if s != "" && s[|s| - 1] == '0' then WithoutLastZeros(s[..|s| - 1]) else s
  }

  /** The one form of a number that is written with other zeros. */
  function Normal(negative: bool, digits: string, point: int): Numeric {
    if digits == "" then Zero
    else if digits[0] == '0' then Normal(negative, digits[1..], point - 1)
    else Finite(negative, WithoutLastZeros(digits), point)
  }

  function ParseMagnitude(s: string, negative: bool): (p: Parsed<Json>)
    ensures p.Good? ==> |p.rest| < |s|
  {
    var whole := Run(s);
    var after := s[|whole|..];
    var fraction := if after != "" && after[0] == '.' then Run(after[1..]) else "";
    var rest := if after != "" && after[0] == '.' then after[1 + |fraction|..] else after;
    if whole == "" || (rest != after && fraction == "") then Bad
    else
      match ParseExponent(rest)
      case Bad => Bad
      case Good(e, end) => Good(Number(Normal(negative, whole + fraction, |whole| + e)), end)
  }

  function ParseNumber(s: string): (p: Parsed<Json>)
    ensures p.Good? ==> |p.rest| < |s|
  {
    if s != "" && s[0] == '-' then ParseMagnitude(s[1..], true) else ParseMagnitude(s, false)
  }

  function Word(s: string, word: string, v: Json): (p: Parsed<Json>)
    requires word != ""
    ensures p.Good? ==> |p.rest| < |s|
  {
    if word <= s then Good(v, s[|word|..]) else Bad
  }

  function ParseValue(s: string): (p: Parsed<Json>)
    ensures p.Good? ==> |p.rest| < |s|
    decreases |s|, 0
  {
    if s == "" then Bad
    else if s[0] == 'n' then Word(s, "null", Null)
    else if s[0] == 't' then Word(s, "true", Boolean(true))
    else if s[0] == 'f' then Word(s, "false", Boolean(false))
    else if s[0] == '\"' then
      (match ParseText(s[1..])
       case Bad => Bad
       case Good(t, rest) => Good(Text(t), rest))
    else if s[0] == '[' then
      if |s| > 1 && s[1] == ']' then Good(Array([]), s[2..])
      else
        (match ParseItems(s[1..])
         case Bad => Bad
         case Good(items, rest) => Good(Array(items), rest))
    else if s[0] == '{' then
      if |s| > 1 && s[1] == '}' then Good(Object([]), s[2..])
      else
        (match ParseFields(s[1..])
         case Bad => Bad
         case Good(fields, rest) => Good(Object(fields), rest))
    else ParseNumber(s)
  }

  /** At least one element, up to and including the closing bracket. */
  function ParseItems(s: string): (p: Parsed<seq<Json>>)
    ensures p.Good? ==> |p.rest| < |s|
    decreases |s|, 1
  {
    match ParseValue(s)
    case Bad => Bad
    case Good(v, rest) =>
      if rest != "" && rest[0] == ']' then Good([v], rest[1..])
      else if rest != "" && rest[0] == ',' then
        match ParseItems(rest[1..])
        case Bad => Bad
        case Good(more, after) => Good([v] + more, after)
      else Bad
  }

  function ParseFields(s: string): (p: Parsed<seq<(string, Json)>>)
    ensures p.Good? ==> |p.rest| < |s|
    decreases |s|, 1
  {
    if s == "" || s[0] != '\"' then Bad
    else
      match ParseText(s[1..])
      case Bad => Bad
      case Good(key, colon) =>
        if colon == "" || colon[0] != ':' then Bad
        else
          match ParseValue(colon[1..])
          case Bad => Bad
          case Good(v, rest) =>
            if rest != "" && rest[0] == '}' then Good([(key, v)], rest[1..])
            else if rest != "" && rest[0] == ',' then
              match ParseFields(rest[1..])
              case Bad => Bad
              case Good(more, after) => Good([(key, v)] + more, after)
            else Bad
  }

  // ---- The parser undoes the printer ----

  lemma ShortEscapeUndone(c: char, tail: string)
    requires ParseText(tail).Good? && |Escape(c)| == 2
    ensures ParseText(Escape(c) + tail) == Good([c] + ParseText(tail).value, ParseText(tail).rest)
  {
    var s := Escape(c) + tail;
    assert s[2..] == tail && s[0] == '\\' && s[1] != 'u';
    assert SimpleEscape(s[1]) == [c];
  }

  lemma LongEscapeUndone(c: char, tail: string)
    requires ParseText(tail).Good? && |Escape(c)| > 2
    ensures ParseText(Escape(c) + tail) == Good([c] + ParseText(tail).value, ParseText(tail).rest)
  {
    hide ParseText, HexValue;
    var s := Escape(c) + tail;
    var n := c as int;
    LongEscape(c);
    HexDigits(n % 16);
    HexDigits(n / 16);
    assert s[6..] == tail;
    UnicodeStep(s);
  }

  lemma LongEscape(c: char)
    requires |Escape(c)| > 2
    ensures c as int < 32 && |Escape(c)| == 6 && Escape(c)[..4] == "\\u00"
    ensures Escape(c)[4] == HEX[c as int / 16] && Escape(c)[5] == HEX[c as int % 16]
  {
    var n := c as int;
    assert n < 16 ==> n / 16 == 0;
    assert n >= 16 ==> n / 16 == 1;
  }

  lemma UnicodeStep(s: string)
    requires |s| >= 6 && s[..4] == "\\u00" && HexValue(s[4]) >= 0 && HexValue(s[5]) >= 0 && ParseText(s[6..]).Good?
    ensures ParseText(s)
      == Good([(HexValue(s[4]) * 16 + HexValue(s[5])) as char] + ParseText(s[6..]).value, ParseText(s[6..]).rest)
  {
    assert s[0] == s[..4][0] && s[1] == s[..4][1] && s[2] == s[..4][2] && s[3] == s[..4][3];
  }

  lemma HexDigits(n: nat)
    requires n < 16
    ensures HexValue(HEX[n]) == n
  {
  }

  lemma EscapeUndone(c: char, tail: string)
    requires ParseText(tail).Good?
    ensures ParseText(Escape(c) + tail) == Good([c] + ParseText(tail).value, ParseText(tail).rest)
  {
    if |Escape(c)| == 1 {
      assert (Escape(c) + tail)[1..] == tail;
    } else if |Escape(c)| == 2 {
      ShortEscapeUndone(c, tail);
    } else {
      LongEscapeUndone(c, tail);
    }
  }

  lemma {:induction false} TextUndone(t: string, rest: string)
    ensures ParseText(Escaped(t) + "\"" + rest) == Good(t, rest)
  {
    if t == "" {
      assert Escaped(t) + "\"" + rest == "\"" + rest;
    } else {
      var tail := Escaped(t[1..]) + "\"" + rest;
      TextUndone(t[1..], rest);
      EscapeUndone(t[0], tail);
      assert Escaped(t) + "\"" + rest == Escape(t[0]) + tail;
      assert t == [t[0]] + t[1..];
    }
  }

  /** Reading on after a whole numeral has been seen. */
  lemma {:induction false} DigitsUndone(n: nat, rest: string)
    ensures StartsWithDigit(Digits(n))
    ensures ParseDigits((Digits(n) + rest)[1..], Digit(Digits(n)[0])) == ParseDigits(rest, n)
  {
    if n < 10 {
      assert (Digits(n) + rest)[1..] == rest;
    } else {
      var last := [Decimal(n % 10)];
      DigitsUndone(n / 10, last + rest);
      assert Digits(n) + rest == Digits(n / 10) + (last + rest);
      assert (last + rest)[1..] == rest;
    }
  }

  lemma QuotedUndone(t: string, rest: string)
    ensures ParseText((Quoted(t) + rest)[1..]) == Good(t, rest)
    ensures Quoted(t)[0] == '\"'
  {
    hide Escaped, ParseText;
    TextUndone(t, rest);
    assert (Quoted(t) + rest)[1..] == Escaped(t) + "\"" + rest;
  }

  function MapValues<T, U>(fields: seq<(string, T)>, f: T -> U): (r: seq<(string, U)>)
    ensures |r| == |fields|
    ensures forall i | 0 <= i < |fields| :: r[i] == (fields[i].0, f(fields[i].1))
  {
    if fields == [] then [] else [(fields[0].0, f(fields[0].1))] + MapValues(fields[1..], f)
  }

  lemma {:induction false} PlaceMaps<T, U>(field: (string, T), sorted: seq<(string, T)>, f: T -> U)
    ensures MapValues(Place(field, sorted), f) == Place((field.0, f(field.1)), MapValues(sorted, f))
  {
    if sorted != [] && !Less(field.0, sorted[0].0) {
      PlaceMaps(field, sorted[1..], f);
      assert Place(field, sorted)[1..] == Place(field, sorted[1..]);
      assert MapValues(sorted, f)[1..] == MapValues(sorted[1..], f);
    } else {
      assert Place(field, sorted)[1..] == sorted;
    }
  }

  /** Sorting by key does not look at the values. */
  lemma {:induction false} ByKeyMaps<T, U>(fields: seq<(string, T)>, f: T -> U)
    ensures MapValues(ByKey(fields), f) == ByKey(MapValues(fields, f))
  {
    if fields != [] {
      ByKeyMaps(fields[1..], f);
      PlaceMaps(fields[0], ByKey(fields[1..]), f);
      assert MapValues(fields, f)[1..] == MapValues(fields[1..], f);
    }
  }

  lemma {:induction false} PlaceHolds<T>(field: (string, T), sorted: seq<(string, T)>)
    ensures var r := Place(field, sorted);
      && |r| == |sorted| + 1 && field in r
      && (forall k | 0 <= k < |r| :: r[k] == field || r[k] in sorted)
      && (forall k | 0 <= k < |sorted| :: sorted[k] in r)
  {
    if sorted != [] {
      assert sorted == [sorted[0]] + sorted[1..];
      PlaceHolds(field, sorted[1..]);
      assert forall k | 0 < k < |sorted| :: sorted[k] == sorted[1..][k - 1];
    }
  }

  lemma {:induction false} ByKeyHolds<T>(fields: seq<(string, T)>)
    ensures |ByKey(fields)| == |fields|
    ensures forall k | 0 <= k < |fields| :: ByKey(fields)[k] in fields
    ensures forall k | 0 <= k < |fields| :: fields[k] in ByKey(fields)
  {
    if fields != [] {
      assert fields == [fields[0]] + fields[1..];
      ByKeyHolds(fields[1..]);
      PlaceHolds(fields[0], ByKey(fields[1..]));
      assert forall k | 0 < k < |fields| :: fields[k] == fields[1..][k - 1];
    }
  }

  lemma PrintObject(fields: seq<(string, Json)>)
    ensures Print(Object(fields)) == "{" + Commas(FieldTexts(MapValues(ByKey(fields), Print))) + "}"
    ensures Ordered(Object(fields)) == Object(MapValues(ByKey(fields), Ordered))
  {
    hide ByKey, MapValues, Commas, FieldTexts;
    ByKeyMaps(fields, Print);
    ByKeyMaps(fields, Ordered);
    assert seq(|fields|, i requires 0 <= i < |fields| => (fields[i].0, Print(fields[i].1))) == MapValues(fields, Print);
    assert seq(|fields|, i requires 0 <= i < |fields| => (fields[i].0, Ordered(fields[i].1)))
      == MapValues(fields, Ordered);
  }

  /** What follows cannot be part of a number. */
  predicate Boundary(rest: string) {
    !StartsWithDigit(rest) && (rest == "" || rest[0] !in ".eE")
  }

  // One step of the parser each.

  lemma ArrayHead(t: string)
    requires ParseItems(t).Good? && t != "" && t[0] != ']'
    ensures ParseValue("[" + t) == Good(Array(ParseItems(t).value), ParseItems(t).rest)
  {
    assert ("[" + t)[1..] == t;
  }

  lemma ObjectHead(t: string)
    requires ParseFields(t).Good? && t != "" && t[0] != '}'
    ensures ParseValue("{" + t) == Good(Object(ParseFields(t).value), ParseFields(t).rest)
  {
    assert ("{" + t)[1..] == t;
  }

  lemma EmptyHead(rest: string)
    ensures ParseValue("[" + "" + "]" + rest) == Good(Array([]), rest)
    ensures ParseValue("{" + "" + "}" + rest) == Good(Object([]), rest)
  {
    assert ("[" + "" + "]" + rest)[2..] == rest;
    assert ("{" + "" + "}" + rest)[2..] == rest;
  }

  lemma LastItem(s: string, v: Json, rest: string)
    requires ParseValue(s) == Good(v, "]" + rest)
    ensures ParseItems(s) == Good([v], rest)
  {
    assert ("]" + rest)[1..] == rest;
  }

  lemma MoreItems(s: string, v: Json, t: string)
    requires ParseValue(s) == Good(v, "," + t) && ParseItems(t).Good?
    ensures ParseItems(s) == Good([v] + ParseItems(t).value, ParseItems(t).rest)
  {
    assert ("," + t)[1..] == t;
  }

  /** A field is read up to whatever follows its value. */
  predicate FieldRead(s: string, key: string, v: Json, after: string) {
    && s != "" && s[0] == '\"' && ParseText(s[1..]).Good? && ParseText(s[1..]).value == key
    && var colon := ParseText(s[1..]).rest; colon != "" && colon[0] == ':' && ParseValue(colon[1..]) == Good(v, after)
  }

  lemma LastField(s: string, key: string, v: Json, rest: string)
    requires FieldRead(s, key, v, "}" + rest)
    ensures ParseFields(s) == Good([(key, v)], rest)
  {
    assert ("}" + rest)[1..] == rest;
  }

  lemma MoreFields(s: string, key: string, v: Json, t: string)
    requires FieldRead(s, key, v, "," + t) && ParseFields(t).Good?
    ensures ParseFields(s) == Good([(key, v)] + ParseFields(t).value, ParseFields(t).rest)
  {
    assert ("," + t)[1..] == t;
  }

  /** Whatever follows the printed text, the parser finds the value again, with its keys in order. */
  lemma {:induction false} RoundTrip(v: Json, rest: string)
    requires Boundary(rest) && Proper(v)
    ensures ParseValue(Print(v) + rest) == Good(Ordered(v), rest)
    ensures Print(v) != "" && Print(v)[0] != ']'
    decreases v, 1, 0
  {
    match v
    case Null => assert (Print(v) + rest)[4..] == rest;
    case Boolean(b) => assert (Print(v) + rest)[|Print(v)|..] == rest;
    case Number(n) => NumberRoundTrip(n, rest);
    case Text(t) => QuotedUndone(t, rest);
    case Array(items) => ArrayRoundTrip(v, rest);
    case Object(fields) => ObjectRoundTrip(v, rest);
  }

  lemma {:induction false} ArrayRoundTrip(v: Json, rest: string)
    requires v.Array? && Proper(v)
    ensures ParseValue(Print(v) + rest) == Good(Ordered(v), rest)
    ensures Print(v) != "" && Print(v)[0] == '['
    decreases v, 0, |v.items| + 1
  {
    var items, inner := v.items, Commas(Printed(v.items));
    ItemsAreSmaller(v);
    PrintArray(items);
    hide *;
    if items == [] {
      EmptyHead(rest);
    } else {
      ItemsRoundTrip(v, items, rest);
      ArrayHead(inner + "]" + rest);
      assert Print(v) == "[" + inner + "]";
      Bracketed(inner, rest);
    }
  }

  lemma Bracketed(inner: string, rest: string)
    ensures "[" + inner + "]" + rest == "[" + (inner + "]" + rest)
  {
  }

  lemma ItemsAreSmaller(v: Json)
    requires v.Array? && Proper(v)
    ensures forall x | x in v.items :: x < v && Proper(x)
  {
  }

  lemma PrintArray(items: seq<Json>)
    ensures Print(Array(items)) == "[" + Commas(Printed(items)) + "]"
    ensures Ordered(Array(items)) == Array(AllOrdered(items))
  {
    assert Printed(items) == seq(|items|, i requires 0 <= i < |items| => Print(items[i]));
    assert AllOrdered(items) == seq(|items|, i requires 0 <= i < |items| => Ordered(items[i]));
  }

  lemma {:induction false} ObjectRoundTrip(v: Json, rest: string)
    requires v.Object? && Proper(v)
    ensures ParseValue(Print(v) + rest) == Good(Ordered(v), rest)
    ensures Print(v) != "" && Print(v)[0] == '{'
    decreases v, 0, |v.fields| + 1
  {
    hide ParseValue, ParseFields, ByKey, Print, Ordered;
    var fields := ByKey(v.fields);
    var inner := Commas(FieldTexts(MapValues(fields, Print)));
    PrintObject(v.fields);
    ByKeyHolds(v.fields);
    if fields == [] {
      EmptyHead(rest);
    } else {
      forall x | x in fields ensures x.1 < v && Proper(x.1) { assert x in v.fields; }
      FieldsRoundTrip(v, fields, rest);
      ObjectHead(inner + "}" + rest);
      assert Print(v) + rest == "{" + (inner + "}" + rest);
    }
  }

  // ---- The spelling of strings ----

  lemma EscapedAppend(c: char, t: string)
    ensures Escaped([c] + t) == Escape(c) + Escaped(t)
  {
    assert ([c] + t)[1..] == t;
  }

  lemma EscapeIsShort(c: char)
    ensures |Escape(c)| <= 6
    ensures c as int >= 32 && c != '\"' && c != '\\' ==> Escape(c) == [c]
    ensures c in "\"\\\t\n\r" || c as int == 8 || c as int == 12 ==> |Escape(c)| == 2
  {
    hide HEX;
  }

  lemma SimpleEscapeIsShort(c: char)
    ensures SimpleEscape(c) != "" ==> |SimpleEscape(c)| == 1 && |Escape(SimpleEscape(c)[0])| <= 2
  {
    hide HEX;
  }

  /** JSON.stringify spells every string as shortly as the parser allows: no text that reads as the same string is
      shorter than its escaped form. */
  lemma {:induction false} NoShorterSpelling(s: string)
    requires ParseText(s).Good?
    ensures |Escaped(ParseText(s).value)| + 1 + |ParseText(s).rest| <= |s|
    decreases |s|
  {
    hide Escape, Escaped;
    if s[0] == '\"' {
      assert Escaped("") == "" by { NothingEscaped(); }
    } else if s[0] != '\\' {
      NoShorterSpelling(s[1..]);
      EscapedAppend(s[0], ParseText(s[1..]).value);
      EscapeIsShort(s[0]);
    } else if s[1] != 'u' {
      NoShorterSpelling(s[2..]);
      SimpleEscapeIsShort(s[1]);
      EscapedAppend(SimpleEscape(s[1])[0], ParseText(s[2..]).value);
    } else {
      NoShorterSpelling(s[6..]);
      var c := (HexValue(s[4]) * 16 + HexValue(s[5])) as char;
      EscapedAppend(c, ParseText(s[6..]).value);
      EscapeIsShort(c);
    }
  }

  lemma NothingEscaped()
    ensures Escaped("") == ""
  {
  }

  // ---- The spelling of numbers ----

  lemma {:induction false} DigitsArePlain(n: nat)
    ensures AllDigits(Digits(n)) && Digits(n) != ""
  {
    if n >= 10 { DigitsArePlain(n / 10); }
  }

  lemma PlainHas(s: string, c: char)
    requires AllDigits(s) && !('0' <= c <= '9')
    ensures c !in s
  {
  }

  function Size(n: int): nat {
    if n < 0 then -n else n
  }

  /** Which of its forms a number takes, as its text shows: an exponent exactly if the decimal point would be more than
      five zeros to the left of the digits or more than 21 places to the right of the first, a sign in it either way, a
      point exactly if there are digits after it, and no digit more than that takes. */
  lemma NumeralForm(n: Numeric)
    requires n.Finite? && Significant(n.digits)
    ensures var s, k := Numeral(n), |n.digits|;
      && s != "" && (s[0] == '-' <==> n.negative)
      && ('e' in s <==> n.point <= -6 || n.point > 21) && ('+' in s <==> n.point > 21)
      && ('.' in s <==> if -6 < n.point <= 21 then n.point < k else k > 1)
      && |s| == (if n.negative then 1 else 0) +
                (if k <= n.point <= 21 then n.point
                 else if 0 < n.point <= 21 then k + 1
                 else if -6 < n.point <= 0 then k + 2 - n.point
                 else k + (if k > 1 then 1 else 0) + 2 + |Digits(Size(n.point - 1))|)
  {
    var digits, point := n.digits, n.point;
    hide Digits;
    MagnitudeForm(digits, point);
    hide Magnitude;
    var m := Magnitude(digits, point);
    if n.negative { assert Numeral(n) == "-" + m; } else { assert Numeral(n) == "" + m && "" + m == m; }
  }

  lemma MagnitudeForm(digits: string, point: int)
    requires Significant(digits)
    ensures var s, k := Magnitude(digits, point), |digits|;
      && s != "" && s[0] != '-'
      && ('e' in s <==> point <= -6 || point > 21) && ('+' in s <==> point > 21)
      && ('.' in s <==> if -6 < point <= 21 then point < k else k > 1)
      && |s| == if k <= point <= 21 then point
                else if 0 < point <= 21 then k + 1
                else if -6 < point <= 0 then k + 2 - point
                else k + (if k > 1 then 1 else 0) + 2 + |Digits(Size(point - 1))|
  {
    hide Digits;
    var k := |digits|;
    forall c: char | !('0' <= c <= '9') ensures c !in digits { PlainHas(digits, c); }
    assert digits[0] in digits;
    if k <= point <= 21 {
      PlainHas(Zeros(point - k), 'e');
      PlainHas(Zeros(point - k), '+');
      PlainHas(Zeros(point - k), '.');
    } else if 0 < point <= 21 {
      PartsAreDigits(digits, point);
      forall c: char | !('0' <= c <= '9') ensures c !in digits[..point] && c !in digits[point..] {
        PlainHas(digits[..point], c);
        PlainHas(digits[point..], c);
      }
      assert Magnitude(digits, point)[point] == '.';
    } else if -6 < point <= 0 {
      assert Magnitude(digits, point) == "0." + (Zeros(-point) + digits);
      assert Magnitude(digits, point)[1] == '.';
    } else {
      ExponentForm(point - 1);
      hide Exponent;
      assert digits == digits[..1] + digits[1..];
      if k > 1 { assert Magnitude(digits, point)[1] == '.'; }
    }
  }

  lemma ExponentForm(e: int)
    ensures var s := Exponent(e);
      && 'e' in s && ('+' in s <==> e >= 0) && '.' !in s && |s| == 2 + |Digits(Size(e))|
  {
    var n := Size(e);
    DigitsArePlain(n);
    hide Digits;
    PlainHas(Digits(n), '+');
    PlainHas(Digits(n), '.');
    var s := Exponent(e);
    assert s == "e" + (if e < 0 then "-" + Digits(n) else "+" + Digits(n));
    assert s[0] == 'e' && s[1] == if e < 0 then '-' else '+';
  }

  // ---- Numbers ----

  lemma {:induction false} RunReads(a: string, rest: string)
    requires AllDigits(a) && !StartsWithDigit(rest)
    ensures Run(a + rest) == a && (a + rest)[|a|..] == rest
  {
    if a == "" {
      assert a + rest == rest;
    } else {
      assert a[0] in a && forall c | c in a[1..] :: c in a;
      assert (a + rest)[1..] == a[1..] + rest;
      RunReads(a[1..], rest);
    }
  }

  lemma ExponentReads(e: int, rest: string)
    requires !StartsWithDigit(rest)
    ensures ParseExponent(Exponent(e) + rest) == Good(e, rest)
  {
    hide Digits;
    var n := if e < 0 then -e else e;
    var s := Exponent(e) + rest;
    DigitsUndone(n, rest);
    assert s[2..] == Digits(n) + rest && s[2..][1..] == (Digits(n) + rest)[1..];
    assert s[0] == 'e' && s[1] in "+-";
  }

  lemma NoExponent(rest: string)
    requires Boundary(rest)
    ensures ParseExponent(rest) == Good(0, rest)
  {
  }

  /** A number without a decimal point. */
  lemma WholeReads(whole: string, tail: string, negative: bool, e: int, rest: string)
    requires whole != "" && AllDigits(whole) && !StartsWithDigit(tail) && (tail == "" || tail[0] != '.')
    requires ParseExponent(tail) == Good(e, rest)
    ensures ParseMagnitude(whole + tail, negative) == Good(Number(Normal(negative, whole, |whole| + e)), rest)
  {
    hide Normal, ParseExponent, Run;
    RunReads(whole, tail);
    assert whole + "" == whole;
  }

  /** A number with one. */
  lemma FractionReads(whole: string, fraction: string, tail: string, negative: bool, e: int, rest: string)
    requires whole != "" && AllDigits(whole) && fraction != "" && AllDigits(fraction) && !StartsWithDigit(tail)
    requires ParseExponent(tail) == Good(e, rest)
    ensures ParseMagnitude(whole + "." + fraction + tail, negative)
         == Good(Number(Normal(negative, whole + fraction, |whole| + e)), rest)
  {
    hide Normal, ParseExponent, Run;
    var after := "." + (fraction + tail);
    assert whole + "." + fraction + tail == whole + after && after[1..] == fraction + tail;
    RunReads(whole, after);
    RunReads(fraction, tail);
    assert after[1 + |fraction|..] == tail;
  }

  lemma {:induction false} LastZerosGone(digits: string, n: nat)
    requires Significant(digits)
    ensures WithoutLastZeros(digits + Zeros(n)) == digits
  {
    if n == 0 {
      assert digits + Zeros(0) == digits;
    } else {
      assert Zeros(n) == Zeros(n - 1) + "0" by { ZerosEnd(n); }
      assert (digits + Zeros(n))[..|digits| + n - 1] == digits + Zeros(n - 1);
      LastZerosGone(digits, n - 1);
    }
  }

  lemma {:induction false} ZerosEnd(n: nat)
    requires n > 0
    ensures Zeros(n) == Zeros(n - 1) + "0"
  {
    if n > 1 { ZerosEnd(n - 1); }
  }

  lemma {:induction false} FirstZerosGone(negative: bool, digits: string, point: int, n: nat)
    requires Significant(digits)
    ensures Normal(negative, Zeros(n) + digits, point) == Finite(negative, digits, point - n)
    decreases n
  {
    if n == 0 {
      assert Zeros(0) + digits == digits;
      LastZerosGone(digits, 0);
      assert digits + Zeros(0) == digits;
    } else {
      assert (Zeros(n) + digits)[1..] == Zeros(n - 1) + digits;
      FirstZerosGone(negative, digits, point - 1, n - 1);
    }
  }

  lemma ExponentTail(e: int, rest: string)
    ensures Exponent(e) + rest != "" && (Exponent(e) + rest)[0] == 'e'
  {
  }

  lemma PartsAreDigits(digits: string, k: nat)
    requires AllDigits(digits) && k <= |digits|
    ensures AllDigits(digits[..k]) && AllDigits(digits[k..]) && digits[..k] + digits[k..] == digits
  {
    assert forall c | c in digits[..k] :: c in digits;
    assert forall c | c in digits[k..] :: c in digits;
  }

  lemma IntegerReads(digits: string, point: int, negative: bool, rest: string)
    requires Significant(digits) && Boundary(rest) && |digits| <= point <= 21
    ensures ParseMagnitude(Magnitude(digits, point) + rest, negative)
         == Good(Number(Finite(negative, digits, point)), rest)
  {
    hide ParseMagnitude, ParseExponent, Normal, Zeros;
    NoExponent(rest);
    WholeReads(digits + Zeros(point - |digits|), rest, negative, 0, rest);
    ZerosBehind(negative, digits, point);
  }

  lemma PointReads(digits: string, point: int, negative: bool, rest: string)
    requires Significant(digits) && Boundary(rest) && 0 < point < |digits| && point <= 21
    ensures ParseMagnitude(Magnitude(digits, point) + rest, negative)
         == Good(Number(Finite(negative, digits, point)), rest)
  {
    hide ParseMagnitude, ParseExponent, Normal;
    NoExponent(rest);
    PartsAreDigits(digits, point);
    FractionReads(digits[..point], digits[point..], rest, negative, 0, rest);
    NoZeros(negative, digits, point);
  }

  lemma SmallReads(digits: string, point: int, negative: bool, rest: string)
    requires Significant(digits) && Boundary(rest) && -6 < point <= 0
    ensures ParseMagnitude(Magnitude(digits, point) + rest, negative)
         == Good(Number(Finite(negative, digits, point)), rest)
  {
    hide ParseMagnitude, ParseExponent, Normal, Zeros;
    var fraction := Zeros(-point) + digits;
    NoExponent(rest);
    FractionReads("0", fraction, rest, negative, 0, rest);
    assert "0." + fraction + rest == "0" + "." + fraction + rest;
    ZerosBegin(1 - point);
    assert "0" + fraction == Zeros(1 - point) + digits;
    FirstZerosGone(negative, digits, 1, 1 - point);
  }

  lemma FarReads(digits: string, point: int, negative: bool, rest: string)
    requires Significant(digits) && Boundary(rest) && (point <= -6 || point > 21)
    ensures ParseMagnitude(Magnitude(digits, point) + rest, negative)
         == Good(Number(Finite(negative, digits, point)), rest)
  {
    hide ParseMagnitude, ParseExponent, Normal, Exponent;
    var tail := Exponent(point - 1) + rest;
    ExponentReads(point - 1, rest);
    ExponentTail(point - 1, rest);
    NoZeros(negative, digits, point);
    if |digits| == 1 {
      WholeReads(digits, tail, negative, point - 1, rest);
      assert digits + Exponent(point - 1) + rest == digits + tail;
    } else {
      PartsAreDigits(digits, 1);
      FractionReads(digits[..1], digits[1..], tail, negative, point - 1, rest);
      assert digits[..1] + "." + digits[1..] + Exponent(point - 1) + rest == digits[..1] + "." + digits[1..] + tail;
    }
  }

  lemma NoZeros(negative: bool, digits: string, point: int)
    requires Significant(digits)
    ensures Normal(negative, digits, point) == Finite(negative, digits, point)
  {
    FirstZerosGone(negative, digits, point, 0);
    assert Zeros(0) + digits == digits;
  }

  /** Each of the five ways to write a number is read back to its digits and exponent. */
  lemma MagnitudeReads(digits: string, point: int, negative: bool, rest: string)
    requires Significant(digits) && Boundary(rest)
    ensures ParseMagnitude(Magnitude(digits, point) + rest, negative)
         == Good(Number(Finite(negative, digits, point)), rest)
  {
    hide ParseMagnitude, Magnitude, Significant, Boundary;
    if |digits| <= point <= 21 {
      IntegerReads(digits, point, negative, rest);
    } else if 0 < point <= 21 {
      PointReads(digits, point, negative, rest);
    } else if -6 < point <= 0 {
      SmallReads(digits, point, negative, rest);
    } else {
      FarReads(digits, point, negative, rest);
    }
  }

  lemma ZerosBegin(n: nat)
    requires n > 0
    ensures Zeros(n) == "0" + Zeros(n - 1)
  {
  }

  lemma ZerosBehind(negative: bool, digits: string, point: int)
    requires Significant(digits) && |digits| <= point
    ensures Normal(negative, digits + Zeros(point - |digits|), point) == Finite(negative, digits, point)
  {
    LastZerosGone(digits, point - |digits|);
  }

  lemma MagnitudeHead(digits: string, point: int)
    requires Significant(digits)
    ensures StartsWithDigit(Magnitude(digits, point))
  {
    hide Exponent, Zeros;
    assert digits[0] in digits;
  }

  lemma NumberRoundTrip(n: Numeric, rest: string)
    requires Boundary(rest) && (n.Finite? ==> Significant(n.digits))
    ensures ParseValue(Numeral(n) + rest) == Good(Number(n), rest)
    ensures Numeral(n) != "" && Numeral(n)[0] != ']'
  {
    hide ParseValue, ParseMagnitude, Magnitude;
    var s := Numeral(n) + rest;
    if n.Zero? {
      NoExponent(rest);
      WholeReads("0", rest, false, 0, rest);
      assert Normal(false, "0", 1) == Zero by { assert "0"[1..] == ""; }
    } else {
      MagnitudeReads(n.digits, n.point, n.negative, rest);
      MagnitudeHead(n.digits, n.point);
      if n.negative {
        assert s[1..] == Magnitude(n.digits, n.point) + rest;
      } else {
        assert s == Magnitude(n.digits, n.point) + rest;
      }
    }
    NumberHead(s);
  }

  lemma NumberHead(s: string)
    requires s != "" && (s[0] == '-' || '0' <= s[0] <= '9')
    ensures ParseValue(s) == ParseNumber(s)
  {
    hide ParseNumber, ParseText, ParseItems, ParseFields, Word;
  }

  function Printed(items: seq<Json>): (parts: seq<string>)
    ensures |parts| == |items| && forall i | 0 <= i < |items| :: parts[i] == Print(items[i])
  {
    if items == [] then [] else [Print(items[0])] + Printed(items[1..])
  }

  function AllOrdered(items: seq<Json>): (r: seq<Json>)
    ensures |r| == |items| && forall i | 0 <= i < |items| :: r[i] == Ordered(items[i])
  {
    if items == [] then [] else [Ordered(items[0])] + AllOrdered(items[1..])
  }

  lemma {:induction false} ItemsRoundTrip(v: Json, items: seq<Json>, rest: string)
    requires items != [] && forall x | x in items :: x < v && Proper(x)
    ensures var s := Commas(Printed(items)) + "]" + rest;
      ParseItems(s) == Good(AllOrdered(items), rest) && s[0] != ']'
    decreases v, 0, |items|
  {
    assert items[0] in items && forall x | x in items[1..] :: x in items;
    PrintedItems(items, rest);
    hide *;
    if |items| == 1 {
      RoundTrip(items[0], "]" + rest);
      LastItem(Commas(Printed(items)) + "]" + rest, Ordered(items[0]), rest);
    } else {
      var more := Commas(Printed(items[1..])) + "]" + rest;
      ItemsRoundTrip(v, items[1..], rest);
      RoundTrip(items[0], "," + more);
      MoreItems(Commas(Printed(items)) + "]" + rest, Ordered(items[0]), more);
    }
  }

  /** The text of the items, from the first one on. */
  lemma PrintedItems(items: seq<Json>, rest: string)
    requires items != []
    ensures var s := Commas(Printed(items)) + "]" + rest;
      if |items| == 1 then s == Print(items[0]) + ("]" + rest) && AllOrdered(items) == [Ordered(items[0])]
      else s == Print(items[0]) + ("," + (Commas(Printed(items[1..])) + "]" + rest))
           && AllOrdered(items) == [Ordered(items[0])] + AllOrdered(items[1..])
  {
    CommasOfPrinted(items);
    hide *;
    var p := Print(items[0]);
    if |items| > 1 { Regrouped(p, Commas(Printed(items[1..])), rest); } else { Closed(p, rest); }
  }

  lemma Closed(p: string, rest: string)
    ensures p + "]" + rest == p + ("]" + rest)
  {
  }

  lemma CommasOfPrinted(items: seq<Json>)
    requires items != []
    ensures Commas(Printed(items)) ==
      if |items| == 1 then Print(items[0]) else Print(items[0]) + "," + Commas(Printed(items[1..]))
    ensures AllOrdered(items) == [Ordered(items[0])] + AllOrdered(items[1..])
    ensures |items| == 1 ==> AllOrdered(items) == [Ordered(items[0])]
  {
    hide Print, Ordered;
  }

  lemma Regrouped(p: string, c: string, rest: string)
    ensures p + "," + c + "]" + rest == p + ("," + (c + "]" + rest))
  {
  }

  lemma {:induction false} FieldsRoundTrip(v: Json, fields: seq<(string, Json)>, rest: string)
    requires fields != [] && forall x | x in fields :: x.1 < v && Proper(x.1)
    ensures var s := Commas(FieldTexts(MapValues(fields, Print))) + "}" + rest;
      ParseFields(s) == Good(MapValues(fields, Ordered), rest) && s[0] != '}'
    decreases v, 0, |fields|
  {
    hide ParseValue, ParseFields, ParseText, FieldRead, Print, Ordered, Field, Commas, FieldTexts, MapValues;
    assert fields[0] in fields && forall x | x in fields[1..] :: x in fields;
    FieldsText(fields);
    var key, value := fields[0].0, fields[0].1;
    var s := Commas(FieldTexts(MapValues(fields, Print))) + "}" + rest;
    if |fields| == 1 {
      RoundTrip(value, "}" + rest);
      FieldUndone(key, value, "}" + rest);
      assert s == Field((key, Print(value))) + ("}" + rest);
      LastField(s, key, Ordered(value), rest);
      assert MapValues(fields, Ordered) == [(key, Ordered(value))];
    } else {
      var more := Commas(FieldTexts(MapValues(fields[1..], Print))) + "}" + rest;
      FieldsRoundTrip(v, fields[1..], rest);
      RoundTrip(value, "," + more);
      FieldUndone(key, value, "," + more);
      assert s == Field((key, Print(value))) + ("," + more);
      MoreFields(s, key, Ordered(value), more);
      assert MapValues(fields, Ordered) == [(key, Ordered(value))] + MapValues(fields[1..], Ordered);
    }
  }

  lemma FieldsText(fields: seq<(string, Json)>)
    requires fields != []
    ensures var text := Commas(FieldTexts(MapValues(fields, Print)));
      var first := Field((fields[0].0, Print(fields[0].1)));
      text == if |fields| == 1 then first else first + "," + Commas(FieldTexts(MapValues(fields[1..], Print)))
  {
    hide Print, Field;
    var parts := FieldTexts(MapValues(fields, Print));
    assert parts[1..] == FieldTexts(MapValues(fields[1..], Print));
  }

  lemma FieldUndone(key: string, value: Json, after: string)
    requires ParseValue(Print(value) + after) == Good(Ordered(value), after)
    ensures var s := Field((key, Print(value))) + after;
      FieldRead(s, key, Ordered(value), after) && s[0] == '\"'
  {
    hide ParseValue, ParseText, Print, Ordered;
    var tail := ":" + Print(value) + after;
    QuotedUndone(key, tail);
    assert Field((key, Print(value))) + after == Quoted(key) + tail;
    assert tail[1..] == Print(value) + after;
  }
}
