/**
 The lockfile printer (`plugin-store.c`) against a reader for the part of TOML v1.0.0 that it prints:
 basic strings, decimal integers, booleans, arrays and inline tables. Floats and dates are left out.
 */
module Toml {
  import opened Wrappers

  datatype Value =
    | String(text: string)
    | Int(number: int)
    | Bool(truth: bool)
    | Array(items: seq<Value>)
    | Table(fields: seq<Field>)

  datatype Field = Field(key: string, value: Value)

  const MIN_INT64 := -0x8000_0000_0000_0000
  const MAX_INT64 := 0x7FFF_FFFF_FFFF_FFFF

  /** Values of the parser: 64-bit integers, strings without NUL (`valid_strings`), no key twice in a table. */
  predicate Sound(value: Value) {
    match value
    case String(text) => IsText(text)
    case Int(number) => MIN_INT64 <= number <= MAX_INT64
    case Bool(_) => true
    case Array(items) => forall item <- items :: Sound(item)
    case Table(fields) => SoundFields(fields)
  }

  predicate SoundFields(fields: seq<Field>) {
    Distinct(fields) && forall field <- fields :: IsText(field.key) && Sound(field.value)
  }

  predicate Distinct(fields: seq<Field>) {
    forall i, j :: 0 <= i < j < |fields| ==> fields[i].key != fields[j].key
  }

  predicate IsText(text: string) {
    '\0' !in text
  }

  // ----- the printed form -----

  function HexDigit(n: nat): char
    requires n < 16
  {
    "0123456789abcdef"[n]
  }

  function EscapeChar(c: char): string {
    if c == '"' then "\\\""
    else if c == '\\' then "\\\\"
    else if c == '\n' then "\\n"
    else if c == '\r' then "\\r"
    else if c == '\t' then "\\t"
    else if c < ' ' || c == '\U{007F}' then "\\u00" + [HexDigit(c as int / 16), HexDigit(c as int % 16)]
    else [c]
  }

  function Escaped(text: string): string {
    if text == "" then "" else EscapeChar(text[0]) + Escaped(text[1..])
  }

  function Quoted(text: string): string {
    "\"" + Escaped(text) + "\""
  }

  function Digits(n: nat): string {
    if n < 10 then [HexDigit(n)] else Digits(n / 10) + [HexDigit(n % 10)]
  }

  function Number(n: int): string {
    if n < 0 then "-" + Digits(-n) else Digits(n)
  }

  function Printed(value: Value): string {
    match value
    case String(text) => Quoted(text)
    case Int(number) => Number(number)
    case Bool(truth) => if truth then "true" else "false"
    case Array(items) => "[" + PrintedItems(items) + "]"
    case Table(fields) => "{ " + PrintedFields(fields) + " }"
  }

  function PrintedItems(items: seq<Value>): string {
    if items == [] then ""
    else if |items| == 1 then Printed(items[0])
    else Printed(items[0]) + ", " + PrintedItems(items[1..])
  }

  function PrintedField(field: Field): string {
    Quoted(field.key) + " = " + Printed(field.value)
  }

  function PrintedFields(fields: seq<Field>): string {
    if fields == [] then ""
    else if |fields| == 1 then PrintedField(fields[0])
    else PrintedField(fields[0]) + ", " + PrintedFields(fields[1..])
  }

  // ----- the reader -----

  datatype Result<T> = Bad | Read(value: T, rest: string)

  predicate IsBlank(c: char) {
    c == ' ' || c == '\t'
  }

  predicate IsSpace(c: char) {
    IsBlank(c) || c == '\n' || c == '\r'
  }

  function SkipBlanks(s: string): (r: string)
    ensures |r| <= |s|
  {
    if s != "" && IsBlank(s[0]) then SkipBlanks(s[1..]) else s
  }

  function SkipSpaces(s: string): (r: string)
    ensures |r| <= |s|
  {
    if s != "" && IsSpace(s[0]) then SkipSpaces(s[1..]) else s
  }

  predicate Starts(s: string, c: char) {
    s != "" && s[0] == c
  }

  function HexValue(c: char): Option<nat> {
    if '0' <= c <= '9' then Some(c as int - '0' as int)
    else if 'a' <= c <= 'f' then Some(c as int - 'a' as int + 10)
    else if 'A' <= c <= 'F' then Some(c as int - 'A' as int + 10)
    else None
  }

  function ReadHex(s: string, n: nat): (r: Result<nat>)
    ensures r.Read? ==> |r.rest| == |s| - n
    decreases n
  {
    if n == 0 then Read(0, s)
    else if s == "" || HexValue(s[0]).None? then Bad
    else
      match ReadHex(s[1..], n - 1)
      case Bad => Bad
      case Read(low, rest) => Read(HexValue(s[0]).value * Pow16(n - 1) + low, rest)
  }

  function Pow16(n: nat): nat {
    if n == 0 then 1 else 16 * Pow16(n - 1)
  }

  /** An escape, after its backslash. */
  function ReadEscape(s: string): (r: Result<char>)
    ensures r.Read? ==> |r.rest| < |s|
  {
    if s == "" then Bad
    else if s[0] == 'b' then Read('\U{0008}', s[1..])
    else if s[0] == 't' then Read('\t', s[1..])
    else if s[0] == 'n' then Read('\n', s[1..])
    else if s[0] == 'f' then Read('\U{000C}', s[1..])
    else if s[0] == 'r' then Read('\r', s[1..])
    else if s[0] == '"' || s[0] == '\\' then Read(s[0], s[1..])
    else if s[0] == 'u' || s[0] == 'U' then
      match ReadHex(s[1..], if s[0] == 'u' then 4 else 8)
      case Bad => Bad
      case Read(code, rest) =>
        if code < 0xD800 || 0xE000 <= code < 0x11_0000 then Read(code as char, rest) else Bad
    else Bad
  }

  /** The characters of a basic string and its closing quote. */
  function ReadChars(s: string): (r: Result<string>)
    ensures r.Read? ==> |r.rest| < |s|
    decreases |s|
  {
    if s == "" then Bad
    else if s[0] == '"' then Read("", s[1..])
    else if s[0] == '\\' then
      match ReadEscape(s[1..])
      case Bad => Bad
      case Read(c, rest) =>
        (match ReadChars(rest)
         case Bad => Bad
         case Read(text, rest) => Read([c] + text, rest))
    else if (s[0] < ' ' && s[0] != '\t') || s[0] == '\U{007F}' then Bad
    else
      match ReadChars(s[1..])
      case Bad => Bad
      case Read(text, rest) => Read([s[0]] + text, rest)
  }

  function ReadString(s: string): (r: Result<string>)
    ensures r.Read? ==> |r.rest| < |s|
  {
    if Starts(s, '"') then ReadChars(s[1..]) else Bad
  }

  predicate IsBare(c: char) {
    'A' <= c <= 'Z' || 'a' <= c <= 'z' || '0' <= c <= '9' || c == '_' || c == '-'
  }

  /** The leading characters of `s` that a bare key may have. */
  function BareRun(s: string): (n: nat)
    ensures n <= |s|
  {
    if s != "" && IsBare(s[0]) then 1 + BareRun(s[1..]) else 0
  }

  /** A basic-quoted or a bare key. */
  function ReadKey(s: string): (r: Result<string>)
    ensures r.Read? ==> |r.rest| < |s|
  {
    if Starts(s, '"') then ReadString(s)
    else if BareRun(s) == 0 then Bad
    else Read(s[..BareRun(s)], s[BareRun(s)..])
  }

  predicate IsDigit(c: char) {
    '0' <= c <= '9'
  }

  /** The leading digits of `s`. */
  function DigitRun(s: string): (n: nat)
    ensures n <= |s| && forall i :: 0 <= i < n ==> IsDigit(s[i])
  {
    if s != "" && IsDigit(s[0]) then 1 + DigitRun(s[1..]) else 0
  }

  function DigitValue(c: char): nat
    requires IsDigit(c)
  {
    c as int - '0' as int
  }

  function DigitsValue(s: string): nat
    requires forall i :: 0 <= i < |s| ==> IsDigit(s[i])
  {
    if s == "" then 0 else 10 * DigitsValue(s[..|s| - 1]) + DigitValue(s[|s| - 1])
  }

  /** Decimal digits without a leading zero. */
  function ReadDigits(s: string): (r: Result<int>)
    ensures r.Read? ==> |r.rest| < |s|
  {
    var n := DigitRun(s);
    if n == 0 || (n > 1 && s[0] == '0') then Bad else Read(DigitsValue(s[..n]), s[n..])
  }

  function ReadNumber(s: string): (r: Result<int>)
    ensures r.Read? ==> |r.rest| < |s|
  {
    var negative := Starts(s, '-');
    match ReadDigits(if negative || Starts(s, '+') then s[1..] else s)
    case Bad => Bad
    case Read(n, rest) =>
      var number: int := if negative then -n else n;
      if MIN_INT64 <= number <= MAX_INT64 then Read(number, rest) else Bad
  }

  function ReadValue(s: string): (r: Result<Value>)
    ensures r.Read? ==> |r.rest| < |s|
    decreases |s|, 1
  {
    if Starts(s, '"') then
      match ReadString(s) { case Bad => Bad case Read(text, rest) => Read(String(text), rest) }
    else if "true" <= s then Read(Bool(true), s[4..])
    else if "false" <= s then Read(Bool(false), s[5..])
    else if Starts(s, '[') then
      var t := SkipSpaces(s[1..]);
      if Starts(t, ']') then Read(Array([]), t[1..])
      else match ReadItems(t) { case Bad => Bad case Read(items, rest) => Read(Array(items), rest) }
    else if Starts(s, '{') then
      var t := SkipBlanks(s[1..]);
      if Starts(t, '}') then Read(Table([]), t[1..])
      else
        match ReadFields(t)
        case Bad => Bad
        case Read(fields, rest) => if Distinct(fields) then Read(Table(fields), rest) else Bad
    else match ReadNumber(s) { case Bad => Bad case Read(n, rest) => Read(Int(n), rest) }
  }

  /** Array items and the closing bracket; a comma may stand before it. */
  function ReadItems(s: string): (r: Result<seq<Value>>)
    ensures r.Read? ==> |r.rest| < |s|
    decreases |s|, 2
  {
    match ReadValue(s)
    case Bad => Bad
    case Read(item, rest) =>
      var t := SkipSpaces(rest);
      if Starts(t, ']') then Read([item], t[1..])
      else if !Starts(t, ',') then Bad
      else
        var u := SkipSpaces(t[1..]);
        if Starts(u, ']') then Read([item], u[1..])
        else match ReadItems(u) { case Bad => Bad case Read(items, rest) => Read([item] + items, rest) }
  }

  function ReadField(s: string): (r: Result<Field>)
    ensures r.Read? ==> |r.rest| < |s|
    decreases |s|, 2
  {
    match ReadKey(s)
    case Bad => Bad
    case Read(key, rest) =>
      var t := SkipBlanks(rest);
      if !Starts(t, '=') then Bad
      else
        match ReadValue(SkipBlanks(t[1..]))
        case Bad => Bad
        case Read(value, rest) => Read(Field(key, value), rest)
  }

  /** Fields of an inline table and its closing brace. */
  function ReadFields(s: string): (r: Result<seq<Field>>)
    ensures r.Read? ==> |r.rest| < |s|
    decreases |s|, 3
  {
    match ReadField(s)
    case Bad => Bad
    case Read(field, rest) =>
      var t := SkipBlanks(rest);
      if Starts(t, '}') then Read([field], t[1..])
      else if !Starts(t, ',') then Bad
      else
        match ReadFields(SkipBlanks(t[1..]))
        case Bad => Bad
        case Read(fields, rest) => Read([field] + fields, rest)
  }

  // ----- strings -----

  lemma {:induction false} HexRead(a: nat, b: nat, rest: string)
    requires a < 16 && b < 16
    ensures ReadHex("00" + [HexDigit(a), HexDigit(b)] + rest, 4) == Read(16 * a + b, rest)
  {
    var one := [HexDigit(b)] + rest;
    var two := [HexDigit(a)] + one;
    FourChars(HexDigit(a), HexDigit(b), rest);
    assert Pow16(0) == 1 && Pow16(1) == 16;
    HexStep(b, rest, 0, 0, rest);
    HexStep(a, one, 1, b, rest);
    HexStep(0, two, 2, 16 * a + b, rest);
    HexStep(0, "0" + two, 3, 16 * a + b, rest);
  }

  lemma {:induction false} FourChars(a: char, b: char, rest: string)
    ensures "00" + [a, b] + rest == "0" + ("0" + ([a] + ([b] + rest)))
  {
  }

  lemma {:induction false} HexStep(digit: nat, s: string, n: nat, low: nat, rest: string)
    requires digit < 16 && ReadHex(s, n) == Read(low, rest)
    ensures ReadHex([HexDigit(digit)] + s, n + 1) == Read(digit * Pow16(n) + low, rest)
  {
    assert ([HexDigit(digit)] + s)[1..] == s;
  }

  lemma {:induction false} ShortEscapeRead(c: char, rest: string)
    requires c in "\"\\\n\r\t"
    ensures ReadChars(EscapeChar(c) + rest)
         == match ReadChars(rest) { case Bad => Bad case Read(text, after) => Read([c] + text, after) }
  {
    var s := EscapeChar(c) + rest;
    assert s[1..][1..] == rest;
    assert ReadEscape(s[1..]) == Read(c, rest);
  }

  lemma {:induction false} LongEscapeRead(c: char, rest: string)
    requires c !in "\"\\\n\r\t" && (c < ' ' || c == '\U{007F}')
    ensures ReadChars(EscapeChar(c) + rest)
         == match ReadChars(rest) { case Bad => Bad case Read(text, after) => Read([c] + text, after) }
  {
    var a, b := c as int / 16, c as int % 16;
    var s := EscapeChar(c) + rest;
    assert s[1..][1..] == "00" + [HexDigit(a), HexDigit(b)] + rest;
    HexRead(a, b, rest);
    assert ReadEscape(s[1..]) == Read(c, rest);
  }

  /** One escaped character, then whatever the rest reads as. */
  lemma {:induction false} EscapeRead(c: char, rest: string)
    ensures ReadChars(EscapeChar(c) + rest)
         == match ReadChars(rest) { case Bad => Bad case Read(text, after) => Read([c] + text, after) }
  {
    if c in "\"\\\n\r\t" {
      ShortEscapeRead(c, rest);
    } else if c < ' ' || c == '\U{007F}' {
      LongEscapeRead(c, rest);
    } else {
      assert (EscapeChar(c) + rest)[1..] == rest;
    }
  }

  lemma {:induction false} CharsRead(text: string, rest: string)
    ensures ReadChars(Escaped(text) + "\"" + rest) == Read(text, rest)
  {
    if text == "" {
      assert Escaped(text) + "\"" + rest == "\"" + rest;
    } else {
      var tail := Escaped(text[1..]) + "\"" + rest;
      assert Escaped(text) + "\"" + rest == EscapeChar(text[0]) + tail;
      CharsRead(text[1..], rest);
      EscapeRead(text[0], tail);
      assert [text[0]] + text[1..] == text;
    }
  }

  /** A printed string is read back, and nothing after it. */
  lemma {:induction false} StringRead(text: string, rest: string)
    ensures ReadString(Quoted(text) + rest) == Read(text, rest)
  {
    CharsRead(text, rest);
    assert (Quoted(text) + rest)[1..] == Escaped(text) + "\"" + rest;
  }

  // ----- numbers -----

  /** Text that does not go on a number. */
  predicate EndsNumber(rest: string) {
    rest == "" || !IsDigit(rest[0])
  }

  lemma {:induction false} DigitsFacts(n: nat)
    ensures Digits(n) != "" && (forall i :: 0 <= i < |Digits(n)| ==> IsDigit(Digits(n)[i]))
    ensures Digits(n)[0] == '0' ==> n == 0
    ensures DigitsValue(Digits(n)) == n
  {
    if n >= 10 {
      DigitsFacts(n / 10);
      assert Digits(n)[..|Digits(n)| - 1] == Digits(n / 10);
    }
  }

  lemma {:induction false} RunOf(digits: string, rest: string)
    requires EndsNumber(rest) && forall i :: 0 <= i < |digits| ==> IsDigit(digits[i])
    ensures DigitRun(digits + rest) == |digits|
  {
    if digits == "" {
      assert digits + rest == rest;
    } else {
      assert (digits + rest)[1..] == digits[1..] + rest;
      RunOf(digits[1..], rest);
    }
  }

  lemma {:induction false} DigitsRead(n: nat, rest: string)
    requires EndsNumber(rest)
    ensures ReadDigits(Digits(n) + rest) == Read(n, rest)
  {
    DigitsFacts(n);
    RunOf(Digits(n), rest);
    assert (Digits(n) + rest)[..|Digits(n)|] == Digits(n) && (Digits(n) + rest)[|Digits(n)|..] == rest;
  }

  lemma {:induction false} NumberRead(n: int, rest: string)
    requires EndsNumber(rest) && MIN_INT64 <= n <= MAX_INT64
    ensures ReadNumber(Number(n) + rest) == Read(n, rest)
  {
    var m: int := if n < 0 then 0 - n else n;
    DigitsFacts(m);
    DigitsRead(m, rest);
    SignRead(n < 0, m, Digits(m), rest);
  }

  lemma {:induction false} SignRead(negative: bool, m: nat, digits: string, rest: string)
    requires digits != "" && IsDigit(digits[0]) && ReadDigits(digits + rest) == Read(m, rest)
    requires if negative then m <= -MIN_INT64 else m <= MAX_INT64
    ensures ReadNumber((if negative then "-" + digits else digits) + rest)
         == Read(if negative then 0 - m as int else m as int, rest)
  {
    if negative {
      assert ("-" + digits + rest)[1..] == digits + rest;
    } else {
      assert (digits + rest)[0] == digits[0];
    }
  }

  // ----- values -----

  /** Text that begins with neither a space nor a mark that ends a value. */
  predicate IsOpening(s: string) {
    s != "" && !IsSpace(s[0]) && s[0] !in "]},="
  }

  lemma {:induction false} OpeningStays(s: string, rest: string)
    requires IsOpening(s)
    ensures IsOpening(s + rest)
  {
  }

  lemma {:induction false} NumberFirst(n: int)
    ensures Number(n) != "" && (Number(n)[0] == '-' || IsDigit(Number(n)[0]))
  {
    if n >= 0 {
      DigitsFacts(n);
    }
  }

  lemma {:induction false} FirstChar(value: Value)
    ensures IsOpening(Printed(value))
    ensures value.Int? ==> Printed(value)[0] == '-' || IsDigit(Printed(value)[0])
  {
    if value.Int? {
      NumberFirst(value.number);
    } else if value.Bool? {
      assert Printed(value) == if value.truth then "true" else "false";
    } else {
      assert Printed(value)[0] in "\"[{";
    }
  }

  /** Text that does not begin with a space is what skipping leaves, after one space or none. */
  lemma {:induction false} Skips(s: string)
    requires s == "" || !IsSpace(s[0])
    ensures SkipBlanks(s) == s && SkipSpaces(s) == s && SkipBlanks(" " + s) == s && SkipSpaces(" " + s) == s
  {
    assert (" " + s)[1..] == s;
  }

  lemma {:induction false} ItemsEnd(s: string, value: Value, rest: string)
    requires ReadValue(s) == Read(value, "]" + rest)
    ensures ReadItems(s) == Read([value], rest)
  {
    Skips("]" + rest);
    assert ("]" + rest)[1..] == rest;
  }

  lemma {:induction false} ItemsMore(s: string, value: Value, next: string, items: seq<Value>, rest: string)
    requires ReadValue(s) == Read(value, ", " + next) && IsOpening(next) && ReadItems(next) == Read(items, rest)
    ensures ReadItems(s) == Read([value] + items, rest)
  {
    Skips(", " + next);
    Skips(next);
    assert (", " + next)[1..] == " " + next;
  }

  lemma {:induction false} Closed(first: string, close: string, rest: string)
    ensures first + close + rest == first + (close + rest)
  {
  }

  lemma {:induction false} Joined(first: string, others: string, close: string, rest: string)
    ensures first + ", " + others + close + rest == first + (", " + (others + close + rest))
  {
  }

  lemma {:induction false} ItemsRead(items: seq<Value>, rest: string)
    requires items != [] && forall item <- items :: Sound(item)
    ensures ReadItems(PrintedItems(items) + "]" + rest) == Read(items, rest)
    ensures IsOpening(PrintedItems(items) + "]" + rest)
    decreases items, 0
  {
    FirstChar(items[0]);
    if |items| == 1 {
      ValueRead(items[0], "]" + rest);
      Closed(Printed(items[0]), "]", rest);
      OpeningStays(Printed(items[0]), "]" + rest);
      ItemsEnd(Printed(items[0]) + ("]" + rest), items[0], rest);
      assert items == [items[0]];
    } else {
      ItemsRead(items[1..], rest);
      ValueRead(items[0], ", " + (PrintedItems(items[1..]) + "]" + rest));
      FirstItemRead(items, PrintedItems(items[1..]), rest);
    }
  }

  /** An item before a comma, once it and the others can be read, whatever text `others` is of them. */
  lemma FirstItemRead(items: seq<Value>, others: string, rest: string)
    requires |items| > 1 && others == PrintedItems(items[1..]) && IsOpening(Printed(items[0]))
    requires var next := others + "]" + rest;
             ReadItems(next) == Read(items[1..], rest) && IsOpening(next)
             && ReadValue(Printed(items[0]) + (", " + next)) == Read(items[0], ", " + next)
    ensures ReadItems(PrintedItems(items) + "]" + rest) == Read(items, rest)
    ensures IsOpening(PrintedItems(items) + "]" + rest)
  {
    var next := others + "]" + rest;
    Joined(Printed(items[0]), others, "]", rest);
    OpeningStays(Printed(items[0]), ", " + next);
    ItemsMore(Printed(items[0]) + (", " + next), items[0], next, items[1..], rest);
    assert [items[0]] + items[1..] == items;
  }

  lemma {:induction false} FieldParts(s: string, key: string, value: Value, after: string, rest: string)
    requires ReadKey(s) == Read(key, " = " + after) && IsOpening(after) && ReadValue(after) == Read(value, rest)
    ensures ReadField(s) == Read(Field(key, value), rest)
  {
    var t := "= " + after;
    Skips(t);
    Skips(after);
    assert " = " + after == " " + t && t[1..] == " " + after;
  }

  lemma {:induction false} QuotedKeyRead(key: string, rest: string)
    ensures ReadKey(Quoted(key) + rest) == Read(key, rest)
  {
    StringRead(key, rest);
  }

  lemma {:induction false} KeyValue(key: string, value: string, rest: string)
    ensures key + " = " + value + rest == key + (" = " + (value + rest))
  {
  }

  lemma {:induction false} FieldRead(field: Field, rest: string)
    requires IsText(field.key) && Sound(field.value) && EndsNumber(rest)
    ensures ReadField(PrintedField(field) + rest) == Read(field, rest)
    decreases field, 0
  {
    var after := Printed(field.value) + rest;
    QuotedKeyRead(field.key, " = " + after);
    FirstChar(field.value);
    OpeningStays(Printed(field.value), rest);
    ValueRead(field.value, rest);
    KeyValue(Quoted(field.key), Printed(field.value), rest);
    FieldParts(Quoted(field.key) + (" = " + after), field.key, field.value, after, rest);
  }

  lemma {:induction false} BareRunOf(key: string, after: string)
    requires forall i :: 0 <= i < |key| ==> IsBare(key[i])
    ensures BareRun(key + (" = " + after)) == |key|
  {
    if key == "" {
      assert key + (" = " + after) == " = " + after;
    } else {
      BareRunOf(key[1..], after);
      assert (key + (" = " + after))[1..] == key[1..] + (" = " + after);
    }
  }

  /** A field whose key is bare is read like one whose key is quoted. */
  lemma {:induction false} BareFieldRead(key: string, value: Value, rest: string)
    requires key != "" && (forall i :: 0 <= i < |key| ==> IsBare(key[i])) && Sound(value) && EndsNumber(rest)
    ensures ReadField(key + " = " + Printed(value) + rest) == Read(Field(key, value), rest)
  {
    var after := Printed(value) + rest;
    var s := key + (" = " + after);
    BareRunOf(key, after);
    FirstChar(value);
    ValueRead(value, rest);
    assert s[..|key|] == key && s[|key|..] == " = " + after && s[0] == key[0];
    OpeningStays(Printed(value), rest);
    FieldParts(s, key, value, after, rest);
    KeyValue(key, Printed(value), rest);
  }

  lemma {:induction false} FieldOpens(field: Field, rest: string)
    ensures IsOpening(PrintedField(field) + rest)
  {
  }

  lemma {:induction false} FieldsEnd(s: string, field: Field, rest: string)
    requires ReadField(s) == Read(field, " }" + rest)
    ensures ReadFields(s) == Read([field], rest)
  {
    Skips("}" + rest);
    assert " }" + rest == " " + ("}" + rest) && ("}" + rest)[1..] == rest;
  }

  lemma {:induction false} FieldsMore(s: string, field: Field, next: string, fields: seq<Field>, rest: string)
    requires ReadField(s) == Read(field, ", " + next) && IsOpening(next) && ReadFields(next) == Read(fields, rest)
    ensures ReadFields(s) == Read([field] + fields, rest)
  {
    Skips(", " + next);
    Skips(next);
    assert (", " + next)[1..] == " " + next;
  }

  lemma {:induction false} FieldsRead(fields: seq<Field>, rest: string)
    requires fields != [] && forall field <- fields :: IsText(field.key) && Sound(field.value)
    ensures ReadFields(PrintedFields(fields) + " }" + rest) == Read(fields, rest)
    ensures IsOpening(PrintedFields(fields) + " }" + rest)
    decreases fields, 0
  {
    if |fields| == 1 {
      FieldRead(fields[0], " }" + rest);
      Closed(PrintedField(fields[0]), " }", rest);
      FieldOpens(fields[0], " }" + rest);
      FieldsEnd(PrintedField(fields[0]) + (" }" + rest), fields[0], rest);
      assert fields == [fields[0]];
    } else {
      var next := PrintedFields(fields[1..]) + " }" + rest;
      FieldsRead(fields[1..], rest);
      FieldRead(fields[0], ", " + next);
      Joined(PrintedField(fields[0]), PrintedFields(fields[1..]), " }", rest);
      FieldOpens(fields[0], ", " + next);
      FieldsMore(PrintedField(fields[0]) + (", " + next), fields[0], next, fields[1..], rest);
      assert [fields[0]] + fields[1..] == fields;
    }
  }

  lemma {:induction false} ArrayRead(items: seq<Value>, rest: string)
    requires forall item <- items :: Sound(item)
    ensures ReadValue(Printed(Array(items)) + rest) == Read(Array(items), rest)
    decreases items, 1
  {
    var s := Printed(Array(items)) + rest;
    if items == [] {
      assert s[1..] == "]" + rest && ("]" + rest)[1..] == rest;
    } else {
      assert s[1..] == PrintedItems(items) + "]" + rest;
      ItemsRead(items, rest);
    }
  }

  lemma {:induction false} TableRead(fields: seq<Field>, rest: string)
    requires SoundFields(fields)
    ensures ReadValue(Printed(Table(fields)) + rest) == Read(Table(fields), rest)
    decreases fields, 1
  {
    var s := Printed(Table(fields)) + rest;
    var t := PrintedFields(fields) + " }" + rest;
    assert s[1..] == " " + t;
    if fields == [] {
      var u := "}" + rest;
      assert t == " " + u && u[1..] == rest;
      Skips(u);
      assert (" " + t)[1..] == t;
    } else {
      FieldsRead(fields, rest);
      Skips(t);
    }
  }

  /** Whatever is printed reads back as the same value, and the text after it is left unread. */
  lemma {:induction false} ValueRead(value: Value, rest: string)
    requires Sound(value) && (value.Int? ==> EndsNumber(rest))
    ensures ReadValue(Printed(value) + rest) == Read(value, rest)
    decreases value, 2
  {
    match value
    case String(text) => StringRead(text, rest);
    case Int(number) => IntRead(number, rest);
    case Bool(truth) =>
      assert (Printed(value) + rest)[|Printed(value)|..] == rest;
    case Array(items) => ArrayRead(items, rest);
    case Table(fields) => TableRead(fields, rest);
  }

  lemma {:induction false} IntRead(n: int, rest: string)
    requires EndsNumber(rest) && MIN_INT64 <= n <= MAX_INT64
    ensures ReadValue(Number(n) + rest) == Read(Int(n), rest)
  {
    NumberRead(n, rest);
    NumberFirst(n);
    assert (Number(n) + rest)[0] == Number(n)[0];
  }
}
