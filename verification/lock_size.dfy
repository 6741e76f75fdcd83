/**
 What `load_lock` asks of the bytes of a lockfile before it parses them (src/plugin-store.c:141-145),
 and what the printer makes of it.
 */
module LockSize {
  import opened LockText
  import opened Toml

  const LIMIT := 2 * 1024 * 1024

  /** Bytes of a character in UTF-8 (section 3 of RFC 3629). */
  function CharSize(c: char): nat {
    if c < '\U{0080}' then 1 else if c < '\U{0800}' then 2 else if c < '\U{10000}' then 3 else 4
  }

  function Utf8Size(s: string): nat {
    if s == "" then 0 else CharSize(s[0]) + Utf8Size(s[1..])
  }

  /** The file is not oversized and has no NUL. */
  predicate Intact(s: string) {
    Utf8Size(s) <= LIMIT && IsText(s)
  }

  // ----- no NUL is ever written -----

  lemma CleanBoth(a: string, b: string)
    requires IsText(a) && IsText(b)
    ensures IsText(a + b)
  {
  }

  lemma CleanPair(key: string, value: string)
    requires IsText(key) && IsText(value)
    ensures IsText(key + " = " + value)
  {
    CleanBoth(key, " = ");
    CleanBoth(key + " = ", value);
  }

  lemma CleanEntry(id: string, others: string)
    requires IsText(id) && IsText(others)
    ensures IsText("{ id = " + id + ", " + others + " }")
  {
    CleanBoth("{ id = ", id);
    CleanBoth("{ id = " + id, ", ");
    CleanBoth("{ id = " + id + ", ", others);
    CleanBoth("{ id = " + id + ", " + others, " }");
  }

  lemma {:induction false} EscapedClean(text: string)
    ensures IsText(Escaped(text))
  {
    if text != "" {
      EscapedClean(text[1..]);
      assert IsText(EscapeChar(text[0]));
    }
  }

  lemma {:induction false} DigitsClean(n: nat)
    ensures IsText(Digits(n))
  {
    if n >= 10 {
      DigitsClean(n / 10);
    }
  }

  lemma {:induction false} PrintedClean(value: Value)
    ensures IsText(Printed(value))
    decreases value, 1
  {
    match value
    case String(text) => EscapedClean(text);
    case Int(number) => DigitsClean(if number < 0 then -number else number);
    case Bool(_) =>
    case Array(items) => ItemsClean(items);
    case Table(fields) => FieldsClean(fields);
  }

  lemma {:induction false} ItemsClean(items: seq<Value>)
    ensures IsText(PrintedItems(items))
    decreases items, 0
  {
    if items != [] {
      PrintedClean(items[0]);
      ItemsClean(items[1..]);
    }
  }

  lemma {:induction false} FieldsClean(fields: seq<Field>)
    ensures IsText(PrintedFields(fields))
    decreases fields, 0
  {
    if fields != [] {
      EscapedClean(fields[0].key);
      PrintedClean(fields[0].value);
      FieldsClean(fields[1..]);
    }
  }

  lemma LineClean(line: Line)
    ensures IsText(line.Written())
  {
    EscapedClean(line.Meaning().key);
    match line
    case Plain(field) =>
      PrintedClean(field.value);
      CleanPair(Quoted(field.key), Printed(field.value));
    case Recorded(key, id, others) =>
      DigitsClean(if id < 0 then -id else id);
      FieldsClean(others);
      CleanEntry(Number(id), PrintedFields(others));
      CleanPair(Quoted(key), RecordedText(id, others));
  }

  lemma {:induction false} LinesClean(lines: seq<Line>)
    ensures IsText(Lines(lines))
  {
    if lines != [] {
      LineClean(lines[0]);
      LinesClean(lines[1..]);
      CleanBoth(lines[0].Written(), "\n");
      CleanBoth(lines[0].Written() + "\n", Lines(lines[1..]));
    }
  }

  lemma BannerClean()
    ensures IsText(BANNER) && IsText("\n[plugins]\n")
  {
  }

  lemma CleanAround(a: string, b: string, c: string, d: string)
    requires IsText(a) && IsText(b) && IsText(c) && IsText(d)
    ensures IsText(a + b + c + d)
  {
    CleanBoth(a, b);
    CleanBoth(a + b, c);
    CleanBoth(a + b + c, d);
  }

  lemma TextClean(top: seq<Line>, plugins: seq<Line>)
    ensures IsText(Text(top, plugins))
  {
    LinesClean(top);
    LinesClean(plugins);
    BannerClean();
    CleanAround(BANNER, Lines(top), "\n[plugins]\n", Lines(plugins));
  }

  // ----- a file of few and short lines is not oversized -----

  lemma {:induction false} SizeBound(s: string)
    ensures Utf8Size(s) <= 4 * |s|
  {
    if s != "" {
      SizeBound(s[1..]);
    }
  }

  lemma {:induction false} EscapedLength(text: string)
    ensures |Escaped(text)| <= 6 * |text|
  {
    if text != "" {
      EscapedLength(text[1..]);
    }
  }

  lemma {:induction false} SizeAtLeast(s: string)
    ensures Utf8Size(s) >= |s|
  {
    if s != "" {
      SizeAtLeast(s[1..]);
    }
  }

  lemma {:induction false} EscapedAtLeast(text: string)
    ensures |Escaped(text)| >= |text|
  {
    if text != "" {
      EscapedAtLeast(text[1..]);
    }
  }

  /** A list of fields is printed at no less length than any text in it. */
  lemma {:induction false} FieldsAtLeast(fields: seq<Field>, i: nat)
    requires i < |fields| && fields[i].value.String?
    ensures |PrintedFields(fields)| >= |fields[i].value.text|
  {
    if i == 0 {
      EscapedAtLeast(fields[0].value.text);
      assert |PrintedField(fields[0])| >= |fields[0].value.text|;
    } else {
      FieldsAtLeast(fields[1..], i - 1);
    }
  }

  /** A text beyond the limit in an entry with an ID makes the file oversized. */
  lemma LongEntryDoesNotFit(top: seq<Line>, line: Line, i: nat)
    requires line.Recorded? && i < |line.others| && line.others[i].value.String?
    requires |line.others[i].value.text| > LIMIT
    ensures Utf8Size(Text(top, [line])) > LIMIT
  {
    FieldsAtLeast(line.others, i);
    assert Lines([line]) == line.Written() + "\n" + Lines([]);
    SizeAtLeast(Text(top, [line]));
  }

  lemma {:induction false} DigitsLength(n: nat)
    ensures |Digits(n)| <= n + 1
  {
    if n >= 10 {
      DigitsLength(n / 10);
    }
  }

  predicate IsShort(field: Field) {
    && |field.key| <= 1000
    && ((field.value.String? && |field.value.text| <= 1000) || (field.value.Int? && 0 <= field.value.number <= 1000))
  }

  lemma {:induction false} FieldsLength(fields: seq<Field>)
    requires forall field <- fields :: IsShort(field)
    ensures |PrintedFields(fields)| <= 13_000 * |fields|
  {
    if fields != [] {
      var field := fields[0];
      assert IsShort(field);
      EscapedLength(field.key);
      if field.value.String? {
        EscapedLength(field.value.text);
        assert |Quoted(field.value.text)| <= 6002;
      } else {
        DigitsLength(field.value.number);
        assert |Number(field.value.number)| <= 1001;
      }
      assert |PrintedField(field)| <= 12_998;
      FieldsLength(fields[1..]);
    }
  }

  /** A line of an entry with at most seven short fields. */
  predicate IsShortLine(line: Line) {
    var meaning := line.Meaning();
    && |meaning.key| <= 1000 && meaning.value.Table? && |meaning.value.fields| <= 7
    && forall field <- meaning.value.fields :: IsShort(field)
  }

  lemma LineLength(line: Line)
    requires IsShortLine(line)
    ensures |line.Written()| <= 100_000
  {
    EscapedLength(line.Meaning().key);
    match line
    case Plain(field) =>
      FieldsLength(field.value.fields);
      assert Printed(field.value) == "{ " + PrintedFields(field.value.fields) + " }";
    case Recorded(_, id, others) =>
      var fields := line.Meaning().value.fields;
      assert IsShort(fields[0]) && others == fields[1..];
      FieldsLength(others);
      DigitsLength(id);
  }

  lemma {:induction false} LinesLength(lines: seq<Line>)
    requires forall line <- lines :: IsShortLine(line)
    ensures |Lines(lines)| <= 100_001 * |lines|
  {
    if lines != [] {
      LineLength(lines[0]);
      LinesLength(lines[1..]);
    }
  }

  /** Four such lines below the version always fit. */
  lemma FourLinesFit(plugins: seq<Line>)
    requires |plugins| <= 4 && forall line <- plugins :: IsShortLine(line)
    ensures Utf8Size(Text(Plainly([Field("version", Int(1))]), plugins)) <= LIMIT
  {
    var top := Plainly([Field("version", Int(1))]);
    EscapedLength("version");
    assert Lines(top) == top[0].Written() + "\n" + Lines(top[1..]);
    LinesLength(plugins);
    SizeBound(Text(top, plugins));
  }
}
