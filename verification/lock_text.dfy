/**
 The text of a lockfile (`plugin-store.c`): its lines as they are appended to a buffer,
 and what a TOML reader makes of them.
 */
module LockText {
  import opened Toml
  import opened Wrappers

  /** A lockfile: the top-level keys other than `plugins`, and the table of plugins. */
  datatype Document = Document(top: seq<Field>, plugins: seq<Field>) {
    predicate Sound() {
      SoundFields(top) && SoundFields(plugins) && forall field <- top :: field.key != "plugins"
    }
  }

  const BANNER := "# Managed by ppm and Smashed Pumpkin.\n"

  /** A line: a key and its value, or a plugin's entry, whose first key `append_metadata` writes bare. */
  datatype Line = Plain(field: Field) | Recorded(key: string, id: int, others: seq<Field>) {
    function Meaning(): Field {
      if Plain? then field else Toml.Field(key, Table([Toml.Field("id", Int(id))] + others))
    }

    function Written(): string {
      if Plain? then PrintedField(field) else Quoted(key) + " = " + RecordedText(id, others)
    }

    predicate Sound() {
      IsText(Meaning().key) && Toml.Sound(Meaning().value) && (Recorded? ==> others != [])
    }
  }

  /** `append_metadata`, its first field apart from the others. */
  function RecordedText(id: int, others: seq<Field>): string {
    "{ id = " + Number(id) + ", " + PrintedFields(others) + " }"
  }

  function Lines(lines: seq<Line>): string {
    if lines == [] then "" else lines[0].Written() + "\n" + Lines(lines[1..])
  }

  function Meanings(lines: seq<Line>): (r: seq<Field>)
    ensures |r| == |lines| && forall i :: 0 <= i < |lines| ==> r[i] == lines[i].Meaning()
  {
    seq(|lines|, i requires 0 <= i < |lines| => lines[i].Meaning())
  }

  function Plainly(fields: seq<Field>): (r: seq<Line>)
    ensures Meanings(r) == fields
  {
    seq(|fields|, i requires 0 <= i < |fields| => Plain(fields[i]))
  }

  function Text(top: seq<Line>, plugins: seq<Line>): string {
    BANNER + Lines(top) + "\n[plugins]\n" + Lines(plugins)
  }

  // ----- the reader -----

  function SkipLine(s: string): (r: string)
    ensures |r| <= |s| && (s != "" ==> |r| < |s|)
  {
    if s == "" then s else if s[0] == '\n' then s[1..] else SkipLine(s[1..])
  }

  /** Key/value lines up to the end or a table header; empty lines and comments count for nothing. */
  function ReadLines(s: string): (r: Result<seq<Field>>)
    decreases |s|
  {
    if s == "" || s[0] == '[' then Read([], s)
    else if s[0] == '\n' || s[0] == '#' then ReadLines(SkipLine(s))
    else
      match ReadField(s)
      case Bad => Bad
      case Read(field, rest) =>
        var t := SkipBlanks(rest);
        if !Starts(t, '\n') then Bad
        else match ReadLines(t[1..]) { case Bad => Bad case Read(fields, after) => Read([field] + fields, after) }
  }

  const HEADER := "[plugins]\n"

  /** The keys above the header, and the table below it, which may be missing. */
  function ReadDocument(s: string): Option<Document> {
    match ReadLines(s)
    case Bad => None
    case Read(top, rest) =>
      if rest == "" then (if Distinct(top + [Field("plugins", Table([]))]) then Some(Document(top, [])) else None)
      else if !(HEADER <= rest) then None
      else
        match ReadLines(rest[|HEADER|..])
        case Bad => None
        case Read(plugins, after) =>
          if after == "" && Distinct(top + [Field("plugins", Table(plugins))]) && Distinct(plugins)
          then Some(Document(top, plugins)) else None
  }

  // ----- what is written is read back -----

  lemma EntryText(id: string, others: string, rest: string)
    ensures "{ id = " + id + ", " + others + " }" + rest
         == "{" + (" " + ("id = " + id + (", " + (others + " }" + rest))))
  {
    assert "{ id = " == "{" + (" " + "id = ");
  }

  lemma IdRead(id: int, next: string)
    requires MIN_INT64 <= id <= MAX_INT64
    ensures ReadField("id = " + Number(id) + (", " + next)) == Read(Field("id", Int(id)), ", " + next)
    ensures IsOpening("id = " + Number(id) + (", " + next))
  {
    assert "id = " == "id" + " = ";
    BareFieldRead("id", Int(id), ", " + next);
    assert ("id = " + Number(id) + (", " + next))[0] == 'i';
  }

  lemma TableOpens(s: string, fields: seq<Field>, rest: string)
    requires IsOpening(s) && ReadFields(s) == Read(fields, rest) && Distinct(fields)
    ensures ReadValue("{" + (" " + s)) == Read(Table(fields), rest)
  {
    Skips(s);
    assert ("{" + (" " + s))[1..] == " " + s;
  }

  /** An entry that starts with a bare key is read as the table it stands for. */
  lemma RecordedRead(id: int, others: seq<Field>, rest: string)
    requires others != [] && SoundFields([Field("id", Int(id))] + others)
    ensures ReadValue(RecordedText(id, others) + rest) == Read(Table([Field("id", Int(id))] + others), rest)
  {
    var first, fields := Field("id", Int(id)), [Field("id", Int(id))] + others;
    assert first == fields[0] && Toml.Sound(first.value);
    assert forall i :: 0 <= i < |others| ==> others[i] == fields[i + 1];
    var next := PrintedFields(others) + " }" + rest;
    FieldsRead(others, rest);
    IdRead(id, next);
    FieldsMore("id = " + Number(id) + (", " + next), first, next, others, rest);
    TableOpens("id = " + Number(id) + (", " + next), fields, rest);
    EntryText(Number(id), PrintedFields(others), rest);
  }

  lemma LineRead(line: Line, rest: string)
    requires line.Sound() && EndsNumber(rest)
    ensures ReadField(line.Written() + rest) == Read(line.Meaning(), rest)
  {
    if line.Plain? {
      FieldRead(line.field, rest);
    } else {
      var text := RecordedText(line.id, line.others);
      RecordedRead(line.id, line.others, rest);
      QuotedKeyRead(line.key, " = " + (text + rest));
      FieldParts(Quoted(line.key) + (" = " + (text + rest)), line.key, line.Meaning().value, text + rest, rest);
      KeyValue(Quoted(line.key), text, rest);
    }
  }

  lemma LineMore(s: string, field: Field, next: string, fields: seq<Field>, rest: string)
    requires Starts(s, '"') && ReadField(s) == Read(field, "\n" + next) && ReadLines(next) == Read(fields, rest)
    ensures ReadLines(s) == Read([field] + fields, rest)
  {
    assert SkipBlanks("\n" + next) == "\n" + next && ("\n" + next)[1..] == next;
  }

  lemma LineText(first: string, others: string, next: string)
    ensures first + "\n" + others + next == first + ("\n" + (others + next))
  {
  }

  lemma OneMoreLine(line: Line, others: string, fields: seq<Field>, next: string, rest: string)
    requires line.Sound() && ReadLines(others + next) == Read(fields, rest)
    ensures ReadLines(line.Written() + "\n" + others + next) == Read([line.Meaning()] + fields, rest)
  {
    var after := others + next;
    LineRead(line, "\n" + after);
    LineText(line.Written(), others, next);
    LineMore(line.Written() + ("\n" + after), line.Meaning(), after, fields, rest);
  }

  lemma {:induction false} LinesRead(lines: seq<Line>, next: string, rest: string)
    requires forall line <- lines :: line.Sound()
    requires ReadLines(next) == Read([], rest)
    ensures ReadLines(Lines(lines) + next) == Read(Meanings(lines), rest)
  {
    if lines == [] {
      assert Lines(lines) + next == next;
    } else {
      LinesRead(lines[1..], next, rest);
      OneMoreLine(lines[0], Lines(lines[1..]), Meanings(lines[1..]), next, rest);
      MeaningsOf(lines);
    }
  }

  lemma MeaningsOf(lines: seq<Line>)
    requires lines != []
    ensures Meanings(lines) == [lines[0].Meaning()] + Meanings(lines[1..])
  {
  }

  lemma {:induction false} SkipsLine(line: string, rest: string)
    requires '\n' !in line
    ensures SkipLine(line + "\n" + rest) == rest
  {
    if line == "" {
      assert (line + "\n" + rest)[1..] == rest;
    } else {
      SkipsLine(line[1..], rest);
      assert (line + "\n" + rest)[1..] == line[1..] + "\n" + rest;
    }
  }

  lemma HeaderEnds(plugins: string)
    ensures ReadLines("\n" + (HEADER + plugins)) == Read([], HEADER + plugins)
  {
    var s := HEADER + plugins;
    assert ("\n" + s)[1..] == s && s[0] == '[';
  }

  lemma BannerSkipped(s: string)
    ensures ReadLines(BANNER + s) == ReadLines(s)
  {
    var line := "# Managed by ppm and Smashed Pumpkin.";
    SkipsLine(line, s);
    assert BANNER + s == line + "\n" + s;
  }

  lemma TextParts(top: string, plugins: string)
    ensures BANNER + top + "\n[plugins]\n" + plugins == BANNER + (top + ("\n" + (HEADER + plugins)))
  {
  }

  lemma DocumentRead(s: string, top: seq<Field>, plugins: seq<Field>, below: string)
    requires Document(top, plugins).Sound()
    requires ReadLines(s) == Read(top, HEADER + below) && ReadLines(below) == Read(plugins, "")
    ensures ReadDocument(s) == Some(Document(top, plugins))
  {
    assert (HEADER + below)[|HEADER|..] == below;
  }

  /** A lockfile that is written reads back as the keys and plugins its lines stand for, in the same order. */
  lemma TextRead(top: seq<Line>, plugins: seq<Line>)
    requires Document(Meanings(top), Meanings(plugins)).Sound()
    requires (forall line <- top :: line.Sound()) && forall line <- plugins :: line.Sound()
    ensures ReadDocument(Text(top, plugins)) == Some(Document(Meanings(top), Meanings(plugins)))
  {
    var below := Lines(plugins);
    var body := "\n" + (HEADER + below);
    HeaderEnds(below);
    LinesRead(top, body, HEADER + below);
    BannerSkipped(Lines(top) + body);
    TextParts(Lines(top), below);
    LinesRead(plugins, "", "");
    assert below + "" == below;
    DocumentRead(Text(top, plugins), Meanings(top), Meanings(plugins), below);
  }

  // ----- the buffer -----

  lemma Regroup(a: string, b: string, c: string)
    ensures a + b + c == a + (b + c)
  {
  }

  lemma Enclosed(start: string, open: string, body: string, close: string)
    ensures start + open + body + close == start + (open + body + close)
  {
  }

  lemma {:induction false} EscapedMore(text: string, c: char)
    ensures Escaped(text + [c]) == Escaped(text) + EscapeChar(c)
  {
    if text == "" {
      assert text + [c] == [c] && EscapeChar(c) + "" == EscapeChar(c);
    } else {
      EscapedMore(text[1..], c);
      assert (text + [c])[1..] == text[1..] + [c];
      Regroup(EscapeChar(text[0]), Escaped(text[1..]), EscapeChar(c));
    }
  }

  lemma {:induction false} ItemsTextMore(items: seq<Value>, item: Value)
    ensures PrintedItems(items + [item])
         == if items == [] then Printed(item) else PrintedItems(items) + ", " + Printed(item)
  {
    if items == [] {
      assert items + [item] == [item];
    } else {
      ItemsTextMore(items[1..], item);
      assert (items + [item])[1..] == items[1..] + [item];
      if |items| > 1 {
        Regroup(Printed(items[0]) + ", ", PrintedItems(items[1..]) + ", ", Printed(item));
        Regroup(Printed(items[0]) + ", ", PrintedItems(items[1..]), ", ");
      }
    }
  }

  lemma {:induction false} FieldsTextMore(fields: seq<Field>, field: Field)
    ensures PrintedFields(fields + [field])
         == if fields == [] then PrintedField(field) else PrintedFields(fields) + ", " + PrintedField(field)
  {
    if fields == [] {
      assert fields + [field] == [field];
    } else {
      FieldsTextMore(fields[1..], field);
      assert (fields + [field])[1..] == fields[1..] + [field];
      if |fields| > 1 {
        Regroup(PrintedField(fields[0]) + ", ", PrintedFields(fields[1..]) + ", ", PrintedField(field));
        Regroup(PrintedField(fields[0]) + ", ", PrintedFields(fields[1..]), ", ");
      }
    }
  }

  lemma ItemsTextGrown(start: string, items: seq<Value>, i: nat)
    requires i < |items|
    ensures start + PrintedItems(items[..i + 1])
         == start + PrintedItems(items[..i]) + (if i > 0 then ", " else "") + Printed(items[i])
  {
    ItemsTextMore(items[..i], items[i]);
    assert items[..i] + [items[i]] == items[..i + 1];
    if i > 0 {
      Regroup(start, PrintedItems(items[..i]), ", ");
      Regroup(start, PrintedItems(items[..i]) + ", ", Printed(items[i]));
    } else {
      assert start + PrintedItems(items[..0]) + "" == start;
    }
  }

  lemma FieldsTextGrown(start: string, fields: seq<Field>, i: nat)
    requires i < |fields|
    ensures start + PrintedFields(fields[..i + 1])
         == start + PrintedFields(fields[..i]) + (if i > 0 then ", " else "") + PrintedField(fields[i])
  {
    FieldsTextMore(fields[..i], fields[i]);
    assert fields[..i] + [fields[i]] == fields[..i + 1];
    if i > 0 {
      Regroup(start, PrintedFields(fields[..i]), ", ");
      Regroup(start, PrintedFields(fields[..i]) + ", ", PrintedField(fields[i]));
    } else {
      assert start + PrintedFields(fields[..0]) + "" == start;
    }
  }

  class Output {
    var text: string

    constructor (text: string)
      ensures this.text == text
    {
      this.text := text;
    }

    method Append(s: string)
      modifies this
      ensures text == old(text) + s
    {
      text := text + s;
    }

    /** `append_string` */
    method AppendString(value: string)
      modifies this
      ensures text == old(text) + Quoted(value)
    {
      text := text + "\"";
      ghost var start := text;
      for i := 0 to |value|
        invariant text == start + Escaped(value[..i])
      {
        EscapedMore(value[..i], value[i]);
        Regroup(start, Escaped(value[..i]), EscapeChar(value[i]));
        assert value[..i] + [value[i]] == value[..i + 1];
        text := text + EscapeChar(value[i]);
      }
      assert value[..|value|] == value;
      text := text + "\"";
    }

    /** `append_value` */
    method AppendValue(value: Value)
      modifies this
      ensures text == old(text) + Printed(value)
      decreases value, 0
    {
      match value
      case String(s) => AppendString(s);
      case Int(number) => Append(Number(number));
      case Bool(truth) => Append(if truth then "true" else "false");
      case Array(items) =>
        Append("[");
        AppendItems(items);
        Append("]");
        Enclosed(old(text), "[", PrintedItems(items), "]");
      case Table(fields) =>
        Append("{ ");
        AppendFields(fields);
        Append(" }");
        Enclosed(old(text), "{ ", PrintedFields(fields), " }");
    }

    method AppendItems(items: seq<Value>)
      modifies this
      ensures text == old(text) + PrintedItems(items)
      decreases items, 0
    {
      for i := 0 to |items|
        invariant text == old(text) + PrintedItems(items[..i])
      {
        if i > 0 {
          Append(", ");
        }
        AppendValue(items[i]);
        ItemsTextGrown(old(text), items, i);
      }
      assert items[..|items|] == items;
    }

    method AppendField(field: Field)
      modifies this
      ensures text == old(text) + PrintedField(field)
      decreases field, 0
    {
      AppendString(field.key);
      Append(" = ");
      AppendValue(field.value);
    }

    method AppendFields(fields: seq<Field>)
      modifies this
      ensures text == old(text) + PrintedFields(fields)
      decreases fields, 0
    {
      for i := 0 to |fields|
        invariant text == old(text) + PrintedFields(fields[..i])
      {
        if i > 0 {
          Append(", ");
        }
        AppendField(fields[i]);
        FieldsTextGrown(old(text), fields, i);
      }
      assert fields[..|fields|] == fields;
    }
  }
}
