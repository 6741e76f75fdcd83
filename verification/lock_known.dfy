/** The very text of a lockfile (`plugin-store.c`): what the first record writes, and how each character is escaped. */
module LockKnown {
  import opened LockText
  import opened Lockfile
  import opened PluginFiles
  import opened PluginStore
  import opened Toml
  import opened Wrappers

  /** A character that is written as it is. */
  predicate Ordinary(c: char) {
    ' ' <= c && c != '"' && c != '\\' && c != '\U{007F}'
  }

  predicate IsOrdinary(text: string) {
    forall c <- text :: Ordinary(c)
  }

  lemma {:induction false} OrdinaryIsItself(text: string)
    requires IsOrdinary(text)
    ensures Escaped(text) == text
    decreases |text|
  {
    if text != "" {
      OrdinaryIsItself(text[1..]);
      assert Ordinary(text[0]);
      assert [text[0]] + text[1..] == text;
    }
  }

  /** The escapes of a basic string, TOML v1.0.0. */
  lemma KnownEscapes()
    ensures EscapeChar('"') == "\\\"" && EscapeChar('\\') == "\\\\"
    ensures EscapeChar('\n') == "\\n" && EscapeChar('\r') == "\\r" && EscapeChar('\t') == "\\t"
    ensures EscapeChar('\U{0001}') == "\\u0001" && EscapeChar('\U{001F}') == "\\u001f"
    ensures EscapeChar('\U{007F}') == "\\u007f"
  {
    assert "0123456789abcdef"[15] == 'f' && "0123456789abcdef"[7] == '7' && "0123456789abcdef"[1] == '1';
  }

  lemma DigitIs(d: nat)
    requires d < 10
    ensures HexDigit(d) == ('0' as int + d) as char
  {
  }

  /** Numbers are decimal. */
  lemma NumberIsDecimal(n: int, d: nat)
    requires 0 <= n && d < 10
    ensures Number(d) == [('0' as int + d) as char]
    ensures n > 0 ==> Number(10 * n + d) == Number(n) + [('0' as int + d) as char]
    ensures n > 0 ==> Number(-n) == "-" + Number(n)
  {
    DigitIs(d);
    var more: nat := 10 * n + d;
    assert more / 10 == n && more % 10 == d;
  }

  function Assigned(key: string, text: string): string {
    "\"" + key + "\" = \"" + text + "\""
  }

  function IfAny(key: string, text: Option<string>): string {
    if text.Some? then ", " + Assigned(key, text.value) else ""
  }

  function Named(m: Metadata): string {
    Assigned("public_id", m.publicId) + ", " + Assigned("name", m.name)
    + ", " + Assigned("author", m.author) + ", " + Assigned("file", m.file)
  }

  /** The line of a plugin. */
  function PluginLine(m: Metadata): string {
    "\"" + m.publicId + "\"" + " = " + ("{ id = " + Number(m.id) + ", "
      + (Named(m) + IfAny("version", m.version) + IfAny("updated_at", m.updatedAt)) + " }") + "\n"
  }

  predicate IsOrdinaryPlugin(m: Metadata) {
    && IsOrdinary(m.publicId) && IsOrdinary(m.name) && IsOrdinary(m.author) && IsOrdinary(m.file)
    && (m.version.Some? ==> IsOrdinary(m.version.value)) && (m.updatedAt.Some? ==> IsOrdinary(m.updatedAt.value))
  }

  lemma KnownIsOrdinary(key: string)
    requires Known(key)
    ensures IsOrdinary(key)
  {
    forall c <- key ensures Ordinary(c) {
      assert c == '_' || 'a' <= c <= 'z';
    }
  }

  lemma FieldText(field: Field, key: string, text: string)
    requires field == Field(key, String(text)) && Known(key) && IsOrdinary(text)
    ensures PrintedField(field) == Assigned(key, text)
  {
    KnownIsOrdinary(key);
    OrdinaryIsItself(key);
    OrdinaryIsItself(text);
  }

  lemma OptionalText(start: string, fields: seq<Field>, key: string, text: Option<string>)
    requires fields != [] && start == PrintedFields(fields)
    requires Known(key) && (text.Some? ==> IsOrdinary(text.value))
    ensures PrintedFields(fields + Optional(key, text)) == start + IfAny(key, text)
  {
    if text.Some? {
      FieldsTextMore(fields, Field(key, String(text.value)));
      FieldText(Field(key, String(text.value)), key, text.value);
      Regroup(start, ", ", Assigned(key, text.value));
    } else {
      assert fields + [] == fields;
    }
  }

  lemma OneMoreText(fields: seq<Field>, i: nat, before: string) returns (after: string)
    requires 0 < i < |fields| && before == PrintedFields(fields[..i])
    ensures after == before + ", " + PrintedField(fields[i]) == PrintedFields(fields[..i + 1])
  {
    FieldsTextMore(fields[..i], fields[i]);
    assert fields[..i] + [fields[i]] == fields[..i + 1];
    after := before + ", " + PrintedField(fields[i]);
  }

  lemma FourTexts(fields: seq<Field>)
    requires |fields| == 4
    ensures PrintedFields(fields) == PrintedField(fields[0]) + ", " + PrintedField(fields[1]) + ", "
                                     + PrintedField(fields[2]) + ", " + PrintedField(fields[3])
  {
    assert fields[..1] == [fields[0]] && PrintedFields([fields[0]]) == PrintedField(fields[0]);
    var two := OneMoreText(fields, 1, PrintedField(fields[0]));
    var three := OneMoreText(fields, 2, two);
    var four := OneMoreText(fields, 3, three);
    assert fields[..4] == fields;
  }

  lemma AlwaysText(m: Metadata)
    requires IsOrdinaryPlugin(m)
    ensures PrintedFields(AlwaysWritten(m)[1..]) == Named(m)
  {
    var fields := AlwaysWritten(m)[1..];
    FourTexts(fields);
    FieldText(fields[0], "public_id", m.publicId);
    FieldText(fields[1], "name", m.name);
    FieldText(fields[2], "author", m.author);
    FieldText(fields[3], "file", m.file);
  }

  lemma OptionalTexts(fields: seq<Field>, first: string, a: Option<string>, second: string, b: Option<string>)
    requires fields != [] && Known(first) && Known(second)
    requires (a.Some? ==> IsOrdinary(a.value)) && (b.Some? ==> IsOrdinary(b.value))
    ensures PrintedFields(fields + Optional(first, a) + Optional(second, b))
         == PrintedFields(fields) + IfAny(first, a) + IfAny(second, b)
  {
    OptionalText(PrintedFields(fields), fields, first, a);
    var more := fields + Optional(first, a);
    OptionalText(PrintedFields(more), more, second, b);
  }

  lemma OthersAre(m: Metadata)
    ensures Others(m, [])
         == AlwaysWritten(m)[1..] + Optional("version", m.version) + Optional("updated_at", m.updatedAt)
  {
    KnownParts(AlwaysWritten(m), Optional("version", m.version), Optional("updated_at", m.updatedAt));
  }

  lemma OthersText(m: Metadata)
    requires IsOrdinaryPlugin(m)
    ensures PrintedFields(Others(m, [])) == Named(m) + IfAny("version", m.version) + IfAny("updated_at", m.updatedAt)
  {
    AlwaysText(m);
    OthersAre(m);
    OptionalTexts(AlwaysWritten(m)[1..], "version", m.version, "updated_at", m.updatedAt);
  }

  lemma LineText(m: Metadata)
    requires IsOrdinaryPlugin(m)
    ensures Lines([RecordedLine(m.publicId, m, [])]) == PluginLine(m)
  {
    OrdinaryIsItself(m.publicId);
    OthersText(m);
    OneLine(RecordedLine(m.publicId, m, []));
  }

  /** Without a lockfile, a record writes this file. */
  method FirstRecordWrites(m: Metadata) returns (store: PluginStore, ok: bool)
    requires GoodMetadata(m) && Representable(m) && IsOrdinaryPlugin(m)
    ensures ok && store.contents ==
      Some("# Managed by ppm and Smashed Pumpkin.\n" + "\"version\" = 1\n" + "\n[plugins]\n" + PluginLine(m))
  {
    store := new PluginStore(None);
    FirstRecord(m);
    ok := store.Record(m, true);
    LineText(m);
    TopText();
  }

  lemma NumberField(key: string, line: Line)
    requires line == Plain(Field(key, Int(1))) && IsOrdinary(key)
    ensures line.Written() == "\"" + key + "\"" + " = " + "1"
  {
    OrdinaryIsItself(key);
    NumberIsDecimal(0, 1);
    assert Number(1) == "1";
    assert PrintedField(line.field) == Quoted(key) + " = " + Printed(Int(1));
  }

  lemma TopText()
    ensures Lines(Plainly(EMPTY.top)) == "\"version\" = 1\n"
  {
    var line := Plain(Field("version", Int(1)));
    OneLine(line);
    KnownIsOrdinary("version");
    NumberField("version", line);
    assert Plainly(EMPTY.top) == [line];
    VersionLine("\"", "version", " = ", "1", "\n");
  }

  lemma VersionLine(quote: string, key: string, equals: string, number: string, end: string)
    requires quote == "\"" && key == "version" && equals == " = " && number == "1" && end == "\n"
    ensures quote + key + quote + equals + number + end == "\"version\" = 1\n"
  {
    assert quote + key == "\"version";
    assert quote + key + quote == "\"version\"";
    assert quote + key + quote + equals == "\"version\" = ";
    assert quote + key + quote + equals + number == "\"version\" = 1";
  }

  // ----- files that are left alone -----

  /** A lockfile of another version, or with an entry that is no plugin's. */
  ghost predicate IsForeign(document: Document) {
    || Get(document.top, "version") != Some(Int(1))
    || exists entry <- document.plugins :: forall m :: !IsEntryOf(entry, m)
  }

  /** Such a file is never changed, and nothing is found in it. */
  method ForeignIsLeftAlone(document: Document, m: Metadata, from: string, to: string)
    returns (store: PluginStore, recorded: bool, renamed: bool, removed: bool, found: Option<Metadata>)
    requires document.Sound() && IsForeign(document) && Representable(m) && IsText(to)
    ensures !recorded && !renamed && !removed && found == None
    ensures store.contents == Some(LockText.Text(Plainly(document.top), Plainly(document.plugins)))
  {
    var text := LockText.Text(Plainly(document.top), Plainly(document.plugins));
    ForeignIsRefused(document, text);
    store := new PluginStore(Some(text));
    recorded := store.Record(m, true);
    renamed := store.Rename(from, to, true);
    removed := store.Remove(from, true);
    found := store.FindFile(from, None);
  }

  lemma ForeignIsRefused(document: Document, text: string)
    requires document.Sound() && IsForeign(document)
    requires text == LockText.Text(Plainly(document.top), Plainly(document.plugins))
    ensures LoadedFrom(text) == None
  {
    LinesSound(Plainly(document.top));
    LinesSound(Plainly(document.plugins));
    TextRead(Plainly(document.top), Plainly(document.plugins));
    if entry :| entry in document.plugins && forall m :: !IsEntryOf(entry, m) {
      AcceptedIsEntry(entry);
      assert !AllValid(document.plugins);
    }
  }
}
