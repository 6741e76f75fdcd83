/** The lockfile on disk (`plugin-store.c`): each operation reads it, rewrites it whole and replaces it. */
module PluginStore {
  import opened LockRules
  import opened LockSize
  import opened LockText
  import opened Lockfile
  import opened Toml
  import opened Wrappers

  /** `load_lock`, on parsed contents. */
  predicate Loadable(document: Document) {
    document.Sound() && Get(document.top, "version") == Some(Int(1)) && AllValid(document.plugins)
  }

  /** A file that is missing is taken to hold a version and no plugins. */
  const EMPTY := Document([Field("version", Int(1))], [])

  /** `load_lock`, for a file with this text. */
  function LoadedFrom(text: string): (r: Option<Document>)
    ensures r.Some? ==> Loadable(r.value)
  {
    var document := if Intact(text) then ReadDocument(text) else None;
    if document.Some? && Loadable(document.value) then document else None
  }

  // ----- soundness of what is written -----

  predicate IsOptionalText(text: Option<string>) {
    text.Some? ==> IsText(text.value)
  }

  /** C strings and a 64-bit integer. */
  predicate Representable(m: Metadata) {
    && MIN_INT64 <= m.id <= MAX_INT64
    && IsText(m.publicId) && IsText(m.name) && IsText(m.author) && IsText(m.file)
    && IsOptionalText(m.version) && IsOptionalText(m.updatedAt)
  }

  lemma {:induction false} UnknownSound(fields: seq<Field>)
    requires SoundFields(fields)
    ensures SoundFields(Unknown(fields))
    ensures forall f <- Unknown(fields) :: f in fields && !Known(f.key)
  {
    if fields != [] {
      assert forall i :: 0 <= i < |fields[1..]| ==> fields[1..][i] == fields[i + 1];
      UnknownSound(fields[1..]);
    }
  }

  lemma AlwaysSound(m: Metadata)
    requires Representable(m)
    ensures SoundFields(AlwaysWritten(m))
    ensures forall f <- AlwaysWritten(m) :: Known(f.key) && f.key != "version" && f.key != "updated_at"
  {
  }

  lemma KnownSound(m: Metadata)
    requires Representable(m)
    ensures SoundFields(KnownFields(m)) && forall f <- KnownFields(m) :: Known(f.key)
  {
    AlwaysSound(m);
    BothSound(AlwaysWritten(m), Optional("version", m.version));
    BothSound(AlwaysWritten(m) + Optional("version", m.version), Optional("updated_at", m.updatedAt));
  }

  lemma BothSound(a: seq<Field>, b: seq<Field>)
    requires SoundFields(a) && SoundFields(b) && forall f <- a, g <- b :: f.key != g.key
    ensures SoundFields(a + b)
  {
  }

  lemma EntrySound(m: Metadata, previous: seq<Field>)
    requires Representable(m) && SoundFields(previous)
    ensures Toml.Sound(Entry(m, previous))
  {
    KnownSound(m);
    UnknownSound(previous);
    BothSound(KnownFields(m), Unknown(previous));
  }

  lemma MetadataRepresentable(entry: Field)
    requires ValidEntry(entry) && Toml.Sound(entry.value)
    ensures Representable(MetadataOf(entry))
  {
    var fields := entry.value.fields;
    GetSound(fields, "id");
    GetSound(fields, "public_id");
    GetSound(fields, "name");
    GetSound(fields, "author");
    GetSound(fields, "file");
    GetSound(fields, "version");
    GetSound(fields, "updated_at");
  }

  lemma {:induction false} GetSound(fields: seq<Field>, key: string)
    requires forall f <- fields :: Toml.Sound(f.value)
    ensures Get(fields, key).Some? ==> Toml.Sound(Get(fields, key).value)
  {
    if fields != [] {
      GetSound(fields[1..], key);
    }
  }

  predicate Writable(operation: Operation) {
    match operation
    case Record(m) => GoodMetadata(m) && Representable(m)
    case Rename(_, to) => SafeFilename(to) && IsText(to)
    case Remove(_) => true
  }

  lemma ChangedSound(operation: Operation, entry: Field)
    requires Writable(operation) && ValidEntry(entry) && IsText(entry.key) && Toml.Sound(entry.value)
    ensures forall f <- Changed(operation, entry) :: IsText(f.key) && Toml.Sound(f.value)
    ensures |Changed(operation, entry)| <= 1
  {
    match operation
    case Record(m) => EntrySound(m, entry.value.fields);
    case Rename(_, to) =>
      MetadataRepresentable(entry);
      EntrySound(MetadataOf(entry).(file := to), entry.value.fields);
    case Remove(_) =>
  }

  lemma Spliced(plugins: seq<Field>, i: nat, middle: seq<Field>)
    requires SoundFields(plugins) && i < |plugins| && |middle| <= 1
    requires forall f <- middle :: IsText(f.key) && Toml.Sound(f.value)
    requires forall f <- middle, j :: 0 <= j < |plugins| && j != i ==> plugins[j].key != f.key
    ensures SoundFields(plugins[..i] + middle + plugins[i + 1..])
  {
    forall f <- plugins[..i] ensures f in plugins && forall g <- middle :: f.key != g.key {
      var j :| 0 <= j < i && plugins[..i][j] == f;
      assert plugins[j] == f;
    }
    BothSound(plugins[..i], middle);
    forall f <- plugins[..i] + middle, g <- plugins[i + 1..] ensures f.key != g.key {
      var j :| 0 <= j < |plugins| - i - 1 && plugins[i + 1..][j] == g;
      assert plugins[i + 1 + j] == g;
    }
    BothSound(plugins[..i] + middle, plugins[i + 1..]);
  }

  lemma EditSound(operation: Operation, plugins: seq<Field>, i: nat)
    requires Writable(operation) && AllValid(plugins) && SoundFields(plugins) && Allowed(operation, plugins)
    requires i < |plugins| && Matches(operation, plugins[i])
    ensures SoundFields(Edited(operation, plugins))
  {
    EditedAt(operation, plugins, i);
    ChangedSound(operation, plugins[i]);
    forall f <- Changed(operation, plugins[i]), j | 0 <= j < |plugins| && j != i ensures plugins[j].key != f.key {
      if operation.Record? {
        assert !Collides(operation, plugins[j]);
      }
    }
    Spliced(plugins, i, Changed(operation, plugins[i]));
  }

  /** The entries written after an operation are ones that a parser accepts. */
  lemma AfterSound(operation: Operation, plugins: seq<Field>)
    requires Writable(operation) && AllValid(plugins) && SoundFields(plugins) && Allowed(operation, plugins)
    ensures SoundFields(After(operation, plugins))
  {
    if Touches(operation, plugins) {
      var i :| 0 <= i < |plugins| && Matches(operation, plugins[i]);
      EditSound(operation, plugins, i);
      assert After(operation, plugins) == Edited(operation, plugins);
    } else {
      NothingEdited(operation, plugins);
      if operation.Record? {
        var m := operation.metadata;
        EntrySound(m, []);
        forall f <- plugins ensures f.key != m.publicId {
          var j :| 0 <= j < |plugins| && plugins[j] == f;
          assert !Collides(operation, plugins[j]) && !Matches(operation, plugins[j]);
        }
        BothSound(plugins, [Field(m.publicId, Entry(m, []))]);
      } else {
        assert After(operation, plugins) == plugins;
      }
    }
  }

  // ----- the file -----

  /** What `append_metadata` writes after the numeric ID. */
  function Others(m: Metadata, previous: seq<Field>): seq<Field> {
    KnownFields(m)[1..] + Unknown(previous)
  }

  function RecordedLine(key: string, m: Metadata, previous: seq<Field>): Line {
    Recorded(key, m.id, Others(m, previous))
  }

  lemma RecordedMeaning(key: string, m: Metadata, previous: seq<Field>)
    ensures RecordedLine(key, m, previous).Meaning() == Field(key, Entry(m, previous))
    ensures Others(m, previous) != []
  {
    var known := KnownFields(m);
    assert known[0] == AlwaysWritten(m)[0] && known[1] == AlwaysWritten(m)[1];
    assert [known[0]] + (known[1..] + Unknown(previous)) == known + Unknown(previous);
  }

  /** The line written for an entry, if any: copied, or with the metadata and what it does not know. */
  function LineFor(operation: Operation, entry: Field): seq<Line>
    requires ValidEntry(entry)
  {
    if !Matches(operation, entry) then [Plain(entry)] else
    match operation
    case Record(m) => [RecordedLine(m.publicId, m, entry.value.fields)]
    case Rename(_, to) => [RecordedLine(entry.key, MetadataOf(entry).(file := to), entry.value.fields)]
    case Remove(_) => []
  }

  function WrittenLines(operation: Operation, plugins: seq<Field>): seq<Line>
    requires AllValid(plugins)
  {
    if plugins == [] then [] else LineFor(operation, plugins[0]) + WrittenLines(operation, plugins[1..])
  }

  function AddedLine(operation: Operation, plugins: seq<Field>): seq<Line>
    requires AllValid(plugins)
  {
    if operation.Record? && !Touches(operation, plugins)
    then [RecordedLine(operation.metadata.publicId, operation.metadata, [])] else []
  }

  lemma LineMeaning(operation: Operation, entry: Field)
    requires ValidEntry(entry)
    ensures Meanings(LineFor(operation, entry))
         == if Matches(operation, entry) then Changed(operation, entry) else [entry]
    ensures forall line <- LineFor(operation, entry) :: line.Recorded? ==> line.others != []
  {
    match operation
    case Record(m) => RecordedMeaning(m.publicId, m, entry.value.fields);
    case Rename(_, to) => RecordedMeaning(entry.key, MetadataOf(entry).(file := to), entry.value.fields);
    case Remove(_) =>
  }

  lemma MeaningsBoth(a: seq<Line>, b: seq<Line>)
    ensures Meanings(a + b) == Meanings(a) + Meanings(b)
  {
  }

  /** The lines written stand for the edited entries. */
  lemma {:induction false} MeaningsEdited(operation: Operation, plugins: seq<Field>)
    requires AllValid(plugins)
    ensures Meanings(WrittenLines(operation, plugins)) == Edited(operation, plugins)
    ensures forall line <- WrittenLines(operation, plugins) :: line.Recorded? ==> line.others != []
  {
    if plugins != [] {
      LineMeaning(operation, plugins[0]);
      MeaningsEdited(operation, plugins[1..]);
      MeaningsBoth(LineFor(operation, plugins[0]), WrittenLines(operation, plugins[1..]));
    }
  }

  lemma MeaningsAfter(operation: Operation, plugins: seq<Field>)
    requires AllValid(plugins)
    ensures var lines := WrittenLines(operation, plugins) + AddedLine(operation, plugins);
            && Meanings(lines) == After(operation, plugins)
            && forall line <- lines :: line.Recorded? ==> line.others != []
  {
    MeaningsEdited(operation, plugins);
    MeaningsBoth(WrittenLines(operation, plugins), AddedLine(operation, plugins));
    if operation.Record? {
      RecordedMeaning(operation.metadata.publicId, operation.metadata, []);
    }
  }

  lemma LinesSound(lines: seq<Line>)
    requires SoundFields(Meanings(lines)) && forall line <- lines :: line.Recorded? ==> line.others != []
    ensures forall line <- lines :: line.Sound()
  {
    forall line <- lines ensures line.Sound() {
      var i :| 0 <= i < |lines| && lines[i] == line;
      assert Meanings(lines)[i] == line.Meaning() && Meanings(lines)[i] in Meanings(lines);
    }
  }

  lemma OneLine(line: Line)
    ensures Lines([line]) == line.Written() + "\n"
  {
    assert [line][1..] == [];
  }

  lemma {:induction false} LinesBoth(a: seq<Line>, b: seq<Line>)
    ensures Lines(a + b) == Lines(a) + Lines(b)
  {
    if a == [] {
      assert a + b == b;
    } else {
      assert (a + b)[1..] == a[1..] + b;
      LinesBoth(a[1..], b);
      Regroup(a[0].Written() + "\n", Lines(a[1..]), Lines(b));
    }
  }

  lemma TextMore(start: string, done: seq<Line>, more: seq<Line>)
    ensures start + Lines(done) + Lines(more) == start + Lines(done + more)
  {
    LinesBoth(done, more);
    Regroup(start, Lines(done), Lines(more));
  }

  lemma Longer(fields: seq<Field>, i: nat)
    requires i < |fields|
    ensures fields[..i] + [fields[i]] == fields[..i + 1]
  {
  }

  lemma Longest(fields: seq<Field>)
    ensures fields[..|fields|] == fields
  {
  }

  lemma TouchesMore(operation: Operation, plugins: seq<Field>, entry: Field)
    requires AllValid(plugins) && ValidEntry(entry)
    ensures AllValid(plugins + [entry])
    ensures Touches(operation, plugins + [entry]) == (Touches(operation, plugins) || Matches(operation, entry))
  {
    var all := plugins + [entry];
    assert all[|plugins|] == entry;
    if Touches(operation, plugins) {
      var i :| 0 <= i < |plugins| && Matches(operation, plugins[i]);
      assert Matches(operation, all[i]);
    }
  }

  lemma UniqueMore(operation: Operation, plugins: seq<Field>, entry: Field)
    requires AllValid(plugins) && AllValid(plugins + [entry]) && ValidEntry(entry)
    ensures Unique(operation, plugins + [entry])
         == (Unique(operation, plugins) && !(Matches(operation, entry) && Touches(operation, plugins)))
  {
    var all := plugins + [entry];
    assert all[|plugins|] == entry;
    if Unique(operation, all) {
      forall i, j | 0 <= i < j < |plugins|
        ensures !(Matches(operation, plugins[i]) && Matches(operation, plugins[j]))
      {
        assert !(Matches(operation, all[i]) && Matches(operation, all[j]));
      }
      forall i | 0 <= i < |plugins| ensures !(Matches(operation, plugins[i]) && Matches(operation, entry)) {
        assert !(Matches(operation, all[i]) && Matches(operation, all[|plugins|]));
      }
    }
  }

  lemma AllowedMore(operation: Operation, plugins: seq<Field>, entry: Field)
    requires AllValid(plugins) && AllValid(plugins + [entry]) && ValidEntry(entry)
    ensures Allowed(operation, plugins + [entry])
         == (Allowed(operation, plugins) && !(Matches(operation, entry) && Touches(operation, plugins))
             && !Collides(operation, entry))
  {
    UniqueMore(operation, plugins, entry);
    var all := plugins + [entry];
    assert all[|plugins|] == entry && forall i :: 0 <= i < |plugins| ==> all[i] == plugins[i];
  }

  lemma RefusedEarly(operation: Operation, plugins: seq<Field>, n: nat)
    requires AllValid(plugins) && n <= |plugins| && !Allowed(operation, plugins[..n])
    ensures !Allowed(operation, plugins)
  {
    assert forall i :: 0 <= i < n ==> plugins[..n][i] == plugins[i];
  }

  /** What the plugin at `i` adds to those before it. */
  lemma OneMorePlugin(operation: Operation, plugins: seq<Field>, i: nat, start: string)
    requires AllValid(plugins) && i < |plugins|
    ensures AllValid(plugins[..i]) && AllValid(plugins[..i + 1])
    ensures Touches(operation, plugins[..i + 1]) == (Touches(operation, plugins[..i]) || Matches(operation, plugins[i]))
    ensures Allowed(operation, plugins[..i + 1])
         == (Allowed(operation, plugins[..i]) && !(Matches(operation, plugins[i]) && Touches(operation, plugins[..i]))
             && !Collides(operation, plugins[i]))
    ensures start + Lines(WrittenLines(operation, plugins[..i])) + Lines(LineFor(operation, plugins[i]))
         == start + Lines(WrittenLines(operation, plugins[..i + 1]))
  {
    Longer(plugins, i);
    TouchesMore(operation, plugins[..i], plugins[i]);
    AllowedMore(operation, plugins[..i], plugins[i]);
    WrittenMore(operation, plugins[..i], plugins[i]);
    TextMore(start, WrittenLines(operation, plugins[..i]), LineFor(operation, plugins[i]));
  }

  lemma Reassociate(a: seq<Line>, b: seq<Line>, c: seq<Line>)
    ensures a + (b + c) == a + b + c
  {
  }

  lemma {:induction false} WrittenMore(operation: Operation, plugins: seq<Field>, entry: Field)
    requires AllValid(plugins + [entry])
    ensures AllValid(plugins) && ValidEntry(entry)
    ensures WrittenLines(operation, plugins + [entry]) == WrittenLines(operation, plugins) + LineFor(operation, entry)
  {
    var all := plugins + [entry];
    assert forall i :: 0 <= i < |plugins| ==> all[i] == plugins[i];
    assert all[|plugins|] == entry;
    if plugins == [] {
      assert all == [entry];
      assert WrittenLines(operation, [entry][1..]) == [];
    } else {
      assert all[1..] == plugins[1..] + [entry];
      assert forall i :: 0 <= i < |plugins| ==> all[1..][i] == all[i + 1];
      WrittenMore(operation, plugins[1..], entry);
      Reassociate(LineFor(operation, plugins[0]), WrittenLines(operation, plugins[1..]), LineFor(operation, entry));
    }
  }

  lemma {:induction false} UnknownMore(fields: seq<Field>, field: Field)
    ensures Unknown(fields + [field]) == Unknown(fields) + if Known(field.key) then [] else [field]
  {
    if fields == [] {
      assert fields + [field] == [field] && Unknown([field][1..]) == [];
    } else {
      assert (fields + [field])[1..] == fields[1..] + [field];
      UnknownMore(fields[1..], field);
    }
  }

  /** The file, which may be missing. */
  class PluginStore {
    var contents: Option<string>

    constructor (contents: Option<string>)
      ensures this.contents == contents
    {
      this.contents := contents;
    }

    function Loaded(): Option<Document>
      reads this
    {
      if contents.None? then Some(EMPTY) else LoadedFrom(contents.value)
    }

    /** A further field of an entry, after a comma. */
    method AppendNext(output: Output, ghost start: string, ghost done: seq<Field>, field: Field)
      requires done != [] && output.text == start + PrintedFields(done)
      modifies output
      ensures output.text == start + PrintedFields(done + [field])
    {
      output.Append(", ");
      output.AppendField(field);
      FieldsTextMore(done, field);
      Regroup(start, PrintedFields(done), ", ");
      Regroup(start, PrintedFields(done) + ", ", PrintedField(field));
    }

    /** The fields of `append_metadata` that are always written, after the numeric ID. */
    method AppendAlways(output: Output, m: Metadata, ghost start: string)
      requires output.text == start
      modifies output
      ensures output.text == start + PrintedFields(AlwaysWritten(m)[1..])
    {
      var fields := AlwaysWritten(m);
      output.AppendField(fields[1]);
      assert PrintedFields([fields[1]]) == PrintedField(fields[1]);
      AppendNext(output, start, [fields[1]], fields[2]);
      AppendNext(output, start, [fields[1]] + [fields[2]], fields[3]);
      AppendNext(output, start, [fields[1]] + [fields[2]] + [fields[3]], fields[4]);
      FourFields(fields);
    }

    method AppendOptional(output: Output, ghost start: string, ghost done: seq<Field>, key: string,
                          text: Option<string>)
      requires done != [] && output.text == start + PrintedFields(done)
      modifies output
      ensures output.text == start + PrintedFields(done + Optional(key, text))
    {
      if text.Some? {
        AppendNext(output, start, done, Field(key, String(text.value)));
      } else {
        assert done + Optional(key, text) == done;
      }
    }

    /** The fields of `append_metadata` that the metadata knows. */
    method AppendKnown(output: Output, m: Metadata, ghost start: string)
      requires output.text == start
      modifies output
      ensures output.text == start + PrintedFields(KnownFields(m)[1..])
    {
      AppendAlways(output, m, start);
      ghost var always := AlwaysWritten(m)[1..];
      AppendOptional(output, start, always, "version", m.version);
      AppendOptional(output, start, always + Optional("version", m.version), "updated_at", m.updatedAt);
      KnownParts(AlwaysWritten(m), Optional("version", m.version), Optional("updated_at", m.updatedAt));
    }

    /** The loop of `append_metadata` over the previous entry. */
    method AppendUnknown(output: Output, previous: seq<Field>, ghost start: string, ghost known: seq<Field>)
      requires known != [] && output.text == start + PrintedFields(known)
      modifies output
      ensures output.text == start + PrintedFields(known + Unknown(previous))
    {
      assert known + Unknown(previous[..0]) == known;
      for i := 0 to |previous|
        invariant output.text == start + PrintedFields(known + Unknown(previous[..i]))
      {
        Longer(previous, i);
        UnknownMore(previous[..i], previous[i]);
        if !Known(previous[i].key) {
          AppendNext(output, start, known + Unknown(previous[..i]), previous[i]);
          assert known + Unknown(previous[..i]) + [previous[i]] == known + Unknown(previous[..i + 1]);
        } else {
          assert Unknown(previous[..i + 1]) == Unknown(previous[..i]);
        }
      }
      Longest(previous);
    }

    /** `append_metadata` */
    method AppendMetadata(output: Output, m: Metadata, previous: seq<Field>)
      modifies output
      ensures output.text == old(output.text) + RecordedText(m.id, Others(m, previous))
    {
      output.Append("{ id = ");
      output.Append(Number(m.id));
      output.Append(", ");
      ghost var start := output.text;
      RecordedMeaning("", m, previous);
      AppendKnown(output, m, start);
      AppendUnknown(output, previous, start, KnownFields(m)[1..]);
      output.Append(" }");
      EntryParts(old(output.text), Number(m.id), PrintedFields(Others(m, previous)));
    }

    /** A key and an entry made of metadata, on a line. */
    method AppendRecorded(output: Output, key: string, m: Metadata, previous: seq<Field>)
      modifies output
      ensures output.text == old(output.text) + (RecordedLine(key, m, previous).Written() + "\n")
    {
      output.AppendString(key);
      output.Append(" = ");
      AppendMetadata(output, m, previous);
      output.Append("\n");
      LineParts(old(output.text), Quoted(key), RecordedText(m.id, Others(m, previous)));
    }

    /** A key and a value copied, on a line. */
    method AppendPlain(output: Output, field: Field)
      modifies output
      ensures output.text == old(output.text) + (Plain(field).Written() + "\n")
    {
      output.AppendField(field);
      output.Append("\n");
    }

    /** The loop over the plugins: what is written of each, or a refusal. */
    method AppendPlugins(output: Output, operation: Operation, plugins: seq<Field>)
      returns (ok: bool, changed: bool)
      requires AllValid(plugins)
      modifies output
      ensures ok == Allowed(operation, plugins)
      ensures ok ==> changed == Touches(operation, plugins)
                     && output.text == old(output.text) + Lines(WrittenLines(operation, plugins))
    {
      changed, ok := false, true;
      for i := 0 to |plugins|
        invariant ok && Allowed(operation, plugins[..i]) && changed == Touches(operation, plugins[..i])
        invariant output.text == old(output.text) + Lines(WrittenLines(operation, plugins[..i]))
      {
        OneMorePlugin(operation, plugins, i, old(output.text));
        ok, changed := AppendPlugin(output, operation, plugins[i], changed);
        if !ok {
          RefusedEarly(operation, plugins, i + 1);
          return;
        }
      }
      Longest(plugins);
    }

    /** The loop body. */
    method AppendPlugin(output: Output, operation: Operation, entry: Field, changed: bool)
      returns (ok: bool, nowChanged: bool)
      requires ValidEntry(entry)
      modifies output
      ensures ok == !((Matches(operation, entry) && changed) || Collides(operation, entry))
      ensures nowChanged == (changed || Matches(operation, entry))
      ensures ok ==> output.text == old(output.text) + Lines(LineFor(operation, entry))
    {
      var matches := Matches(operation, entry);
      ok, nowChanged := true, changed || matches;
      if matches && changed {
        return false, nowChanged;
      }
      if matches {
        match operation
        case Record(m) =>
          OneLine(RecordedLine(m.publicId, m, entry.value.fields));
          AppendRecorded(output, m.publicId, m, entry.value.fields);
        case Rename(_, to) =>
          OneLine(RecordedLine(entry.key, MetadataOf(entry).(file := to), entry.value.fields));
          AppendRecorded(output, entry.key, MetadataOf(entry).(file := to), entry.value.fields);
        case Remove(_) =>
      } else if Collides(operation, entry) {
        ok := false;
      } else {
        OneLine(Plain(entry));
        AppendPlain(output, entry);
      }
    }

    /**
     `modify_lock`, where `writable` says whether the file can be replaced. The check of the text that was built never
     fails, and the file it becomes is read as the document after the operation unless it is oversized.
     */
    method Modify(operation: Operation, writable: bool) returns (ok: bool)
      requires Writable(operation)
      modifies this
      ensures ok == old(Accepts(operation) && (Writes(operation) ==> writable))
      ensures ok && old(Writes(operation)) ==> Loaded() == old(Outcome(operation))
      ensures ok && old(Writes(operation)) ==> contents == Some(WrittenBy(operation, old(Loaded()).value))
      ensures !ok || !old(Writes(operation)) ==> contents == old(contents)
    {
      var lock := Loaded();
      if lock.None? {
        return false;
      }
      if contents.None? && !operation.Record? {
        return true;
      }
      var changed, text;
      ok, changed, text := Build(operation, lock.value);
      if ok && changed {
        if ReadDocument(text).None? || !writable {
          return false;
        }
        contents := Some(text);
      }
    }

    ghost predicate Accepts(operation: Operation)
      reads this
    {
      Loaded().Some? && Allowed(operation, Loaded().value.plugins)
    }

    /** What is loaded once the text of an operation is in the file: nothing, if that is more than the limit. */
    ghost function Outcome(operation: Operation): (r: Option<Document>)
      requires Accepts(operation)
      reads this
    {
      Afterwards(operation, Loaded().value)
    }

    /** The text of the file after an operation. */
    method Build(operation: Operation, document: Document) returns (ok: bool, changed: bool, text: string)
      requires Writable(operation) && Loadable(document)
      ensures ok == Allowed(operation, document.plugins)
      ensures ok ==> changed == (operation.Record? || Touches(operation, document.plugins))
      ensures ok ==> ReadDocument(text).Some? && LoadedFrom(text) == Afterwards(operation, document)
      ensures ok ==> text == WrittenBy(operation, document)
    {
      var output := new Output(BANNER);
      AppendTop(output, document.top);
      output.Append("\n[plugins]\n");
      ok, changed := AppendPlugins(output, operation, document.plugins);
      if ok && operation.Record? && !changed {
        AppendRecorded(output, operation.metadata.publicId, operation.metadata, []);
        OneLine(RecordedLine(operation.metadata.publicId, operation.metadata, []));
        changed := true;
      }
      text := output.text;
      if ok {
        WrittenLoads(operation, document, text);
      }
    }

    /** The rules hold of the file. */
    predicate Ordered()
      reads this
    {
      Loaded().Some? && WellFormed(Loaded().value.plugins)
    }

    /** `pumpkin_plugin_store_record` */
    method Record(m: Metadata, writable: bool) returns (ok: bool)
      requires Representable(m)
      modifies this
      ensures ok == (GoodMetadata(m) && old(Accepts(Operation.Record(m))) && writable)
      ensures ok ==> Loaded() == old(Outcome(Operation.Record(m)))
      ensures ok ==> contents == Some(WrittenBy(Operation.Record(m), old(Loaded()).value))
      ensures !ok ==> contents == old(contents)
      ensures old(Ordered()) ==> (Ordered() <==> !ok || old(Fits(Operation.Record(m), Loaded().value)))
      ensures ok && old(Ordered()) ==>
                forall file | SameFile(m.file, file) ::
                  LookupIn(file) == if Ordered() then Some(m.(file := file)) else None
    {
      if !GoodMetadata(m) {
        return false;
      }
      ok := Modify(Operation.Record(m), writable);
      if ok && old(Ordered()) && old(Fits(Operation.Record(m), Loaded().value)) {
        RecordKeeps(old(Loaded()).value.plugins, m);
        forall file | SameFile(m.file, file) ensures LookupIn(file) == Some(m.(file := file)) {
          LookupAfterRecord(old(Loaded()).value.plugins, m, file);
        }
      }
    }

    function LookupIn(file: string): Option<Metadata>
      reads this
    {
      if Loaded().Some? then Lookup(Loaded().value.plugins, file) else None
    }

    /** `pumpkin_plugin_store_rename`; the rules survive unless another plugin has the new name. */
    method Rename(from: string, to: string, writable: bool) returns (ok: bool)
      requires IsText(to)
      modifies this
      ensures ok == (SafeFilename(from) && SafeFilename(to) && old(Accepts(Operation.Rename(from, to)))
                     && (old(Writes(Operation.Rename(from, to))) ==> writable))
      ensures ok && old(Writes(Operation.Rename(from, to))) ==> Loaded() == old(Outcome(Operation.Rename(from, to)))
      ensures !ok || !old(Writes(Operation.Rename(from, to))) ==> contents == old(contents)
      ensures old(Ordered()) && SameFile(from, to) ==> (Ordered() <==>
                !ok || !old(Writes(Operation.Rename(from, to)) && !Fits(Operation.Rename(from, to), Loaded().value)))
    {
      if !SafeFilename(from) || !SafeFilename(to) {
        return false;
      }
      ok := Modify(Operation.Rename(from, to), writable);
      if old(Ordered()) && SameFile(from, to) {
        SameNameKeeps(old(Loaded()).value.plugins, from, to);
      }
    }

    /** `pumpkin_plugin_store_remove` */
    method Remove(file: string, writable: bool) returns (ok: bool)
      modifies this
      ensures ok == old(Accepts(Operation.Remove(file)) && (Writes(Operation.Remove(file)) ==> writable))
      ensures ok && old(Writes(Operation.Remove(file))) ==> Loaded() == old(Outcome(Operation.Remove(file)))
      ensures !ok || !old(Writes(Operation.Remove(file))) ==> contents == old(contents)
      ensures old(Ordered()) && (!old(Writes(Operation.Remove(file))) || writable) ==> ok && LookupIn(file) == None
      ensures old(Ordered()) ==> (Ordered() <==>
                !ok || !old(Writes(Operation.Remove(file)) && !Fits(Operation.Remove(file), Loaded().value)))
    {
      ok := Modify(Operation.Remove(file), writable);
      if old(Ordered()) {
        RemoveKeeps(old(Loaded()).value.plugins, file);
        if Loaded().Some? && ok {
          LookupNone(Loaded().value.plugins, file);
        }
      }
    }

    /** `lookup_with_lock`, where `sidecar` is what the key file beside the plugin says, if it can be read. */
    method FindFile(file: string, sidecar: Option<Metadata>) returns (r: Option<Metadata>)
      ensures r.Some? <==> LookupIn(file).Some? || sidecar.Some?
      ensures r.Some? ==> r.value == if LookupIn(file).Some? then LookupIn(file).value
                                     else sidecar.value.(file := file, updatedAt := None)
    {
      var lock := Loaded();
      if lock.Some? {
        var plugins := lock.value.plugins;
        for i := 0 to |plugins|
          invariant Lookup(plugins, file) == Lookup(plugins[i..], file)
        {
          if Matches(Operation.Remove(file), plugins[i]) {
            return Some(MetadataOf(plugins[i]).(file := file));
          }
          assert plugins[i..][1..] == plugins[i + 1..];
        }
      }
      if sidecar.None? {
        return None;
      }
      r := Some(sidecar.value.(file := file, updatedAt := None));
    }

    ghost predicate Writes(operation: Operation)
      reads this
    {
      Loaded().Some? && (operation.Record? || Touches(operation, Loaded().value.plugins))
    }

    method AppendTop(output: Output, top: seq<Field>)
      modifies output
      ensures output.text == old(output.text) + Lines(Plainly(top))
    {
      for i := 0 to |top|
        invariant output.text == old(output.text) + Lines(Plainly(top)[..i])
      {
        AppendPlain(output, top[i]);
        OneLine(Plain(top[i]));
        TextMore(old(output.text), Plainly(top)[..i], [Plain(top[i])]);
        assert Plainly(top)[..i] + [Plain(top[i])] == Plainly(top)[..i + 1];
      }
      assert Plainly(top)[..|top|] == Plainly(top);
    }
  }

  // ----- one plugin renamed onto another -----

  predicate TwoPlugins(a: Metadata, b: Metadata) {
    && GoodMetadata(a) && GoodMetadata(b) && Representable(a) && Representable(b)
    && a.publicId != b.publicId && !SameFile(a.file, b.file)
  }

  method RecordBoth(a: Metadata, b: Metadata) returns (store: PluginStore, first: bool, second: bool)
    requires TwoPlugins(a, b)
    ensures fresh(store) && first && second == FirstFits(a, b)
    ensures store.Loaded() == if second && BothFit(a, b) then Some(EMPTY.(plugins := Both(a, b))) else None
  {
    store := new PluginStore(None);
    TwoRecorded(a, b);
    first := store.Record(a, true);
    second := store.Record(b, true);
  }

  /** A plugin of a name beyond the limit is recorded, and then neither found nor recorded again. */
  method OversizedIsLost(m: Metadata) returns (recorded: bool, found: Option<Metadata>, again: bool)
    requires GoodMetadata(m) && Representable(m) && |m.name| > LIMIT
    ensures recorded && found == None && !again
  {
    var store := new PluginStore(None);
    LongNameDoesNotFit(m);
    recorded := store.Record(m, true);
    found := store.FindFile(m.file, None);
    again := store.Record(m, true);
  }

  lemma LongNameDoesNotFit(m: Metadata)
    requires GoodMetadata(m) && |m.name| > LIMIT
    ensures AllValid([]) && Allowed(Operation.Record(m), []) && !Fits(Operation.Record(m), EMPTY)
  {
    NameIsSecond(m);
    LongEntryDoesNotFit(Plainly(EMPTY.top), RecordedLine(m.publicId, m, []), 1);
    FirstRecord(m);
  }

  lemma FirstRecord(m: Metadata)
    ensures AllValid([]) && Allowed(Operation.Record(m), [])
    ensures WrittenLines(Operation.Record(m), []) + AddedLine(Operation.Record(m), [])
         == [RecordedLine(m.publicId, m, [])]
  {
  }

  lemma NameIsSecond(m: Metadata)
    ensures |Others(m, [])| > 1 && Others(m, [])[1] == Field("name", String(m.name))
  {
    assert Others(m, [])[1] == KnownFields(m)[2] == AlwaysWritten(m)[2];
  }

  /** Such a name exists. */
  lemma SuchLongName()
    ensures var m := Metadata(1, "a", seq(LIMIT + 1, (i: nat) => 'A'), "x", "a.wasm", None, None);
            GoodMetadata(m) && Representable(m) && |m.name| > LIMIT
  {
  }

  /**
   From no lockfile at all: any two plugins are recorded and the second is renamed onto the first, which nothing
   refuses; then the file cannot be removed, since two entries have its name. A lockfile that has become oversized
   refuses everything.
   */
  method RenameOntoAnother(a: Metadata, b: Metadata)
    returns (first: bool, second: bool, renamed: bool, removed: bool)
    requires TwoPlugins(a, b)
    ensures first && !removed && second == FirstFits(a, b) && renamed == (FirstFits(a, b) && BothFit(a, b))
  {
    var store;
    store, first, second := RecordBoth(a, b);
    RenamedOnto(a, b);
    renamed := store.Rename(b.file, a.file, true);
    removed := store.Remove(a.file, true);
  }

  predicate FirstFits(a: Metadata, b: Metadata)
    requires TwoPlugins(a, b)
  {
    TwoRecorded(a, b);
    Fits(Operation.Record(a), EMPTY)
  }

  predicate BothFit(a: Metadata, b: Metadata)
    requires TwoPlugins(a, b)
  {
    TwoRecorded(a, b);
    Fits(Operation.Record(b), EMPTY.(plugins := Both(a, b)[..1]))
  }

  function Both(a: Metadata, b: Metadata): seq<Field> {
    [Field(a.publicId, Entry(a, [])), Field(b.publicId, Entry(b, []))]
  }

  lemma BothValid(a: Metadata, b: Metadata)
    requires TwoPlugins(a, b)
    ensures WellFormed([]) && WellFormed(Both(a, b)[..1]) && WellFormed(Both(a, b))
    ensures MetadataOf(Both(a, b)[0]) == a && MetadataOf(Both(a, b)[1]) == b
  {
    EntryReads(a, []);
    EntryReads(b, []);
  }

  lemma TwoRecorded(a: Metadata, b: Metadata)
    requires TwoPlugins(a, b)
    ensures AllValid([]) && Allowed(Operation.Record(a), []) && After(Operation.Record(a), []) == Both(a, b)[..1]
    ensures AllValid(Both(a, b)[..1]) && Allowed(Operation.Record(b), Both(a, b)[..1])
    ensures After(Operation.Record(b), Both(a, b)[..1]) == Both(a, b)
  {
    BothValid(a, b);
    var one := Both(a, b)[..1];
    RecordAllowed(one, b);
    RecordMatches(one[0], b);
    assert !Touches(Operation.Record(b), one);
    NothingEdited(Operation.Record(b), one);
  }

  lemma RenamedOnto(a: Metadata, b: Metadata)
    requires TwoPlugins(a, b)
    ensures AllValid(Both(a, b)) && Allowed(Operation.Rename(b.file, a.file), Both(a, b))
    ensures Touches(Operation.Rename(b.file, a.file), Both(a, b))
    ensures var after := After(Operation.Rename(b.file, a.file), Both(a, b));
            AllValid(after) && !Allowed(Operation.Remove(a.file), after)
  {
    BothValid(a, b);
    assert Matches(Operation.Rename(b.file, a.file), Both(a, b)[1]);
    RenameBlocks(Both(a, b), b.file, a.file, 1, 0, a.file);
  }

  lemma SuchPlugins()
    ensures var a := Metadata(1, "a", "A", "x", "a.wasm", None, None);
            var b := Metadata(2, "b", "B", "x", "b.wasm", None, None);
            TwoPlugins(a, b) && FirstFits(a, b) && BothFit(a, b)
  {
    ShortFit(Metadata(1, "a", "A", "x", "a.wasm", None, None), Metadata(2, "b", "B", "x", "b.wasm", None, None));
  }

  predicate IsShortMetadata(m: Metadata) {
    && 0 <= m.id <= 1000 && |m.publicId| <= 1000 && |m.name| <= 1000 && |m.author| <= 1000 && |m.file| <= 1000
    && (m.version.Some? ==> |m.version.value| <= 1000) && (m.updatedAt.Some? ==> |m.updatedAt.value| <= 1000)
  }

  lemma ShortEntry(m: Metadata)
    requires IsShortMetadata(m) && GoodMetadata(m)
    ensures IsShortLine(RecordedLine(m.publicId, m, [])) && IsShortLine(Plain(Field(m.publicId, Entry(m, []))))
  {
    RecordedMeaning(m.publicId, m, []);
    assert Entry(m, []).fields == KnownFields(m);
  }

  /** Two plugins whose texts are short fit. */
  lemma ShortFit(a: Metadata, b: Metadata)
    requires TwoPlugins(a, b) && IsShortMetadata(a) && IsShortMetadata(b)
    ensures FirstFits(a, b) && BothFit(a, b)
  {
    ShortEntry(a);
    ShortEntry(b);
    var first, second := [RecordedLine(a.publicId, a, [])], [Plain(Both(a, b)[0]), RecordedLine(b.publicId, b, [])];
    assert forall line <- first :: IsShortLine(line);
    assert forall line <- second :: IsShortLine(line);
    FourLinesFit(first);
    FourLinesFit(second);
    TwoRecordedLines(a, b);
  }

  /** The lines that the two records write. */
  lemma TwoRecordedLines(a: Metadata, b: Metadata)
    requires TwoPlugins(a, b)
    ensures WrittenLines(Operation.Record(a), []) + AddedLine(Operation.Record(a), [])
         == [RecordedLine(a.publicId, a, [])]
    ensures AllValid(Both(a, b)[..1])
    ensures WrittenLines(Operation.Record(b), Both(a, b)[..1]) + AddedLine(Operation.Record(b), Both(a, b)[..1])
         == [Plain(Both(a, b)[0]), RecordedLine(b.publicId, b, [])]
  {
    TwoRecorded(a, b);
    var one := Both(a, b)[..1];
    RecordMatches(one[0], b);
    assert one[1..] == [];
  }

  lemma KnownParts(a: seq<Field>, b: seq<Field>, c: seq<Field>)
    requires a != []
    ensures a[1..] + b + c == (a + b + c)[1..]
  {
  }

  lemma FourFields(fields: seq<Field>)
    requires |fields| == 5
    ensures [fields[1]] + [fields[2]] + [fields[3]] + [fields[4]] == fields[1..]
  {
  }

  lemma EntryParts(start: string, id: string, others: string)
    ensures start + "{ id = " + id + ", " + others + " }" == start + ("{ id = " + id + ", " + others + " }")
  {
  }

  lemma LineParts(start: string, key: string, value: string)
    ensures start + key + " = " + value + "\n" == start + (key + " = " + value + "\n")
  {
  }

  /** The text of the file that an operation writes. */
  function WrittenBy(operation: Operation, document: Document): string
    requires AllValid(document.plugins)
  {
    Text(Plainly(document.top), WrittenLines(operation, document.plugins) + AddedLine(operation, document.plugins))
  }

  /** That text can be loaded again. */
  predicate Fits(operation: Operation, document: Document)
    requires AllValid(document.plugins)
  {
    Utf8Size(WrittenBy(operation, document)) <= LIMIT
  }

  ghost function Afterwards(operation: Operation, document: Document): Option<Document>
    requires AllValid(document.plugins)
  {
    if Fits(operation, document) then Some(document.(plugins := After(operation, document.plugins))) else None
  }

  /** The text built is that of the lines after the operation, and a parser reads it as the document after it. */
  lemma WrittenText(operation: Operation, document: Document, text: string)
    requires Loadable(document) && Writable(operation) && Allowed(operation, document.plugins)
    requires text == BANNER + Lines(Plainly(document.top)) + "\n[plugins]\n"
                     + Lines(WrittenLines(operation, document.plugins)) + Lines(AddedLine(operation, document.plugins))
    ensures var after := document.(plugins := After(operation, document.plugins));
            ReadDocument(text) == Some(after) && Loadable(after)
    ensures text == WrittenBy(operation, document) && IsText(text)
  {
    var top, plugins := Plainly(document.top), document.plugins;
    var lines := WrittenLines(operation, plugins) + AddedLine(operation, plugins);
    TextMore(BANNER + Lines(top) + "\n[plugins]\n", WrittenLines(operation, plugins), AddedLine(operation, plugins));
    AfterSound(operation, plugins);
    AfterValid(operation, plugins);
    MeaningsAfter(operation, plugins);
    LinesSound(lines);
    LinesSound(top);
    TextRead(top, lines);
    TextClean(top, lines);
  }

  lemma WrittenLoads(operation: Operation, document: Document, text: string)
    requires Loadable(document) && Writable(operation) && Allowed(operation, document.plugins)
    requires text == BANNER + Lines(Plainly(document.top)) + "\n[plugins]\n"
                     + Lines(WrittenLines(operation, document.plugins)) + Lines(AddedLine(operation, document.plugins))
    ensures ReadDocument(text).Some? && LoadedFrom(text) == Afterwards(operation, document)
    ensures text == WrittenBy(operation, document)
  {
    WrittenText(operation, document, text);
  }

  lemma ChangedValid(operation: Operation, entry: Field)
    requires Writable(operation) && ValidEntry(entry)
    ensures AllValid(Changed(operation, entry))
  {
    match operation
    case Record(m) => EntryReads(m, entry.value.fields);
    case Rename(from, to) => RenamedEntry(entry, from, to);
    case Remove(_) =>
  }

  lemma SplicedValid(plugins: seq<Field>, i: nat, middle: seq<Field>)
    requires AllValid(plugins) && i < |plugins| && AllValid(middle) && |middle| <= 1
    ensures AllValid(plugins[..i] + middle + plugins[i + 1..])
  {
    var after := plugins[..i] + middle + plugins[i + 1..];
    forall k | 0 <= k < |after| ensures ValidEntry(after[k]) {
      if k < i {
        assert after[k] == plugins[k];
      } else if k < i + |middle| {
        assert after[k] == middle[k - i];
      } else {
        assert after[k] == plugins[k - |middle| + 1];
      }
    }
  }

  lemma AfterValid(operation: Operation, plugins: seq<Field>)
    requires Writable(operation) && AllValid(plugins) && Allowed(operation, plugins)
    ensures AllValid(After(operation, plugins))
  {
    if Touches(operation, plugins) {
      var i :| 0 <= i < |plugins| && Matches(operation, plugins[i]);
      EditedAt(operation, plugins, i);
      ChangedValid(operation, plugins[i]);
      SplicedValid(plugins, i, Changed(operation, plugins[i]));
      assert After(operation, plugins) == Edited(operation, plugins);
    } else {
      NothingEdited(operation, plugins);
      if operation.Record? {
        EntryReads(operation.metadata, []);
      }
    }
  }
}
