/**
 The plugin lockfile (`plugin-store.c`): recording, renaming and removing a plugin rewrite the whole file,
 and must keep every other entry and every field they do not know.
 */
module Lockfile {
  import opened LockText
  import opened Toml
  import opened Wrappers

  // ----- entries -----

  datatype Metadata = Metadata(id: int, publicId: string, name: string, author: string, file: string,
                               version: Option<string>, updatedAt: Option<string>)

  /** `toml_get` */
  function Get(fields: seq<Field>, key: string): Option<Value> {
    if fields == [] then None
    else if fields[0].key == key then Some(fields[0].value)
    else Get(fields[1..], key)
  }

  /** `table_string` */
  function GetString(fields: seq<Field>, key: string): Option<string> {
    var value := Get(fields, key);
    if value.Some? && value.value.String? then Some(value.value.text) else None
  }

  function Without(s: string, suffix: string): Option<string> {
    if |s| >= |suffix| && s[|s| - |suffix|..] == suffix then Some(s[..|s| - |suffix|]) else None
  }

  /** `active_filename` */
  function ActiveName(file: string): string {
    var deactivated, disabled := Without(file, ".deactivated"), Without(file, ".disabled");
    if deactivated.Some? then deactivated.value
    else if disabled.Some? then disabled.value
    else file
  }

  predicate SameFile(left: string, right: string) {
    ActiveName(left) == ActiveName(right)
  }

  predicate SafeFilename(file: string) {
    file != "" && file != "." && file != ".." && '/' !in file && '\\' !in file && ':' !in file
  }

  predicate StringOrNone(fields: seq<Field>, key: string) {
    Get(fields, key).None? || GetString(fields, key).Some?
  }

  /** `valid_entry` */
  predicate ValidEntry(entry: Field) {
    && entry.value.Table?
    && var fields := entry.value.fields;
    && var id := Get(fields, "id");
    && id.Some? && id.value.Int? && id.value.number > 0
    && entry.key != "" && GetString(fields, "public_id") == Some(entry.key)
    && GetString(fields, "file").Some? && SafeFilename(GetString(fields, "file").value)
    && GetString(fields, "name").Some? && GetString(fields, "author").Some?
    && StringOrNone(fields, "version") && StringOrNone(fields, "updated_at")
  }

  /** `metadata_from_table`, on a valid entry */
  function MetadataOf(entry: Field): Metadata
    requires ValidEntry(entry)
  {
    var fields := entry.value.fields;
    Metadata(Get(fields, "id").value.number, GetString(fields, "public_id").value, GetString(fields, "name").value,
             GetString(fields, "author").value, GetString(fields, "file").value,
             GetString(fields, "version"), GetString(fields, "updated_at"))
  }

  predicate Known(key: string) {
    key == "id" || key == "public_id" || key == "name" || key == "author" || key == "file" || key == "version"
    || key == "updated_at"
  }

  function Unknown(fields: seq<Field>): seq<Field> {
    if fields == [] then []
    else (if Known(fields[0].key) then [] else [fields[0]]) + Unknown(fields[1..])
  }

  function Optional(key: string, text: Option<string>): seq<Field> {
    if text.Some? then [Field(key, String(text.value))] else []
  }

  function AlwaysWritten(m: Metadata): seq<Field> {
    [Field("id", Int(m.id)), Field("public_id", String(m.publicId)), Field("name", String(m.name)),
     Field("author", String(m.author)), Field("file", String(m.file))]
  }

  function KnownFields(m: Metadata): seq<Field> {
    AlwaysWritten(m) + Optional("version", m.version) + Optional("updated_at", m.updatedAt)
  }

  /** What `append_metadata` writes: the metadata, then the fields of the previous entry that it does not know. */
  function Entry(m: Metadata, previous: seq<Field>): Value {
    Table(KnownFields(m) + Unknown(previous))
  }

  // ----- operations -----

  datatype Operation = Record(metadata: Metadata) | Rename(from: string, to: string) | Remove(file: string)

  /** `identity_matches` */
  predicate SameIdentity(existing: Metadata, id: int, publicId: string) {
    if publicId != "" && existing.publicId != "" then publicId == existing.publicId
    else id > 0 && existing.id == id
  }

  predicate Matches(operation: Operation, entry: Field)
    requires ValidEntry(entry)
  {
    match operation
    case Record(m) => SameIdentity(MetadataOf(entry), m.id, m.publicId)
    case Rename(from, _) => SameFile(MetadataOf(entry).file, from)
    case Remove(file) => SameFile(MetadataOf(entry).file, file)
  }

  predicate AllValid(plugins: seq<Field>) {
    forall i :: 0 <= i < |plugins| ==> ValidEntry(plugins[i])
  }

  /** What becomes of the entry that an operation is about. */
  function Changed(operation: Operation, entry: Field): seq<Field>
    requires ValidEntry(entry)
  {
    match operation
    case Record(m) => [Field(m.publicId, Entry(m, entry.value.fields))]
    case Rename(_, to) => [Field(entry.key, Entry(MetadataOf(entry).(file := to), entry.value.fields))]
    case Remove(_) => []
  }

  predicate Unique(operation: Operation, plugins: seq<Field>)
    requires AllValid(plugins)
  {
    forall i, j :: 0 <= i < j < |plugins| ==> !(Matches(operation, plugins[i]) && Matches(operation, plugins[j]))
  }

  predicate Touches(operation: Operation, plugins: seq<Field>)
    requires AllValid(plugins)
  {
    exists i :: 0 <= i < |plugins| && Matches(operation, plugins[i])
  }

  /** An entry of another plugin that a record would collide with. */
  predicate Collides(operation: Operation, entry: Field)
    requires ValidEntry(entry)
  {
    && operation.Record? && !Matches(operation, entry)
    && (entry.key == operation.metadata.publicId || SameFile(MetadataOf(entry).file, operation.metadata.file))
  }

  predicate Allowed(operation: Operation, plugins: seq<Field>)
    requires AllValid(plugins)
  {
    Unique(operation, plugins) && forall i :: 0 <= i < |plugins| ==> !Collides(operation, plugins[i])
  }

  function Edited(operation: Operation, plugins: seq<Field>): seq<Field>
    requires AllValid(plugins)
  {
    if plugins == [] then []
    else
      (if Matches(operation, plugins[0]) then Changed(operation, plugins[0]) else [plugins[0]])
      + Edited(operation, plugins[1..])
  }

  /** The plugins after an operation: the one entry changed in place or dropped, or a new one put last. */
  function After(operation: Operation, plugins: seq<Field>): seq<Field>
    requires AllValid(plugins)
  {
    Edited(operation, plugins)
    + if operation.Record? && !Touches(operation, plugins)
      then [Field(operation.metadata.publicId, Entry(operation.metadata, []))] else []
  }

  lemma Tail(operation: Operation, plugins: seq<Field>)
    requires plugins != [] && AllValid(plugins)
    ensures AllValid(plugins[1..])
    ensures Unique(operation, plugins) ==> Unique(operation, plugins[1..])
    ensures Touches(operation, plugins) == (Matches(operation, plugins[0]) || Touches(operation, plugins[1..]))
    ensures Unique(operation, plugins) && Matches(operation, plugins[0]) ==> !Touches(operation, plugins[1..])
  {
    assert forall j :: 0 <= j < |plugins[1..]| ==> plugins[1..][j] == plugins[j + 1];
    if Touches(operation, plugins) && !Matches(operation, plugins[0]) {
      var i :| 0 <= i < |plugins| && Matches(operation, plugins[i]);
      assert Matches(operation, plugins[1..][i - 1]);
    }
  }

  lemma {:induction false} NothingEdited(operation: Operation, plugins: seq<Field>)
    requires AllValid(plugins) && !Touches(operation, plugins)
    ensures Edited(operation, plugins) == plugins
  {
    if plugins != [] {
      Tail(operation, plugins);
      NothingEdited(operation, plugins[1..]);
    }
  }

  lemma Around(first: Field, rest: seq<Field>, i: nat, middle: seq<Field>)
    requires i < |rest|
    ensures [first] + (rest[..i] + middle + rest[i + 1..])
         == ([first] + rest)[..i + 1] + middle + ([first] + rest)[i + 2..]
  {
  }

  /** Only the entry `i` is edited; all others stay as they are, where they are. */
  lemma {:induction false} EditedAt(operation: Operation, plugins: seq<Field>, i: nat)
    requires AllValid(plugins) && Unique(operation, plugins)
    requires i < |plugins| && Matches(operation, plugins[i])
    ensures Edited(operation, plugins) == plugins[..i] + Changed(operation, plugins[i]) + plugins[i + 1..]
  {
    Tail(operation, plugins);
    if i == 0 {
      NothingEdited(operation, plugins[1..]);
    } else {
      assert plugins[1..][i - 1] == plugins[i];
      EditedAt(operation, plugins[1..], i - 1);
      assert !Matches(operation, plugins[0]);
      Around(plugins[0], plugins[1..], i - 1, Changed(operation, plugins[i]));
      assert [plugins[0]] + plugins[1..] == plugins;
    }
  }

  // ----- fields -----

  lemma {:induction false} GetFirst(a: seq<Field>, b: seq<Field>, key: string)
    ensures Get(a + b, key) == if Get(a, key).Some? then Get(a, key) else Get(b, key)
  {
    if a == [] {
      assert a + b == b;
    } else {
      assert (a + b)[1..] == a[1..] + b;
      GetFirst(a[1..], b, key);
    }
  }

  lemma {:induction false} GetUnknown(fields: seq<Field>, key: string)
    ensures Get(Unknown(fields), key) == if Known(key) then None else Get(fields, key)
  {
    if fields != [] {
      GetUnknown(fields[1..], key);
      GetFirst(if Known(fields[0].key) then [] else [fields[0]], Unknown(fields[1..]), key);
    }
  }

  function KnownValue(m: Metadata, key: string): Option<Value> {
    if key == "id" then Some(Int(m.id))
    else if key == "public_id" then Some(String(m.publicId))
    else if key == "name" then Some(String(m.name))
    else if key == "author" then Some(String(m.author))
    else if key == "file" then Some(String(m.file))
    else if key == "version" then (if m.version.Some? then Some(String(m.version.value)) else None)
    else if key == "updated_at" then (if m.updatedAt.Some? then Some(String(m.updatedAt.value)) else None)
    else None
  }

  lemma GetKnown(m: Metadata, key: string)
    ensures Get(KnownFields(m), key) == KnownValue(m, key)
  {
    var head := AlwaysWritten(m);
    GetFirst(head + Optional("version", m.version), Optional("updated_at", m.updatedAt), key);
    GetFirst(head, Optional("version", m.version), key);
    GetFive(head, key);
  }

  lemma GetFive(fields: seq<Field>, key: string)
    requires |fields| == 5
    ensures Get(fields, key) ==
      if fields[0].key == key then Some(fields[0].value) else if fields[1].key == key then Some(fields[1].value)
      else if fields[2].key == key then Some(fields[2].value) else if fields[3].key == key then Some(fields[3].value)
      else if fields[4].key == key then Some(fields[4].value) else None
  {
    assert fields == [fields[0]] + ([fields[1]] + ([fields[2]] + ([fields[3]] + [fields[4]])));
    GetFirst([fields[0]], [fields[1]] + ([fields[2]] + ([fields[3]] + [fields[4]])), key);
    GetFirst([fields[1]], [fields[2]] + ([fields[3]] + [fields[4]]), key);
    GetFirst([fields[2]], [fields[3]] + [fields[4]], key);
    GetFirst([fields[3]], [fields[4]], key);
  }

  /** An entry's field is the metadata's where that knows it, and the previous entry's otherwise. */
  lemma EntryField(m: Metadata, previous: seq<Field>, key: string)
    ensures Get(Entry(m, previous).fields, key) == if Known(key) then KnownValue(m, key) else Get(previous, key)
  {
    GetFirst(KnownFields(m), Unknown(previous), key);
    GetKnown(m, key);
    GetUnknown(previous, key);
  }

  predicate GoodMetadata(m: Metadata) {
    m.id > 0 && m.publicId != "" && SafeFilename(m.file)
  }

  /** What is written of a plugin reads back as its metadata. */
  lemma EntryReads(m: Metadata, previous: seq<Field>)
    requires GoodMetadata(m)
    ensures ValidEntry(Field(m.publicId, Entry(m, previous)))
    ensures MetadataOf(Field(m.publicId, Entry(m, previous))) == m
  {
    EntryField(m, previous, "id");
    EntryField(m, previous, "public_id");
    EntryField(m, previous, "name");
    EntryField(m, previous, "author");
    EntryField(m, previous, "file");
    EntryField(m, previous, "version");
    EntryField(m, previous, "updated_at");
  }
}
