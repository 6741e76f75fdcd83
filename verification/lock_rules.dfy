/**
 What every operation on the lockfile keeps (`plugin-store.c`): one entry per plugin and per active filename,
 and whatever the operation is not about.
 */
module LockRules {
  import opened Lockfile
  import opened Toml
  import opened Wrappers

  /** Entries of different plugins, with different active filenames. */
  predicate Apart(a: Field, b: Field)
    requires ValidEntry(a) && ValidEntry(b)
  {
    a.key != b.key && !SameFile(MetadataOf(a).file, MetadataOf(b).file)
  }

  predicate WellFormed(plugins: seq<Field>) {
    AllValid(plugins) && forall i, j :: 0 <= i < j < |plugins| ==> Apart(plugins[i], plugins[j])
  }

  predicate ApartFrom(plugins: seq<Field>, entry: Field)
    requires AllValid(plugins) && ValidEntry(entry)
  {
    forall i :: 0 <= i < |plugins| ==> Apart(plugins[i], entry)
  }

  lemma Push(plugins: seq<Field>, entry: Field)
    requires WellFormed(plugins) && ValidEntry(entry) && ApartFrom(plugins, entry)
    ensures WellFormed(plugins + [entry])
  {
  }

  lemma Drop(plugins: seq<Field>, i: nat)
    requires WellFormed(plugins) && i < |plugins|
    ensures WellFormed(plugins[..i] + [] + plugins[i + 1..])
  {
  }

  /** Putting another entry in place `i` keeps the rules exactly when it is apart from the others. */
  lemma Replace(plugins: seq<Field>, i: nat, entry: Field)
    requires WellFormed(plugins) && i < |plugins| && ValidEntry(entry)
    ensures WellFormed(plugins[..i] + [entry] + plugins[i + 1..])
       <==> forall j :: 0 <= j < |plugins| && j != i ==> Apart(plugins[j], entry)
  {
    var after := plugins[..i] + [entry] + plugins[i + 1..];
    assert forall j :: 0 <= j < |plugins| && j != i ==> after[j] == plugins[j];
    assert after[i] == entry && |after| == |plugins|;
  }

  // ----- record -----

  /** The public ID decides which entry a record replaces; the numeric ID never does. */
  lemma RecordMatches(entry: Field, m: Metadata)
    requires ValidEntry(entry) && GoodMetadata(m)
    ensures Matches(Record(m), entry) <==> entry.key == m.publicId
  {
  }

  /** A record is refused exactly when another plugin has its active filename. */
  lemma RecordAllowed(plugins: seq<Field>, m: Metadata)
    requires WellFormed(plugins) && GoodMetadata(m)
    ensures Allowed(Record(m), plugins) <==>
      forall i :: 0 <= i < |plugins| && plugins[i].key != m.publicId ==> !SameFile(MetadataOf(plugins[i]).file, m.file)
  {
    forall i | 0 <= i < |plugins| ensures Matches(Record(m), plugins[i]) <==> plugins[i].key == m.publicId {
      RecordMatches(plugins[i], m);
    }
    forall i, j | 0 <= i < j < |plugins|
      ensures !(Matches(Record(m), plugins[i]) && Matches(Record(m), plugins[j]))
    {
      assert Apart(plugins[i], plugins[j]);
    }
    assert Unique(Record(m), plugins);
    forall i | 0 <= i < |plugins|
      ensures Collides(Record(m), plugins[i])
         <==> plugins[i].key != m.publicId && SameFile(MetadataOf(plugins[i]).file, m.file)
    {
    }
  }

  /** After a record the rules hold, and the plugin's entry says what was recorded. */
  lemma RecordKeeps(plugins: seq<Field>, m: Metadata)
    requires WellFormed(plugins) && GoodMetadata(m) && Allowed(Record(m), plugins)
    ensures WellFormed(After(Record(m), plugins))
    ensures exists e <- After(Record(m), plugins) :: e.key == m.publicId && MetadataOf(e) == m
  {
    var after := After(Record(m), plugins);
    if Touches(Record(m), plugins) {
      var i :| 0 <= i < |plugins| && Matches(Record(m), plugins[i]);
      var entry := Field(m.publicId, Entry(m, plugins[i].value.fields));
      EntryReads(m, plugins[i].value.fields);
      EditedAt(Record(m), plugins, i);
      RecordMatches(plugins[i], m);
      forall j | 0 <= j < |plugins| && j != i ensures Apart(plugins[j], entry) {
        assert !Collides(Record(m), plugins[j]);
      }
      Replace(plugins, i, entry);
      assert after == plugins[..i] + [entry] + plugins[i + 1..] && after[i] == entry;
    } else {
      var entry := Field(m.publicId, Entry(m, []));
      EntryReads(m, []);
      NothingEdited(Record(m), plugins);
      forall j | 0 <= j < |plugins| ensures Apart(plugins[j], entry) {
        assert !Collides(Record(m), plugins[j]);
      }
      Push(plugins, entry);
      assert after == plugins + [entry] && after[|plugins|] == entry;
    }
  }

  // ----- remove and rename -----

  lemma FileIsUnique(operation: Operation, plugins: seq<Field>)
    requires WellFormed(plugins) && !operation.Record?
    ensures Allowed(operation, plugins)
  {
    forall i, j | 0 <= i < j < |plugins|
      ensures !(Matches(operation, plugins[i]) && Matches(operation, plugins[j]))
    {
      assert Apart(plugins[i], plugins[j]);
    }
  }

  lemma DropFile(plugins: seq<Field>, i: nat, file: string)
    requires AllValid(plugins) && Unique(Remove(file), plugins)
    requires i < |plugins| && Matches(Remove(file), plugins[i])
    ensures AllValid(plugins[..i] + [] + plugins[i + 1..])
    ensures !Touches(Remove(file), plugins[..i] + [] + plugins[i + 1..])
  {
    var after := plugins[..i] + [] + plugins[i + 1..];
    forall k | 0 <= k < |after| ensures ValidEntry(after[k]) && !Matches(Remove(file), after[k]) {
      assert after[k] == plugins[if k < i then k else k + 1];
    }
  }

  /** After a removal no entry has that active filename, and the rules still hold. */
  lemma RemoveKeeps(plugins: seq<Field>, file: string)
    requires WellFormed(plugins)
    ensures Allowed(Remove(file), plugins) && WellFormed(After(Remove(file), plugins))
    ensures !Touches(Remove(file), After(Remove(file), plugins))
  {
    FileIsUnique(Remove(file), plugins);
    if Touches(Remove(file), plugins) {
      var i :| 0 <= i < |plugins| && Matches(Remove(file), plugins[i]);
      EditedAt(Remove(file), plugins, i);
      Drop(plugins, i);
      DropFile(plugins, i, file);
      assert After(Remove(file), plugins) == plugins[..i] + [] + plugins[i + 1..];
    } else {
      NothingEdited(Remove(file), plugins);
      assert After(Remove(file), plugins) == plugins;
    }
  }

  lemma RenamedEntry(entry: Field, from: string, to: string)
    requires ValidEntry(entry) && SafeFilename(to)
    ensures |Changed(Rename(from, to), entry)| == 1
    ensures var renamed := Changed(Rename(from, to), entry)[0];
            renamed.key == entry.key && ValidEntry(renamed) && MetadataOf(renamed) == MetadataOf(entry).(file := to)
  {
    EntryReads(MetadataOf(entry).(file := to), entry.value.fields);
  }

  /** A renamed plugin keeps the rules exactly when no other plugin has the new active filename. */
  lemma RenameKeeps(plugins: seq<Field>, from: string, to: string, i: nat)
    requires WellFormed(plugins) && SafeFilename(to) && i < |plugins| && Matches(Rename(from, to), plugins[i])
    ensures Allowed(Rename(from, to), plugins)
    ensures WellFormed(After(Rename(from, to), plugins))
       <==> forall j :: 0 <= j < |plugins| && j != i ==> !SameFile(MetadataOf(plugins[j]).file, to)
  {
    FileIsUnique(Rename(from, to), plugins);
    EditedAt(Rename(from, to), plugins, i);
    RenamedEntry(plugins[i], from, to);
    var renamed := Changed(Rename(from, to), plugins[i])[0];
    Replace(plugins, i, renamed);
    assert After(Rename(from, to), plugins) == plugins[..i] + [renamed] + plugins[i + 1..];
    forall j | 0 <= j < |plugins| && j != i
      ensures Apart(plugins[j], renamed) <==> !SameFile(MetadataOf(plugins[j]).file, to)
    {
      assert Apart(plugins[if i < j then i else j], plugins[if i < j then j else i]);
    }
  }

  /** After a rename onto another plugin's file, that file can be neither removed nor renamed. */
  lemma RenameBlocks(plugins: seq<Field>, from: string, to: string, i: nat, j: nat, next: string)
    requires WellFormed(plugins) && SafeFilename(to) && i < |plugins| && Matches(Rename(from, to), plugins[i])
    requires j < |plugins| && j != i && SameFile(MetadataOf(plugins[j]).file, to)
    ensures Allowed(Rename(from, to), plugins) && AllValid(After(Rename(from, to), plugins))
    ensures !Allowed(Remove(to), After(Rename(from, to), plugins))
    ensures !Allowed(Rename(to, next), After(Rename(from, to), plugins))
  {
    RenamedList(plugins, from, to, i);
    RenamedEntry(plugins[i], from, to);
    var after := After(Rename(from, to), plugins);
    forall k | 0 <= k < |after| ensures ValidEntry(after[k]) {
    }
    var first, second := if i < j then i else j, if i < j then j else i;
    assert Matches(Remove(to), after[first]) && Matches(Remove(to), after[second]);
    assert Matches(Rename(to, next), after[first]) && Matches(Rename(to, next), after[second]);
  }

  /** Enabling or disabling a plugin, which keeps its active filename, always keeps the rules. */
  lemma SameNameKeeps(plugins: seq<Field>, from: string, to: string)
    requires WellFormed(plugins) && SafeFilename(to) && SameFile(from, to)
    ensures Allowed(Rename(from, to), plugins) && WellFormed(After(Rename(from, to), plugins))
  {
    FileIsUnique(Rename(from, to), plugins);
    if Touches(Rename(from, to), plugins) {
      var i :| 0 <= i < |plugins| && Matches(Rename(from, to), plugins[i]);
      forall j | 0 <= j < |plugins| && j != i ensures !SameFile(MetadataOf(plugins[j]).file, to) {
        assert Apart(plugins[if i < j then i else j], plugins[if i < j then j else i]);
      }
      RenameKeeps(plugins, from, to, i);
    } else {
      NothingEdited(Rename(from, to), plugins);
      assert After(Rename(from, to), plugins) == plugins;
    }
  }

  /** Fields that the metadata does not know are those of the entry before, whatever is written. */
  lemma UnknownKept(operation: Operation, entry: Field, key: string)
    requires ValidEntry(entry) && !operation.Remove? && !Known(key)
    ensures Get(Changed(operation, entry)[0].value.fields, key) == Get(entry.value.fields, key)
  {
    var m := if operation.Record? then operation.metadata else MetadataOf(entry).(file := operation.to);
    EntryField(m, entry.value.fields, key);
  }

  lemma KnownKept(entry: Field, from: string, to: string, key: string)
    requires ValidEntry(entry) && Known(key) && key != "file"
    ensures Get(Changed(Rename(from, to), entry)[0].value.fields, key) == Get(entry.value.fields, key)
  {
    EntryField(MetadataOf(entry).(file := to), entry.value.fields, key);
  }

  /** Renaming there and back restores every field. */
  lemma EntryThereAndBack(entry: Field, from: string, to: string, key: string)
    requires ValidEntry(entry) && SafeFilename(to)
    ensures var there := Changed(Rename(from, to), entry)[0];
            && ValidEntry(there)
            && var back := Changed(Rename(to, MetadataOf(entry).file), there)[0];
            Get(back.value.fields, key) == Get(entry.value.fields, key)
  {
    RenamedEntry(entry, from, to);
    var there := Changed(Rename(from, to), entry)[0];
    var file := MetadataOf(entry).file;
    if !Known(key) {
      UnknownKept(Rename(from, to), entry, key);
      UnknownKept(Rename(to, file), there, key);
    } else if key == "file" {
      EntryField(MetadataOf(there).(file := file), there.value.fields, key);
    } else {
      KnownKept(entry, from, to, key);
      KnownKept(there, to, file, key);
    }
  }

  /** A rename replaces the one entry, where it is. */
  lemma RenamedList(plugins: seq<Field>, from: string, to: string, i: nat)
    requires WellFormed(plugins) && SafeFilename(to) && i < |plugins| && Matches(Rename(from, to), plugins[i])
    ensures Allowed(Rename(from, to), plugins)
    ensures var after := After(Rename(from, to), plugins);
            && |after| == |plugins| && |Changed(Rename(from, to), plugins[i])| == 1
            && after[i] == Changed(Rename(from, to), plugins[i])[0]
            && forall j :: 0 <= j < |plugins| && j != i ==> after[j] == plugins[j]
  {
    FileIsUnique(Rename(from, to), plugins);
    EditedAt(Rename(from, to), plugins, i);
    RenamedEntry(plugins[i], from, to);
    assert After(Rename(from, to), plugins) == plugins[..i] + Changed(Rename(from, to), plugins[i]) + plugins[i + 1..];
  }

  /** Renaming there and back restores the table as a map, when the name in between was free. */
  lemma ThereAndBack(plugins: seq<Field>, from: string, to: string, i: nat)
    requires WellFormed(plugins) && SafeFilename(to) && i < |plugins| && Matches(Rename(from, to), plugins[i])
    requires forall j :: 0 <= j < |plugins| && j != i ==> !SameFile(MetadataOf(plugins[j]).file, to)
    ensures var there := After(Rename(from, to), plugins);
            var file := MetadataOf(plugins[i]).file;
            && AllValid(there) && Allowed(Rename(to, file), there)
            && var back := After(Rename(to, file), there);
            && |back| == |plugins| && back[i].key == plugins[i].key && back[i].value.Table?
            && (forall j :: 0 <= j < |plugins| && j != i ==> back[j] == plugins[j])
            && forall key :: Get(back[i].value.fields, key) == Get(plugins[i].value.fields, key)
  {
    RenameKeeps(plugins, from, to, i);
    RenamedList(plugins, from, to, i);
    var there := After(Rename(from, to), plugins);
    var file := MetadataOf(plugins[i]).file;
    RenamedEntry(plugins[i], from, to);
    RenamedList(there, to, file, i);
    var back := After(Rename(to, file), there);
    forall key ensures Get(back[i].value.fields, key) == Get(plugins[i].value.fields, key) {
      EntryThereAndBack(plugins[i], from, to, key);
    }
  }

  // ----- lookup -----

  /** `lookup_with_lock`: the first entry with the file's active name. */
  function Lookup(plugins: seq<Field>, file: string): Option<Metadata>
    requires AllValid(plugins)
  {
    if plugins == [] then None
    else if Matches(Remove(file), plugins[0]) then Some(MetadataOf(plugins[0]).(file := file))
    else Lookup(plugins[1..], file)
  }

  lemma {:induction false} LookupFirst(plugins: seq<Field>, file: string, i: nat)
    requires AllValid(plugins) && i < |plugins| && Matches(Remove(file), plugins[i])
    requires forall j :: 0 <= j < i ==> !Matches(Remove(file), plugins[j])
    ensures Lookup(plugins, file) == Some(MetadataOf(plugins[i]).(file := file))
  {
    if i > 0 {
      assert forall j :: 0 <= j < |plugins[1..]| ==> plugins[1..][j] == plugins[j + 1];
      LookupFirst(plugins[1..], file, i - 1);
    }
  }

  lemma {:induction false} LookupNone(plugins: seq<Field>, file: string)
    requires AllValid(plugins) && !Touches(Remove(file), plugins)
    ensures Lookup(plugins, file) == None
  {
    if plugins != [] {
      Tail(Remove(file), plugins);
      LookupNone(plugins[1..], file);
    }
  }

  /** The one entry with the file's active name is what is found, wherever it is. */
  lemma LookupFinds(plugins: seq<Field>, file: string, i: nat)
    requires WellFormed(plugins) && i < |plugins| && SameFile(MetadataOf(plugins[i]).file, file)
    ensures Lookup(plugins, file) == Some(MetadataOf(plugins[i]).(file := file))
  {
    forall j | 0 <= j < i ensures !Matches(Remove(file), plugins[j]) {
      assert Apart(plugins[j], plugins[i]);
    }
    LookupFirst(plugins, file, i);
  }

  /** What was recorded is found under its file, enabled or not. */
  lemma LookupAfterRecord(plugins: seq<Field>, m: Metadata, file: string)
    requires WellFormed(plugins) && GoodMetadata(m) && Allowed(Record(m), plugins) && SameFile(m.file, file)
    ensures AllValid(After(Record(m), plugins))
    ensures Lookup(After(Record(m), plugins), file) == Some(m.(file := file))
  {
    RecordKeeps(plugins, m);
    var after := After(Record(m), plugins);
    var i :| 0 <= i < |after| && after[i].key == m.publicId && MetadataOf(after[i]) == m;
    LookupFinds(after, file, i);
  }

  /** A record changes no other plugin's lookup. */
  lemma OthersFound(plugins: seq<Field>, m: Metadata, j: nat, file: string)
    requires WellFormed(plugins) && GoodMetadata(m) && Allowed(Record(m), plugins)
    requires j < |plugins| && plugins[j].key != m.publicId && SameFile(MetadataOf(plugins[j]).file, file)
    ensures AllValid(After(Record(m), plugins))
    ensures Lookup(After(Record(m), plugins), file) == Lookup(plugins, file)
  {
    RecordKeeps(plugins, m);
    var after := After(Record(m), plugins);
    if Touches(Record(m), plugins) {
      var i :| 0 <= i < |plugins| && Matches(Record(m), plugins[i]);
      EditedAt(Record(m), plugins, i);
      assert after == plugins[..i] + Changed(Record(m), plugins[i]) + plugins[i + 1..];
      RecordMatches(plugins[i], m);
    } else {
      NothingEdited(Record(m), plugins);
    }
    assert after[j] == plugins[j];
    LookupFinds(after, file, j);
    LookupFinds(plugins, file, j);
  }
}
