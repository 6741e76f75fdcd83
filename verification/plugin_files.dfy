/**
 What a plugin's filename may be (`plugin-store.c`), in terms of paths and of the spellings of one name,
 and which entries of a lockfile are accepted.
 */
module PluginFiles {
  import opened Lockfile
  import opened Toml
  import opened Wrappers

  // ----- one file, two spellings -----

  predicate EndsIn(s: string, suffix: string) {
    exists start :: 0 <= start <= |s| && s[start..] == suffix
  }

  /** The file as it is called when the plugin is active, and the spellings that mark it as inactive. */
  predicate Spells(file: string, base: string) {
    || file == base + ".deactivated"
    || file == base + ".disabled"
    || (file == base && !EndsIn(file, ".deactivated") && !EndsIn(file, ".disabled"))
  }

  lemma SuffixAt(s: string, suffix: string)
    ensures EndsIn(s, suffix) <==> |suffix| <= |s| && s[|s| - |suffix|..] == suffix
  {
    if start :| 0 <= start <= |s| && s[start..] == suffix {
      assert start == |s| - |suffix|;
    }
  }

  lemma Cut(base: string, suffix: string)
    ensures Without(base + suffix, suffix) == Some(base)
  {
    assert (base + suffix)[|base|..] == suffix && (base + suffix)[..|base|] == base;
  }

  lemma Uncut(s: string, suffix: string)
    ensures match Without(s, suffix) case Some(base) => s == base + suffix case None => !EndsIn(s, suffix)
  {
    SuffixAt(s, suffix);
    if EndsIn(s, suffix) {
      assert s == s[..|s| - |suffix|] + s[|s| - |suffix|..];
    }
  }

  /** Every file spells one active filename, and which one is decided by these three spellings alone. */
  lemma ActiveNameIs(file: string, base: string)
    ensures ActiveName(file) == base <==> Spells(file, base)
  {
    Uncut(file, ".deactivated");
    Uncut(file, ".disabled");
    Cut(base, ".deactivated");
    Cut(base, ".disabled");
    SuffixAt(file, ".deactivated");
    SuffixAt(file, ".disabled");
    if file == base + ".disabled" {
      assert file[|file| - 1] == 'd' && file[|file| - 3] == 'l' && ".deactivated"[9] == 't';
      assert !EndsIn(file, ".deactivated");
    }
  }

  /** Two filenames are of one plugin exactly when they spell the same active filename. */
  lemma SameFileIs(left: string, right: string)
    ensures SameFile(left, right) <==> exists base :: Spells(left, base) && Spells(right, base)
  {
    ActiveNameIs(left, ActiveName(left));
    ActiveNameIs(right, ActiveName(right));
    if base :| Spells(left, base) && Spells(right, base) {
      ActiveNameIs(left, base);
      ActiveNameIs(right, base);
    }
  }

  // ----- a safe filename is an entry of the folder -----

  predicate Separates(c: char) {
    c == '/' || c == '\\'
  }

  /** What the separators leave of a path, in order. */
  function Parts(path: string): (r: seq<string>)
    ensures r != [] && forall part <- r, c <- part :: !Separates(c)
  {
    if path == "" then [""]
    else
      var rest := Parts(path[1..]);
      if Separates(path[0]) then [""] + rest else [[path[0]] + rest[0]] + rest[1..]
  }

  /** Where a path leads from a folder: empty parts and `.` stay, `..` goes up. */
  function Walk(folder: seq<string>, parts: seq<string>): seq<string>
    decreases |parts|
  {
    if parts == [] then folder
    else if parts[0] == "" || parts[0] == "." then Walk(folder, parts[1..])
    else if parts[0] == ".." then Walk(if folder == [] then [] else folder[..|folder| - 1], parts[1..])
    else Walk(folder + [parts[0]], parts[1..])
  }

  lemma {:induction false} OnePart(path: string)
    requires forall c <- path :: !Separates(c)
    ensures Parts(path) == [path]
    decreases |path|
  {
    if path != "" {
      OnePart(path[1..]);
      assert [path[0]] + path[1..] == path;
    }
  }

  /** Whatever a walk ends with was in the folder's path or is one of the parts. */
  lemma {:induction false} WalkEnds(folder: seq<string>, parts: seq<string>, base: nat)
    requires forall i :: base <= i < |folder| ==> forall c <- folder[i] :: !Separates(c)
    requires forall part <- parts, c <- part :: !Separates(c)
    ensures forall i :: base <= i < |Walk(folder, parts)| ==> forall c <- Walk(folder, parts)[i] :: !Separates(c)
    decreases |parts|
  {
    if parts != [] {
      var next := if parts[0] == "" || parts[0] == "." then folder
                  else if parts[0] == ".." then (if folder == [] then [] else folder[..|folder| - 1])
                  else folder + [parts[0]];
      WalkEnds(next, parts[1..], base);
    }
  }

  /**
   A filename is safe exactly when, without a colon, it leads from any folder to the entry of that name in it:
   never elsewhere, and never deeper.
   */
  lemma SafeStaysInside(folder: seq<string>, file: string)
    ensures SafeFilename(file) <==> ':' !in file && Walk(folder, Parts(file)) == folder + [file]
  {
    if forall c <- file :: !Separates(c) {
      OnePart(file);
      assert Parts(file)[1..] == [];
      assert '/' !in file && '\\' !in file;
      if file == "" || file == "." || file == ".." {
        assert |Walk(folder, Parts(file))| <= |folder|;
      } else {
        assert Walk(folder + [file], []) == folder + [file];
      }
    } else {
      var c :| c in file && Separates(c);
      var end := Walk(folder, Parts(file));
      WalkEnds(folder, Parts(file), |folder|);
      assert |end| > |folder| ==> end[|folder|] != file;
      assert (folder + [file])[|folder|] == file;
    }
  }

  // ----- accepted entries -----

  predicate Says(fields: seq<Field>, key: string, value: Option<Value>) {
    Get(fields, key) == value
  }

  function Text(text: Option<string>): Option<Value> {
    if text.Some? then Some(String(text.value)) else None
  }

  /** The entry of a plugin: its key is the public ID, and its fields of seven names are these. */
  predicate IsEntryOf(entry: Field, m: Metadata) {
    && m.id > 0 && m.publicId != "" && SafeFilename(m.file)
    && entry.key == m.publicId && entry.value.Table?
    && var fields := entry.value.fields;
    && Says(fields, "id", Some(Int(m.id))) && Says(fields, "public_id", Some(String(m.publicId)))
    && Says(fields, "name", Some(String(m.name))) && Says(fields, "author", Some(String(m.author)))
    && Says(fields, "file", Some(String(m.file)))
    && Says(fields, "version", Text(m.version)) && Says(fields, "updated_at", Text(m.updatedAt))
  }

  /** An entry is accepted exactly when it is that of a plugin, and then it is read as that plugin's. */
  lemma AcceptedIsEntry(entry: Field)
    ensures ValidEntry(entry) <==> exists m :: IsEntryOf(entry, m)
    ensures ValidEntry(entry) ==> forall m :: IsEntryOf(entry, m) <==> m == MetadataOf(entry)
  {
    if ValidEntry(entry) {
      assert IsEntryOf(entry, MetadataOf(entry));
    }
    if m :| IsEntryOf(entry, m) {
      assert ValidEntry(entry);
    }
  }

  /** A plugin can be recorded exactly when some entry would be accepted as its. */
  lemma RecordableHasEntry(m: Metadata)
    ensures GoodMetadata(m) <==> exists entry :: IsEntryOf(entry, m)
  {
    if GoodMetadata(m) {
      var entry := Field(m.publicId, Entry(m, []));
      EntryReads(m, []);
      AcceptedIsEntry(entry);
      assert IsEntryOf(entry, m);
    }
  }
}
