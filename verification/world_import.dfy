/**
 Importing and removing a world (`world-store.c`), in terms of the paths that are there before and afterwards, as long
 as the system does not refuse what is in order.
 */
module WorldImport {
  import opened Worlds

  /** Folders and files only, and no folder more than 128 levels below the world's. */
  ghost predicate IsImportable(entries: Entries, world: Path) {
    forall p | p in entries && world <= p :: entries[p].File? || (entries[p].Folder? && |p| <= |world| + 128)
  }

  lemma ImportableIs(entries: Entries, world: Path)
    ensures IsImportable(entries, world) <==> Fit(entries, world, 0)
  {
    if !IsImportable(entries, world) {
      var p :| p in entries && world <= p
               && !(entries[p].File? || (entries[p].Folder? && |p| <= |world| + 128));
      assert entries[p].Folder? ==> Deep(entries, world, 0);
    }
  }

  /** The entry at the same place below another root. */
  lemma Carried(before: Entries, source: Path, after: Entries, target: Path, below: Path)
    requires SameTree(before, source, after, target)
    ensures target + below in after <==> source + below in before
    ensures source + below in before ==> after[target + below] == before[source + below]
  {
    assert (target + below)[|target|..] == below;
  }

  /**
   A world folder that is elsewhere, imported into a server without a world of its name: when it is importable, the
   server's `worlds` has it under its name, entry by entry; otherwise nothing is left of it. All else is as before.
   */
  method ImportWorld(storage: Storage, base: Path, parent: Path, name: string, uuid: string) returns (r: ImportResult)
    requires Rooted(storage.entries) && base in storage.entries && storage.entries[base].Folder?
    requires base + ["worlds"] in storage.entries && storage.entries[base + ["worlds"]].Folder?
    requires base + ["worlds", name] !in storage.entries
    requires base + ["worlds", ".world-import-" + uuid] !in storage.entries
    requires parent + [name] + ["level.dat"] in storage.entries
    requires storage.entries[parent + [name] + ["level.dat"]].File?
    requires name != "" && name[0] != '.' && !(parent + [name] <= base) && !(parent + [name] <= base + ["worlds"])
    modifies storage
    ensures !storage.fault && IsImportable(old(storage.entries), parent + [name]) ==>
              && r == Imported(base + ["worlds", name])
              && (forall p :: base + ["worlds", name] + p in storage.entries
                         <==> parent + [name] + p in old(storage.entries))
              && (forall p :: parent + [name] + p in old(storage.entries) ==>
                    base + ["worlds", name] + p in storage.entries
                    && storage.entries[base + ["worlds", name] + p] == old(storage.entries)[parent + [name] + p])
              && (forall p :: p in old(storage.entries) ==>
                    p in storage.entries && storage.entries[p] == old(storage.entries)[p])
              && (forall p :: p in storage.entries && !(base + ["worlds", name] <= p) ==> p in old(storage.entries))
    ensures !storage.fault && !IsImportable(old(storage.entries), parent + [name]) ==>
              r.NotImported? && storage.entries == old(storage.entries)
  {
    ghost var before := storage.entries;
    var source := parent + [name];
    assert source[|source| - 1] == name;
    assert base + ["worlds"] + [name] == base + ["worlds", name];
    ImportableIs(before, source);
    r := storage.Import(base, source, uuid);
    if r.Imported? {
      assert r.target == base + ["worlds", name];
      forall p: Path
        ensures r.target + p in storage.entries <==> source + p in before
        ensures source + p in before ==> storage.entries[r.target + p] == before[source + p]
      {
        Carried(before, source, storage.entries, r.target, p);
      }
    }
  }

  /** A world is removed whole, or not at all deeper down, exactly when no folder in it is more than 128 levels deep. */
  method RemoveWorld(storage: Storage, world: Path) returns (r: Outcome)
    requires Rooted(storage.entries) && world in storage.entries
    modifies storage
    ensures !storage.fault ==>
      (r.Done? <==> forall p | p in old(storage.entries) && world <= p && old(storage.entries)[p].Folder? ::
                      |p| <= |world| + 128)
    ensures r.Done? ==> forall p | p in storage.entries :: !(world <= p)
    ensures forall p | p in old(storage.entries) && !(world <= p) ::
              p in storage.entries && storage.entries[p] == old(storage.entries)[p]
    ensures forall p | p in storage.entries :: p in old(storage.entries)
  {
    ghost var before := storage.entries;
    r := storage.RemoveFolder(world, 0);
    if p :| p in before && world <= p && before[p].Folder? && !(|p| <= |world| + 128) {
      assert Deep(before, world, 0);
    }
  }
}
