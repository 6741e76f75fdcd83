/**
 Importing and removing world folders (`world-store.c`): a file tree is copied to a staging folder, which becomes the
 new world or is removed again, and no link is ever followed.
 */
module Worlds {
  /** The names on the way from the root; a link is an entry of its own, and nothing lies below it. */
  type Path = seq<string>

  datatype Entry = Folder | File(content: seq<nat>) | Link(target: Path) | Special

  type Entries = map<Path, Entry>

  const MAX_DEPTH := 128

  function Children(entries: Entries, folder: Path): set<string> {
    set p | p in entries && |p| == |folder| + 1 && folder <= p :: p[|folder|]
  }

  /** Every entry lies in a folder. */
  ghost predicate Rooted(entries: Entries) {
    forall p {:trigger InFolder(entries, p)} :: p in entries ==> InFolder(entries, p)
  }

  predicate InFolder(entries: Entries, p: Path) {
    p != [] ==> p[..|p| - 1] in entries && entries[p[..|p| - 1]].Folder?
  }

  /** Nothing changed but at `root` and below. */
  ghost predicate SameOutside(before: Entries, after: Entries, root: Path) {
    forall p :: !(root <= p) ==> (p in after <==> p in before) && (p in before ==> after[p] == before[p])
  }

  /** Nothing was added or changed. */
  ghost predicate Shrunk(before: Entries, after: Entries) {
    forall p :: p in after ==> p in before && after[p] == before[p]
  }

  /** Nothing lies at `root` or below. */
  ghost predicate Gone(entries: Entries, root: Path) {
    forall p :: root <= p ==> p !in entries
  }

  datatype Outcome = Done | Failed | TooDeep

  /** A folder at `root` or below is deeper than `remove_folder` goes, `root` being at `depth`. */
  ghost predicate Deep(entries: Entries, root: Path, depth: nat) {
    exists p :: p in entries && root <= p && entries[p].Folder? && |p| - |root| + depth > MAX_DEPTH
  }

  lemma {:induction false} Ancestor(entries: Entries, p: Path, k: nat)
    requires Rooted(entries) && p in entries && k < |p|
    ensures p[..k] in entries && entries[p[..k]].Folder?
    decreases |p|
  {
    assert InFolder(entries, p);
    if k < |p| - 1 {
      Ancestor(entries, p[..|p| - 1], k);
      assert p[..|p| - 1][..k] == p[..k];
    }
  }

  /** What lies below a folder lies at one of its children or below. */
  lemma BelowChild(entries: Entries, folder: Path, p: Path)
    requires Rooted(entries) && p in entries && folder < p
    ensures p[|folder|] in Children(entries, folder) && folder + [p[|folder|]] <= p
  {
    assert folder + [p[|folder|]] == p[..|folder| + 1];
    if |folder| + 1 < |p| {
      Ancestor(entries, p, |folder| + 1);
    } else {
      assert p[..|folder| + 1] == p;
    }
    assert p[..|folder| + 1] in entries && p[..|folder| + 1][|folder|] == p[|folder|];
  }

  /** An entry with nothing in it can go. */
  lemma LeafGone(entries: Entries, path: Path)
    requires Rooted(entries) && path in entries && (entries[path].Folder? ==> Children(entries, path) == {})
    ensures Rooted(entries - {path}) && Gone(entries - {path}, path)
    ensures SameOutside(entries, entries - {path}, path)
  {
    forall p | p in entries ensures !(path < p) {
      if path < p {
        if entries[path].Folder? {
          BelowChild(entries, path, p);
        } else {
          assert p[..|path|] == path;
          Ancestor(entries, p, |path|);
        }
      }
    }
    forall p | path <= p ensures p !in entries - {path} {
      assert p == path || path < p;
    }
    forall p | p in entries - {path} ensures InFolder(entries - {path}, p) {
      assert InFolder(entries, p);
      assert p != [] && p[..|p| - 1] == path ==> path < p;
    }
  }

  lemma Widened(first: Entries, second: Entries, third: Entries, root: Path, child: Path)
    requires root <= child && SameOutside(first, second, root) && SameOutside(second, third, child)
    ensures SameOutside(first, third, root)
  {
  }

  /** Nothing changed at `root` and below. */
  ghost predicate SameBelow(before: Entries, after: Entries, root: Path) {
    forall p :: root <= p ==> (p in after <==> p in before) && (p in before ==> after[p] == before[p])
  }

  lemma OthersSame(before: Entries, after: Entries, folder: Path, name: string, other: string)
    requires SameOutside(before, after, folder + [name]) && other != name
    ensures SameBelow(before, after, folder + [other])
  {
    forall p | (p in before || p in after) && folder + [other] <= p ensures !(folder + [name] <= p) {
      assert p[|folder|] == other;
    }
  }

  /** The children of these names, and what lies below them. */
  ghost predicate Untouched(before: Entries, after: Entries, folder: Path, names: set<string>) {
    forall name <- names :: SameBelow(before, after, folder + [name])
  }

  lemma OthersUntouched(first: Entries, before: Entries, after: Entries, folder: Path, name: string, names: set<string>)
    requires Untouched(first, before, folder, names) && SameOutside(before, after, folder + [name])
    ensures Untouched(first, after, folder, names - {name})
  {
    forall other <- names - {name} ensures SameBelow(first, after, folder + [other]) {
      assert SameBelow(first, before, folder + [other]);
      OthersSame(before, after, folder, name, other);
    }
  }

  /** No folder is too deep below the children of these names. */
  ghost predicate Shallow(entries: Entries, folder: Path, names: set<string>, depth: nat) {
    forall name <- names :: !Deep(entries, folder + [name], depth + 1)
  }

  lemma OneMoreShallow(entries: Entries, folder: Path, all: set<string>, names: set<string>, name: string, depth: nat)
    requires Shallow(entries, folder, all - names, depth) && !Deep(entries, folder + [name], depth + 1)
    ensures Shallow(entries, folder, all - (names - {name}), depth)
  {
    forall other <- all - (names - {name}) ensures !Deep(entries, folder + [other], depth + 1) {
      assert other == name || other in all - names;
    }
  }

  lemma DeepSame(before: Entries, after: Entries, root: Path, depth: nat)
    requires SameBelow(before, after, root)
    ensures Deep(before, root, depth) == Deep(after, root, depth)
  {
  }

  lemma NoneDeep(entries: Entries, folder: Path, depth: nat)
    requires Rooted(entries) && depth <= MAX_DEPTH
    requires Shallow(entries, folder, Children(entries, folder), depth)
    ensures !Deep(entries, folder, depth)
  {
    if Deep(entries, folder, depth) {
      var name := DeepBelow(entries, folder, depth);
    }
  }

  lemma DeepBelow(entries: Entries, folder: Path, depth: nat) returns (name: string)
    requires Rooted(entries) && depth <= MAX_DEPTH && Deep(entries, folder, depth)
    ensures name in Children(entries, folder) && Deep(entries, folder + [name], depth + 1)
  {
    var p :| p in entries && folder <= p && entries[p].Folder? && |p| - |folder| + depth > MAX_DEPTH;
    BelowChild(entries, folder, p);
    name := p[|folder|];
  }

  lemma ChildGone(before: Entries, after: Entries, folder: Path, name: string)
    requires Shrunk(before, after) && Gone(after, folder + [name])
    ensures Children(after, folder) <= Children(before, folder) - {name}
  {
    forall p | p in after && |p| == |folder| + 1 && folder <= p ensures p[|folder|] != name {
      assert p == folder + [p[|folder|]];
    }
  }

  lemma DeepChild(before: Entries, entries: Entries, folder: Path, name: string, depth: nat)
    requires Shrunk(before, entries) && Deep(entries, folder + [name], depth + 1)
    ensures Deep(before, folder, depth)
  {
    var p :| p in entries && folder + [name] <= p && entries[p].Folder?
             && |p| - |folder + [name]| + depth + 1 > MAX_DEPTH;
    assert folder <= p;
  }

  // ----- copying -----

  /** The tree at `target` is the one that was at `source`. */
  ghost predicate SameTree(before: Entries, source: Path, after: Entries, target: Path) {
    forall p :: target <= p ==>
      && (p in after <==> source + p[|target|..] in before)
      && (p in after ==> after[p] == before[source + p[|target|..]])
  }

  /** Folders and files only. */
  ghost predicate Plain(entries: Entries, root: Path) {
    forall p :: p in entries && root <= p ==> entries[p].Folder? || entries[p].File?
  }

  /** What a copy may leave: folders and files of the source, the folders no deeper than a copy goes. */
  ghost predicate Partial(before: Entries, source: Path, after: Entries, target: Path, depth: nat) {
    forall p :: p in after && target <= p ==> PartialAt(before, source, after, target, depth, p)
  }

  ghost predicate PartialAt(before: Entries, source: Path, after: Entries, target: Path, depth: nat, p: Path)
    requires p in after && target <= p
  {
    var q := source + p[|target|..];
    && q in before
    && (if after[p].Folder? then before[q].Folder? && |p| - |target| + depth <= MAX_DEPTH
        else after[p].File? && before[q].File?)
  }

  /** A cleanup of what a copy leaves is never refused for its depth. */
  lemma PartialIsShallow(before: Entries, source: Path, after: Entries, target: Path, depth: nat)
    requires Partial(before, source, after, target, depth)
    ensures !Deep(after, target, depth) && Plain(after, target)
  {
  }

  /** Neither path leads to the other. */
  predicate Apart(a: Path, b: Path) {
    !(a <= b) && !(b <= a)
  }

  lemma ApartBelow(a: Path, b: Path, p: Path)
    requires Apart(a, b) && a <= p
    ensures !(b <= p)
  {
    if b <= p {
      Comparable(a, b, p);
    }
  }

  lemma Comparable(a: Path, b: Path, p: Path)
    requires a <= p && b <= p
    ensures a <= b || b <= a
  {
    if |a| <= |b| {
      assert b[..|a|] == a;
    } else {
      assert a[..|b|] == b;
    }
  }

  lemma SourceSame(before: Entries, after: Entries, source: Path, target: Path)
    requires Apart(source, target) && SameOutside(before, after, target)
    ensures SameBelow(before, after, source)
  {
    forall p | (p in before || p in after) && source <= p ensures !(target <= p) {
      ApartBelow(source, target, p);
    }
  }

  lemma ApartChildren(source: Path, target: Path, name: string)
    requires Apart(source, target)
    ensures Apart(source + [name], target + [name])
  {
    if source + [name] <= target + [name] {
      PrefixWithin(source, target, name);
    }
    if target + [name] <= source + [name] {
      PrefixWithin(target, source, name);
    }
  }

  lemma PrefixWithin(a: Path, b: Path, name: string)
    requires a + [name] <= b + [name]
    ensures a <= b
  {
    assert (b + [name])[..|a|] == (a + [name])[..|a|] == a;
    assert (b + [name])[..|a|] == b[..|a|];
  }

  lemma ChildPath(source: Path, target: Path, p: Path, q: Path)
    requires target < p && q == source + p[|target|..]
    ensures var name := p[|target|];
            && source < q && q[|source|] == name && target + [name] <= p
            && q == source + [name] + p[|target + [name]|..]
  {
  }

  /** Copying one child, of which nothing was at the target, adds to what was copied. */
  lemma PartialMore(before: Entries, middle: Entries, after: Entries, source: Path, target: Path,
                    name: string, depth: nat)
    requires Partial(before, source, middle, target, depth) && SameOutside(middle, after, target + [name])
    requires SameBelow(before, middle, source) && Partial(middle, source + [name], after, target + [name], depth + 1)
    ensures Partial(before, source, after, target, depth)
  {
    forall p | p in after && target <= p ensures PartialAt(before, source, after, target, depth, p) {
      if target + [name] <= p {
        ChildPath(source, target, p, source + p[|target|..]);
        assert PartialAt(middle, source + [name], after, target + [name], depth + 1, p);
      } else {
        assert PartialAt(before, source, middle, target, depth, p);
      }
    }
  }

  /** The copies of the children of these names are complete. */
  ghost predicate Complete(before: Entries, source: Path, after: Entries, target: Path, names: set<string>) {
    forall name <- names :: SameTree(before, source + [name], after, target + [name])
  }

  /** Nothing is at the target for any other name. */
  ghost predicate NothingElse(after: Entries, target: Path, names: set<string>) {
    forall p :: p in after && target < p ==> p[|target|] in names
  }

  lemma CompleteTree(before: Entries, source: Path, after: Entries, target: Path)
    requires Rooted(before) && source in before && before[source].Folder? && target in after && after[target].Folder?
    requires Complete(before, source, after, target, Children(before, source))
    requires NothingElse(after, target, Children(before, source))
    ensures SameTree(before, source, after, target)
  {
    forall p | target <= p
      ensures p in after <==> source + p[|target|..] in before
      ensures p in after ==> after[p] == before[source + p[|target|..]]
    {
      if p == target {
        assert source + p[|target|..] == source;
      } else {
        CompleteAt(before, source, after, target, p);
      }
    }
  }

  lemma CompleteAt(before: Entries, source: Path, after: Entries, target: Path, p: Path)
    requires Rooted(before) && target < p
    requires Complete(before, source, after, target, Children(before, source))
    requires NothingElse(after, target, Children(before, source))
    ensures p in after <==> source + p[|target|..] in before
    ensures p in after ==> after[p] == before[source + p[|target|..]]
  {
    var name := p[|target|];
    var q := source + p[|target|..];
    ChildPath(source, target, p, q);
    if name in Children(before, source) {
      assert SameTree(before, source + [name], after, target + [name]);
    } else if q in before {
      BelowChild(before, source, q);
    }
  }

  lemma CompleteMore(before: Entries, middle: Entries, after: Entries, source: Path, target: Path,
                     done: set<string>, name: string)
    requires Complete(before, source, middle, target, done) && NothingElse(middle, target, done) && name !in done
    requires SameBelow(before, middle, source)
    requires SameOutside(middle, after, target + [name]) && SameTree(middle, source + [name], after, target + [name])
    ensures Complete(before, source, after, target, done + {name}) && NothingElse(after, target, done + {name})
  {
    forall other <- done + {name} ensures SameTree(before, source + [other], after, target + [other]) {
      if other != name {
        OthersSame(middle, after, target, name, other);
        assert SameTree(before, source + [other], middle, target + [other]);
      }
    }
    forall p | p in after && target < p ensures p[|target|] in done + {name} {
      if p[|target|] != name {
        assert !(target + [name] <= p);
      }
    }
  }

  lemma ChildIn(before: Entries, after: Entries, folder: Path, name: string)
    requires name in Children(before, folder) && SameBelow(before, after, folder)
    ensures folder + [name] in after
  {
    var p :| p in before && |p| == |folder| + 1 && folder <= p && p[|folder|] == name;
    assert p == folder + [name];
  }

  lemma ChildThere(before: Entries, after: Entries, folder: Path, name: string)
    requires name in Children(before, folder) && SameBelow(before, after, folder + [name])
    ensures folder + [name] in after
  {
    var p :| p in before && |p| == |folder| + 1 && folder <= p && p[|folder|] == name;
    assert p == folder + [name];
  }

  /** What `copy_folder` accepts: folders and files, the folders not too deep. */
  ghost predicate Fit(entries: Entries, root: Path, depth: nat) {
    Plain(entries, root) && !Deep(entries, root, depth)
  }

  lemma FitChild(before: Entries, after: Entries, folder: Path, name: string, depth: nat)
    requires SameBelow(before, after, folder) && Fit(before, folder, depth)
    ensures Fit(after, folder, depth) && Fit(after, folder + [name], depth + 1)
  {
    if Deep(after, folder + [name], depth + 1) {
      DeepChild(after, after, folder, name, depth);
    }
  }

  /** Only what is fit is ever copied as a whole. */
  lemma CopiedIsFit(before: Entries, source: Path, after: Entries, target: Path, depth: nat)
    requires SameTree(before, source, after, target) && Partial(before, source, after, target, depth)
    ensures Fit(before, source, depth)
  {
    forall p | p in before && source <= p
      ensures before[p].Folder? || before[p].File?
      ensures before[p].Folder? ==> |p| - |source| + depth <= MAX_DEPTH
    {
      var q := target + p[|source|..];
      assert q[|target|..] == p[|source|..] && source + q[|target|..] == p;
      assert PartialAt(before, source, after, target, depth, q);
    }
  }

  lemma NextName(folder: Path, name: string, p: Path)
    requires folder + [name] <= p
    ensures folder < p && p[|folder|] == name
  {
  }

  lemma NotYet(entries: Entries, target: Path, done: set<string>, name: string)
    requires NothingElse(entries, target, done) && name !in done
    ensures Gone(entries, target + [name])
  {
    forall p | p in entries ensures !(target + [name] <= p) {
      if target + [name] <= p {
        NextName(target, name, p);
      }
    }
  }

  /** How far the loop of `copy_folder` has come. */
  ghost predicate Underway(before: Entries, source: Path, after: Entries, target: Path, done: set<string>, depth: nat) {
    && SameOutside(before, after, target) && Partial(before, source, after, target, depth)
    && NothingElse(after, target, done) && Complete(before, source, after, target, done)
  }

  lemma ChildReady(before: Entries, middle: Entries, source: Path, target: Path, done: set<string>,
                   name: string, depth: nat)
    requires Apart(source, target) && Underway(before, source, middle, target, done, depth)
    requires name in Children(before, source) - done
    ensures source + [name] in middle && Gone(middle, target + [name])
  {
    SourceSame(before, middle, source, target);
    ChildIn(before, middle, source, name);
    NotYet(middle, target, done, name);
  }

  lemma ChildCopied(before: Entries, middle: Entries, after: Entries, source: Path, target: Path, done: set<string>,
                    name: string, depth: nat, whole: bool)
    requires Apart(source, target) && Underway(before, source, middle, target, done, depth) && name !in done
    requires SameOutside(middle, after, target + [name])
    requires Partial(middle, source + [name], after, target + [name], depth + 1)
    requires whole ==> SameTree(middle, source + [name], after, target + [name])
    ensures SameOutside(before, after, target) && Partial(before, source, after, target, depth)
    ensures whole ==> Underway(before, source, after, target, done + {name}, depth)
  {
    SourceSame(before, middle, source, target);
    Widened(before, middle, after, target, target + [name]);
    PartialMore(before, middle, after, source, target, name, depth);
    if whole {
      CompleteMore(before, middle, after, source, target, done, name);
    }
  }

  lemma LeafAdded(entries: Entries, path: Path, entry: Entry)
    requires Rooted(entries) && path !in entries && InFolder(entries, path)
    ensures Rooted(entries[path := entry])
  {
    var after := entries[path := entry];
    forall p | p in after ensures InFolder(after, p) {
      assert InFolder(entries, p);
    }
  }

  /** A folder just made is all there is at the target. */
  lemma NewFolder(before: Entries, source: Path, target: Path, depth: nat)
    requires Rooted(before) && Gone(before, target) && Apart(source, target) && depth <= MAX_DEPTH
    requires source in before && before[source].Folder?
    requires target != [] && InFolder(before, target)
    ensures var after := before[target := Folder];
            && Rooted(after) && SameOutside(before, after, target) && NothingElse(after, target, {})
            && Partial(after, source, after, target, depth)
  {
    assert source + target[|target|..] == source;
    LeafAdded(before, target, Folder);
  }

  /** A copy of a source that has not changed in between. */
  lemma FromSame(first: Entries, before: Entries, source: Path, after: Entries, target: Path, depth: nat)
    requires SameBelow(first, before, source) && Partial(before, source, after, target, depth)
    ensures Partial(first, source, after, target, depth)
    ensures SameTree(before, source, after, target) ==> SameTree(first, source, after, target)
  {
  }

  /** Nothing or one file at the target. */
  lemma FileCopied(before: Entries, after: Entries, source: Path, target: Path, depth: nat, whole: bool)
    requires Rooted(before) && source in before && before[source].File? && Gone(before, target)
    requires target != [] && InFolder(before, target)
    requires after == before || (target in after && after[target].File? && after == before[target := after[target]])
    requires whole ==> after == before[target := before[source]]
    ensures Rooted(after) && SameOutside(before, after, target) && Partial(before, source, after, target, depth)
    ensures whole ==> SameTree(before, source, after, target)
  {
    assert source + target[|target|..] == source;
    if after != before {
      LeafAdded(before, target, after[target]);
    }
    LeafGone(before, source);
    forall p | target <= p && p != target ensures p !in after && source + p[|target|..] !in before {
      var q := source + p[|target|..];
      assert source < q && (q in before ==> q in before - {source});
    }
  }

  class Storage {
    var entries: Entries
    ghost var fault: bool  // the system has refused something that was in order

    constructor (entries: Entries)
      ensures this.entries == entries && !fault
    {
      this.entries, fault := entries, false;
    }

    predicate CanDelete(path: Path)
      reads this
    {
      path in entries && (entries[path].Folder? ==> Children(entries, path) == {})
    }

    /** `g_file_delete`: one entry, which is a link, a file or an empty folder. Any call may fail. */
    method Delete(path: Path) returns (ok: bool)
      modifies this
      ensures old(fault) ==> fault
      ensures !fault ==> ok == old(CanDelete(path))
      ensures ok ==> old(CanDelete(path))
      ensures entries == if ok then old(entries) - {path} else old(entries)
    {
      if !CanDelete(path) {
        return false;
      }
      ok := *;
      fault := fault || !ok;
      if ok {
        entries := entries - {path};
      }
    }

    /** `remove_folder` */
    method RemoveFolder(path: Path, depth: nat) returns (r: Outcome)
      requires depth <= MAX_DEPTH + 1 && Rooted(entries)
      modifies this
      ensures Rooted(entries) && SameOutside(old(entries), entries, path) && Shrunk(old(entries), entries)
      ensures r.Done? ==> Gone(entries, path) && !Deep(old(entries), path, depth)
      ensures r.TooDeep? ==> Deep(old(entries), path, depth)
      ensures old(fault) ==> fault
      ensures !fault && path in old(entries) ==> !r.Failed?
      decreases MAX_DEPTH + 1 - depth, 1
    {
      if path !in entries {
        return Failed;
      }
      if entries[path].Folder? {
        if depth > MAX_DEPTH {
          assert path <= path;
          return TooDeep;
        }
        r := RemoveChildren(path, depth);
        if !r.Done? {
          return;
        }
      }
      if CanDelete(path) {
        LeafGone(entries, path);
      }
      var ok := Delete(path);
      r := if ok then Done else Failed;
    }

    /** The loop of `remove_folder`. */
    method RemoveChildren(path: Path, depth: nat) returns (r: Outcome)
      requires depth <= MAX_DEPTH && Rooted(entries) && path in entries && entries[path].Folder?
      modifies this
      ensures Rooted(entries) && SameOutside(old(entries), entries, path) && Shrunk(old(entries), entries)
      ensures path in entries
      ensures r.Done? ==> Children(entries, path) == {} && !Deep(old(entries), path, depth)
      ensures r.TooDeep? ==> Deep(old(entries), path, depth)
      ensures old(fault) ==> fault
      ensures !fault ==> !r.Failed?
      decreases MAX_DEPTH + 1 - depth, 0
    {
      var names := Children(entries, path);
      while names != {}
        invariant Rooted(entries) && SameOutside(old(entries), entries, path) && Shrunk(old(entries), entries)
        invariant path in entries
        invariant Children(entries, path) <= names <= Children(old(entries), path)
        invariant Untouched(old(entries), entries, path, names)
        invariant Shallow(old(entries), path, Children(old(entries), path) - names, depth)
        invariant old(fault) ==> fault
        decreases |names|
      {
        var name :| name in names;
        var child := path + [name];
        ghost var before := entries;
        DeepSame(old(entries), before, child, depth + 1);
        ChildThere(old(entries), before, path, name);
        r := RemoveFolder(child, depth + 1);
        Widened(old(entries), before, entries, path, child);
        if r.TooDeep? {
          DeepChild(old(entries), before, path, name, depth);
        }
        if !r.Done? {
          return;
        }
        ChildGone(before, entries, path, name);
        OthersUntouched(old(entries), before, entries, path, name, names);
        OneMoreShallow(old(entries), path, Children(old(entries), path), names, name, depth);
        names := names - {name};
      }
      assert Children(old(entries), path) - {} == Children(old(entries), path);
      NoneDeep(old(entries), path, depth);
      r := Done;
    }

    predicate CanHold(path: Path)
      reads this
    {
      path !in entries && path != [] && InFolder(entries, path)
    }

    /** `g_file_make_directory` */
    method MakeFolder(path: Path) returns (ok: bool)
      modifies this
      ensures ok ==> old(CanHold(path)) && entries == old(entries)[path := Folder]
      ensures !ok ==> entries == old(entries)
      ensures old(fault) ==> fault
      ensures !fault ==> ok == old(CanHold(path))
    {
      if !CanHold(path) {
        return false;
      }
      ok := *;
      fault := fault || !ok;
      if ok {
        entries := entries[path := Folder];
      }
    }

    /** `g_file_copy` of a file, which does not overwrite; a failure may leave part of it. */
    method CopyFile(source: Path, target: Path) returns (ok: bool)
      requires source in entries && entries[source].File?
      modifies this
      ensures ok ==> old(CanHold(target)) && entries == old(entries)[target := old(entries)[source]]
      ensures !ok ==> entries == old(entries)
                      || (old(CanHold(target)) && exists part :: entries == old(entries)[target := File(part)])
      ensures old(fault) ==> fault
      ensures !fault ==> ok == old(CanHold(target))
    {
      ok := *;
      if !CanHold(target) {
        return false;
      }
      fault := fault || !ok;
      if ok {
        entries := entries[target := entries[source]];
      } else {
        var started: bool := *;
        var part: seq<nat> := *;
        if started {
          entries := entries[target := File(part)];
        }
      }
    }

    /** `copy_folder` */
    method CopyFolder(source: Path, target: Path, depth: nat) returns (ok: bool)
      requires depth <= MAX_DEPTH + 1 && Rooted(entries) && Apart(source, target)
      requires source in entries && entries[source].Folder? && Gone(entries, target)
      modifies this
      ensures Rooted(entries) && SameOutside(old(entries), entries, target)
      ensures Partial(old(entries), source, entries, target, depth)
      ensures ok ==> SameTree(old(entries), source, entries, target)
      ensures old(fault) ==> fault
      ensures ok ==> Fit(old(entries), source, depth)
      ensures !fault && old(CanHold(target)) ==> ok == Fit(old(entries), source, depth)
      decreases MAX_DEPTH + 1 - depth, 3
    {
      if depth > MAX_DEPTH {
        assert source <= source;
        return false;
      }
      ok := MakeFolder(target);
      if !ok {
        return;
      }
      NewFolder(old(entries), source, target, depth);
      ghost var made := entries;
      SourceSame(old(entries), made, source, target);
      if Fit(old(entries), source, depth) {
        FitChild(old(entries), made, source, "", depth);
      }
      ok := CopyChildren(source, target, depth);
      FromSame(old(entries), made, source, entries, target, depth);
      if ok {
        CopiedIsFit(old(entries), source, entries, target, depth);
      }
    }

    /** The loop of `copy_folder`. */
    method CopyChildren(source: Path, target: Path, depth: nat) returns (ok: bool)
      requires depth <= MAX_DEPTH && Rooted(entries) && Apart(source, target)
      requires source in entries && entries[source].Folder? && target in entries && entries[target].Folder?
      requires Partial(entries, source, entries, target, depth) && NothingElse(entries, target, {})
      modifies this
      ensures Rooted(entries) && SameOutside(old(entries), entries, target)
      ensures Partial(old(entries), source, entries, target, depth)
      ensures ok ==> SameTree(old(entries), source, entries, target)
      ensures old(fault) ==> fault
      ensures !fault && Fit(old(entries), source, depth) ==> ok
      decreases MAX_DEPTH + 1 - depth, 2
    {
      var names := Children(entries, source);
      ghost var done: set<string> := {};
      while names != {}
        invariant done !! names && done + names == Children(old(entries), source)
        invariant Rooted(entries) && target in entries && entries[target].Folder?
        invariant Underway(old(entries), source, entries, target, done, depth)
        invariant old(fault) ==> fault
        decreases names
      {
        var name :| name in names;
        ok := CopyNext(old(entries), source, target, done, name, depth);
        if !ok {
          return;
        }
        names, done := names - {name}, done + {name};
      }
      CompleteTree(old(entries), source, entries, target);
      ok := true;
    }

    method CopyNext(ghost first: Entries, source: Path, target: Path, ghost done: set<string>, name: string, depth: nat)
      returns (ok: bool)
      requires depth <= MAX_DEPTH && Rooted(entries) && Apart(source, target)
      requires Underway(first, source, entries, target, done, depth) && name in Children(first, source) && name !in done
      requires target in entries && entries[target].Folder?
      modifies this
      ensures Rooted(entries) && target in entries && entries[target].Folder?
      ensures SameOutside(first, entries, target) && Partial(first, source, entries, target, depth)
      ensures ok ==> Underway(first, source, entries, target, done + {name}, depth)
      ensures old(fault) ==> fault
      ensures !fault && Fit(first, source, depth) ==> ok
      decreases MAX_DEPTH + 1 - depth, 1
    {
      ChildReady(first, entries, source, target, done, name, depth);
      SourceSame(first, entries, source, target);
      if Fit(first, source, depth) {
        FitChild(first, entries, source, name, depth);
      }
      ok := CopyChild(source, target, name, depth);
      ChildCopied(first, old(entries), entries, source, target, done, name, depth, ok);
    }

    /** The loop body: links and special files are refused. */
    method CopyChild(source: Path, target: Path, name: string, depth: nat) returns (ok: bool)
      requires depth <= MAX_DEPTH && Rooted(entries) && Apart(source, target)
      requires source + [name] in entries && Gone(entries, target + [name])
      requires target in entries && entries[target].Folder?
      modifies this
      ensures Rooted(entries) && SameOutside(old(entries), entries, target + [name])
      ensures target in entries && entries[target].Folder?
      ensures Partial(old(entries), source + [name], entries, target + [name], depth + 1)
      ensures ok ==> SameTree(old(entries), source + [name], entries, target + [name])
      ensures old(fault) ==> fault
      ensures !fault && Fit(old(entries), source + [name], depth + 1) ==> ok
      decreases MAX_DEPTH + 1 - depth, 0
    {
      var src, dst := source + [name], target + [name];
      assert src <= src && dst <= dst && dst[..|dst| - 1] == target;
      if entries[src].Link? || entries[src].Special? {
        return false;
      }
      if entries[src].Folder? {
        ApartChildren(source, target, name);
        ok := CopyFolder(src, dst, depth + 1);
        assert !(dst <= target);
      } else {
        ok := CopyFile(src, dst);
        FileCopied(old(entries), entries, src, dst, depth + 1, ok);
      }
    }

    /** `g_file_move` within one folder's file system: it does not overwrite. */
    method Move(source: Path, target: Path) returns (ok: bool)
      requires source in entries && Apart(source, target) && Rooted(entries)
      modifies this
      ensures ok ==> old(CanHold(target)) && Moved(old(entries), entries, source, target)
      ensures !ok ==> entries == old(entries)
      ensures Rooted(entries)
      ensures old(fault) ==> fault
      ensures !fault ==> ok == old(CanHold(target))
    {
      if !CanHold(target) {
        return false;
      }
      ok := *;
      fault := fault || !ok;
      if ok {
        ghost var before := entries;
        var kept := map p | p in entries && !(source <= p) :: entries[p];
        var names := set p | p in entries && source <= p :: target + p[|source|..];
        CanMove(entries, source, target, names);
        NothingBelow(entries, target);
        entries := kept + map q | q in names :: entries[source + q[|target|..]];
        MovedIs(before, entries, source, target);
        MovedRooted(before, entries, source, target);
      }
    }

    /** `g_file_test(path, EXISTS)`, which follows a link to something or nothing. */
    method Exists(path: Path) returns (r: bool)
      ensures path !in entries ==> !r
      ensures path in entries && !entries[path].Link? ==> r
    {
      r := path in entries;
      if r && entries[path].Link? {
        r := *;
      }
    }

    /** A folder that holds a regular `level.dat`. */
    predicate Recognized(path: Path)
      reads this
    {
      path + ["level.dat"] in entries && entries[path + ["level.dat"]].File?
    }

    /** Makes the storage folder unless it is there; false if it cannot be used. */
    method OpenStorage(base: Path) returns (ok: bool)
      requires Rooted(entries)
      modifies this
      ensures Rooted(entries) && (entries == old(entries) || entries == WithStorage(old(entries), base))
      ensures ok ==> entries == WithStorage(old(entries), base)
                     && base + [WORLDS] in entries && entries[base + [WORLDS]].Folder?
      ensures old(fault) ==> fault
      ensures !fault ==> ok == CanStore(old(entries), base)
    {
      var storage := base + [WORLDS];
      if base !in entries || !entries[base].Folder? {
        return false;
      }
      if storage in entries {
        return entries[storage].Folder?;
      }
      ok := MakeFolder(storage);
      assert storage[..|storage| - 1] == base;
      LeafAdded(old(entries), storage, Folder);
    }

    /**
     `import_worker`: the copy appears as a whole under a new name, or what was copied is removed again. Unless the
     system refuses something that is in order, every world that can be imported is.
     */
    method Import(base: Path, source: Path, uuid: string) returns (r: ImportResult)
      requires Rooted(entries) && base + [WORLDS, STAGING + uuid] !in entries
      modifies this
      ensures Rooted(entries)
      ensures r.Refused? ==> entries == old(entries) || entries == WithStorage(old(entries), base)
      ensures r.Imported? ==>
                var storage := WithStorage(old(entries), base);
                && |r.target| == |base| + 2 && base + [WORLDS] <= r.target
                && Gone(storage, r.target) && SameOutside(storage, entries, r.target)
                && SameTree(storage, source, entries, r.target) && Plain(storage, source) && Plain(entries, r.target)
                && source != []
                && r.target == ChosenTarget(storage, base + [WORLDS], source[|source| - 1], uuid)
      ensures r.NotImported? ==>
                var storage := WithStorage(old(entries), base);
                && !r.cleanup.TooDeep? && SameOutside(storage, entries, base + [WORLDS, STAGING + uuid])
                && (r.cleanup.Done? || base + [WORLDS, STAGING + uuid] !in entries ==> entries == storage)
      ensures old(fault) ==> fault
      ensures !fault ==> r.Refused? == !Acceptable(old(entries), base, source)
      ensures !fault && Acceptable(old(entries), base, source) ==>
                var storage := WithStorage(old(entries), base);
                && (r.Imported? ==> Fit(storage, source, 0))
                && (Fit(storage, source, 0) && NameFree(storage, base + [WORLDS], source, uuid) ==> r.Imported?)
                && (r.NotImported? ==> entries == storage)
    {
      if !Recognized(source) || source <= base || source <= base + [WORLDS] {
        return Refused;
      }
      var name := source[|source| - 1];
      if name != "" && name[0] == '.' {
        return Refused;
      }
      assert (source + ["level.dat"])[..|source|] == source && InFolder(entries, source + ["level.dat"]);
      var ready := OpenStorage(base);
      if !ready {
        return Refused;
      }
      assert base + [WORLDS, STAGING + uuid] == base + [WORLDS] + [STAGING + uuid];
      ghost var prepared := entries;
      r := Stage(base + [WORLDS], source, name, uuid);
      if r.Imported? {
        PlainSource(prepared, source, entries, r.target);
      }
    }

    /** The world's name or, if something has it, the longer one. */
    method ChooseTarget(storage: Path, name: string, uuid: string) returns (target: Path)
      requires name != "" ==> name[0] != '.'
      ensures |target| == |storage| + 1 && storage <= target && Apart(storage + [STAGING + uuid], target)
      ensures target == storage + [name] || target == storage + [name + "-" + uuid]
      ensures Available(entries, storage, name, uuid) ==> target !in entries
      ensures target !in entries ==> target == ChosenTarget(entries, storage, name, uuid)
    {
      target := storage + [name];
      var taken := Exists(target);
      if taken {
        target := storage + [name + "-" + uuid];
      }
      assert (STAGING + uuid)[0] == '.' && (target[|storage|] == "" || target[|storage|][0] != '.');
      SiblingsApart(storage, STAGING + uuid, target[|storage|]);
    }

    lemma StillAvailable(before: Entries, storage: Path, name: string, uuid: string)
      requires SameOutside(before, entries, storage + [STAGING + uuid]) && (name != "" ==> name[0] != '.')
      ensures Available(before, storage, name, uuid) ==> Available(entries, storage, name, uuid)
      ensures ChosenTarget(before, storage, name, uuid) == ChosenTarget(entries, storage, name, uuid)
    {
      assert (STAGING + uuid)[0] == '.';
      SiblingsApart(storage, STAGING + uuid, name);
      assert name + "-" + uuid == "" || (name + "-" + uuid)[0] != '.';
      SiblingsApart(storage, STAGING + uuid, name + "-" + uuid);
    }

    /** Copying to the staging folder, and renaming it or cleaning up. */
    method Stage(storage: Path, source: Path, name: string, uuid: string) returns (r: ImportResult)
      requires Rooted(entries) && storage in entries && entries[storage].Folder?
      requires source in entries && entries[source].Folder? && !(source <= storage)
      requires storage + [STAGING + uuid] !in entries && (name != "" ==> name[0] != '.')
      modifies this
      ensures Rooted(entries) && !r.Refused?
      ensures r.Imported? ==>
                && |r.target| == |storage| + 1 && storage <= r.target
                && Gone(old(entries), r.target) && SameOutside(old(entries), entries, r.target)
                && SameTree(old(entries), source, entries, r.target) && Plain(entries, r.target)
      ensures r.NotImported? ==>
                && !r.cleanup.TooDeep? && SameOutside(old(entries), entries, storage + [STAGING + uuid])
                && (r.cleanup.Done? || storage + [STAGING + uuid] !in entries ==> entries == old(entries))
      ensures old(fault) ==> fault
      ensures r.Imported? ==> r.target == ChosenTarget(old(entries), storage, name, uuid)
      ensures r.Imported? ==> Fit(old(entries), source, 0)
      ensures !fault && Fit(old(entries), source, 0) && Available(old(entries), storage, name, uuid) ==> r.Imported?
      ensures !fault && r.NotImported? ==> entries == old(entries)
    {
      var staging := storage + [STAGING + uuid];
      NothingBelow(entries, staging);
      StagingApart(entries, storage, source, staging);
      var copied := CopyFolder(source, staging, 0);
      ghost var staged := entries;
      PartialIsShallow(old(entries), source, staged, staging, 0);
      StillAvailable(old(entries), storage, name, uuid);
      var target := ChooseTarget(storage, name, uuid);
      if copied {
        assert staging + [] == staging && source + [] == source;
        var moved := Move(staging, target);
        if moved {
          ImportedTree(old(entries), staged, entries, source, staging, target);
          return Imported(target);
        }
      }
      var cleanup := RemoveFolder(staging, 0);
      Widened(old(entries), staged, entries, staging, staging);
      if staging !in entries {
        NothingBelow(entries, staging);
        Restored(old(entries), entries, staging);
      }
      r := NotImported(cleanup);
    }
  }

  // ----- importing -----

  const WORLDS := "worlds"
  const STAGING := ".world-import-"

  datatype ImportResult = Imported(target: Path) | Refused | NotImported(cleanup: Outcome)

  predicate CanStore(entries: Entries, base: Path) {
    base in entries && entries[base].Folder? && (base + [WORLDS] in entries ==> entries[base + [WORLDS]].Folder?)
  }

  /** A world folder that is not hidden and not around the storage, and a server that can store it. */
  predicate Acceptable(entries: Entries, base: Path, source: Path) {
    && source + ["level.dat"] in entries && entries[source + ["level.dat"]].File?
    && !(source <= base) && !(source <= base + [WORLDS])
    && (source[|source| - 1] != "" ==> source[|source| - 1][0] != '.')
    && CanStore(entries, base)
  }

  /** The world's name is free or, if something other than a link has it, the longer one is. */
  predicate Available(entries: Entries, storage: Path, name: string, uuid: string) {
    storage + [name] in entries ==> !entries[storage + [name]].Link? && storage + [name + "-" + uuid] !in entries
  }

  predicate NameFree(entries: Entries, storage: Path, source: Path, uuid: string) {
    source != [] ==> Available(entries, storage, source[|source| - 1], uuid)
  }

  /** The world's name, or the longer one if something has it. */
  function ChosenTarget(entries: Entries, storage: Path, name: string, uuid: string): Path {
    storage + [if storage + [name] in entries then name + "-" + uuid else name]
  }

  function WithStorage(entries: Entries, base: Path): Entries {
    if base + [WORLDS] in entries then entries else entries[base + [WORLDS] := Folder]
  }

  /** A tree that equals a copy without links or special files has none itself. */
  lemma PlainSource(before: Entries, source: Path, after: Entries, target: Path)
    requires SameTree(before, source, after, target) && Plain(after, target)
    ensures Plain(before, source)
  {
    forall p | p in before && source <= p ensures before[p].Folder? || before[p].File? {
      var q := target + p[|source|..];
      assert q[|target|..] == p[|source|..] && source + q[|target|..] == p;
    }
  }

  lemma StagingApart(entries: Entries, storage: Path, source: Path, staging: Path)
    requires source in entries && !(source <= storage) && staging !in entries && Gone(entries, staging)
    requires |staging| == |storage| + 1 && storage <= staging
    ensures Apart(source, staging)
  {
    if source <= staging {
      AboveChild(source, storage, staging);
    }
  }

  lemma AboveChild(p: Path, folder: Path, child: Path)
    requires p <= child && folder <= child && |child| == |folder| + 1
    ensures p <= folder || p == child
  {
    Comparable(p, folder, child);
    assert |p| == |child| ==> p == child[..|child|];
  }

  lemma SiblingsApart(folder: Path, a: string, b: string)
    requires a != b
    ensures Apart(folder + [a], folder + [b])
  {
    assert (folder + [a])[|folder|] != (folder + [b])[|folder|];
  }

  lemma Restored(before: Entries, after: Entries, root: Path)
    requires SameOutside(before, after, root) && Gone(before, root) && Gone(after, root)
    ensures before == after
  {
    forall p | p in before || p in after ensures !(root <= p) {
    }
  }

  /** The staged tree, moved to a free name, is all that is new. */
  lemma ImportedTree(before: Entries, staged: Entries, after: Entries, source: Path, staging: Path, target: Path)
    requires Apart(source, staging) && Apart(staging, target) && Gone(before, staging) && Rooted(staged)
    requires SameOutside(before, staged, staging) && SameTree(before, source, staged, staging) && Plain(staged, staging)
    requires target !in staged && Moved(staged, after, staging, target)
    ensures Gone(before, target) && SameOutside(before, after, target)
    ensures SameTree(before, source, after, target) && Plain(after, target)
  {
    NothingBelow(staged, target);
    forall p | (p in staged || p in after || p in before) && target <= p ensures !(staging <= p) {
      ApartBelow(target, staging, p);
    }
  }

  // ----- moving -----

  /** The tree is at the target, and nowhere else; all else is as before. */
  ghost predicate Moved(before: Entries, after: Entries, source: Path, target: Path) {
    && SameTree(before, source, after, target) && Gone(after, source)
    && forall p :: !(source <= p) && !(target <= p) ==>
         (p in after <==> p in before) && (p in before ==> after[p] == before[p])
  }

  lemma CanMove(entries: Entries, source: Path, target: Path, names: set<Path>)
    requires names == set p | p in entries && source <= p :: target + p[|source|..]
    ensures forall q :: q in names <==> target <= q && source + q[|target|..] in entries
  {
    forall q ensures q in names <==> target <= q && source + q[|target|..] in entries {
      if q in names {
        var p :| p in entries && source <= p && q == target + p[|source|..];
        assert q[|target|..] == p[|source|..] && source + q[|target|..] == p;
      }
      if target <= q && source + q[|target|..] in entries {
        var p := source + q[|target|..];
        assert p[|source|..] == q[|target|..] && q == target + p[|source|..];
      }
    }
  }

  lemma SameLength(root: Path, p: Path)
    requires root <= p && |root| == |p|
    ensures root == p
  {
  }

  lemma NothingBelow(entries: Entries, root: Path)
    requires Rooted(entries) && root !in entries
    ensures Gone(entries, root)
  {
    forall p | p in entries ensures !(root <= p) {
      if root <= p {
        if |root| < |p| {
          assert p[..|root|] == root;
          Ancestor(entries, p, |root|);
        } else {
          SameLength(root, p);
        }
      }
    }
  }

  lemma MovedIs(before: Entries, after: Entries, source: Path, target: Path)
    requires Apart(source, target) && Gone(before, target)
    requires forall q :: q in after <==>
               (q in before && !(source <= q)) || (target <= q && source + q[|target|..] in before)
    requires forall q :: q in after ==> after[q] == if target <= q then before[source + q[|target|..]] else before[q]
    ensures Moved(before, after, source, target)
  {
    forall p | p in after && source <= p ensures false {
      ApartBelow(source, target, p);
    }
  }

  lemma MovedRooted(before: Entries, after: Entries, source: Path, target: Path)
    requires Rooted(before) && Apart(source, target) && Moved(before, after, source, target)
    requires target != [] && InFolder(before, target)
    ensures Rooted(after)
  {
    forall p | p in after ensures InFolder(after, p) {
      if p != [] {
        MovedParent(before, after, source, target, p, p[..|p| - 1]);
      }
    }
  }

  lemma MovedParent(before: Entries, after: Entries, source: Path, target: Path, p: Path, parent: Path)
    requires Rooted(before) && Apart(source, target) && Moved(before, after, source, target)
    requires target != [] && InFolder(before, target)
    requires p in after && p != [] && parent == p[..|p| - 1]
    ensures parent in after && after[parent].Folder?
  {
    if target < p {
      SameParent(source, target, p, parent);
      assert InFolder(before, source + p[|target|..]);
    } else {
      assert parent < p && !(target <= parent) && !(source <= p);
      assert p == target || (!(target <= p) && p in before);
      assert InFolder(before, p);
    }
  }

  lemma SameParent(source: Path, target: Path, p: Path, parent: Path)
    requires target < p && parent == p[..|p| - 1]
    ensures var q := source + p[|target|..];
            target <= parent && q != [] && q[..|q| - 1] == source + parent[|target|..]
  {
  }
}
