/** The mutable `Reader` and the tags it cuts out of the input. */
module NbtReader {
  import opened Bytes
  import opened Wrappers
  import opened Nbt

  /** A value's bytes and type; kind 0 is the absent tag. */
  datatype Tag = Tag(kind: nat, bytes: seq<Byte>)

  const ABSENT: Tag := Tag(0, [])

  /** Where a walk ends and what budget it leaves, forgetting the tree. */
  function Outcome<T>(o: Option<Parsed<T>>): Option<(seq<Byte>, nat)> {
    if o.None? then None else Some((o.value.rest, o.value.left))
  }

  /** The pointer pair `p`, `end` is held as the bytes between them. */
  class Reader {
    var unread: seq<Byte>
    var remaining: nat

    constructor (data: seq<Byte>, budget: nat)
      ensures unread == data && remaining == budget
    {
      unread, remaining := data, budget;
    }

    /** `take` */
    method Take(count: nat) returns (ok: bool)
      modifies `unread
      ensures ok == (count <= |old(unread)|)
      ensures unread == if ok then old(unread)[count..] else old(unread)
    {
      if count > |unread| {
        return false;
      }
      unread := unread[count..];
      return true;
    }

    /** `text` */
    method TextValue() returns (ok: bool, value: seq<Byte>)
      modifies `unread
      ensures (if ok then Some((value, unread)) else None) == ReadText(old(unread))
    {
      if |unread| < 2 {
        return false, [];
      }
      var size := Be16(unread[0], unread[1]);
      unread := unread[2..];
      if size > |unread| {
        return false, [];
      }
      value := unread[..size];
      ok := Take(size);
      assert old(unread)[2..2 + size] == value && old(unread)[2..][size..] == old(unread)[2 + size..];
    }

    /** `skip`, types 7, 11 and 12 */
    method SkipArray(kind: nat) returns (ok: bool)
      modifies `unread
      ensures (if ok then Some((unread, remaining)) else None) == Outcome(ReadArray(kind, old(unread), remaining))
    {
      if |unread| < 4 {
        return false;
      }
      var count := Be32(unread, 0);
      unread := unread[4..];
      if !ArrayFits(kind, count) {
        return false;
      }
      ok := Take(ArrayBytes(kind, count));
      assert ok ==> old(unread)[4..][ArrayBytes(kind, count)..] == old(unread)[4 + ArrayBytes(kind, count)..];
    }

    /** `skip`: the recursive walk, in place. */
    method Skip(kind: nat, depth: nat) returns (ok: bool)
      modifies this
      ensures (if ok then Some((unread, remaining)) else None)
           == Outcome(Read(kind, old(unread), depth, old(remaining)))
      decreases remaining, 0
    {
      if depth > MAX_DEPTH || remaining == 0 {
        return false;
      }
      remaining := remaining - 1;
      if 1 <= kind <= 6 {
        ok := Take(Width(kind));
      } else if kind == 8 {
        var value;
        ok, value := TextValue();
      } else if kind in {7, 11, 12} {
        ok := SkipArray(kind);
      } else if kind == 9 {
        ok := SkipList(depth);
      } else if kind == 10 {
        ok := SkipFields(depth + 1);
      } else {
        ok := false;
      }
    }

    /** `skip`, type 9 (lines 39-45) */
    method SkipList(depth: nat) returns (ok: bool)
      requires depth <= MAX_DEPTH
      modifies this
      ensures (if ok then Some((unread, remaining)) else None)
           == Outcome(Read(9, old(unread), depth, old(remaining) + 1))
      decreases remaining, 2
    {
      if |unread| < 5 {
        return false;
      }
      var item, count := unread[0], Be32(unread, 1);
      unread := unread[5..];
      if count > remaining || (item == 0 && count != 0) {
        return false;
      }
      ok := SkipItems(item, count, depth + 1);
    }

    method SkipItems(item: nat, count: nat, depth: nat) returns (ok: bool)
      modifies this
      ensures (if ok then Some((unread, remaining)) else None)
              == Outcome(ReadItems(item, count, old(unread), depth, old(remaining)))
      decreases remaining, 1
    {
      for i := 0 to count
        invariant remaining <= old(remaining)
        invariant Outcome(ReadItems(item, count - i, unread, depth, remaining))
                  == Outcome(ReadItems(item, count, old(unread), depth, old(remaining)))
      {
        ok := Skip(item, depth);
        if !ok {
          return false;
        }
      }
      ok := true;
    }

    /** `skip`, type 10 (lines 46-53) */
    method SkipFields(depth: nat) returns (ok: bool)
      modifies this
      ensures (if ok then Some((unread, remaining)) else None)
              == Outcome(ReadFields(old(unread), depth, old(remaining)))
      decreases remaining, 1
    {
      while unread != []
        invariant remaining <= old(remaining)
        invariant Outcome(ReadFields(unread, depth, remaining))
                  == Outcome(ReadFields(old(unread), depth, old(remaining)))
        decreases |unread|
      {
        var child := unread[0];
        unread := unread[1..];
        if child == 0 {
          return true;
        }
        var name;
        ok, name := TextValue();
        if !ok {
          return false;
        }
        ok := Skip(child, depth);
        if !ok {
          return false;
        }
      }
      return false;
    }
  }

  // ----- named fields -----

  /** `field` on raw bytes: the first field named `key` before the walk ends or fails. */
  function Lookup(s: seq<Byte>, key: seq<Byte>, budget: nat): Tag
    decreases |s|
  {
    if s == [] || s[0] == 0 then ABSENT else
    var t := ReadText(s[1..]);
    if t.None? then ABSENT else
    var v := Read(s[0], t.value.1, 0, budget);
    if v.None? then ABSENT else
    if t.value.0 == key then Tag(s[0], t.value.1[..|t.value.1| - |v.value.rest|]) else
    Lookup(v.value.rest, key, v.value.left)
  }

  function FieldOf(compound: Tag, key: seq<Byte>): Tag {
    if compound.kind != 10 then ABSENT else Lookup(compound.bytes, key, BUDGET)
  }

  /** `field` */
  method FindField(compound: Tag, key: seq<Byte>) returns (tag: Tag)
    ensures tag == FieldOf(compound, key)
  {
    if compound.kind != 10 {
      return ABSENT;
    }
    var r := new Reader(compound.bytes, BUDGET);
    while r.unread != []
      invariant fresh(r)
      invariant Lookup(r.unread, key, r.remaining) == FieldOf(compound, key)
      decreases |r.unread|
    {
      var kind := r.unread[0];
      r.unread := r.unread[1..];
      if kind == 0 {
        break;
      }
      var ok, name := r.TextValue();
      if !ok {
        break;
      }
      var start := r.unread;
      ok := r.Skip(kind, 0);
      if !ok {
        break;
      }
      if name == key {
        return Tag(kind, start[..|start| - |r.unread|]);
      }
    }
    return ABSENT;
  }

  // ----- the same on the parsed tree -----

  function TagOf(v: Nbt): Tag
    requires Proper(v)
  {
    Tag(Kind(v), Write(v))
  }

  function FirstField(f: Fields, key: seq<Byte>): Option<Nbt> {
    match f
    case Stop => None
    case Field(name, value, tail) => if name == key then Some(value) else FirstField(tail, key)
  }

  /** The child of a compound by name; other values have none. */
  function Child(v: Nbt, key: seq<Byte>): Option<Nbt> {
    if v.Compound? then FirstField(v.fields, key) else None
  }

  function TagOfOption(o: Option<Nbt>): Tag
    requires o.Some? ==> Proper(o.value)
  {
    if o.None? then ABSENT else TagOf(o.value)
  }

  /** A subtree the root walk has accepted: any later walk has depth and budget enough for it. */
  predicate Accepted(v: Nbt) {
    Proper(v) && Height(v) <= MAX_DEPTH && Size(v) <= BUDGET
  }

  predicate AcceptedFields(f: Fields) {
    ProperFields(f) && FieldsHeight(f) <= MAX_DEPTH && FieldsSize(f) <= BUDGET
  }

  predicate AcceptedItems(item: nat, l: Items) {
    ProperItems(item, l) && ItemsHeight(l) <= MAX_DEPTH && ItemsSize(l) <= BUDGET
  }

  /** The tag of the first field named `key`, absent if there is none. */
  function FirstTag(f: Fields, key: seq<Byte>): Tag
    requires ProperFields(f)
  {
    match f
    case Stop => ABSENT
    case Field(name, value, tail) => if name == key then TagOf(value) else FirstTag(tail, key)
  }

  lemma {:induction false} LookupIsFirstTag(f: Fields, key: seq<Byte>, budget: nat)
    requires ProperFields(f) && FieldsHeight(f) <= MAX_DEPTH && FieldsSize(f) <= budget
    ensures Lookup(WriteFields(f), key, budget) == FirstTag(f, key)
    decreases f
  {
    match f
    case Stop =>
    case Field(name, value, tail) =>
      ReadWritten(value, WriteFields(tail), 0, budget);
      LookupStep(Kind(value), name, Write(value), WriteFields(tail), key, budget, value);
      LookupIsFirstTag(tail, key, budget - Size(value));
  }

  lemma {:induction false} FirstTagIsFirstField(f: Fields, key: seq<Byte>)
    requires ProperFields(f)
    ensures FirstField(f, key).Some? ==> Proper(FirstField(f, key).value)
    ensures FirstTag(f, key) == TagOfOption(FirstField(f, key))
    decreases f
  {
    if f.Field? {
      FirstTagIsFirstField(f.tail, key);
    }
  }

  lemma LookupStep(kind: Byte, name: seq<Byte>, w: seq<Byte>, more: seq<Byte>, key: seq<Byte>, budget: nat, value: Nbt)
    requires kind != 0 && |name| < 0x1_0000 && Size(value) <= budget
    requires Read(kind, w + more, 0, budget) == Some(Parsed(value, more, budget - Size(value)))
    ensures Lookup([kind] + (WriteText(name) + (w + more)), key, budget)
            == if name == key then Tag(kind, w) else Lookup(more, key, budget - Size(value))
  {
    FieldNameReads(kind, name, w + more);
    LookupHead([kind] + (WriteText(name) + (w + more)), name, w + more, key, budget);
    PrefixOf(w, more);
  }

  lemma PrefixOf(w: seq<Byte>, more: seq<Byte>)
    ensures (w + more)[..|w + more| - |more|] == w
  {
  }

  lemma LookupHead(s: seq<Byte>, name: seq<Byte>, after: seq<Byte>, key: seq<Byte>, budget: nat)
    requires s != [] && s[0] != 0 && ReadText(s[1..]) == Some((name, after))
    ensures Lookup(s, key, budget)
            == var v := Read(s[0], after, 0, budget);
               if v.None? then ABSENT
               else if name == key then Tag(s[0], after[..|after| - |v.value.rest|])
               else Lookup(v.value.rest, key, v.value.left)
  {
  }

  lemma FieldNameReads(kind: Byte, name: seq<Byte>, after: seq<Byte>)
    requires |name| < 0x1_0000
    ensures var s := [kind] + (WriteText(name) + after); s[0] == kind && ReadText(s[1..]) == Some((name, after))
  {
    var s := [kind] + (WriteText(name) + after);
    assert s[1..] == WriteText(name) + after;
    TextRoundTrip(s[1..], name, after);
  }

  lemma {:induction false} FirstFieldAccepted(f: Fields, key: seq<Byte>)
    requires AcceptedFields(f) && FirstField(f, key).Some?
    ensures Accepted(FirstField(f, key).value)
  {
    if f.name != key {
      FirstFieldAccepted(f.tail, key);
    }
  }

  /** Validate once, navigate freely: on an accepted tree `field` is exactly lookup by name in the tree. */
  lemma FieldIsChild(v: Nbt, key: seq<Byte>)
    requires Accepted(v)
    ensures Child(v, key).Some? ==> Accepted(Child(v, key).value)
    ensures FieldOf(TagOf(v), key) == TagOfOption(Child(v, key))
  {
    if v.Compound? {
      LookupIsFirstTag(v.fields, key, BUDGET);
      FirstTagIsFirstField(v.fields, key);
      if FirstField(v.fields, key).Some? {
        FirstFieldAccepted(v.fields, key);
      }
    }
  }

  /** `s` is the payload of an accepted compound. */
  predicate IsRoot(v: Nbt, s: seq<Byte>) {
    v.Compound? && Accepted(v) && Write(v) == s
  }

  /** The root walk at lines 144-149: one compound that uses up the input. */
  lemma RootIsAccepted(s: seq<Byte>)
    ensures (exists v :: IsRoot(v, s)) <==>
            (Read(10, s, 0, BUDGET).Some? && Read(10, s, 0, BUDGET).value.rest == [])
    ensures Read(10, s, 0, BUDGET).Some? && Read(10, s, 0, BUDGET).value.rest == [] ==>
              IsRoot(Read(10, s, 0, BUDGET).value.value, s)
  {
    if Read(10, s, 0, BUDGET).Some? && Read(10, s, 0, BUDGET).value.rest == [] {
      ReadIsWritten(10, s, 0, BUDGET);
      var v := Read(10, s, 0, BUDGET).value.value;
      assert Write(v) + [] == Write(v);
      assert IsRoot(v, s);
    }
    if exists v :: IsRoot(v, s) {
      var v :| IsRoot(v, s);
      ReadWritten(v, [], 0, BUDGET);
      assert s + [] == s;
    }
  }
}
