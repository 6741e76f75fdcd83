/**
 The NBT walker (`take`, `text`, `skip`, `field`): a recogniser with a depth limit
 and a value budget, against the tree serialisation it recognises.
 */
module Nbt {
  import opened Bytes
  import opened Wrappers

  const MAX_DEPTH: nat := 32
  const BUDGET: nat := 200000

  datatype Nbt =
    | Number(kind: nat, payload: seq<Byte>)             // types 1 to 6, fixed width
    | Text(text: seq<Byte>)                             // type 8
    | Array(kind: nat, count: nat, payload: seq<Byte>)  // types 7, 11 and 12
    | List(item: Byte, elems: Items)                    // type 9
    | Compound(fields: Fields)                          // type 10

  datatype Items = NoItems | Item(head: Nbt, tail: Items)
  datatype Fields = Stop | Field(name: seq<Byte>, value: Nbt, tail: Fields)

  function Kind(v: Nbt): nat {
    match v
    case Number(kind, _) => kind
    case Text(_) => 8
    case Array(kind, _, _) => kind
    case List(_, _) => 9
    case Compound(_) => 10
  }

  function Width(kind: nat): nat
    requires 1 <= kind <= 6
  {
    [1, 2, 4, 8, 4, 8][kind - 1]
  }

  /** Payload bytes of an array: elements of 1, 4 or 8 bytes. */
  function ArrayBytes(kind: nat, count: nat): nat {
    if kind == 7 then count else if kind == 11 then 4 * count else 8 * count
  }

  predicate ArrayFits(kind: nat, count: nat) {
    count <= if kind == 7 then MAX_NBT else if kind == 11 then MAX_NBT / 4 else MAX_NBT / 8
  }

  // ----- trees -----

  predicate Proper(v: Nbt)
    decreases v
  {
    match v
    case Number(kind, payload) => 1 <= kind <= 6 && |payload| == Width(kind)
    case Text(text) => |text| < 0x1_0000
    case Array(kind, count, payload) =>
      kind in {7, 11, 12} && ArrayFits(kind, count) && |payload| == ArrayBytes(kind, count)
    case List(item, elems) => ProperItems(item, elems) && Count(elems) < TWO32 && (item == 0 ==> elems.NoItems?)
    case Compound(fields) => ProperFields(fields)
  }

  predicate ProperItems(item: nat, l: Items)
    decreases l
  {
    match l
    case NoItems => true
    case Item(head, tail) => Kind(head) == item && Proper(head) && ProperItems(item, tail)
  }

  predicate ProperFields(f: Fields)
    decreases f
  {
    match f
    case Stop => true
    case Field(name, value, tail) => |name| < 0x1_0000 && Proper(value) && ProperFields(tail)
  }

  function Count(l: Items): nat {
    match l
    case NoItems => 0
    case Item(_, tail) => 1 + Count(tail)
  }

  /** Number of values in the tree, itself included: what the budget pays for. */
  function Size(v: Nbt): (n: nat)
    ensures n >= 1
  {
    match v
    case List(_, elems) => 1 + ItemsSize(elems)
    case Compound(fields) => 1 + FieldsSize(fields)
    case _ => 1
  }

  function ItemsSize(l: Items): (n: nat)
    ensures n >= Count(l)
  {
    match l
    case NoItems => 0
    case Item(head, tail) => Size(head) + ItemsSize(tail)
  }

  function FieldsSize(f: Fields): nat {
    match f
    case Stop => 0
    case Field(_, value, tail) => Size(value) + FieldsSize(tail)
  }

  function Max(a: int, b: int): int {
    if a < b then b else a
  }

  /** Nesting below the value. */
  function Height(v: Nbt): int {
    match v
    case List(_, elems) => 1 + ItemsHeight(elems)
    case Compound(fields) => 1 + FieldsHeight(fields)
    case _ => 0
  }

  function ItemsHeight(l: Items): int {
    match l
    case NoItems => -1
    case Item(head, tail) => Max(Height(head), ItemsHeight(tail))
  }

  function FieldsHeight(f: Fields): int {
    match f
    case Stop => -1
    case Field(_, value, tail) => Max(Height(value), FieldsHeight(tail))
  }

  // ----- serialisation -----

  function Be16Bytes(n: nat): (s: seq<Byte>)
    requires n < 0x1_0000
    ensures |s| == 2
  {
    [n / 256, n % 256]
  }

  function Be16(high: nat, low: nat): nat {
    256 * high + low
  }

  function WriteText(text: seq<Byte>): seq<Byte>
    requires |text| < 0x1_0000
  {
    Be16Bytes(|text|) + text
  }

  function Write(v: Nbt): seq<Byte>
    requires Proper(v)
    decreases v
  {
    match v
    case Number(_, payload) => payload
    case Text(text) => WriteText(text)
    case Array(_, count, payload) => Be32Bytes(count) + payload
    case List(item, elems) => [item] + (Be32Bytes(Count(elems)) + WriteItems(item, elems))
    case Compound(fields) => WriteFields(fields)
  }

  function WriteItems(item: nat, l: Items): seq<Byte>
    requires ProperItems(item, l)
    decreases l
  {
    match l
    case NoItems => []
    case Item(head, tail) => Write(head) + WriteItems(item, tail)
  }

  function WriteFields(f: Fields): seq<Byte>
    requires ProperFields(f)
    decreases f
  {
    match f
    case Stop => [0]
    case Field(name, value, tail) => [Kind(value)] + (WriteText(name) + (Write(value) + WriteFields(tail)))
  }

  // ----- the walk, as a function -----

  datatype Parsed<T> = Parsed(value: T, rest: seq<Byte>, left: nat)

  function ReadText(s: seq<Byte>): (r: Option<(seq<Byte>, seq<Byte>)>)
    ensures r.Some? ==> |r.value.0| < 0x1_0000 && |s| == 2 + |r.value.0| + |r.value.1|
  {
    if |s| < 2 then None else
    var n := Be16(s[0], s[1]);
    if n > |s| - 2 then None else Some((s[2..2 + n], s[2 + n..]))
  }

  function Read(kind: nat, s: seq<Byte>, depth: nat, budget: nat): (r: Option<Parsed<Nbt>>)
    ensures r.Some? ==> r.value.left < budget && |r.value.rest| <= |s| && Kind(r.value.value) == kind
    decreases budget, 0
  {
    if depth > MAX_DEPTH || budget == 0 then None else
    var left := budget - 1;
    if 1 <= kind <= 6 then
      var w := Width(kind);
      if w > |s| then None else Some(Parsed(Number(kind, s[..w]), s[w..], left))
    else if kind == 8 then
      var t := ReadText(s);
      if t.None? then None else Some(Parsed(Text(t.value.0), t.value.1, left))
    else if kind in {7, 11, 12} then
      ReadArray(kind, s, left)
    else if kind == 9 then
      if |s| < 5 then None else
      var (item, count) := (s[0], Be32(s, 1));
      if count > left || (item == 0 && count != 0) then None else
      var l := ReadItems(item, count, s[5..], depth + 1, left);
      if l.None? then None else Some(Parsed(List(item, l.value.value), l.value.rest, l.value.left))
    else if kind == 10 then
      var f := ReadFields(s, depth + 1, left);
      if f.None? then None else Some(Parsed(Compound(f.value.value), f.value.rest, f.value.left))
    else None
  }

  function ReadArray(kind: nat, s: seq<Byte>, left: nat): (r: Option<Parsed<Nbt>>)
    ensures r.Some? ==> r.value.left == left && |r.value.rest| <= |s| && Kind(r.value.value) == kind
  {
    if |s| < 4 then None else
    var count := Be32(s, 0);
    var n := ArrayBytes(kind, count);
    if !ArrayFits(kind, count) || n > |s| - 4 then None else
    Some(Parsed(Array(kind, count, s[4..4 + n]), s[4 + n..], left))
  }

  function ReadItems(item: nat, count: nat, s: seq<Byte>, depth: nat, budget: nat): (r: Option<Parsed<Items>>)
    ensures r.Some? ==> r.value.left <= budget && |r.value.rest| <= |s| && Count(r.value.value) == count
    decreases budget, 1
  {
    if count == 0 then Some(Parsed(NoItems, s, budget)) else
    var v := Read(item, s, depth, budget);
    if v.None? then None else
    var l := ReadItems(item, count - 1, v.value.rest, depth, v.value.left);
    if l.None? then None else Some(Parsed(Item(v.value.value, l.value.value), l.value.rest, l.value.left))
  }

  function ReadFields(s: seq<Byte>, depth: nat, budget: nat): (r: Option<Parsed<Fields>>)
    ensures r.Some? ==> r.value.left <= budget && |r.value.rest| < |s|
    decreases budget, 1
  {
    if s == [] then None else
    if s[0] == 0 then Some(Parsed(Stop, s[1..], budget)) else
    var t := ReadText(s[1..]);
    if t.None? then None else
    var v := Read(s[0], t.value.1, depth, budget);
    if v.None? then None else
    var f := ReadFields(v.value.rest, depth, v.value.left);
    if f.None? then None else
    Some(Parsed(Field(t.value.0, v.value.value, f.value.value), f.value.rest, f.value.left))
  }

  // ----- the recogniser accepts exactly the serialisations -----

  lemma TextRoundTrip(s: seq<Byte>, text: seq<Byte>, rest: seq<Byte>)
    ensures ReadText(s) == Some((text, rest)) <==> |text| < 0x1_0000 && s == WriteText(text) + rest
  {
    if ReadText(s).Some? {
      var n := Be16(s[0], s[1]);
      assert n / 256 == s[0] && n % 256 == s[1];
      assert s == [s[0], s[1]] + s[2..2 + n] + s[2 + n..];
    }
    if |text| < 0x1_0000 && s == WriteText(text) + rest {
      assert s[0] == |text| / 256 && s[1] == |text| % 256;
      assert s[2..2 + |text|] == text && s[2 + |text|..] == rest;
    }
  }

  lemma ArrayReads(kind: nat, count: nat, payload: seq<Byte>, rest: seq<Byte>, left: nat)
    requires Proper(Array(kind, count, payload))
    ensures ReadArray(kind, Be32Bytes(count) + payload + rest, left)
            == Some(Parsed(Array(kind, count, payload), rest, left))
  {
    var s := Be32Bytes(count) + payload + rest;
    assert s[0..4] == Be32Bytes(count);
    Be32RoundTrip(s, 0, count);
    assert s[4..4 + |payload|] == payload && s[4 + |payload|..] == rest;
  }

  lemma ArrayIsWritten(kind: nat, s: seq<Byte>, left: nat)
    requires kind in {7, 11, 12} && ReadArray(kind, s, left).Some?
    ensures var p := ReadArray(kind, s, left).value; Proper(p.value) && s == Write(p.value) + p.rest
  {
    var p := ReadArray(kind, s, left).value;
    Be32RoundTrip(s, 0, p.value.count);
    SplitAt(s, 4, |p.value.payload|);
  }

  lemma SplitAt(s: seq<Byte>, i: nat, n: nat)
    requires i + n <= |s|
    ensures s == (s[0..i] + s[i..i + n]) + s[i + n..]
  {
  }

  lemma Regroup3(a: seq<Byte>, b: seq<Byte>, c: seq<Byte>, d: seq<Byte>)
    ensures (a + (b + c)) + d == a + (b + (c + d))
  {
  }

  lemma Regroup4(a: seq<Byte>, b: seq<Byte>, c: seq<Byte>, d: seq<Byte>, e: seq<Byte>)
    ensures (a + (b + (c + d))) + e == a + (b + (c + (d + e)))
  {
  }

  /** A list header, and what the walk does with it. */
  lemma ReadListStep(item: Byte, count: Word32, body: seq<Byte>, depth: nat, budget: nat)
    requires depth <= MAX_DEPTH && count < budget && (item == 0 ==> count == 0)
    ensures var l := ReadItems(item, count, body, depth + 1, budget - 1);
            Read(9, [item] + (Be32Bytes(count) + body), depth, budget)
            == if l.None? then None else Some(Parsed(List(item, l.value.value), l.value.rest, l.value.left))
  {
    var s := [item] + (Be32Bytes(count) + body);
    assert s[1..5] == Be32Bytes(count);
    Be32RoundTrip(s, 1, count);
    assert s[5..] == body;
  }

  /** A field header, and what the walk does with it. */
  lemma ReadFieldStep(kind: Byte, name: seq<Byte>, after: seq<Byte>, depth: nat, budget: nat)
    requires kind != 0 && |name| < 0x1_0000
    ensures ReadFields([kind] + (WriteText(name) + after), depth, budget)
            == var v := Read(kind, after, depth, budget);
               if v.None? then None else
               var f := ReadFields(v.value.rest, depth, v.value.left);
               if f.None? then None else
               Some(Parsed(Field(name, v.value.value, f.value.value), f.value.rest, f.value.left))
  {
    var s := [kind] + (WriteText(name) + after);
    assert s[1..] == WriteText(name) + after;
    TextRoundTrip(s[1..], name, after);
  }

  lemma {:induction false} HeightBounds(v: Nbt)
    ensures Height(v) >= 0
    decreases v
  {
    match v
    case List(_, elems) => if elems.Item? { HeightBounds(elems.head); }
    case Compound(fields) => if fields.Field? { HeightBounds(fields.value); }
    case _ =>
  }

  /** `v`, serialised and followed by anything, is consumed exactly. */
  ghost predicate ReadsBack(v: Nbt, rest: seq<Byte>, depth: nat, budget: nat)
    requires Proper(v) && Size(v) <= budget
  {
    Read(Kind(v), Write(v) + rest, depth, budget) == Some(Parsed(v, rest, budget - Size(v)))
  }

  /** Completeness: a tree within the depth and the budget is read back whole, whatever follows it. */
  lemma {:induction false} ReadWritten(v: Nbt, rest: seq<Byte>, depth: nat, budget: nat)
    requires Proper(v) && depth + Height(v) <= MAX_DEPTH && Size(v) <= budget
    ensures ReadsBack(v, rest, depth, budget)
    decreases v
  {
    HeightBounds(v);
    match v
    case List(item, elems) =>
      ItemsReadWritten(item, elems, rest, depth + 1, budget - 1);
      ListReadWritten(item, elems, WriteItems(item, elems), rest, depth, budget);
    case Compound(fields) =>
      FieldsReadWritten(fields, rest, depth + 1, budget - 1);
      CompoundReadWritten(fields, rest, depth, budget);
    case _ => LeafReadWritten(v, rest, depth, budget);
  }

  lemma CompoundReadWritten(fields: Fields, rest: seq<Byte>, depth: nat, budget: nat)
    requires depth <= MAX_DEPTH && ProperFields(fields) && 1 + FieldsSize(fields) <= budget
    requires ReadFields(WriteFields(fields) + rest, depth + 1, budget - 1)
             == Some(Parsed(fields, rest, budget - 1 - FieldsSize(fields)))
    ensures ReadsBack(Compound(fields), rest, depth, budget)
  {
  }

  lemma ListReadWritten(item: Byte, elems: Items, body: seq<Byte>, rest: seq<Byte>, depth: nat, budget: nat)
    requires depth <= MAX_DEPTH && Proper(List(item, elems)) && 1 + ItemsSize(elems) <= budget
    requires body == WriteItems(item, elems)
    requires ReadItems(item, Count(elems), body + rest, depth + 1, budget - 1)
             == Some(Parsed(elems, rest, budget - 1 - ItemsSize(elems)))
    ensures ReadsBack(List(item, elems), rest, depth, budget)
  {
    var n := Count(elems);
    Regroup3([item], Be32Bytes(n), body, rest);
    ReadListStep(item, n, body + rest, depth, budget);
    assert Write(List(item, elems)) == [item] + (Be32Bytes(n) + body);
  }

  lemma LeafReadWritten(v: Nbt, rest: seq<Byte>, depth: nat, budget: nat)
    requires Proper(v) && depth <= MAX_DEPTH && budget > 0 && !v.List? && !v.Compound?
    ensures ReadsBack(v, rest, depth, budget)
  {
    var s := Write(v) + rest;
    match v
    case Number(kind, payload) =>
      assert s[..|payload|] == payload && s[|payload|..] == rest;
    case Text(text) => TextRoundTrip(s, text, rest);
    case Array(kind, count, payload) => ArrayReads(kind, count, payload, rest, budget - 1);
  }

  lemma {:induction false} ItemsReadWritten(item: nat, l: Items, rest: seq<Byte>, depth: nat, budget: nat)
    requires ProperItems(item, l) && depth + ItemsHeight(l) <= MAX_DEPTH && ItemsSize(l) <= budget
    ensures ReadItems(item, Count(l), WriteItems(item, l) + rest, depth, budget)
            == Some(Parsed(l, rest, budget - ItemsSize(l)))
    decreases l
  {
    match l
    case NoItems => assert WriteItems(item, l) + rest == rest;
    case Item(head, tail) =>
      var more := WriteItems(item, tail) + rest;
      Regroup2(Write(head), WriteItems(item, tail), rest);
      ReadWritten(head, more, depth, budget);
      ItemsReadWritten(item, tail, rest, depth, budget - Size(head));
      ItemReadWritten(item, Count(tail), head, tail, WriteItems(item, l) + rest, more, rest,
                      depth, budget, budget - Size(head), budget - ItemsSize(l));
  }

  /** One item in front of readable items, whatever bytes hold them. */
  lemma ItemReadWritten(item: nat, count: nat, head: Nbt, tail: Items, all: seq<Byte>, more: seq<Byte>,
                        rest: seq<Byte>, depth: nat, budget: nat, middle: nat, left: nat)
    requires Read(item, all, depth, budget) == Some(Parsed(head, more, middle))
    requires ReadItems(item, count, more, depth, middle) == Some(Parsed(tail, rest, left))
    ensures ReadItems(item, count + 1, all, depth, budget) == Some(Parsed(Item(head, tail), rest, left))
  {
  }

  ghost predicate FieldsReadBack(f: Fields, rest: seq<Byte>, depth: nat, budget: nat)
    requires ProperFields(f) && FieldsSize(f) <= budget
  {
    ReadFields(WriteFields(f) + rest, depth, budget) == Some(Parsed(f, rest, budget - FieldsSize(f)))
  }

  lemma StopReadWritten(rest: seq<Byte>, depth: nat, budget: nat)
    ensures FieldsReadBack(Stop, rest, depth, budget)
  {
    assert ([0] + rest)[1..] == rest;
  }

  lemma {:induction false} FieldsReadWritten(f: Fields, rest: seq<Byte>, depth: nat, budget: nat)
    requires ProperFields(f) && depth + FieldsHeight(f) <= MAX_DEPTH && FieldsSize(f) <= budget
    ensures FieldsReadBack(f, rest, depth, budget)
    decreases f
  {
    match f
    case Stop => StopReadWritten(rest, depth, budget);
    case Field(name, value, tail) =>
      ReadWritten(value, WriteFields(tail) + rest, depth, budget);
      FieldsReadWritten(tail, rest, depth, budget - Size(value));
      FieldReadWritten(name, value, Write(value), tail, WriteFields(tail), rest,
                       depth, budget, budget - Size(value), budget - FieldsSize(f));
  }

  /** One field in front of readable fields, whatever bytes `w` and `t` hold the value and the tail. */
  lemma FieldReadWritten(name: seq<Byte>, value: Nbt, w: seq<Byte>, tail: Fields, t: seq<Byte>, rest: seq<Byte>,
                         depth: nat, budget: nat, middle: nat, left: nat)
    requires |name| < 0x1_0000 && 0 < Kind(value) < 256
    requires Read(Kind(value), w + (t + rest), depth, budget) == Some(Parsed(value, t + rest, middle))
    requires ReadFields(t + rest, depth, middle) == Some(Parsed(tail, rest, left))
    ensures ReadFields(([Kind(value)] + (WriteText(name) + (w + t))) + rest, depth, budget)
            == Some(Parsed(Field(name, value, tail), rest, left))
  {
    Regroup4([Kind(value)], WriteText(name), w, t, rest);
    ReadFieldStep(Kind(value), name, w + (t + rest), depth, budget);
  }

  ghost predicate IsWritten(p: Parsed<Nbt>, s: seq<Byte>, depth: nat, budget: nat) {
    && Proper(p.value) && s == Write(p.value) + p.rest
    && depth + Height(p.value) <= MAX_DEPTH && p.left == budget - Size(p.value)
  }

  ghost predicate ItemsWritten(p: Parsed<Items>, item: nat, s: seq<Byte>, depth: nat, budget: nat) {
    && ProperItems(item, p.value) && s == WriteItems(item, p.value) + p.rest
    && depth + ItemsHeight(p.value) <= MAX_DEPTH && p.left == budget - ItemsSize(p.value)
  }

  ghost predicate FieldsWritten(p: Parsed<Fields>, s: seq<Byte>, depth: nat, budget: nat) {
    && ProperFields(p.value) && s == WriteFields(p.value) + p.rest
    && depth + FieldsHeight(p.value) <= MAX_DEPTH && p.left == budget - FieldsSize(p.value)
  }

  /** Soundness: what is consumed is one tree within the depth and the budget, and nothing else. */
  lemma {:induction false} ReadIsWritten(kind: nat, s: seq<Byte>, depth: nat, budget: nat)
    requires Read(kind, s, depth, budget).Some?
    ensures IsWritten(Read(kind, s, depth, budget).value, s, depth, budget)
    decreases budget, 0
  {
    if kind == 9 {
      ItemsAreWritten(s[0], Be32(s, 1), s[5..], depth + 1, budget - 1);
      ListIsWritten(s, depth, budget);
    } else if kind == 10 {
      FieldsAreWritten(s, depth + 1, budget - 1);
      CompoundIsWritten(s, depth, budget);
    } else {
      LeafIsWritten(kind, s, depth, budget);
    }
  }

  lemma LeafIsWritten(kind: nat, s: seq<Byte>, depth: nat, budget: nat)
    requires Read(kind, s, depth, budget).Some? && kind != 9 && kind != 10
    ensures IsWritten(Read(kind, s, depth, budget).value, s, depth, budget)
  {
    var p := Read(kind, s, depth, budget).value;
    if 1 <= kind <= 6 {
      assert s == s[..Width(kind)] + s[Width(kind)..];
    } else if kind == 8 {
      TextRoundTrip(s, p.value.text, p.rest);
    } else {
      ArrayIsWritten(kind, s, budget - 1);
    }
  }

  lemma ListIsWritten(s: seq<Byte>, depth: nat, budget: nat)
    requires Read(9, s, depth, budget).Some?
    requires ItemsWritten(ReadItems(s[0], Be32(s, 1), s[5..], depth + 1, budget - 1).value,
                          s[0], s[5..], depth + 1, budget - 1)
    ensures IsWritten(Read(9, s, depth, budget).value, s, depth, budget)
  {
    var l := ReadItems(s[0], Be32(s, 1), s[5..], depth + 1, budget - 1).value;
    ListBytes(s, WriteItems(s[0], l.value), l.rest);
  }

  lemma CompoundIsWritten(s: seq<Byte>, depth: nat, budget: nat)
    requires Read(10, s, depth, budget).Some?
    requires FieldsWritten(ReadFields(s, depth + 1, budget - 1).value, s, depth + 1, budget - 1)
    ensures IsWritten(Read(10, s, depth, budget).value, s, depth, budget)
  {
  }

  lemma ListBytes(s: seq<Byte>, body: seq<Byte>, rest: seq<Byte>)
    requires |s| >= 5 && s[5..] == body + rest
    ensures s == ([s[0]] + (Be32Bytes(Be32(s, 1)) + body)) + rest
  {
    Be32RoundTrip(s, 1, Be32(s, 1));
    assert s == [s[0]] + (s[1..5] + s[5..]);
    Regroup3([s[0]], s[1..5], body, rest);
  }

  lemma FieldBytes(s: seq<Byte>, name: seq<Byte>, value: seq<Byte>, tail: seq<Byte>, rest: seq<Byte>)
    requires s != [] && |name| < 0x1_0000 && s[1..] == WriteText(name) + (value + (tail + rest))
    ensures s == ([s[0]] + (WriteText(name) + (value + tail))) + rest
  {
    assert s == [s[0]] + s[1..];
    Regroup4([s[0]], WriteText(name), value, tail, rest);
  }

  lemma {:induction false} ItemsAreWritten(item: nat, count: nat, s: seq<Byte>, depth: nat, budget: nat)
    requires ReadItems(item, count, s, depth, budget).Some? && depth <= MAX_DEPTH + 1
    ensures ItemsWritten(ReadItems(item, count, s, depth, budget).value, item, s, depth, budget)
    decreases budget, 1
  {
    if count == 0 {
      assert s == [] + s;
    } else {
      ReadIsWritten(item, s, depth, budget);
      var v := Read(item, s, depth, budget).value;
      ItemsAreWritten(item, count - 1, v.rest, depth, v.left);
      ItemIsWritten(item, v, ReadItems(item, count - 1, v.rest, depth, v.left).value, s, depth, budget);
    }
  }

  lemma ItemIsWritten(item: nat, v: Parsed<Nbt>, l: Parsed<Items>, s: seq<Byte>, depth: nat, budget: nat)
    requires Kind(v.value) == item && IsWritten(v, s, depth, budget) && ItemsWritten(l, item, v.rest, depth, v.left)
    ensures ItemsWritten(Parsed(Item(v.value, l.value), l.rest, l.left), item, s, depth, budget)
  {
    Regroup2(Write(v.value), WriteItems(item, l.value), l.rest);
  }

  lemma Regroup2(a: seq<Byte>, b: seq<Byte>, c: seq<Byte>)
    ensures (a + b) + c == a + (b + c)
  {
  }

  lemma {:induction false} FieldsAreWritten(s: seq<Byte>, depth: nat, budget: nat)
    requires ReadFields(s, depth, budget).Some? && depth <= MAX_DEPTH + 1
    ensures FieldsWritten(ReadFields(s, depth, budget).value, s, depth, budget)
    decreases budget, 1
  {
    if s[0] == 0 {
      assert s == [0] + s[1..];
    } else {
      var (name, after) := ReadText(s[1..]).value;
      TextRoundTrip(s[1..], name, after);
      ReadIsWritten(s[0], after, depth, budget);
      var v := Read(s[0], after, depth, budget).value;
      FieldsAreWritten(v.rest, depth, v.left);
      FieldIsWritten(name, v, ReadFields(v.rest, depth, v.left).value, s, after, depth, budget);
    }
  }

  lemma FieldIsWritten(name: seq<Byte>, v: Parsed<Nbt>, f: Parsed<Fields>, s: seq<Byte>, after: seq<Byte>,
                       depth: nat, budget: nat)
    requires s != [] && |name| < 0x1_0000 && s[1..] == WriteText(name) + after && Kind(v.value) == s[0]
    requires IsWritten(v, after, depth, budget) && FieldsWritten(f, v.rest, depth, v.left)
    ensures FieldsWritten(Parsed(Field(name, v.value, f.value), f.rest, f.left), s, depth, budget)
  {
    FieldBytes(s, name, Write(v.value), WriteFields(f.value), f.rest);
  }
}
