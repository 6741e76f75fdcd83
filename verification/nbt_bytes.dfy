/** What the walk takes for each type of value, in literal bytes, and where its limits lie. */
module NbtBytes {
  import opened Bytes
  import opened Wrappers
  import opened Nbt
  import opened Terrain

  /** Bytes of a byte, a short, an int, a long, a float and a double. */
  lemma NumbersRead(kind: nat, payload: seq<Byte>, rest: seq<Byte>, depth: nat, budget: nat)
    requires depth <= 32 && 0 < budget
    requires (kind == 1 && |payload| == 1) || (kind == 2 && |payload| == 2) || (kind == 3 && |payload| == 4)
             || (kind == 4 && |payload| == 8) || (kind == 5 && |payload| == 4) || (kind == 6 && |payload| == 8)
    ensures Read(kind, payload + rest, depth, budget) == Some(Parsed(Number(kind, payload), rest, budget - 1))
  {
    assert (payload + rest)[..|payload|] == payload && (payload + rest)[|payload|..] == rest;
  }

  /** A text is its length in two bytes, the higher first, and its bytes. */
  lemma TextsRead(text: seq<Byte>, rest: seq<Byte>, depth: nat, budget: nat)
    requires depth <= 32 && 0 < budget && |text| < 65536
    ensures Read(8, ([|text| / 256, |text| % 256] + text) + rest, depth, budget)
         == Some(Parsed(Text(text), rest, budget - 1))
  {
    TextRoundTrip(([|text| / 256, |text| % 256] + text) + rest, text, rest);
  }

  /** An array is its count in four bytes, the highest first, and elements of 1, 4 or 8 bytes. */
  lemma ArraysRead(kind: nat, n: nat, payload: seq<Byte>, rest: seq<Byte>, depth: nat, budget: nat)
    requires depth <= 32 && 0 < budget
    requires (kind == 7 && n <= 4_194_304 && |payload| == n) || (kind == 11 && n <= 1_048_576 && |payload| == 4 * n)
             || (kind == 12 && n <= 524_288 && |payload| == 8 * n)
    ensures Read(kind, ([n / 16777216, n / 65536 % 256, n / 256 % 256, n % 256] + payload) + rest, depth, budget)
         == Some(Parsed(Array(kind, n, payload), rest, budget - 1))
  {
    ArrayReads(kind, n, payload, rest, budget - 1);
  }

  /** `n` lists, each the one element of the one around it; the innermost is empty. */
  function Nested(n: nat): seq<Byte> {
    if n == 0 then [0, 0, 0, 0, 0] else [9, 0, 0, 0, 1] + Nested(n - 1)
  }

  lemma FiveBytes(item: Byte, count: Byte, body: seq<Byte>)
    ensures var s := [item, 0, 0, 0, count] + body; s[0] == item && Be32(s, 1) == count && s[5..] == body
  {
  }

  lemma OneInList(body: seq<Byte>, depth: nat, budget: nat)
    requires depth <= 32 && 1 < budget
    ensures var s, v := [9, 0, 0, 0, 1] + body, Read(9, body, depth + 1, budget - 1);
            && (Read(9, s, depth, budget).Some? <==> v.Some?)
            && (v.Some? ==> Read(9, s, depth, budget).value.rest == v.value.rest
                            && Read(9, s, depth, budget).value.left == v.value.left)
  {
    FiveBytes(9, 1, body);
    var s, v := [9, 0, 0, 0, 1] + body, Read(9, body, depth + 1, budget - 1);
    assert ReadItems(9, 1, body, depth + 1, budget - 1)
        == if v.None? then None else Some(Parsed(Item(v.value.value, NoItems), v.value.rest, v.value.left)) by {
      assert v.Some? ==> ReadItems(9, 0, v.value.rest, depth + 1, v.value.left).Some?;
    }
  }

  /** Lists within each other are read down to the 32nd below the first. */
  ghost predicate ReadsNested(s: seq<Byte>, n: nat, rest: seq<Byte>, depth: nat, budget: nat) {
    var r := Read(9, s, depth, budget);
    && (r.Some? <==> depth + n <= 32)
    && (r.Some? ==> r.value.rest == rest && r.value.left == budget - 1 - n)
  }

  lemma {:induction false} DepthIsLimited(n: nat, rest: seq<Byte>, depth: nat, budget: nat)
    requires n < budget && depth <= 33
    ensures ReadsNested(Nested(n) + rest, n, rest, depth, budget)
    decreases n
  {
    if n == 0 {
      InnermostReads(Nested(0) + rest, rest, depth, budget);
    } else {
      assert Nested(n) + rest == [9, 0, 0, 0, 1] + (Nested(n - 1) + rest);
      if depth <= 32 {
        DepthIsLimited(n - 1, rest, depth + 1, budget - 1);
      }
      OneDeeper(Nested(n - 1) + rest, n, rest, depth, budget);
    }
  }

  lemma OneDeeper(body: seq<Byte>, n: nat, rest: seq<Byte>, depth: nat, budget: nat)
    requires 0 < n < budget && depth <= 33
    requires depth <= 32 ==> ReadsNested(body, n - 1, rest, depth + 1, budget - 1)
    ensures ReadsNested([9, 0, 0, 0, 1] + body, n, rest, depth, budget)
  {
    if depth <= 32 {
      OneInList(body, depth, budget);
    }
  }

  lemma InnermostReads(s: seq<Byte>, rest: seq<Byte>, depth: nat, budget: nat)
    requires 0 < budget && depth <= 33 && s == [0, 0, 0, 0, 0] + rest
    ensures ReadsNested(s, 0, rest, depth, budget)
  {
    if depth <= 32 {
      FiveBytes(0, 0, rest);
      EmptyList(s, 0, 0, rest, depth, budget);
    }
  }

  lemma EmptyList(s: seq<Byte>, item: nat, count: nat, rest: seq<Byte>, depth: nat, budget: nat)
    requires 0 < budget && depth <= 32 && |s| >= 5 && s[0] == item && Be32(s, 1) == count && s[5..] == rest
    requires count == 0
    ensures Read(9, s, depth, budget) == Some(Parsed(List(item, NoItems), rest, budget - 1))
  {
    assert ReadItems(item, count, rest, depth + 1, budget - 1) == Some(Parsed(NoItems, rest, budget - 1));
  }

  lemma ByteListReads(payload: seq<Byte>, depth: nat, budget: nat)
    requires |payload| < 0x1_0000_0000 && depth < 32 && 0 < budget
    ensures var n := |payload|;
            Read(9, [1] + ([n / 16777216, n / 65536 % 256, n / 256 % 256, n % 256] + payload), depth, budget).Some?
            <==> n < budget
  {
    var n := |payload|;
    var s := [1] + ([n / 16777216, n / 65536 % 256, n / 256 % 256, n % 256] + payload);
    assert s[1..5] == Be32Bytes(n) && s[5..] == payload;
    Be32RoundTrip(s, 1, n);
    if n < budget {
      BytesInList(payload, depth + 1, budget - 1);
    }
  }

  /** A list of bytes is read while 200000 values, itself counted, are enough. */
  lemma BudgetIsLimited(payload: seq<Byte>)
    requires |payload| < 0x1_0000_0000
    ensures var n := |payload|;
            Read(9, [1] + ([n / 16777216, n / 65536 % 256, n / 256 % 256, n % 256] + payload), 0, BUDGET).Some?
            <==> n < 200_000
  {
    ByteListReads(payload, 0, BUDGET);
  }

  lemma {:induction false} BytesInList(payload: seq<Byte>, depth: nat, budget: nat)
    requires depth <= 32 && |payload| <= budget
    ensures ReadItems(1, |payload|, payload, depth, budget).Some?
    decreases |payload|
  {
    if payload != [] {
      NumbersRead(1, payload[..1], payload[1..], depth, budget);
      assert payload[..1] + payload[1..] == payload;
      BytesInList(payload[1..], depth, budget - 1);
    }
  }

  /** A file is refused for its size or first byte in exactly these cases. */
  lemma RootIsLimited(nbt: seq<Byte>, colour: Colours)
    ensures Decoded(nbt, colour) == Error(InvalidRoot) <==> |nbt| < 4 || |nbt| > 4_194_304 || nbt[0] != 10
  {
  }
}
