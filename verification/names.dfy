/** Case-folded keys of names and IDs (`window.c`). */
module Names {
  import opened Wrappers

  /** `g_ascii_isspace`, which leaves out the vertical tab. */
  predicate IsSpace(c: char) {
    c == ' ' || c == '\t' || c == '\n' || c == '\r' || c == '\U{000C}'
  }

  function LowerChar(c: char): char {
    if 'A' <= c <= 'Z' then c + 32 as char else c
  }

  /** `g_ascii_strdown` */
  function Lower(s: string): (r: string)
    ensures |r| == |s| && forall i :: 0 <= i < |s| ==> r[i] == LowerChar(s[i])
  {
    seq(|s|, i requires 0 <= i < |s| => LowerChar(s[i]))
  }

  /** `g_strstrip` */
  function Strip(s: string): string {
    if s == "" then s
    else if IsSpace(s[0]) then Strip(s[1..])
    else if IsSpace(s[|s| - 1]) then Strip(s[..|s| - 1])
    else s
  }

  /** `normalized_key` */
  function Key(text: Option<string>): Option<string> {
    if text.None? then None else
    var t := Strip(text.value);
    if t == "" then None else Some(Lower(t))
  }

  /** `g_ascii_strcasecmp(a, b) == 0` */
  predicate SameIgnoringCase(a: string, b: string) {
    Lower(a) == Lower(b)
  }

  lemma LowerTwice(s: string)
    ensures Lower(Lower(s)) == Lower(s)
  {
  }

  lemma StrippedEnds(s: string)
    ensures var t := Strip(s); t == "" || (!IsSpace(t[0]) && !IsSpace(t[|t| - 1]))
  {
  }

  /** A text equal to a key up to case has that key. */
  lemma SameCaseSameKey(text: Option<string>, key: string, other: string)
    requires Key(text) == Some(key) && SameIgnoringCase(key, other)
    ensures Key(Some(other)) == Some(key)
  {
    var t := Strip(text.value);
    StrippedEnds(text.value);
    LowerTwice(t);
    assert key == Lower(t) && Lower(other) == key;
    assert |other| == |t| && other != "";
    assert LowerChar(other[0]) == LowerChar(t[0]);
    assert LowerChar(other[|other| - 1]) == LowerChar(t[|t| - 1]);
    assert Strip(other) == other;
  }

  /** White space, by its codes. */
  predicate IsBlank(s: string) {
    forall i :: 0 <= i < |s| ==> s[i] as int in {9, 10, 12, 13, 32}
  }

  lemma {:induction false} StripsAround(before: string, t: string, after: string)
    requires IsBlank(before) && IsBlank(after) && t != ""
    requires t[0] as int !in {9, 10, 12, 13, 32} && t[|t| - 1] as int !in {9, 10, 12, 13, 32}
    ensures Strip(before + t + after) == t
    decreases |before| + |after|
  {
    var s := before + t + after;
    if before != "" {
      assert s[0] == before[0] && s[1..] == before[1..] + t + after;
      StripsAround(before[1..], t, after);
    } else if after != "" {
      assert s[0] == t[0] && s[|s| - 1] == after[|after| - 1];
      assert s[..|s| - 1] == before + t + after[..|after| - 1];
      StripsAround(before, t, after[..|after| - 1]);
    } else {
      assert s == t;
    }
  }

  /** The key of a text in white space: the text, its capital letters made small, and nothing else changed. */
  lemma KeyOfPadded(before: string, t: string, after: string)
    requires IsBlank(before) && IsBlank(after) && t != ""
    requires t[0] as int !in {9, 10, 12, 13, 32} && t[|t| - 1] as int !in {9, 10, 12, 13, 32}
    ensures var key := Key(Some(before + t + after));
            && key.Some? && |key.value| == |t|
            && forall i :: 0 <= i < |t| ==>
                 key.value[i] as int == t[i] as int + if 65 <= t[i] as int <= 90 then 32 else 0
  {
    StripsAround(before, t, after);
  }

  /** White space alone has no key. */
  lemma {:induction false} BlankHasNoKey(s: string)
    requires IsBlank(s)
    ensures Key(Some(s)) == None && Key(None) == None
    decreases |s|
  {
    if s != "" {
      assert Strip(s) == Strip(s[1..]);
      BlankHasNoKey(s[1..]);
    }
  }

  // ----- equal keys -----

  predicate IsBlankCode(c: char) {
    c as int in {9, 10, 12, 13, 32}
  }

  /** `t` is what is left of `s` without the white space around it. */
  ghost predicate IsTrimmed(s: string, t: string) {
    && t != "" && !IsBlankCode(t[0]) && !IsBlankCode(t[|t| - 1])
    && exists before, after :: IsBlank(before) && IsBlank(after) && s == before + t + after
  }

  function SmallCode(c: char): int {
    if 65 <= c as int <= 90 then c as int + 32 else c as int
  }

  predicate IsSameText(a: string, b: string) {
    |a| == |b| && forall i :: 0 <= i < |a| ==> SmallCode(a[i]) == SmallCode(b[i])
  }

  /** Two texts that are the same but for the white space around them and the case of ASCII letters. */
  ghost predicate IsSameName(a: string, b: string) {
    exists t, u :: IsTrimmed(a, t) && IsTrimmed(b, u) && IsSameText(t, u)
  }

  lemma TrimmedAfter(s: string, t: string)
    requires s != "" && IsBlankCode(s[0]) && IsTrimmed(s[1..], t)
    ensures IsTrimmed(s, t)
  {
    var before, after :| IsBlank(before) && IsBlank(after) && s[1..] == before + t + after;
    var more := [s[0]] + before;
    assert IsBlank(more) && s == more + t + after;
  }

  lemma TrimmedBefore(s: string, t: string)
    requires s != "" && IsBlankCode(s[|s| - 1]) && IsTrimmed(s[..|s| - 1], t)
    ensures IsTrimmed(s, t)
  {
    var before, after :| IsBlank(before) && IsBlank(after) && s[..|s| - 1] == before + t + after;
    var more := after + [s[|s| - 1]];
    assert IsBlank(more) && s == before + t + more;
  }

  lemma SelfTrimmed(s: string)
    requires s != "" && !IsBlankCode(s[0]) && !IsBlankCode(s[|s| - 1])
    ensures IsTrimmed(s, s)
  {
    assert IsBlank("") && s == "" + s + "";
  }

  /** A text that has a key is not all white space. */
  lemma {:induction false} Trim(s: string) returns (t: string)
    ensures Key(Some(s)).Some? ==> IsTrimmed(s, t)
    decreases |s|
  {
    t := s;
    if s != "" && IsBlankCode(s[0]) {
      t := Trim(s[1..]);
      if Key(Some(s)).Some? {
        TrimmedAfter(s, t);
      }
    } else if s != "" && IsBlankCode(s[|s| - 1]) {
      t := Trim(s[..|s| - 1]);
      if Key(Some(s)).Some? {
        TrimmedBefore(s, t);
      }
    } else if s != "" {
      SelfTrimmed(s);
    }
  }

  lemma KeyOfTrimmed(s: string, t: string)
    requires IsTrimmed(s, t)
    ensures Key(Some(s)).Some? && |Key(Some(s)).value| == |t|
    ensures forall i :: 0 <= i < |t| ==> Key(Some(s)).value[i] as int == SmallCode(t[i])
  {
    var before, after :| IsBlank(before) && IsBlank(after) && s == before + t + after;
    KeyOfPadded(before, t, after);
  }

  /** Two texts have one key exactly when they are the same name. */
  lemma KeysAgree(a: string, b: string)
    ensures Key(Some(a)).Some? && Key(Some(a)) == Key(Some(b)) <==> IsSameName(a, b)
  {
    if Key(Some(a)).Some? && Key(Some(a)) == Key(Some(b)) {
      var t := Trim(a);
      var u := Trim(b);
      KeyOfTrimmed(a, t);
      KeyOfTrimmed(b, u);
      assert IsSameText(t, u);
    }
    if t, u :| IsTrimmed(a, t) && IsTrimmed(b, u) && IsSameText(t, u) {
      KeyOfTrimmed(a, t);
      KeyOfTrimmed(b, u);
      assert Key(Some(a)).value == Key(Some(b)).value;
    }
  }
}
