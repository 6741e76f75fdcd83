/** Who is who: the same player is found again by UUID, by name and in another case, and nobody else is. */
module PlayerLookup {
  import opened Names
  import opened Players
  import opened Wrappers

  /** Both indexes lead to the state, which is that of the UUID and the name. */
  ghost predicate Knows(store: PlayerStore, u: string, n: string, name: string, r: PlayerState)
    reads store, store.states.Values, store.byUuid.Values, store.byName.Values, r
  {
    && store.Valid() && u !in store.deleted && n !in store.deleted
    && u in store.byUuid && store.byUuid[u] == r && n in store.byName && store.byName[n] == r
    && Key(r.uuid) == Some(u) && r.name == Some(name) && store.Has(r)
  }

  method Ask(store: PlayerStore, uuid: Option<string>, name: Option<string>, now: int,
             ghost u: string, ghost n: string, ghost known: string, ghost r: PlayerState)
    returns (found: PlayerState?)
    requires Knows(store, u, n, known, r) && NameKey(Some(known)) == Some(n)
    requires UuidKey(uuid) == Some(u) || (UuidKey(uuid) == None && NameKey(name) == Some(n))
    requires NameKey(name) == Some(n) || NameKey(name) == None
    requires name == Some(known) || GoodName(name) == None
    modifies store`states, store`byUuid, store`byName, store.All()
    ensures found == r && Knows(store, u, n, known, r) && store.states == old(store.states)
  {
    assert store.Found(UuidKey(uuid), NameKey(name)) == Some(r) && store.Merged(UuidKey(uuid), NameKey(name)) == None;
    assert !store.Clobbers(UuidKey(uuid), NameKey(name)) && r in store.All();
    assert store.Remaining(UuidKey(uuid), NameKey(name))[r.key := r] == store.states;
    found := store.Ensure(uuid, name, false, now);
  }

  method Meet(store: PlayerStore, uuid: string, name: string, now: int, ghost u: string, ghost n: string)
    returns (r: PlayerState)
    requires store.Valid() && ValidName(name) && UuidKey(Some(uuid)) == Some(u) && NameKey(Some(name)) == Some(n)
    requires u !in store.deleted && n !in store.deleted && !store.Clobbers(Some(u), Some(n))
    modifies store`states, store`byUuid, store`byName, store.All()
    ensures Knows(store, u, n, name, r) && (r in old(store.All()) || fresh(r))
    ensures forall s <- store.All() :: s in old(store.All()) || fresh(s)
  {
    var met := store.Ensure(Some(uuid), Some(name), true, now);
    r := met;
  }

  /** A player that was tracked is found again, whichever way it is asked for, the UUID in any case. */
  method FoundAgain(store: PlayerStore, uuid: string, name: string, other: string, now: int)
    returns (r: PlayerState, byUuid: PlayerState?, byName: PlayerState?, byBoth: PlayerState?)
    requires store.Valid() && ValidName(name) && NameKey(Some(name)).Some?
    requires ValidUuid(uuid) && ValidUuid(other) && UuidKey(Some(uuid)).Some? && SameIgnoringCase(uuid, other)
    requires UuidKey(Some(uuid)).value !in store.deleted && NameKey(Some(name)).value !in store.deleted
    requires !store.Clobbers(UuidKey(Some(uuid)), NameKey(Some(name)))
    modifies store`states, store`byUuid, store`byName, store.All()
    ensures r == byUuid == byName == byBoth && store.Valid()
  {
    ghost var u, n := UuidKey(Some(uuid)).value, NameKey(Some(name)).value;
    SameKeys(uuid, other);
    r := Meet(store, uuid, name, now, u, n);
    byUuid := Ask(store, Some(uuid), None, now, u, n, name, r);
    byName := Ask(store, None, Some(name), now, u, n, name, r);
    byBoth := Ask(store, Some(other), Some(name), now, u, n, name, r);
  }

  lemma UuidStrips(s: string)
    requires ValidUuid(s)
    ensures Strip(s) == s && Key(Some(s)) == Some(Lower(s))
  {
    assert !IsSpace(s[0]) && !IsSpace(s[|s| - 1]);
  }

  lemma SameKeys(a: string, b: string)
    requires ValidUuid(a) && ValidUuid(b) && SameIgnoringCase(a, b)
    ensures UuidKey(Some(a)) == UuidKey(Some(b))
  {
    UuidStrips(a);
    UuidStrips(b);
  }

  /** Another account of the same name is another player, and does not change the first. */
  method OtherIsOther(store: PlayerStore, name: string, other: string, now: int, ghost u: string, ghost n: string,
                      r: PlayerState)
    returns (second: PlayerState?)
    requires Knows(store, u, n, name, r) && NameKey(Some(name)) == Some(n)
    requires ValidUuid(other) && UuidKey(Some(other)).Some? && UuidKey(Some(other)) != Some(u)
    requires UuidKey(Some(other)).value !in store.byUuid && UuidKey(Some(other)).value !in store.deleted
    modifies store`states, store`byUuid, store`byName, store.All()
    ensures second != null && fresh(second) && unchanged(r)
    ensures UuidKey(Some(other)).value in store.byUuid && store.byUuid[UuidKey(Some(other)).value] == second
    ensures u in store.byUuid && store.byUuid[u] == r && n in store.byName && store.byName[n] == second
  {
    ghost var key := UuidKey(Some(other));
    OtherCase(store, r, u, key.value, other);
    assert store.Found(key, Some(n)) == None && r in store.All();
    second := store.Ensure(Some(other), Some(name), true, now);
  }

  lemma OtherCase(store: PlayerStore, r: PlayerState, u: string, key: string, other: string)
    requires Key(r.uuid) == Some(u) && u != key && ValidUuid(other) && Key(Some(other)) == Some(key)
    ensures !store.SamePlayer(Some(key), r)
  {
    if store.SamePlayer(Some(key), r) && !Missing(r.uuid) {
      SameCaseSameKey(Some(other), key, r.uuid.value);
    }
  }

  // ----- names and UUIDs, by their codes -----

  predicate IsNameCode(code: int) {
    (32 <= code <= 126 || code >= 160) && code !in {34, 40, 41, 44, 47, 58, 60, 62, 91, 92, 93}
  }

  /** A name has 1 to 64 characters, none of them a control character or one of the list's own. */
  lemma NamesAre(s: string)
    ensures ValidName(s) <==> 1 <= |s| <= 64 && forall c <- s :: IsNameCode(c as int)
  {
    forall i | 0 <= i < |s|
      ensures IsNameCode(s[i] as int)
         <==> s[i] >= ' ' && !('\U{007F}' <= s[i] <= '\U{009F}') && s[i] !in "[]<>:,()/\\\""
    {
      OwnCodes(s[i]);
    }
    if forall c <- s :: IsNameCode(c as int) {
      assert forall i :: 0 <= i < |s| ==> s[i] in s;
    }
  }

  lemma OwnCodes(c: char)
    ensures c in "[]<>:,()/\\\"" <==> c as int in {34, 40, 41, 44, 47, 58, 60, 62, 91, 92, 93}
  {
    var own := "[]<>:,()/\\\"";
    assert own[0] == '[' && own[1] == ']' && own[2] == '<' && own[3] == '>' && own[4] == ':' && own[5] == ',';
    assert own[6] == '(' && own[7] == ')' && own[8] == '/' && own[9] == '\\' && own[10] == '"';
    assert c in own <==> c == '[' || c == ']' || c == '<' || c == '>' || c == ':' || c == ',' || c == '(' || c == ')'
                         || c == '/' || c == '\\' || c == '"';
  }

  predicate AreHexDigits(s: string, n: nat) {
    |s| == n && forall c <- s :: 48 <= c as int <= 57 || 65 <= c as int <= 70 || 97 <= c as int <= 102
  }

  /** A UUID is five groups of hexadecimal digits with dashes between them. */
  lemma UuidsAre(a: string, b: string, c: string, d: string, e: string)
    requires |a| == 8 && |b| == |c| == |d| == 4 && |e| == 12
    ensures ValidUuid(a + "-" + b + "-" + c + "-" + d + "-" + e)
       <==> AreHexDigits(a, 8) && AreHexDigits(b, 4) && AreHexDigits(c, 4) && AreHexDigits(d, 4) && AreHexDigits(e, 12)
  {
    var s := a + "-" + b + "-" + c + "-" + d + "-" + e;
    assert s[..8] == a && s[9..13] == b && s[14..18] == c && s[19..23] == d && s[24..] == e;
    assert s[8] == s[13] == s[18] == s[23] == '-';
    if ValidUuid(s) {
      forall x | x in a || x in b || x in c || x in d || x in e ensures AreHexDigits([x], 1) {
        var i :| 0 <= i < 36 && s[i] == x && i !in {8, 13, 18, 23};
      }
    }
    if AreHexDigits(a, 8) && AreHexDigits(b, 4) && AreHexDigits(c, 4) && AreHexDigits(d, 4) && AreHexDigits(e, 12) {
      forall i | 0 <= i < 36 && i !in {8, 13, 18, 23} ensures s[i] in a + b + c + d + e {
        assert s[i] == if i < 8 then a[i] else if i < 13 then b[i - 9] else if i < 18 then c[i - 14]
                       else if i < 23 then d[i - 19] else e[i - 24];
      }
    }
  }
}
