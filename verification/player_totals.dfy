/** The play time of all players together: what tracking, merging and leaving do to it. */
module PlayerTotals {
  import opened Players
  import opened PlayTime
  import opened Wrappers

  // ----- sums -----

  ghost function Sum<K>(m: map<K, nat>): nat
    decreases |m|
  {
    if m == map[] then 0 else var k :| k in m; m[k] + Sum(m - {k})
  }

  lemma {:induction false} SumTakes<K>(m: map<K, nat>, k: K)
    requires k in m
    ensures Sum(m) == m[k] + Sum(m - {k})
    decreases |m|
  {
    var first :| first in m && Sum(m) == m[first] + Sum(m - {first});
    if first != k {
      SumTakes(m - {first}, k);
      SumTakes(m - {k}, first);
      assert m - {first} - {k} == m - {k} - {first};
    }
  }

  lemma SumPuts<K>(m: map<K, nat>, k: K, v: nat)
    ensures Sum(m[k := v]) + (if k in m then m[k] else 0) == Sum(m) + v
  {
    SumTakes(m[k := v], k);
    if k in m {
      SumTakes(m, k);
      assert m[k := v] - {k} == m - {k};
    } else {
      assert m[k := v] - {k} == m;
    }
  }

  /** What is taken from one entry and added to another stays in the sum. */
  lemma SumMoves<K>(m: map<K, nat>, from: K, to: K)
    requires from in m && to in m && from != to
    ensures Sum((m - {from})[to := m[to] + m[from]]) == Sum(m)
  {
    SumTakes(m, from);
    SumPuts(m - {from}, to, m[to] + m[from]);
  }

  // ----- the table -----

  ghost function Playtimes(store: PlayerStore): map<string, nat>
    reads store`states, store.states.Values
  {
    map k | k in store.states :: store.states[k].playtime
  }

  ghost function Total(store: PlayerStore): nat
    reads store`states, store.states.Values
  {
    Sum(Playtimes(store))
  }

  /** The play time of a state whose place a new one takes. */
  ghost function Lost(store: PlayerStore, uuid: Option<string>, name: Option<string>, create: bool): nat
    reads store, store.states.Values, store.byName.Values
  {
    var uuidKey, nameKey := UuidKey(uuid), NameKey(name);
    var key := MainKey(uuidKey, nameKey);
    if create && !store.Blocked(uuidKey, nameKey) && store.Found(uuidKey, nameKey).None?
       && key.Some? && key.value in store.states
    then store.states[key.value].playtime else 0
  }

  /** Tracking a player, merged with another or not, keeps the total, but for a state that is replaced. */
  method Ensured(store: PlayerStore, uuid: Option<string>, name: Option<string>, create: bool, now: int,
                 ghost left: map<string, PlayerState>, ghost found: Option<PlayerState>,
                 ghost merged: Option<PlayerState>)
    returns (r: PlayerState?)
    requires store.Valid() && left == store.Remaining(UuidKey(uuid), NameKey(name))
    requires found == store.Found(UuidKey(uuid), NameKey(name)) && merged == store.Merged(UuidKey(uuid), NameKey(name))
    modifies store`states, store`byUuid, store`byName, store.All()
    ensures store.Valid() == !old(create && store.Clobbers(UuidKey(uuid), NameKey(name)))
    ensures r == null ==> store.states == old(store.states) && unchanged(old(store.All()))
    ensures r == null ==> old(Lost(store, uuid, name, create)) == 0
    ensures r != null ==> store.states == left[r.key := r]
    ensures r != null && found.Some? ==> r == found.value && old(store.Has(r))
    ensures r != null && found.Some? && merged.Some? ==>
              old(store.Has(merged.value)) && r.playtime == old(r.playtime) + old(merged.value.playtime)
    ensures r != null && found.Some? && merged.None? ==> r.playtime == old(r.playtime)
    ensures r != null && found.None? ==> fresh(r) && r.playtime == 0
    ensures r != null ==> old(Lost(store, uuid, name, create))
                          == if found.None? && r.key in old(Playtimes(store)) then old(Playtimes(store))[r.key] else 0
    ensures forall s <- old(store.All()) :: s != r ==> unchanged(s)
  {
    assert found.Some? ==> store.Has(found.value);
    assert merged.Some? ==> store.Has(merged.value);
    r := store.Ensure(uuid, name, create, now);
  }

  method Track(store: PlayerStore, uuid: Option<string>, name: Option<string>, create: bool, now: int)
    returns (r: PlayerState?)
    requires store.Valid()
    modifies store`states, store`byUuid, store`byName, store.All()
    ensures Total(store) + old(Lost(store, uuid, name, create)) == old(Total(store))
    ensures store.Valid() == !old(create && store.Clobbers(UuidKey(uuid), NameKey(name)))
    ensures forall s <- store.All() :: s in old(store.All()) || fresh(s)
  {
    ghost var uuidKey, nameKey := UuidKey(uuid), NameKey(name);
    ghost var before, found, merged := Playtimes(store), store.Found(uuidKey, nameKey), store.Merged(uuidKey, nameKey);
    ghost var left := store.Remaining(uuidKey, nameKey);
    r := Ensured(store, uuid, name, create, now, left, found, merged);
    if r == null {
      assert Playtimes(store) == before;
    } else {
      forall k | k in left && k != r.key ensures store.states[k] == left[k] && left[k].playtime == before[k] {
        assert left[k] in old(store.All());
      }
      PlaytimesAre(store, left, r, before);
      SumIs(before, left, r.key, r.playtime, if merged.Some? then Some(merged.value.key) else None);
    }
  }

  lemma SumIs(before: map<string, nat>, left: map<string, PlayerState>, key: string, playtime: nat,
              merged: Option<string>)
    requires left.Keys == if merged.Some? then before.Keys - {merged.value} else before.Keys
    requires merged.Some? ==> merged.value in before && key in before && merged.value != key
                              && playtime == before[key] + before[merged.value]
    ensures var after := (map k | k in left && k != key :: before[k])[key := playtime];
            Sum(after) + (if merged.None? && key in before then before[key] else 0)
            == Sum(before) + (if merged.None? then playtime else 0)
  {
    var after := (map k | k in left && k != key :: before[k])[key := playtime];
    if merged.Some? {
      assert after == (before - {merged.value})[key := before[key] + before[merged.value]];
      SumMoves(before, merged.value, key);
    } else {
      assert after == before[key := playtime];
      SumPuts(before, key, playtime);
    }
  }

  lemma PlaytimesAre(store: PlayerStore, left: map<string, PlayerState>, r: PlayerState, before: map<string, nat>)
    requires store.states == left[r.key := r]
    requires forall k :: k in left && k != r.key ==> k in before && left[k].playtime == before[k]
    ensures Playtimes(store) == (map k | k in left && k != r.key :: before[k])[r.key := r.playtime]
  {
  }

  /** A state that goes offline adds the whole seconds of its session, and nothing else changes. */
  method Leave(store: PlayerStore, key: string, now: int)
    requires store.Valid() && key in store.states
    modifies store.All()
    ensures store.Valid()
    ensures Total(store)
         == old(Total(store)) + old(store.states[key].Clock().Effective(now) - store.states[key].playtime)
  {
    var state := store.states[key];
    ghost var before := Playtimes(store);
    state.MarkOffline(now);
    forall k | k in store.states && k != key ensures store.states[k] != state {
      assert store.states[k].key == k && state.key == key;
    }
    assert Playtimes(store) == before[key := state.playtime];
    SumPuts(before, key, state.playtime);
    forall k | k in store.states ensures IsGoodName(store.states[k].name) {
      assert old(IsGoodName(store.states[k].name));
    }
  }

  datatype Call = Call(uuid: Option<string>, name: Option<string>, create: bool, now: int)

  /** Lines 212-214: the call puts a new state in the place of one that is in the table. */
  predicate Replaces(store: PlayerStore, call: Call)
    reads store, store.byName.Values
  {
    var uuidKey, nameKey := UuidKey(call.uuid), NameKey(call.name);
    call.create && !store.Blocked(uuidKey, nameKey) && store.Found(uuidKey, nameKey).None?
    && MainKey(uuidKey, nameKey).Some? && MainKey(uuidKey, nameKey).value in store.states
  }

  /** Over any run of calls, up to the first that replaces a state, the total play time is what it was. */
  method TrackAll(store: PlayerStore, calls: seq<Call>) returns (n: nat)
    requires store.Valid()
    modifies store`states, store`byUuid, store`byName, store.All()
    ensures n <= |calls| && (n < |calls| ==> Replaces(store, calls[n]))
    ensures store.Valid() && Total(store) == old(Total(store))
    ensures forall s <- store.All() :: s in old(store.All()) || fresh(s)
  {
    n := 0;
    while n < |calls|
      invariant n <= |calls| && store.Valid() && Total(store) == old(Total(store))
      invariant forall s <- store.All() :: s in old(store.All()) || fresh(s)
    {
      var call := calls[n];
      if Replaces(store, call) {
        return n;
      }
      assert !(call.create && store.Clobbers(UuidKey(call.uuid), NameKey(call.name)));
      assert Lost(store, call.uuid, call.name, call.create) == 0;
      var r := Track(store, call.uuid, call.name, call.create, call.now);
      n := n + 1;
    }
  }

  /** Two states of one player, known by UUID and by name: after the merge the one has what both had played. */
  method MergedTotal(store: PlayerStore, uuid: string, name: string, now: int, ghost u: string, ghost n: string)
    returns (r: PlayerState?)
    requires store.Valid() && UuidKey(Some(uuid)) == Some(u) && NameKey(Some(name)) == Some(n) && store.deleted == {}
    requires u in store.byUuid && n in store.byName && store.byUuid[u] != store.byName[n]
    requires store.byName[n].uuid == None
    modifies store`states, store`byUuid, store`byName, store.All()
    ensures store.Valid() && r == old(store.byUuid[u]) && n in store.byName && store.byName[n] == r
    ensures r.playtime == old(store.byUuid[u].playtime) + old(store.byName[n].playtime)
    ensures |store.states| == old(|store.states|) - 1
  {
    ghost var dst, src, states := store.byUuid[u], store.byName[n], store.states;
    assert store.Has(src) && store.Has(dst) && !store.Blocked(Some(u), Some(n));
    assert store.Found(Some(u), Some(n)) == Some(dst) && store.Merged(Some(u), Some(n)) == Some(src);
    r := store.Ensure(Some(uuid), Some(name), false, now);
    assert r == dst && store.states == (states - {src.key})[dst.key := dst];
    OneFewer(states, src, dst);
  }

  lemma OneFewer(states: map<string, PlayerState>, src: PlayerState, dst: PlayerState)
    requires src.key in states && dst.key in states && states[src.key] == src && states[dst.key] == dst && src != dst
    ensures |(states - {src.key})[dst.key := dst]| == |states| - 1
  {
    assert (states - {src.key})[dst.key := dst] == states - {src.key};
    assert (states - {src.key}).Keys == states.Keys - {src.key};
  }
}
