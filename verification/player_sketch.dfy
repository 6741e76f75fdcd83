/**
 What decides about an entry of a player list (`ensure_player_state` in `window-players.c`), without the states: which
 main key each UUID and name leads to, and what UUID is under it. It can be computed before a list is read.
 */
module PlayerSketch {
  import opened Names
  import opened Players
  import opened Wrappers

  /** The table and its two indexes at one moment. */
  datatype Tables = Tables(states: map<string, PlayerState>, byUuid: map<string, PlayerState>,
                           byName: map<string, PlayerState>) {
    predicate Has(state: PlayerState) {
      state.key in states && states[state.key] == state
    }

    predicate Names(name: Option<string>, state: PlayerState) {
      name.Some? && name.value in byName && byName[name.value] == state
    }

    predicate Identifies(uuid: Option<string>, state: PlayerState) {
      uuid.Some? && uuid.value in byUuid && byUuid[uuid.value] == state
    }

    /** The indexes lead to states of the table. */
    ghost predicate Closed() {
      && (forall k :: k in states ==> states[k].key == k)
      && (forall k :: k in byUuid ==> Has(byUuid[k]))
      && (forall k :: k in byName ==> Has(byName[k]))
    }
  }

  function Now(store: PlayerStore): Tables
    reads store`states, store`byUuid, store`byName
  {
    Tables(store.states, store.byUuid, store.byName)
  }

  function MainKeys(index: map<string, PlayerState>): map<string, string> {
    map k | k in index :: index[k].key
  }

  /** Main keys with the UUIDs under them, and the main keys that UUIDs and names lead to. */
  datatype Sketch = Sketch(uuids: map<string, Option<string>>, byUuid: map<string, string>,
                           byName: map<string, string>) {
    function UuidAt(key: string): Option<string> {
      if key in uuids then uuids[key] else None
    }

    function Found(uuidKey: Option<string>, nameKey: Option<string>): Option<string> {
      if uuidKey.Some? && uuidKey.value in byUuid then Some(byUuid[uuidKey.value])
      else if nameKey.Some? && nameKey.value in byName && OnePlayer(uuidKey, UuidAt(byName[nameKey.value]))
      then Some(byName[nameKey.value])
      else None
    }

    function Merged(uuidKey: Option<string>, nameKey: Option<string>): Option<string> {
      if uuidKey.Some? && uuidKey.value in byUuid && nameKey.Some? && nameKey.value in byName
         && byName[nameKey.value] != byUuid[uuidKey.value] && Missing(UuidAt(byName[nameKey.value]))
      then Some(byName[nameKey.value])
      else None
    }

    /** A new state would take a main key that an index still leads to. */
    predicate Clashes(uuidKey: Option<string>, nameKey: Option<string>) {
      var key := MainKey(uuidKey, nameKey);
      && Found(uuidKey, nameKey).None? && key.Some? && key.value in uuids
      && ((exists k :: k in byUuid && byUuid[k] == key.value)
          || exists k :: k in byName && Some(k) != nameKey && byName[k] == key.value)
    }

    /** It is the sketch of these tables, in which a player is found, or merged, or can be made. */
    ghost predicate Shows(tables: Tables, uuidKey: Option<string>, nameKey: Option<string>,
                          found: Option<PlayerState>, merged: Option<PlayerState>)
    {
      && tables.Closed() && uuids.Keys == tables.states.Keys
      && byUuid == MainKeys(tables.byUuid) && byName == MainKeys(tables.byName)
      && Found(uuidKey, nameKey) == (if found.Some? then Some(found.value.key) else None)
      && Merged(uuidKey, nameKey) == (if merged.Some? then Some(merged.value.key) else None)
      && !Clashes(uuidKey, nameKey)
    }

    /** The player is found, merged or made, and has the UUID and the name. */
    function Step(uuid: Option<string>, name: Option<string>): Sketch
      requires NameKey(name).Some?
    {
      var uuidKey, nameKey := UuidKey(uuid), NameKey(name);
      var found, merged := Found(uuidKey, nameKey), Merged(uuidKey, nameKey);
      var r := if found.Some? then found.value else MainKey(uuidKey, nameKey).value;
      var was := if found.Some? then UuidAt(r) else None;
      Sketch((if merged.Some? then uuids - {merged.value} else uuids)
               [r := if Missing(was) && GoodUuid(uuid).Some? then uuid else was],
             if uuidKey.Some? then byUuid[uuidKey.value := r] else byUuid,
             (map k | k in byName && byName[k] != r :: byName[k])[nameKey.value := r])
    }
  }

  // Facts about sketches that methods carry along; they hold of every sketch that is the `Same`, so that a proof
  // unfolds them only where it says so.

  predicate Same(a: Sketch, b: Sketch) {
    a == b
  }

  ghost predicate Drawn(store: PlayerStore, sketch: Sketch)
    reads store`states, store`byUuid, store`byName, store.states.Values`uuid
  {
    forall s {:trigger Same(s, sketch)} :: Same(s, sketch) ==> s == SketchOf(store)
  }

  lemma DrawnIs(store: PlayerStore, sketch: Sketch)
    ensures Drawn(store, sketch) == (sketch == SketchOf(store))
  {
    assert Same(sketch, sketch);
  }

  ghost predicate Draws(sketch: Sketch, tables: Tables, uuidKey: Option<string>, nameKey: Option<string>,
                        found: Option<PlayerState>, merged: Option<PlayerState>) {
    forall s {:trigger Same(s, sketch)} :: Same(s, sketch) ==> s.Shows(tables, uuidKey, nameKey, found, merged)
  }

  /** What the sketch of a store says of a player that can be found or made. */
  lemma DrawsNow(store: PlayerStore, sketch: Sketch, uuidKey: Option<string>, nameKey: Option<string>)
    requires store.Indexes() && !store.Displaces(uuidKey, nameKey) && sketch == SketchOf(store)
    ensures Draws(sketch, Now(store), uuidKey, nameKey, store.Found(uuidKey, nameKey), store.Merged(uuidKey, nameKey))
  {
    SketchDecides(store, uuidKey, nameKey);
    assert Same(sketch, sketch);
  }

  predicate OnePlayer(uuidKey: Option<string>, uuid: Option<string>) {
    uuidKey.None? || Missing(uuid) || SameIgnoringCase(uuidKey.value, uuid.value)
  }

  function SketchOf(store: PlayerStore): Sketch
    reads store`states, store`byUuid, store`byName, store.states.Values`uuid
  {
    Sketch(map k | k in store.states :: store.states[k].uuid, MainKeys(store.byUuid), MainKeys(store.byName))
  }

  /** The sketch decides as the store does. */
  lemma SketchDecides(store: PlayerStore, uuidKey: Option<string>, nameKey: Option<string>)
    requires store.Indexes()
    ensures Now(store).Closed()
    ensures var found := store.Found(uuidKey, nameKey);
            SketchOf(store).Found(uuidKey, nameKey) == if found.Some? then Some(found.value.key) else None
    ensures var merged := store.Merged(uuidKey, nameKey);
            SketchOf(store).Merged(uuidKey, nameKey) == if merged.Some? then Some(merged.value.key) else None
    ensures SketchOf(store).Clashes(uuidKey, nameKey) == store.Displaces(uuidKey, nameKey)
  {
    SketchTaken(store, uuidKey, nameKey);
  }

  lemma SketchTaken(store: PlayerStore, uuidKey: Option<string>, nameKey: Option<string>)
    requires store.Indexes()
    ensures var key, sketch := MainKey(uuidKey, nameKey), SketchOf(store);
            store.Taken(uuidKey, nameKey) ==
              (key.Some? && key.value in sketch.uuids
               && ((exists k :: k in sketch.byUuid && sketch.byUuid[k] == key.value)
                   || exists k :: k in sketch.byName && Some(k) != nameKey && sketch.byName[k] == key.value))
  {
    var key, sketch := MainKey(uuidKey, nameKey), SketchOf(store);
    if key.Some? && key.value in store.states {
      forall k | k in store.byUuid
        ensures sketch.byUuid[k] == key.value <==> store.byUuid[k] == store.states[key.value]
      {
        assert store.Has(store.byUuid[k]);
      }
      forall k | k in store.byName
        ensures sketch.byName[k] == key.value <==> store.byName[k] == store.states[key.value]
      {
        assert store.Has(store.byName[k]);
      }
    }
  }

  /** The tables after a player was found or made, seen from those before. */
  ghost predicate Became(before: Tables, after: Tables, uuidKey: Option<string>, nameKey: Option<string>,
                         r: PlayerState, merged: Option<PlayerState>) {
    && nameKey.Some?
    && after.states == (if merged.Some? then before.states - {merged.value.key} else before.states)[r.key := r]
    && after.byUuid == (if uuidKey.Some? then before.byUuid[uuidKey.value := r] else before.byUuid)
    && after.Names(nameKey, r)
    && (forall k :: k in after.byName && Some(k) != nameKey ==>
          k in before.byName && after.byName[k] == before.byName[k] && after.byName[k] != r)
    && (forall k :: k in before.byName && before.byName[k] != r ==> k in after.byName)
  }

  lemma NamesBecame(before: Tables, after: Tables, uuidKey: Option<string>, nameKey: Option<string>,
                    r: PlayerState, merged: Option<PlayerState>)
    requires before.Closed() && Became(before, after, uuidKey, nameKey, r, merged)
    requires before.Has(r) || forall k :: k in before.byName && Some(k) != nameKey ==> before.byName[k].key != r.key
    ensures var byName := MainKeys(before.byName);
            MainKeys(after.byName) == (map k | k in byName && byName[k] != r.key :: byName[k])[nameKey.value := r.key]
  {
    forall k | k in before.byName && Some(k) != nameKey
      ensures before.byName[k].key == r.key <==> before.byName[k] == r
    {
      assert before.Has(before.byName[k]);
    }
  }

  /** A main key that does not clash is that of no other player's name. */
  lemma FreshIsFree(before: Sketch, tables: Tables, uuidKey: Option<string>, nameKey: Option<string>, key: string)
    requires tables.Closed() && before.uuids.Keys == tables.states.Keys && before.byName == MainKeys(tables.byName)
    requires before.Found(uuidKey, nameKey).None? && !before.Clashes(uuidKey, nameKey)
    requires MainKey(uuidKey, nameKey) == Some(key)
    ensures forall k :: k in tables.byName && Some(k) != nameKey ==> tables.byName[k].key != key
  {
    forall k | k in tables.byName && Some(k) != nameKey ensures tables.byName[k].key != key {
      assert tables.Has(tables.byName[k]) && before.byName[k] == tables.byName[k].key;
    }
  }

  lemma UuidsBecame(before: map<string, Option<string>>, states: map<string, PlayerState>, r: PlayerState,
                    gone: Option<string>)
    requires states.Keys == (if gone.Some? then before.Keys - {gone.value} else before.Keys) + {r.key}
    requires states[r.key] == r
    requires forall k :: k in states && k != r.key ==> states[k].uuid == before[k]
    ensures (map k | k in states :: states[k].uuid)
         == (if gone.Some? then before - {gone.value} else before)[r.key := r.uuid]
  {
  }

  lemma IndexBecame(before: map<string, PlayerState>, key: string, r: PlayerState)
    ensures MainKeys(before[key := r]) == MainKeys(before)[key := r.key]
  {
  }

  /** One step of the store is one step of its sketch. */
  lemma StepIs(store: PlayerStore, before: Sketch, tables: Tables, uuid: Option<string>, name: Option<string>,
               r: PlayerState, merged: Option<PlayerState>)
    requires tables.Closed() && Became(tables, Now(store), UuidKey(uuid), NameKey(name), r, merged)
    requires before.uuids.Keys == tables.states.Keys
    requires before.byUuid == MainKeys(tables.byUuid) && before.byName == MainKeys(tables.byName)
    requires !before.Clashes(UuidKey(uuid), NameKey(name))
    requires var found := before.Found(UuidKey(uuid), NameKey(name));
             if found.Some? then found == Some(r.key) && tables.Has(r)
             else !tables.Has(r) && Some(r.key) == MainKey(UuidKey(uuid), NameKey(name))
    requires before.Merged(UuidKey(uuid), NameKey(name)) == if merged.Some? then Some(merged.value.key) else None
    requires forall k :: k in store.states && k != r.key ==>
               k in before.uuids && store.states[k].uuid == before.uuids[k]
    requires var was := if tables.Has(r) then before.UuidAt(r.key) else None;
             r.uuid == if Missing(was) && GoodUuid(uuid).Some? then uuid else was
    ensures SketchOf(store) == before.Step(uuid, name)
  {
    var uuidKey, nameKey := UuidKey(uuid), NameKey(name);
    var gone := if merged.Some? then Some(merged.value.key) else None;
    if before.Found(uuidKey, nameKey).None? {
      FreshIsFree(before, tables, uuidKey, nameKey, r.key);
    }
    assert tables.Has(r) || forall k :: k in tables.byName && Some(k) != nameKey ==> tables.byName[k].key != r.key;
    NamesBecame(tables, Now(store), uuidKey, nameKey, r, merged);
    if uuidKey.Some? {
      IndexBecame(tables.byUuid, uuidKey.value, r);
    }
    UuidsBecame(before.uuids, store.states, r, gone);
    StepMade(before, uuid, name, r.key, r.uuid, SketchOf(store));
  }

  lemma StepMade(before: Sketch, uuid: Option<string>, name: Option<string>, key: string, now: Option<string>,
                 after: Sketch)
    requires NameKey(name).Some?
    requires var uuidKey, nameKey := UuidKey(uuid), NameKey(name);
             var found, merged := before.Found(uuidKey, nameKey), before.Merged(uuidKey, nameKey);
             && key == (if found.Some? then found.value else MainKey(uuidKey, nameKey).value)
             && (var was := if found.Some? then before.UuidAt(key) else None;
                 now == if Missing(was) && GoodUuid(uuid).Some? then uuid else was)
             && after.uuids == (if merged.Some? then before.uuids - {merged.value} else before.uuids)[key := now]
             && after.byUuid == (if uuidKey.Some? then before.byUuid[uuidKey.value := key] else before.byUuid)
             && after.byName
                == (map k | k in before.byName && before.byName[k] != key :: before.byName[k])[nameKey.value := key]
    ensures after == before.Step(uuid, name)
  {
  }

  /** What `Ensure` says of the tables, for a player that is found or made. */
  ghost predicate Outcome(before: Tables, after: Tables, uuidKey: Option<string>, nameKey: Option<string>,
                          r: PlayerState, found: Option<PlayerState>, merged: Option<PlayerState>) {
    && (if found.Some? then r == found.value && before.Has(r)
        else !before.Has(r) && Some(r.key) == MainKey(uuidKey, nameKey))
    && after.states == (if merged.Some? then before.states - {merged.value.key} else before.states)[r.key := r]
    && after.byUuid == (if uuidKey.Some? then before.byUuid[uuidKey.value := r] else before.byUuid)
    && after.Names(nameKey, r)
    && (forall k :: k in after.byName ==>
          Some(k) == nameKey || (k in before.byName && after.byName[k] == before.byName[k]))
    && (forall k :: k in before.byName && before.byName[k] != r ==> k in after.byName)
  }

  /** The UUIDs in the table afterwards; only that of `r` can be new. */
  predicate UuidsKept(before: Sketch, store: PlayerStore, uuid: Option<string>, r: PlayerState, known: bool)
    reads store`states, store.states.Values`uuid, r`uuid
  {
    && (forall k :: k in store.states && k != r.key ==>
          k in before.uuids && store.states[k].uuid == before.uuids[k])
    && var was := if known then before.UuidAt(r.key) else None;
       r.uuid == if Missing(was) && GoodUuid(uuid).Some? then uuid else was
  }

  /** What `Ensure` says of its outcome makes one step of the sketch. */
  lemma EnsuredIsStep(store: PlayerStore, before: Sketch, tables: Tables, uuid: Option<string>, name: Option<string>,
                      r: PlayerState, found: Option<PlayerState>, merged: Option<PlayerState>)
    requires store.Indexes() && NameKey(name).Some? && r.name == name && IsGoodName(name)
    requires Draws(before, tables, UuidKey(uuid), NameKey(name), found, merged)
    requires Outcome(tables, Now(store), UuidKey(uuid), NameKey(name), r, found, merged)
    requires UuidsKept(before, store, uuid, r, found.Some?)
    ensures SketchOf(store) == before.Step(uuid, name)
  {
    assert Same(before, before);
    forall k | k in store.byName && Some(k) != NameKey(name) ensures store.byName[k] != r {
      assert Key(store.byName[k].name) == Some(k);
    }
    StepIs(store, before, tables, uuid, name, r, merged);
  }
}
