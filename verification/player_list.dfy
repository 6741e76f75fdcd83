/**
 Reconciling the player table with a list the server printed (`window-player-events.c`):
 listed players are online, and the others go offline only when the list is known to be whole.
 */
module PlayerList {
  import opened Names
  import opened Players
  import opened PlayerSketch
  import opened Wrappers

  /** One entry of the list, as `pumpkin_player_parse_list_entry` reads it. */
  datatype Entry = Unreadable | Player(name: string, uuid: Option<string>) {
    predicate Readable() {
      Player? ==> ValidName(name) && Key(Some(name)).Some? && (uuid.Some? ==> ValidUuid(uuid.value))
    }

    function Uuid(): Option<string> {
      if Player? then UuidKey(uuid) else None
    }

    function Name(): Option<string> {
      if Player? then NameKey(Some(name)) else None
    }
  }

  /** `allow_deleted_player_tracking` */
  method AllowDeleted(store: PlayerStore, uuidKey: Option<string>, nameKey: Option<string>)
    requires store.Valid()
    modifies store`deleted
    ensures store.Valid()
    ensures !store.Blocked(uuidKey, nameKey)
    ensures store.Clobbers(uuidKey, nameKey) == old(store.Displaces(uuidKey, nameKey))
    ensures forall k :: k in store.deleted <==> k in old(store.deleted) && Some(k) != uuidKey && Some(k) != nameKey
  {
    if uuidKey.Some? {
      store.deleted := store.deleted - {uuidKey.value};
    }
    if nameKey.Some? {
      store.deleted := store.deleted - {nameKey.value};
    }
    assert store.Found(uuidKey, nameKey) == old(store.Found(uuidKey, nameKey));
    assert store.Taken(uuidKey, nameKey) == old(store.Taken(uuidKey, nameKey));
  }

  /** A session neither ends nor starts again, and no play time is lost. */
  twostate predicate Keeps(state: PlayerState)
    reads state
  {
    old(state.online) ==>
      && state.online && state.playtime >= old(state.playtime)
      && (old(state.started) > 0 ==> 0 < state.started <= old(state.started))
  }

  /** A state that a list entry may replace or merge into another: it has the entry's key or its name. */
  predicate IsListed(state: PlayerState, entry: Entry)
    reads state
  {
    Some(state.key) == MainKey(entry.Uuid(), entry.Name()) || Key(state.name) == entry.Name()
  }

  /** The sketch once an entry has been read. */
  function After(sketch: Sketch, entry: Entry): Sketch
    requires entry.Readable()
  {
    if entry.Player? then sketch.Step(entry.uuid, Some(entry.name)) else sketch
  }

  ghost predicate Follows(before: Sketch, after: Sketch, entry: Entry)
    requires entry.Readable()
  {
    forall s {:trigger Same(s, before)} :: Same(s, before) ==> after == After(s, entry)
  }

  lemma FollowsIs(before: Sketch, after: Sketch, entry: Entry)
    requires entry.Readable()
    ensures Follows(before, after, entry) == (after == After(before, entry))
  {
    assert Same(before, before);
  }

  /** How the tables change when the state of a listed player is found or made. */
  ghost predicate Entered(before: Tables, after: Tables, entry: Entry, r: PlayerState) {
    && after.byUuid == (if entry.Uuid().Some? then before.byUuid[entry.Uuid().value := r] else before.byUuid)
    && (entry.Uuid().Some? && entry.Uuid().value in before.byUuid ==> before.Identifies(entry.Uuid(), r))
    && (forall k :: k in before.byUuid && before.byUuid[k] == r ==>
          before.Has(r) && (entry.Uuid().None? || entry.Uuid() == Some(k)))
    && after.Names(entry.Name(), r)
    && (entry.Uuid().None? && entry.Name().value in before.byName ==> before.Names(entry.Name(), r))
    && (forall k :: k in before.byName && Some(k) != entry.Name() ==>
          if before.byName[k] == r then before.Identifies(entry.Uuid(), r) else after.Names(Some(k), before.byName[k]))
    && (forall k :: k in after.states ==>
          k in before.states || (!before.Has(r) && Some(k) == MainKey(entry.Uuid(), entry.Name())))
  }

  /** The keys that lead to one state, when it is the one found for an entry. */
  ghost predicate OwnKeys(tables: Tables, entry: Entry, found: Option<PlayerState>) {
    && (forall k :: k in tables.byUuid ==> tables.Has(tables.byUuid[k]))
    && (forall k :: k in tables.byName ==> tables.Has(tables.byName[k]))
    && (found.Some? ==>
          && tables.Has(found.value)
          && (forall k :: k in tables.byUuid && tables.byUuid[k] == found.value ==>
                entry.Uuid().None? || entry.Uuid() == Some(k))
          && (forall k :: k in tables.byName && Some(k) != entry.Name() && tables.byName[k] == found.value ==>
                tables.Identifies(entry.Uuid(), found.value)))
  }

  lemma KeysOfFound(store: PlayerStore, entry: Entry)
    requires store.Valid() && entry.Player? && entry.Readable()
    ensures OwnKeys(Now(store), entry, store.Found(entry.Uuid(), entry.Name()))
  {
    var found, uuid := store.Found(entry.Uuid(), entry.Name()), entry.Uuid();
    if found.Some? && uuid.Some? && uuid.value !in store.byUuid && !Missing(found.value.uuid) {
      SameCaseSameKey(GoodUuid(entry.uuid), uuid.value, found.value.uuid.value);
    }
  }

  lemma EnteredIs(before: Tables, after: Tables, entry: Entry, found: Option<PlayerState>, merged: Option<PlayerState>,
                  r: PlayerState)
    requires entry.Name().Some? && OwnKeys(before, entry, found)
    requires entry.Uuid().Some? && entry.Uuid().value in before.byUuid ==>
               found == Some(before.byUuid[entry.Uuid().value])
    requires entry.Uuid().None? && entry.Name().value in before.byName ==>
               found == Some(before.byName[entry.Name().value])
    requires Outcome(before, after, entry.Uuid(), entry.Name(), r, found, merged)
    ensures Entered(before, after, entry, r)
  {
  }

  function UuidsOf(store: PlayerStore): map<string, Option<string>>
    reads store`states, store.states.Values`uuid
  {
    map k | k in store.states :: store.states[k].uuid
  }

  /** The UUIDs in the table after an entry; only that of `r` can be new. */
  predicate UuidsAre(store: PlayerStore, before: map<string, Option<string>>, entry: Entry, r: PlayerState, known: bool)
    requires entry.Player?
    reads store`states, store.states.Values`uuid, r`uuid
  {
    && (forall k :: k in store.states && k != r.key ==> k in before && store.states[k].uuid == before[k])
    && (known ==> r.key in before)
    && r.uuid == var was := if known then before[r.key] else None;
                 if Missing(was) && GoodUuid(entry.uuid).Some? then entry.uuid else was
  }

  /** Line 50: the state of a listed player, found or made. */
  method EnsureListed(store: PlayerStore, entry: Entry, now: int)
    returns (r: PlayerState, ghost found: Option<PlayerState>, ghost merged: Option<PlayerState>)
    requires store.Valid() && entry.Player? && entry.Readable()
    requires !store.Blocked(entry.Uuid(), entry.Name())
    requires !store.Clobbers(entry.Uuid(), entry.Name())
    modifies store`states, store`byUuid, store`byName, store.All()
    ensures store.Valid() && store.Has(r) && r.name == Some(entry.name)
    ensures found == old(store.Found(entry.Uuid(), entry.Name()))
    ensures merged == old(store.Merged(entry.Uuid(), entry.Name()))
    ensures merged.Some? ==> old(Now(store)).Has(merged.value) && Key(merged.value.name) == entry.Name()
    ensures if found.Some? then r in old(store.All()) && Keeps(r) else fresh(r)
    ensures found.Some? ==>
              r.uuid == if Missing(old(r.uuid)) && GoodUuid(entry.uuid).Some? then entry.uuid else old(r.uuid)
    ensures found.None? ==> r.uuid == GoodUuid(entry.uuid)
    ensures forall s <- old(store.All()) :: s != r ==> unchanged(s)
    ensures Outcome(old(Now(store)), Now(store), entry.Uuid(), entry.Name(), r, found, merged)
  {
    found, merged := store.Found(entry.Uuid(), entry.Name()), store.Merged(entry.Uuid(), entry.Name());
    assert merged.Some? ==> store.Has(merged.value) && Key(merged.value.name) == entry.Name();
    assert found.Some? ==> store.Has(found.value);
    r := store.Ensure(entry.uuid, Some(entry.name), true, now);
  }

  /** `EnsureListed`, and the UUIDs in the table. */
  method KeepUuids(store: PlayerStore, entry: Entry, now: int)
    returns (r: PlayerState, ghost found: Option<PlayerState>, ghost merged: Option<PlayerState>)
    requires store.Valid() && entry.Player? && entry.Readable()
    requires !store.Blocked(entry.Uuid(), entry.Name())
    requires !store.Clobbers(entry.Uuid(), entry.Name())
    modifies store`states, store`byUuid, store`byName, store.All()
    ensures store.Valid() && store.Has(r) && r.name == Some(entry.name)
    ensures found == old(store.Found(entry.Uuid(), entry.Name()))
    ensures merged == old(store.Merged(entry.Uuid(), entry.Name()))
    ensures merged.Some? ==> old(Now(store)).Has(merged.value) && Key(merged.value.name) == entry.Name()
    ensures if found.Some? then r in old(store.All()) && Keeps(r) else fresh(r)
    ensures forall s <- old(store.All()) :: s != r ==> unchanged(s)
    ensures Outcome(old(Now(store)), Now(store), entry.Uuid(), entry.Name(), r, found, merged)
    ensures UuidsAre(store, old(UuidsOf(store)), entry, r, found.Some?)
  {
    ghost var before, uuids := store.states, UuidsOf(store);
    assert forall k :: k in before ==> before[k].key == k && before[k] in store.All();
    r, found, merged := EnsureListed(store, entry, now);
    forall k | k in store.states && k != r.key ensures k in uuids && store.states[k].uuid == uuids[k] {
      var s := store.states[k];
      assert k in before && before[k] == s;
      assert s in old(store.All()) && s != r;
      assert unchanged(s);
    }
  }

  /** `EnsureListed` is one step of the sketch. */
  method Sketched(store: PlayerStore, entry: Entry, ghost sketch: Sketch, now: int)
    returns (r: PlayerState, ghost found: Option<PlayerState>, ghost merged: Option<PlayerState>, ghost next: Sketch)
    requires store.Valid() && entry.Player? && entry.Readable() && Drawn(store, sketch)
    requires !store.Blocked(entry.Uuid(), entry.Name())
    requires !store.Clobbers(entry.Uuid(), entry.Name())
    modifies store`states, store`byUuid, store`byName, store.All()
    ensures store.Valid() && store.Has(r) && r.name == Some(entry.name)
    ensures found == old(store.Found(entry.Uuid(), entry.Name()))
    ensures merged.Some? ==> old(Now(store)).Has(merged.value) && Key(merged.value.name) == entry.Name()
    ensures if found.Some? then r in old(store.All()) && Keeps(r) else fresh(r)
    ensures forall s <- old(store.All()) :: s != r ==> unchanged(s)
    ensures Outcome(old(Now(store)), Now(store), entry.Uuid(), entry.Name(), r, found, merged)
    ensures Drawn(store, next) && Follows(sketch, next, entry)
  {
    ghost var before := Now(store);
    found, merged := store.Found(entry.Uuid(), entry.Name()), store.Merged(entry.Uuid(), entry.Name());
    ghost var uuids := UuidsBefore(store, entry, sketch, found, merged);
    r, found, merged := KeepUuids(store, entry, now);
    next := SketchOf(store);
    assert Drawn(store, next) && Follows(sketch, next, entry) by {
      SketchedIs(store, entry, sketch, before, uuids, r, found, merged);
    }
  }

  lemma UuidsBefore(store: PlayerStore, entry: Entry, sketch: Sketch, found: Option<PlayerState>,
                    merged: Option<PlayerState>) returns (uuids: map<string, Option<string>>)
    requires store.Valid() && entry.Player? && entry.Readable() && Drawn(store, sketch)
    requires !store.Displaces(entry.Uuid(), entry.Name())
    requires found == store.Found(entry.Uuid(), entry.Name()) && merged == store.Merged(entry.Uuid(), entry.Name())
    ensures Draws(sketch, Now(store), entry.Uuid(), entry.Name(), found, merged)
    ensures uuids == sketch.uuids == UuidsOf(store)
  {
    DrawnIs(store, sketch);
    DrawsNow(store, sketch, entry.Uuid(), entry.Name());
    uuids := sketch.uuids;
  }

  lemma SketchedIs(store: PlayerStore, entry: Entry, sketch: Sketch, before: Tables,
                   uuids: map<string, Option<string>>, r: PlayerState, found: Option<PlayerState>,
                   merged: Option<PlayerState>)
    requires store.Valid() && entry.Player? && entry.Readable() && r.name == Some(entry.name)
    requires uuids == sketch.uuids && Draws(sketch, before, entry.Uuid(), entry.Name(), found, merged)
    requires Outcome(before, Now(store), entry.Uuid(), entry.Name(), r, found, merged)
    requires UuidsAre(store, uuids, entry, r, found.Some?)
    ensures Drawn(store, SketchOf(store)) && Follows(sketch, SketchOf(store), entry)
  {
    EnsuredIsStep(store, sketch, before, entry.uuid, Some(entry.name), r, found, merged);
    DrawnIs(store, SketchOf(store));
    FollowsIs(sketch, SketchOf(store), entry);
  }

  /** `EnsureListed`, and what becomes of the table. */
  method Enter(store: PlayerStore, entry: Entry, ghost sketch: Sketch, now: int)
    returns (r: PlayerState, ghost next: Sketch)
    requires store.Valid() && entry.Player? && entry.Readable() && Drawn(store, sketch)
    requires !store.Blocked(entry.Uuid(), entry.Name())
    requires !store.Clobbers(entry.Uuid(), entry.Name())
    modifies store`states, store`byUuid, store`byName, store.All()
    ensures store.Valid() && store.Has(r) && r.name == Some(entry.name)
    ensures r in old(store.All()) || fresh(r)
    ensures store.All() <= old(store.All()) + {r}
    ensures forall s <- old(store.All()) :: Keeps(s) && (s != r ==> unchanged(s))
    ensures Entered(old(Now(store)), Now(store), entry, r)
    ensures forall s <- old(store.All()) :: s in store.All() || IsListed(s, entry)
    ensures Drawn(store, next) && Follows(sketch, next, entry)
  {
    ghost var before, found, merged := Now(store), None, None;
    KeysOfFound(store, entry);
    r, found, merged, next := Sketched(store, entry, sketch, now);
    EnteredIs(before, Now(store), entry, found, merged, r);
    forall s <- old(store.All()) ensures s in store.All() || IsListed(s, entry) {
      if s !in store.All() {
        Leaves(before.states, store.states, merged, s, r, entry);
      }
    }
  }

  /** Who leaves the table when `r` is put in: the state merged, or the one under a new state's key. */
  lemma Leaves(before: map<string, PlayerState>, after: map<string, PlayerState>, merged: Option<PlayerState>,
               s: PlayerState, r: PlayerState, entry: Entry)
    requires s.key in before && before[s.key] == s && (s.key in after ==> after[s.key] != s)
    requires merged.Some? ==> merged.value.key in before && before[merged.value.key] == merged.value
                              && Key(merged.value.name) == entry.Name()
    requires after == (if merged.Some? then before - {merged.value.key} else before)[r.key := r]
    requires Some(r.key) == MainKey(entry.Uuid(), entry.Name()) || (r.key in before && before[r.key] == r)
    ensures IsListed(s, entry)
  {
    if merged.Some? && merged.value.key == s.key {
      assert s == merged.value;
    } else {
      assert s.key == r.key;
    }
  }

  /** Line 52, which touches no index. */
  method SetOnline(store: PlayerStore, r: PlayerState, ghost sketch: Sketch, now: int)
    requires store.Valid() && Drawn(store, sketch)
    modifies r`online, r`started
    ensures store.Valid() && Drawn(store, sketch) && r.Clock() == old(r.Clock()).Join(now)
  {
    r.MarkOnline(now);
  }

  /** Lines 49-54: and online from now on. */
  method Admit(store: PlayerStore, entry: Entry, ghost sketch: Sketch, now: int)
    returns (r: PlayerState, ghost next: Sketch)
    requires store.Valid() && entry.Player? && entry.Readable() && Drawn(store, sketch)
    requires !store.Blocked(entry.Uuid(), entry.Name())
    requires !store.Clobbers(entry.Uuid(), entry.Name())
    modifies store`states, store`byUuid, store`byName, store.All()
    ensures store.Valid() && store.Has(r) && r.online && r.name == Some(entry.name)
    ensures r in old(store.All()) || fresh(r)
    ensures store.All() <= old(store.All()) + {r}
    ensures forall s <- old(store.All()) :: Keeps(s) && (s != r ==> unchanged(s))
    ensures Entered(old(Now(store)), Now(store), entry, r)
    ensures forall s <- old(store.All()) :: s in store.All() || IsListed(s, entry)
    ensures Drawn(store, next) && Follows(sketch, next, entry)
  {
    r, next := Enter(store, entry, sketch, now);
    SetOnline(store, r, next, now);
  }

  // ----- lists that put no state in another's place -----

  /** The accounts of a list keep apart from the names in it that come without a UUID. */
  predicate Steady(entries: seq<Entry>) {
    forall j, f :: 0 <= j < |entries| && 0 <= f < |entries| ==> Apart(entries, j, f)
  }

  /** No account has the name of entry `j` for its UUID, and one called so has no other name in the list. */
  predicate Apart(entries: seq<Entry>, j: nat, f: nat)
    requires j < |entries| && f < |entries|
  {
    var name, uuid := entries[j].Name(), entries[f].Uuid();
    name.Some? && entries[j].Uuid().None? && uuid.Some? ==>
      && uuid != name
      && (entries[f].Name() == name ==>
            forall g :: 0 <= g < |entries| && entries[g].Uuid() == uuid ==> entries[g].Name() == name)
  }

  /** A UUID is known or is no main key; so is a name without one, and no listed account is about to give it up. */
  predicate Room(entries: seq<Entry>, j: nat, tables: Tables)
    requires j < |entries|
  {
    var name, uuid := entries[j].Name(), entries[j].Uuid();
    if uuid.Some? then uuid.value in tables.byUuid || uuid.value !in tables.states
    else name.Some? && name.value in tables.states ==>
      && name.value in tables.byName
      && forall f :: 0 <= f < |entries| && tables.Identifies(entries[f].Uuid(), tables.byName[name.value]) ==>
           entries[f].Name() == name
  }

  predicate AllFree(entries: seq<Entry>, tables: Tables) {
    Steady(entries) && forall j :: 0 <= j < |entries| ==> Room(entries, j, tables)
  }

  lemma FreeIsSound(entries: seq<Entry>, n: nat, store: PlayerStore)
    requires n < |entries| && entries[n].Player? && entries[n].Readable() && AllFree(entries, Now(store))
    ensures !store.Clobbers(entries[n].Uuid(), entries[n].Name())
  {
    assert Room(entries, n, Now(store));
  }

  lemma RoomStays(entries: seq<Entry>, n: nat, before: Tables, after: Tables, r: PlayerState, j: nat)
    requires n < |entries| && j < |entries| && Steady(entries)
    requires entries[n].Name().Some? && Entered(before, after, entries[n], r)
    requires Room(entries, j, before)
    ensures Room(entries, j, after)
  {
    var name := entries[j].Name();
    assert Apart(entries, j, n) && (entries[j].Uuid().Some? && entries[n].Uuid().None? ==> Apart(entries, n, j));
    if entries[j].Uuid().None? && name.Some? && name.value in after.states {
      if name.value in before.states && entries[n].Name() != name {
        assert before.byName[name.value] != r;
        assert after.Names(name, before.byName[name.value]);
      }
      forall f | 0 <= f < |entries| && after.Identifies(entries[f].Uuid(), after.byName[name.value])
        ensures entries[f].Name() == name
      {
        if entries[n].Uuid().Some? && entries[f].Uuid() == entries[n].Uuid() {
          assert Apart(entries, j, n);
        } else {
          assert before.Identifies(entries[f].Uuid(), after.byName[name.value]);
        }
      }
    }
  }

  /** The condition outlasts the entering of a listed player. */
  lemma FreeStays(entries: seq<Entry>, n: nat, before: Tables, after: Tables, r: PlayerState)
    requires n < |entries| && entries[n].Name().Some? && AllFree(entries, before)
    requires Entered(before, after, entries[n], r)
    ensures AllFree(entries, after)
  {
    forall j | 0 <= j < |entries| ensures Room(entries, j, after) {
      RoomStays(entries, n, before, after, r, j);
    }
  }

  // ----- what has been read -----

  /** One of the first `n` entries is a player called `name`. */
  predicate HasName(entries: seq<Entry>, n: nat, name: Option<string>)
    requires n <= |entries|
  {
    exists j :: 0 <= j < n && entries[j].Player? && name == Some(entries[j].name)
  }

  /** `present` are online players of the first `n` entries. */
  predicate Shows(entries: seq<Entry>, n: nat, present: set<PlayerState>)
    requires n <= |entries|
    reads present
  {
    forall s <- present :: s.online && HasName(entries, n, s.name)
  }

  /** `present` holds the states of the first `n` entries, and no others. */
  ghost predicate Accounts(entries: seq<Entry>, n: nat, states: seq<Option<PlayerState>>, present: set<PlayerState>)
    requires n <= |entries|
  {
    && |states| == n
    && (forall j {:trigger states[j]} :: 0 <= j < n ==> states[j].Some? == entries[j].Player?)
    && (forall j {:trigger states[j]} :: 0 <= j < n && states[j].Some? ==> states[j].value in present)
    && (forall s {:trigger Some(s) in states} :: s in present ==> Some(s) in states)
  }

  /** After entry `j`, an entry with a UUID took its name, or named its account anew. */
  ghost predicate Renamed(entries: seq<Entry>, j: nat, states: seq<Option<PlayerState>>)
    requires |states| <= |entries| && j < |states|
  {
    exists l :: j < l < |states| && entries[l].Uuid().Some?
                && (entries[l].Name() == entries[j].Name() || states[l] == states[j])
  }

  /** The state of an entry is the one that its UUID and its name lead to. */
  ghost predicate Placed(entries: seq<Entry>, j: nat, states: seq<Option<PlayerState>>, tables: Tables)
    requires |states| <= |entries| && j < |states|
  {
    states[j].Some? ==>
      && (entries[j].Uuid().Some? ==> tables.Identifies(entries[j].Uuid(), states[j].value))
      && (tables.Names(entries[j].Name(), states[j].value) || Renamed(entries, j, states))
  }

  ghost predicate AllPlaced(entries: seq<Entry>, states: seq<Option<PlayerState>>, tables: Tables) {
    |states| <= |entries| && forall j :: 0 <= j < |states| ==> Placed(entries, j, states, tables)
  }

  predicate SomeLists(entries: seq<Entry>, state: PlayerState)
    reads state
  {
    exists j :: 0 <= j < |entries| && entries[j].Player? && IsListed(state, entries[j])
  }

  predicate AllReadable(entries: seq<Entry>, n: nat)
    requires n <= |entries|
  {
    forall j :: 0 <= j < n ==> entries[j].Player?
  }

  lemma ReadableNext(entries: seq<Entry>, n: nat)
    requires n < |entries|
    ensures AllReadable(entries, n + 1) == (AllReadable(entries, n) && entries[n].Player?)
  {
  }

  lemma ShowsNext(entries: seq<Entry>, n: nat, present: set<PlayerState>, state: PlayerState)
    requires n < |entries| && Shows(entries, n, present - {state})
    requires entries[n].Player? && state.online && state.name == Some(entries[n].name)
    ensures Shows(entries, n + 1, present + {state})
  {
    forall s <- present + {state} ensures s.online && HasName(entries, n + 1, s.name) {
      if s == state {
        assert entries[n].Player? && s.name == Some(entries[n].name);
      } else {
        assert s in present - {state};
        var j :| 0 <= j < n && entries[j].Player? && s.name == Some(entries[j].name);
      }
    }
  }

  /** One more entry, with a state or without. */
  lemma AccountsNext(entries: seq<Entry>, n: nat, states: seq<Option<PlayerState>>, present: set<PlayerState>,
                     state: Option<PlayerState>)
    requires n < |entries| && Accounts(entries, n, states, present) && state.Some? == entries[n].Player?
    ensures Accounts(entries, n + 1, states + [state], if state.Some? then present + {state.value} else present)
  {
    var after := states + [state];
    assert after[n] == state;
    forall s <- present ensures Some(s) in after {
      assert Some(s) in states;
      var j :| 0 <= j < |states| && states[j] == Some(s);
      assert after[j] == Some(s);
    }
  }

  lemma PlacedStill(entries: seq<Entry>, states: seq<Option<PlayerState>>, tables: Tables)
    requires |states| < |entries| && AllPlaced(entries, states, tables)
    ensures AllPlaced(entries, states + [None], tables)
  {
    forall j | 0 <= j < |states| ensures Placed(entries, j, states + [None], tables) {
      assert Placed(entries, j, states, tables);
      RenamedStill(entries, j, states, None);
    }
  }

  lemma RenamedStill(entries: seq<Entry>, j: nat, states: seq<Option<PlayerState>>, state: Option<PlayerState>)
    requires |states| < |entries| && j < |states|
    ensures Renamed(entries, j, states) ==> Renamed(entries, j, states + [state])
  {
    if Renamed(entries, j, states) {
      var l :| j < l < |states| && entries[l].Uuid().Some?
               && (entries[l].Name() == entries[j].Name() || states[l] == states[j]);
      assert (states + [state])[l] == states[l] && (states + [state])[j] == states[j];
    }
  }

  lemma PlacedNext(entries: seq<Entry>, states: seq<Option<PlayerState>>, before: Tables, after: Tables, r: PlayerState)
    requires |states| < |entries| && AllPlaced(entries, states, before)
    requires entries[|states|].Name().Some? && Entered(before, after, entries[|states|], r)
    ensures AllPlaced(entries, states + [Some(r)], after)
  {
    var n, next := |states|, states + [Some(r)];
    assert Placed(entries, n, next, after);
    forall j | 0 <= j < n ensures Placed(entries, j, next, after) {
      assert Placed(entries, j, states, before) && next[j] == states[j] && next[n] == Some(r);
      RenamedStill(entries, j, states, Some(r));
    }
  }

  /** Unless an entry with a UUID comes later, a listed name leads to the state that is online for it. */
  lemma ListedNameLeads(entries: seq<Entry>, j: nat, states: seq<Option<PlayerState>>, present: set<PlayerState>,
                        tables: Tables)
    requires j < |entries| && entries[j].Player?
    requires Accounts(entries, |entries|, states, present) && AllPlaced(entries, states, tables)
    requires forall l :: j < l < |entries| ==> entries[l].Uuid().None?
    ensures var name := entries[j].Name();
            name.Some? && name.value in tables.byName && tables.byName[name.value] in present
  {
    assert Placed(entries, j, states, tables);
  }

  // ----- where reading stops -----

  predicate ClashesAt(sketch: Sketch, entry: Entry) {
    entry.Player? && sketch.Clashes(entry.Uuid(), entry.Name())
  }

  predicate AreReadable(entries: seq<Entry>) {
    forall j {:trigger entries[j].Readable()} :: 0 <= j < |entries| ==> entries[j].Readable()
  }

  /** The first entry at which a new state would take the place of one that the indexes need, if there is one. */
  function FirstClash(entries: seq<Entry>, sketch: Sketch): (n: nat)
    requires AreReadable(entries)
    ensures n <= |entries|
  {
    if entries == [] || ClashesAt(sketch, entries[0]) then 0
    else 1 + FirstClash(entries[1..], After(sketch, entries[0]))
  }

  /** The first clash, once `n` entries have been read without one. */
  ghost predicate Leads(first: nat, n: nat, entries: seq<Entry>, sketch: Sketch)
    requires n <= |entries| && AreReadable(entries)
  {
    forall s {:trigger Same(s, sketch)} :: Same(s, sketch) ==> first == n + FirstClash(entries[n..], s)
  }

  lemma LeadsOn(first: nat, n: nat, entries: seq<Entry>, before: Sketch, after: Sketch, sound: bool)
    requires n < |entries| && AreReadable(entries) && Leads(first, n, entries, before)
    requires Verdict(before, entries[n], !sound) && (sound ==> Follows(before, after, entries[n]))
    ensures if sound then Leads(first, n + 1, entries, after) else first == n
  {
    assert Same(before, before) && entries[n..][0] == entries[n] && entries[n..][1..] == entries[n + 1..];
  }

  lemma LeadsToEnd(first: nat, entries: seq<Entry>, sketch: Sketch)
    requires AreReadable(entries) && Leads(first, |entries|, entries, sketch)
    ensures first == |entries|
  {
    assert Same(sketch, sketch) && entries[|entries|..] == [];
  }

  lemma LeadsFirst(store: PlayerStore, entries: seq<Entry>) returns (first: nat, sketch: Sketch)
    requires AreReadable(entries)
    ensures first == FirstClash(entries, SketchOf(store)) && Drawn(store, sketch) && Leads(first, 0, entries, sketch)
  {
    sketch := SketchOf(store);
    first := FirstClash(entries, sketch);
    DrawnIs(store, sketch);
    assert entries[0..] == entries;
  }

  ghost predicate Verdict(sketch: Sketch, entry: Entry, clash: bool) {
    forall s {:trigger Same(s, sketch)} :: Same(s, sketch) ==> ClashesAt(s, entry) == clash
  }

  /** A new state for the entry would take the place of one that an index needs. */
  predicate Stops(store: PlayerStore, entry: Entry)
    reads store`states, store`byUuid, store`byName, store.byName.Values
  {
    entry.Player? && store.Displaces(entry.Uuid(), entry.Name())
  }

  lemma VerdictIs(store: PlayerStore, entry: Entry, sketch: Sketch)
    requires store.Valid() && Drawn(store, sketch) && entry.Player?
    ensures Verdict(sketch, entry, Stops(store, entry))
  {
    DrawnIs(store, sketch);
    SketchDecides(store, entry.Uuid(), entry.Name());
  }

  // ----- reading the list -----

  /** `Admit`, for entry `n` of the list. */
  method AdmitNext(store: PlayerStore, entries: seq<Entry>, n: nat, seen: set<PlayerState>,
                   ghost states: seq<Option<PlayerState>>, ghost sketch: Sketch, now: int)
    returns (present: set<PlayerState>, r: PlayerState, ghost next: Sketch)
    requires Drawn(store, sketch)
    requires store.Valid() && n < |entries| && entries[n].Player? && entries[n].Readable()
    requires Shows(entries, n, seen) && Accounts(entries, n, states, seen) && AllPlaced(entries, states, Now(store))
    requires !store.Blocked(entries[n].Uuid(), entries[n].Name())
    requires !store.Clobbers(entries[n].Uuid(), entries[n].Name())
    modifies store`states, store`byUuid, store`byName, store.All()
    ensures store.Valid()
    ensures store.Has(r) && r.online && r.name == Some(entries[n].name)
    ensures old(AllFree(entries, Now(store))) ==> AllFree(entries, Now(store))
    ensures forall s <- old(store.All()) :: Keeps(s) && (s in store.All() || IsListed(s, entries[n]))
    ensures seen <= present && forall s <- old(store.All()) :: s in present || unchanged(s)
    ensures forall s <- store.All() + present :: s in old(store.All()) + seen || fresh(s)
    ensures Shows(entries, n + 1, present) && Accounts(entries, n + 1, states + [Some(r)], present)
    ensures AllPlaced(entries, states + [Some(r)], Now(store))
    ensures Drawn(store, next) && Follows(sketch, next, entries[n])
  {
    ghost var all := store.All();
    r, next := Admit(store, entries[n], sketch, now);
    if old(AllFree(entries, Now(store))) {
      FreeStays(entries, n, old(Now(store)), Now(store), r);
    }
    forall s <- seen - {r} ensures s.online && HasName(entries, n, s.name) {
      assert s in all ==> unchanged(s);
      assert s.name == old(s.name) && s.online == old(s.online);
    }
    ShowsNext(entries, n, seen, r);
    AccountsNext(entries, n, states, seen, Some(r));
    PlacedNext(entries, states, old(Now(store)), Now(store), r);
    present := seen + {r};
  }

  /** Lines 42-57, for entry `n`: the player is in the table, online and under the name given. */
  method ReadEntry(store: PlayerStore, entries: seq<Entry>, n: nat, seen: set<PlayerState>,
                   ghost states: seq<Option<PlayerState>>, ghost sketch: Sketch, now: int)
    returns (present: set<PlayerState>, r: PlayerState?, sound: bool, ghost next: Sketch)
    requires Drawn(store, sketch)
    requires store.Valid() && n < |entries| && entries[n].Player? && entries[n].Readable()
    requires Shows(entries, n, seen) && Accounts(entries, n, states, seen) && AllPlaced(entries, states, Now(store))
    modifies store, store.All()
    ensures store.Valid()
    ensures sound == !old(Stops(store, entries[n])) && Verdict(sketch, entries[n], !sound)
    ensures old(AllFree(entries, Now(store))) ==> sound && AllFree(entries, Now(store))
    ensures forall s <- old(store.All()) :: Keeps(s) && (s in store.All() || IsListed(s, entries[n]))
    ensures seen <= present && forall s <- old(store.All()) :: s in present || unchanged(s)
    ensures forall s <- store.All() + present :: s in old(store.All()) + seen || fresh(s)
    ensures sound ==> r != null && store.Has(r) && r.online && r.name == Some(entries[n].name)
    ensures sound ==> Shows(entries, n + 1, present) && Accounts(entries, n + 1, states + [Some(r)], present)
                      && AllPlaced(entries, states + [Some(r)], Now(store))
    ensures Drawn(store, next) && if sound then Follows(sketch, next, entries[n]) else next == sketch
    ensures !sound ==> Stops(store, entries[n]) && present == seen
    ensures !sound ==> Now(store) == old(Now(store)) && unchanged(old(store.All()))
  {
    var entry := entries[n];
    VerdictIs(store, entry, sketch);
    AllowDeleted(store, entry.Uuid(), entry.Name());
    assert Now(store) == old(Now(store)) && store.All() == old(store.All());
    assert Drawn(store, sketch);
    next := sketch;
    if old(AllFree(entries, Now(store))) {
      FreeIsSound(entries, n, store);
    }
    sound := !store.Clobbers(entry.Uuid(), entry.Name());
    present, r := seen, null;
    if sound {
      present, r, next := AdmitNext(store, entries, n, seen, states, sketch, now);
    }
  }

  /** Lines 42-57, for an entry that can be read or not. */
  method ReadNext(store: PlayerStore, entries: seq<Entry>, n: nat, seen: set<PlayerState>,
                  ghost states: seq<Option<PlayerState>>, ghost sketch: Sketch, now: int)
    returns (present: set<PlayerState>, sound: bool, ghost state: Option<PlayerState>, ghost next: Sketch)
    requires Drawn(store, sketch)
    requires store.Valid() && n < |entries| && entries[n].Readable()
    requires Shows(entries, n, seen) && Accounts(entries, n, states, seen) && AllPlaced(entries, states, Now(store))
    modifies store, store.All()
    ensures store.Valid()
    ensures Verdict(sketch, entries[n], !sound) && (!sound ==> Stops(store, entries[n]) && present == seen)
    ensures old(AllFree(entries, Now(store))) ==> sound && AllFree(entries, Now(store))
    ensures forall s <- old(store.All()) ::
              Keeps(s) && (s in store.All() || (entries[n].Player? && IsListed(s, entries[n])))
    ensures seen <= present && forall s <- old(store.All()) :: s in present || unchanged(s)
    ensures forall s <- store.All() + present :: s in old(store.All()) + seen || fresh(s)
    ensures if sound then Shows(entries, n + 1, present) && Accounts(entries, n + 1, states + [state], present)
                          && AllPlaced(entries, states + [state], Now(store))
            else Shows(entries, n, present) && Accounts(entries, n, states, present)
                 && AllPlaced(entries, states, Now(store))
    ensures Drawn(store, next) && (sound ==> Follows(sketch, next, entries[n]))
  {
    if entries[n].Unreadable? {
      AccountsNext(entries, n, states, seen, None);
      PlacedStill(entries, states, Now(store));
      FollowsIs(sketch, sketch, entries[n]);
      present, sound, state, next := seen, true, None, sketch;
    } else {
      var r;
      present, r, sound, next := ReadEntry(store, entries, n, seen, states, sketch, now);
      state := None;
      if sound {
        ghost var player: PlayerState := r;
        state := Some(player);
      }
    }
  }

  /**
   Lines 39-58. The model stops, with `sound` false, before a new state would be put under the main key of one that
   the indexes still need, since nothing can be said of the code from there on.
   */
  method ReadEntries(store: PlayerStore, entries: seq<Entry>, now: int)
    returns (present: set<PlayerState>, complete: bool, sound: bool, ghost states: seq<Option<PlayerState>>)
    requires store.Valid() && AreReadable(entries)
    modifies store, store.All()
    ensures |states| == FirstClash(entries, old(SketchOf(store))) && sound == (|states| == |entries|)
    ensures old(AllFree(entries, Now(store))) ==> sound
    ensures store.Valid()
    ensures forall s <- old(store.All()) :: Keeps(s) && (s in store.All() || SomeLists(entries, s))
    ensures forall s <- old(store.All()) :: s in present || unchanged(s)
    ensures forall s <- store.All() + present :: s in old(store.All()) || fresh(s)
    ensures sound ==> complete == AllReadable(entries, |entries|)
    ensures Shows(entries, |states|, present) && Accounts(entries, |states|, states, present)
            && AllPlaced(entries, states, Now(store))
    ensures !sound ==> Stops(store, entries[|states|])
  {
    present, complete, sound, states := {}, true, true, [];
    ghost var first, sketch := LeadsFirst(store, entries);
    for i := 0 to |entries|
      invariant store.Valid() && sound && |states| == i
      invariant Drawn(store, sketch) && Leads(first, i, entries, sketch)
      invariant old(AllFree(entries, Now(store))) ==> AllFree(entries, Now(store))
      invariant forall s <- store.All() + present :: s in old(store.All()) || fresh(s)
      invariant forall s <- old(store.All()) :: Keeps(s) && (s in store.All() || SomeLists(entries, s))
      invariant forall s <- old(store.All()) :: s in present || unchanged(s)
      invariant complete == AllReadable(entries, i)
      invariant Shows(entries, i, present) && Accounts(entries, i, states, present)
      invariant AllPlaced(entries, states, Now(store))
    {
      ReadableNext(entries, i);
      complete := complete && entries[i].Player?;
      ghost var before, state := sketch, None;
      present, sound, state, sketch := ReadNext(store, entries, i, present, states, sketch, now);
      LeadsOn(first, i, entries, before, sketch, sound);
      if !sound {
        return;
      }
      states := states + [state];
    }
    LeadsToEnd(first, entries, sketch);
  }

  /** What lines 61-68 do to one state. */
  twostate predicate Settled(state: PlayerState, new present: set<PlayerState>, now: int)
    reads state
  {
    && state.name == old(state.name) && state.uuid == old(state.uuid)
    && state.Clock() ==
         if state in present || !old(state.online) then old(state.Clock()) else old(state.Clock()).Leave(now)
  }

  method OthersLeave(store: PlayerStore, present: set<PlayerState>, now: int)
    requires store.Keyed()
    modifies store.All()`online, store.All()`started, store.All()`playtime
    ensures forall s <- store.All() :: Settled(s, present, now)
  {
    var rest := store.states.Keys;
    while rest != {}
      invariant rest <= store.states.Keys
      invariant forall k <- rest :: unchanged(store.states[k])
      invariant forall k <- store.states.Keys - rest :: Settled(store.states[k], present, now)
      decreases |rest|
    {
      var key :| key in rest;
      rest := rest - {key};
      var state := store.states[key];
      if state.online && state !in present {
        state.MarkOffline(now);
      }
    }
  }

  /**
   The list-snapshot branch of `player_states_consume_log`. Every listed player has a state, which is online and
   which the indexes know; when every entry was read and the count agrees, these are the only ones online, and
   otherwise nobody goes offline.
   */
  method Reconcile(store: PlayerStore, entries: seq<Entry>, count: int, now: int)
    returns (present: set<PlayerState>, sound: bool, ghost states: seq<Option<PlayerState>>)
    requires store.Valid() && AreReadable(entries)
    modifies store, store.All()
    ensures |states| == FirstClash(entries, old(SketchOf(store))) && sound == (|states| == |entries|)
    ensures old(AllFree(entries, Now(store))) ==> sound
    ensures store.Valid()
    ensures Shows(entries, |states|, present) && Accounts(entries, |states|, states, present)
            && AllPlaced(entries, states, Now(store))
    ensures !sound ==> Stops(store, entries[|states|])
    ensures sound && AllReadable(entries, |entries|) && |present| == count ==>
              && (forall s <- store.All() :: s.online <==> s in present)
              && (forall s <- old(store.All()) :: s in store.All() && s !in present ==> Settled(s, present, now))
    ensures !sound || !AllReadable(entries, |entries|) || |present| != count ==>
              forall s <- old(store.All()) :: Keeps(s)
    ensures forall s <- old(store.All()) ::
              (old(s.online) && s.online ==> Keeps(s)) && (s in store.All() || SomeLists(entries, s))
  {
    var complete;
    present, complete, sound, states := ReadEntries(store, entries, now);
    if sound && complete && |present| == count {
      ghost var all, tables := store.All(), Now(store);
      label Read:
      OthersLeave(store, present, now);
      assert Now(store) == tables;
      forall s <- present ensures s.online && HasName(entries, |entries|, s.name) {
        assert s in all ==> Settled@Read(s, present, now);
        assert s.online == old@Read(s.online) && s.name == old@Read(s.name);
      }
    }
  }

  /**
   A list at which reading stops: a player took another name, and the former one is listed without a UUID. Its new
   state would be put under the main key of the first, which its UUID still leads to.
   */
  method FormerNameListed(uuid: string, first: string, second: string, now: int)
    returns (present: set<PlayerState>, sound: bool)
    requires ValidUuid(uuid) && ValidName(first) && ValidName(second)
    requires Key(Some(first)).Some? && Key(Some(second)).Some? && Key(Some(first)) != Key(Some(second))
    ensures !sound
  {
    var store, state := FirstSeen(first);
    Rename(store, state, uuid, first, second);
    var entries := [Player(first, None)];
    FormerNameStops(store, state, first, second);
    ghost var states;
    present, sound, states := Reconcile(store, entries, 1, now);
  }

  lemma FormerNameStops(store: PlayerStore, state: PlayerState, first: string, second: string)
    requires Alone(store, state) && state.name == Some(second) && Key(Some(first)) == Some(state.key)
    requires ValidName(first) && ValidName(second) && Key(Some(first)).Some? && Key(Some(first)) != Key(Some(second))
    requires exists k :: k in store.byUuid && store.byUuid[k] == state
    ensures AreReadable([Player(first, None)]) && FirstClash([Player(first, None)], SketchOf(store)) == 0
  {
    assert Key(Some(first)).value !in store.byName;
    assert store.Displaces(None, Key(Some(first)));
    SketchDecides(store, None, Key(Some(first)));
    assert ClashesAt(SketchOf(store), Player(first, None));
  }
}
