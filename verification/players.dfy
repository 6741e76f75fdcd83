/**
 The player identity store (`window-players.c`): one table of player states and two
 indexes into it, by UUID and by name, that merging and renaming must keep in step.
 */
module Players {
  import opened Names
  import opened PlayTime
  import opened Wrappers

  predicate Missing(text: Option<string>) {
    text.None? || text.value == ""
  }

  /** `g_uuid_string_is_valid` */
  predicate ValidUuid(s: string) {
    |s| == 36 && forall i :: 0 <= i < 36 ==>
      if i in {8, 13, 18, 23} then s[i] == '-'
      else '0' <= s[i] <= '9' || 'a' <= s[i] <= 'f' || 'A' <= s[i] <= 'F'
  }

  /** `pumpkin_player_name_is_valid`, on decoded characters */
  predicate ValidName(s: string) {
    0 < |s| <= 64 && forall i :: 0 <= i < |s| ==>
      s[i] >= ' ' && !('\U{007F}' <= s[i] <= '\U{009F}') && s[i] !in "[]<>:,()/\\\""
  }

  /** A UUID or a name that is not valid is ignored (lines 176-177). */
  function GoodUuid(text: Option<string>): Option<string> {
    if text.Some? && ValidUuid(text.value) then text else None
  }

  function GoodName(text: Option<string>): Option<string> {
    if text.Some? && ValidName(text.value) then text else None
  }

  predicate IsGoodName(name: Option<string>) {
    name == GoodName(name)
  }

  /** What `normalized_key` makes of some text. */
  predicate IsKey(key: string) {
    Key(Some(key)) == Some(key)
  }

  predicate AreKeys(keys: set<string>) {
    forall k {:trigger IsKey(k)} :: k in keys ==> IsKey(k)
  }

  lemma GoodTexts(uuid: Option<string>, name: Option<string>)
    ensures GoodUuid(uuid) != Some("") && GoodName(name) != Some("") && IsGoodName(GoodName(name))
    ensures MainKey(UuidKey(uuid), NameKey(name)) != Some("")
  {
  }

  function UuidKey(uuid: Option<string>): Option<string> {
    Key(GoodUuid(uuid))
  }

  function NameKey(name: Option<string>): Option<string> {
    Key(GoodName(name))
  }

  // ----- states -----

  class PlayerState {
    const key: string
    var name: Option<string>
    var uuid: Option<string>
    var online: bool
    var started: int   // monotonic microseconds; 0 when no session runs
    var playtime: nat  // whole seconds of ended sessions

    constructor (key: string)
      ensures this.key == key && name == None && uuid == None && Clock() == PlayTime.Clock(false, 0, 0)
    {
      this.key := key;
      name, uuid, online, started, playtime := None, None, false, 0, 0;
    }

    function Clock(): Clock
      reads this
    {
      PlayTime.Clock(online, started, playtime)
    }

    /** `merge_player_states` up to line 133 */
    method Absorb(src: PlayerState, now: int)
      requires src != this
      modifies this
      ensures uuid == if Missing(old(uuid)) && !Missing(src.uuid) then src.uuid else old(uuid)
      ensures name == if Missing(old(name)) && !Missing(src.name) then src.name else old(name)
      ensures old(uuid) in {None, Some("")} && src.uuid !in {None, Some("")} ==> uuid == src.uuid
      ensures old(name) in {None, Some("")} && src.name !in {None, Some("")} ==> name == src.name
      ensures Clock() == old(Clock()).Absorb(src.Clock(), now)
      ensures playtime == old(playtime) + src.playtime && online == (old(online) || src.online)
      ensures !src.online ==> started == old(started)
      ensures src.online && !old(online) ==> started == if src.started > 0 then src.started else now
      ensures src.online && old(online) && src.started > 0 && old(started) > 0 ==>
                started == if src.started < old(started) then src.started else old(started)
      ensures src.online && old(online) && src.started <= 0 ==> started == old(started)
      ensures src.online && old(online) && src.started > 0 && old(started) <= 0 ==> started == src.started
    {
      if Missing(name) && !Missing(src.name) {
        name := src.name;
      }
      if Missing(uuid) && !Missing(src.uuid) {
        uuid := src.uuid;
      }
      playtime := playtime + src.playtime;
      if src.online {
        if !online {
          online := true;
          started := if src.started > 0 then src.started else now;
        } else if src.started > 0 && (started <= 0 || src.started < started) {
          started := src.started;
        }
      }
    }

    /** `player_state_mark_online` */
    method MarkOnline(now: int)
      modifies this`online, this`started
      ensures Clock() == old(Clock()).Join(now)
    {
      if !online {
        online := true;
        started := now;
      }
    }

    /** `player_state_mark_offline` */
    method MarkOffline(now: int)
      modifies this`online, this`started, this`playtime
      ensures Clock() == old(Clock()).Leave(now)
    {
      if online {
        if started > 0 {
          if now > started {
            playtime := playtime + (now - started) / SECOND;
          }
        }
        started := 0;
        online := false;
      }
    }
  }

  /** The values of an index, `from` replaced by `to` (`repoint_player_indexes`). */
  function Repoint(index: map<string, PlayerState>, from: PlayerState, to: PlayerState): map<string, PlayerState> {
    map k | k in index :: if index[k] == from then to else index[k]
  }

  /** An index without its entry for `key`, if that is `state`. */
  function Without(index: map<string, PlayerState>, key: Option<string>, state: PlayerState)
    : (r: map<string, PlayerState>)
    ensures forall k :: k in r <==> k in index && (Some(k) == key ==> index[k] != state)
    ensures forall k :: k in r ==> r[k] == index[k]
  {
    if key.Some? && key.value in index && index[key.value] == state then index - {key.value} else index
  }

  lemma RepointOnly(index: map<string, PlayerState>, key: Option<string>, from: PlayerState, to: PlayerState)
    requires forall k :: k in index && index[k] == from ==> Some(k) == key
    requires key.Some? ==> key.value in index && index[key.value] == from
    ensures Repoint(index, from, to) == if key.Some? then index[key.value := to] else index
  {
  }

  /** Equal indexes, but for the value under one key. */
  ghost predicate SameBut(a: map<string, PlayerState>, b: map<string, PlayerState>, key: Option<string>) {
    a.Keys == b.Keys && forall k :: k in a && Some(k) != key ==> a[k] == b[k]
  }

  class PlayerStore {
    var states: map<string, PlayerState>
    var byUuid: map<string, PlayerState>
    var byName: map<string, PlayerState>
    var deleted: set<string>

    constructor ()
      ensures Valid() && states == byUuid == byName == map[] && deleted == {}
    {
      states, byUuid, byName, deleted := map[], map[], map[], {};
    }

    ghost function All(): set<PlayerState>
      reads this`states
    {
      set k | k in states :: states[k]
    }

    predicate Has(state: PlayerState)
      reads this`states
    {
      state.key in states && states[state.key] == state
    }

    predicate Keyed()
      reads this`states
    {
      forall k :: k in states ==> states[k].key == k
    }

    /** Every index entry is a state of the table, under that state's own UUID or name. */
    ghost predicate Indexed()
      reads this`states, this`byUuid, this`byName, byUuid.Values`uuid, byName.Values`name
    {
      UuidsBut(None) && NamesBut(None)
    }

    ghost predicate Indexes()
      reads this`states, this`byUuid, this`byName, byUuid.Values`uuid, byName.Values`name
    {
      Keyed() && Indexed()
    }

    /** Names are valid, and keys are what `normalized_key` makes of a text. */
    ghost predicate Sane()
      reads this`states, this`deleted, states.Values`name
    {
      && "" !in states
      && (forall k {:trigger IsGoodName(states[k].name)} :: k in states ==> IsGoodName(states[k].name))
      && AreKeys(deleted)
    }

    ghost predicate Valid()
      reads this`states, this`byUuid, this`byName, this`deleted, states.Values`name
      reads byUuid.Values`uuid, byName.Values`name
    {
      Indexes() && Sane()
    }

    /** `merge_player_states`: afterwards nothing points to `src`. */
    method Merge(dst: PlayerState, src: PlayerState, now: int)
      requires Keyed() && dst != src && Has(src) && Has(dst)
      modifies this`states, this`byUuid, this`byName, dst
      ensures states == old(states) - {src.key}
      ensures byUuid == Repoint(old(byUuid), src, dst) && byName == Repoint(old(byName), src, dst)
      ensures dst.uuid == if Missing(old(dst.uuid)) && !Missing(src.uuid) then src.uuid else old(dst.uuid)
      ensures dst.name == if Missing(old(dst.name)) && !Missing(src.name) then src.name else old(dst.name)
      ensures dst.Clock() == old(dst.Clock()).Absorb(src.Clock(), now)
      ensures dst.playtime == old(dst.playtime) + old(src.playtime)
      ensures dst.online == (old(dst.online) || old(src.online))
      ensures old(dst.online) && old(src.online) && old(dst.started) > 0 && old(src.started) > 0 ==>
                dst.started == if old(src.started) < old(dst.started) then old(src.started) else old(dst.started)
      ensures old(Sane()) ==> Sane()
    {
      assert Sane() ==> IsGoodName(states[dst.key].name) && IsGoodName(states[src.key].name);
      dst.Absorb(src, now);
      byUuid := Repoint(byUuid, src, dst);
      byName := Repoint(byName, src, dst);
      states := states - {src.key};
      forall k | k in states && states[k] != dst && old(Sane()) ensures IsGoodName(states[k].name) {
        assert old(IsGoodName(states[k].name));
      }
    }

    /** The state that lines 189-210 settle on: the UUID decides, and a name only when the UUIDs allow it. */
    function Found(uuidKey: Option<string>, nameKey: Option<string>): Option<PlayerState>
      reads this`byUuid, this`byName, byName.Values
    {
      if uuidKey.Some? && uuidKey.value in byUuid then Some(byUuid[uuidKey.value])
      else if nameKey.Some? && nameKey.value in byName && SamePlayer(uuidKey, byName[nameKey.value])
      then Some(byName[nameKey.value])
      else None
    }

    predicate SamePlayer(uuidKey: Option<string>, state: PlayerState)
      reads state
    {
      uuidKey.None? || Missing(state.uuid) || SameIgnoringCase(uuidKey.value, state.uuid.value)
    }

    /** The state merged into the one found: known by the name, and by no UUID. */
    ghost function Merged(uuidKey: Option<string>, nameKey: Option<string>): Option<PlayerState>
      reads this, byName.Values
    {
      if uuidKey.Some? && uuidKey.value in byUuid && nameKey.Some? && nameKey.value in byName
         && byName[nameKey.value] != byUuid[uuidKey.value] && Missing(byName[nameKey.value].uuid)
      then Some(byName[nameKey.value])
      else None
    }

    ghost function Remaining(uuidKey: Option<string>, nameKey: Option<string>): map<string, PlayerState>
      reads this, byName.Values
    {
      var merged := Merged(uuidKey, nameKey);
      if merged.Some? then states - {merged.value.key} else states
    }

    predicate Blocked(uuidKey: Option<string>, nameKey: Option<string>)
      reads this
    {
      (uuidKey.Some? && uuidKey.value in deleted) || (nameKey.Some? && nameKey.value in deleted)
    }

    /** A new state is made under a key whose present state is still in an index. */
    predicate Clobbers(uuidKey: Option<string>, nameKey: Option<string>)
      reads this, byName.Values
    {
      !Blocked(uuidKey, nameKey) && Displaces(uuidKey, nameKey)
    }

    predicate Displaces(uuidKey: Option<string>, nameKey: Option<string>)
      reads this`states, this`byUuid, this`byName, byName.Values
    {
      Found(uuidKey, nameKey).None? && Taken(uuidKey, nameKey)
    }

    /** An index entry, other than that of the name to be replaced, for the state under a new state's key. */
    predicate Taken(uuidKey: Option<string>, nameKey: Option<string>)
      reads this`states, this`byUuid, this`byName
    {
      var key := MainKey(uuidKey, nameKey);
      && key.Some? && key.value in states
      && ((exists k :: k in byUuid && byUuid[k] == states[key.value])
          || exists k :: k in byName && Some(k) != nameKey && byName[k] == states[key.value])
    }

    /** As `Indexed`, but for the entries of one player's UUID and name. */
    ghost predicate IndexedBut(uuidKey: Option<string>, nameKey: Option<string>)
      reads this`states, this`byUuid, this`byName, byUuid.Values`uuid, byName.Values`name
    {
      UuidsBut(uuidKey) && NamesBut(nameKey)
    }

    ghost predicate UuidsBut(uuidKey: Option<string>)
      reads this`states, this`byUuid, byUuid.Values`uuid
    {
      forall k :: k in byUuid && Some(k) != uuidKey ==> Has(byUuid[k]) && Key(byUuid[k].uuid) == Some(k)
    }

    ghost predicate NamesBut(nameKey: Option<string>)
      reads this`states, this`byName, byName.Values`name
    {
      forall k :: k in byName && Some(k) != nameKey ==> Has(byName[k]) && Key(byName[k].name) == Some(k)
    }

    /** Lines 224-230: the state's UUID, which is given only once, and its entry in the index. */
    method SetUuid(state: PlayerState, uuid: Option<string>)
      requires uuid.Some? ==> uuid.value != ""
      requires Has(state) && (Key(uuid).Some? && !Missing(state.uuid) ==> Key(state.uuid) == Key(uuid))
      modifies this`byUuid, state`uuid
      ensures UuidsBut(None) == old(UuidsBut(Key(uuid)))
      ensures state.uuid == if uuid.Some? && Missing(old(state.uuid)) then uuid else old(state.uuid)
      ensures byUuid == if Key(uuid).Some? then old(byUuid)[Key(uuid).value := state] else old(byUuid)
    {
      if uuid.Some? {
        if Missing(state.uuid) {
          state.uuid := uuid;
        }
        var uuidKey := Key(uuid);
        if uuidKey.Some? {
          byUuid := byUuid[uuidKey.value := state];
        }
      }
    }

    /** Lines 235-253: the state's name; the index loses its former name. */
    method SetName(state: PlayerState, name: Option<string>)
      requires name.Some? ==> name.value != ""
      requires Has(state)
      modifies this`byName, state`name
      ensures NamesBut(None) == old(NamesBut(Key(name)))
      ensures forall k :: k in byName ==> Some(k) == Key(name) || (k in old(byName) && byName[k] == old(byName)[k])
      ensures forall k :: k in old(byName) && (name.None? || old(byName)[k] != state) ==> k in byName
      ensures state.name == if name.Some? then name else old(state.name)
      ensures Key(name).Some? ==> Key(name).value in byName && byName[Key(name).value] == state
      ensures old(Sane()) && IsGoodName(name) ==> Sane()
    {
      if name.Some? {
        if state.name != name {
          byName := Without(byName, Key(state.name), state);
          state.name := name;
        }
        var nameKey := Key(name);
        if nameKey.Some? {
          byName := byName[nameKey.value := state];
        }
      }
      forall k | k in states && states[k] != state && old(Sane()) ensures IsGoodName(states[k].name) {
        assert old(IsGoodName(states[k].name));
      }
      assert old(Sane()) ==> old(IsGoodName(states[state.key].name));
      if old(NamesBut(Key(name))) {
        forall k | k in byName ensures Has(byName[k]) && Key(byName[k].name) == Some(k) {
          assert Some(k) != Key(name) ==> byName[k] == old(byName)[k];
        }
      } else {
        ghost var k :| k in old(byName) && Some(k) != Key(name)
                 && !old(Has(byName[k]) && Key(byName[k].name) == Some(k));
        assert k in byName && byName[k] == old(byName)[k];
      }
    }

    /** Merging a state known only by the name `nameKey` leaves just that entry to be put right. */
    method MergeNamed(dst: PlayerState, src: PlayerState, ghost nameKey: string, now: int)
      requires Indexes() && dst != src && Has(dst) && !Missing(dst.uuid)
      requires Missing(src.uuid) && nameKey in byName && byName[nameKey] == src
      modifies this`states, this`byUuid, this`byName, dst
      ensures states == old(states) - {src.key}
      ensures byUuid == old(byUuid) && byName == old(byName)[nameKey := dst]
      ensures Keyed() && Has(dst) && UuidsBut(None) && NamesBut(Some(nameKey))
      ensures dst.uuid == old(dst.uuid)
      ensures dst.Clock() == old(dst.Clock()).Absorb(src.Clock(), now)
      ensures old(Sane()) ==> Sane()
    {
      RepointOnly(byUuid, None, src, dst);
      RepointOnly(byName, Some(nameKey), src, dst);
      Merge(dst, src, now);
      forall k | k in byUuid ensures Has(byUuid[k]) && Key(byUuid[k].uuid) == Some(k) {
        assert old(byUuid)[k] != src;
      }
      forall k | k in byName && k != nameKey ensures Has(byName[k]) && Key(byName[k].name) == Some(k) {
        assert old(byName)[k] != src;
      }
    }

    /** The state found for a player (lines 189-210), another one of that name merged into it. */
    method Take(ghost uuid: Option<string>, uuidKey: Option<string>, nameKey: Option<string>, now: int)
      returns (r: PlayerState?)
      requires Indexes() && uuidKey == Key(uuid)
      modifies this`states, this`byUuid, this`byName, All()
      ensures (r == null) == old(Found(uuidKey, nameKey).None?)
      ensures r == null ==> unchanged(this) && unchanged(old(All()))
      ensures r != null ==>
                r == old(Found(uuidKey, nameKey).value) && Has(r) && Keyed() && IndexedBut(uuidKey, nameKey)
      ensures r != null ==> r.uuid == old(r.uuid) && (uuidKey.Some? && !Missing(r.uuid) ==> Key(r.uuid) == uuidKey)
      ensures r != null && nameKey.None? ==> r.name == old(r.name)
      ensures states == old(Remaining(uuidKey, nameKey)) && byUuid == old(byUuid)
      ensures SameBut(old(byName), byName, nameKey)
      ensures forall s <- old(All()) :: s != r ==> unchanged(s)
      ensures r != null ==> r.Clock() == old(if Merged(uuidKey, nameKey).Some?
                then r.Clock().Absorb(Merged(uuidKey, nameKey).value.Clock(), now) else r.Clock())
      ensures old(Sane()) ==> Sane()
    {
      if uuidKey.Some? && uuidKey.value in byUuid {
        r := byUuid[uuidKey.value];
        if nameKey.Some? && nameKey.value in byName {
          var named := byName[nameKey.value];
          if named != r && Missing(named.uuid) {
            MergeNamed(r, named, nameKey.value, now);
          }
        }
        assert UuidsBut(None) && NamesBut(nameKey);
      } else if nameKey.Some? && nameKey.value in byName && SamePlayer(uuidKey, byName[nameKey.value]) {
        r := byName[nameKey.value];
        if uuidKey.Some? && !Missing(r.uuid) {
          SameCaseSameKey(uuid, uuidKey.value, r.uuid.value);
        }
      } else {
        r := null;
      }
    }

    method PutNew(key: string) returns (r: PlayerState)
      requires Keyed()
      modifies this`states
      ensures fresh(r) && r.key == key && r.uuid == r.name == None && r.Clock() == PlayTime.Clock(false, 0, 0)
      ensures states == old(states)[key := r] && Keyed()
      ensures old(Sane()) && key != "" ==> Sane()
    {
      r := new PlayerState(key);
      states := states[key := r];
      forall k | k in states && old(Sane()) ensures IsGoodName(states[k].name) {
        assert k in old(states) ==> old(IsGoodName(states[k].name));
      }
    }

    /** A new state in the table (lines 215-218); a state already there under `key` is dropped. */
    method Create(uuidKey: Option<string>, nameKey: Option<string>) returns (r: PlayerState)
      requires Indexes() && MainKey(uuidKey, nameKey).Some?
      requires uuidKey.Some? ==> uuidKey.value !in byUuid
      modifies this`states
      ensures fresh(r) && r.key == MainKey(uuidKey, nameKey).value && r.uuid == r.name == None
      ensures r.Clock() == PlayTime.Clock(false, 0, 0)
      ensures states == old(states)[r.key := r] && Keyed() && Has(r)
      ensures IndexedBut(uuidKey, nameKey) == old(!Taken(uuidKey, nameKey))
      ensures old(Sane()) && MainKey(uuidKey, nameKey) != Some("") ==> Sane()
    {
      r := PutNew(MainKey(uuidKey, nameKey).value);
      if old(Taken(uuidKey, nameKey)) {
        assert !Has(old(states)[r.key]);
      } else {
        forall k | k in byUuid ensures Has(byUuid[k]) && Key(byUuid[k].uuid) == Some(k) {
        }
        forall k | k in byName && Some(k) != nameKey ensures Has(byName[k]) && Key(byName[k].name) == Some(k) {
        }
      }
    }

    /** Lines 224-253: the state's own entries are put right, and no others. */
    method Identify(state: PlayerState, uuid: Option<string>, name: Option<string>)
      requires uuid.Some? ==> uuid.value != ""
      requires name.Some? ==> name.value != ""
      requires Keyed() && Has(state) && (Key(uuid).Some? && !Missing(state.uuid) ==> Key(state.uuid) == Key(uuid))
      modifies this`byUuid, this`byName, state`uuid, state`name
      ensures Indexes() == old(IndexedBut(Key(uuid), Key(name)))
      ensures state.uuid == if uuid.Some? && Missing(old(state.uuid)) then uuid else old(state.uuid)
      ensures state.name == if name.Some? then name else old(state.name)
      ensures byUuid == if Key(uuid).Some? then old(byUuid)[Key(uuid).value := state] else old(byUuid)
      ensures Key(name).Some? ==> Key(name).value in byName && byName[Key(name).value] == state
      ensures forall k :: k in byName ==> Some(k) == Key(name) || (k in old(byName) && byName[k] == old(byName)[k])
      ensures forall k :: k in old(byName) && (name.None? || old(byName)[k] != state) ==> k in byName
      ensures old(Sane()) && IsGoodName(name) ==> Sane()
    {
      SetUuid(state, uuid);
      assert NamesBut(Key(name)) == old(NamesBut(Key(name)));
      label Named:
      SetName(state, name);
      assert UuidsBut(None) == old@Named(UuidsBut(None));
    }

    /** A state that is found (lines 189-210), and its identity. */
    method TrackKnown(uuid: Option<string>, name: Option<string>, uuidKey: Option<string>, nameKey: Option<string>,
                      now: int)
      returns (r: PlayerState)
      requires Indexes() && uuidKey == Key(uuid) && nameKey == Key(name) && uuid != Some("") && name != Some("")
      requires Found(uuidKey, nameKey).Some?
      modifies this`states, this`byUuid, this`byName, All()
      ensures r == old(Found(uuidKey, nameKey).value) && Has(r) && Indexes()
      ensures old(Sane()) && IsGoodName(name) ==> Sane()
      ensures uuidKey.Some? ==> Key(r.uuid) == uuidKey
      ensures byUuid == if uuidKey.Some? then old(byUuid)[uuidKey.value := r] else old(byUuid)
      ensures nameKey.Some? ==> nameKey.value in byName && byName[nameKey.value] == r
      ensures forall k :: k in byName ==> Some(k) == nameKey || (k in old(byName) && byName[k] == old(byName)[k])
      ensures forall k :: k in old(byName) && (name.None? || old(byName)[k] != r) ==> k in byName
      ensures states == old(Remaining(uuidKey, nameKey))
      ensures forall s <- old(All()) :: s != r ==> unchanged(s)
      ensures r.uuid == if Missing(old(r.uuid)) && uuid.Some? then uuid else old(r.uuid)
      ensures r.name == if name.Some? then name else old(r.name)
      ensures r.Clock() == old(if Merged(uuidKey, nameKey).Some?
                then r.Clock().Absorb(Merged(uuidKey, nameKey).value.Clock(), now) else r.Clock())
    {
      ghost var found, left := Found(uuidKey, nameKey).value, Remaining(uuidKey, nameKey);
      r := Take(uuid, uuidKey, nameKey, now);
      assert r == found && r in old(All()) && states == left;
      Identify(r, uuid, name);
    }

    /** A state that is made (lines 211-219), and its identity. */
    method TrackNew(uuid: Option<string>, name: Option<string>, uuidKey: Option<string>, nameKey: Option<string>)
      returns (r: PlayerState)
      requires Indexes() && uuidKey == Key(uuid) && nameKey == Key(name) && uuid != Some("") && name != Some("")
      requires Found(uuidKey, nameKey).None? && MainKey(uuidKey, nameKey).Some?
      modifies this`states, this`byUuid, this`byName
      ensures fresh(r) && r.key == MainKey(uuidKey, nameKey).value && Keyed() && Has(r)
      ensures Indexes() == !old(Displaces(uuidKey, nameKey))
      ensures old(Sane()) && IsGoodName(name) && MainKey(uuidKey, nameKey) != Some("") ==> Sane()
      ensures byUuid == if uuidKey.Some? then old(byUuid)[uuidKey.value := r] else old(byUuid)
      ensures nameKey.Some? ==> nameKey.value in byName && byName[nameKey.value] == r
      ensures forall k :: k in byName ==> Some(k) == nameKey || (k in old(byName) && byName[k] == old(byName)[k])
      ensures forall k :: k in old(byName) && (name.None? || old(byName)[k] != r) ==> k in byName
      ensures states == old(states)[r.key := r]
      ensures r.uuid == uuid && r.name == name && r.Clock() == PlayTime.Clock(false, 0, 0)
    {
      r := Create(uuidKey, nameKey);
      Identify(r, uuid, name);
    }

    /** `ensure_player_state` */
    method Ensure(uuid: Option<string>, name: Option<string>, create: bool, now: int) returns (r: PlayerState?)
      requires Valid()
      modifies this`states, this`byUuid, this`byName, All()
      ensures (r == null) == old(Blocked(UuidKey(uuid), NameKey(name))
                || (Found(UuidKey(uuid), NameKey(name)).None?
                    && (!create || MainKey(UuidKey(uuid), NameKey(name)).None?)))
      ensures r == null ==> unchanged(this) && unchanged(old(All()))
      ensures Valid() == !old(create && Clobbers(UuidKey(uuid), NameKey(name)))
      ensures r != null ==> Has(r) && Keyed()
      ensures r != null && UuidKey(uuid).Some? ==> Key(r.uuid) == UuidKey(uuid)
      ensures byUuid == if r != null && UuidKey(uuid).Some? then old(byUuid)[UuidKey(uuid).value := r] else old(byUuid)
      ensures r != null && NameKey(name).Some? ==>
                NameKey(name).value in byName && byName[NameKey(name).value] == r
      ensures forall k :: k in byName ==> Some(k) == NameKey(name) || (k in old(byName) && byName[k] == old(byName)[k])
      ensures forall k :: k in old(byName) && (GoodName(name).None? || old(byName)[k] != r) ==> k in byName
      ensures r != null ==> states == old(Remaining(UuidKey(uuid), NameKey(name)))[r.key := r]
      ensures forall s <- old(All()) :: s != r ==> unchanged(s)
      ensures r != null && old(Found(UuidKey(uuid), NameKey(name)).Some?) ==>
                && r == old(Found(UuidKey(uuid), NameKey(name)).value)
                && r.uuid == (if Missing(old(r.uuid)) && GoodUuid(uuid).Some? then uuid else old(r.uuid))
                && r.name == (if GoodName(name).Some? then name else old(r.name))
                && r.Clock() == old(if Merged(UuidKey(uuid), NameKey(name)).Some?
                     then r.Clock().Absorb(Merged(UuidKey(uuid), NameKey(name)).value.Clock(), now) else r.Clock())
      ensures r != null && old(Found(UuidKey(uuid), NameKey(name)).None?) ==>
                && fresh(r) && r.key == MainKey(UuidKey(uuid), NameKey(name)).value
                && r.uuid == GoodUuid(uuid) && r.name == GoodName(name)
                && r.Clock() == PlayTime.Clock(false, 0, 0)
    {
      var u, n := GoodUuid(uuid), GoodName(name);
      var uuidKey, nameKey := Key(u), Key(n);
      GoodTexts(uuid, name);
      if Blocked(uuidKey, nameKey) {
        return null;
      }
      ghost var found := Found(uuidKey, nameKey);
      if found.Some? {
        assert Has(found.value);
      }
      if Found(uuidKey, nameKey).Some? {
        r := TrackKnown(u, n, uuidKey, nameKey, now);
      } else if create && MainKey(uuidKey, nameKey).Some? {
        r := TrackNew(u, n, uuidKey, nameKey);
      } else {
        r := null;
      }
    }

    /** `delete_player_tracking`, for a state of the table: its keys are not tracked again until they are allowed. */
    method Forget(state: PlayerState)
      requires Valid() && Has(state)
      modifies this
      ensures Valid() && states == old(states) - {state.key}
      ensures byUuid == Unlisted(old(byUuid), state) && byName == Unlisted(old(byName), state)
      ensures deleted == old(deleted) + KeysOf({state.key} + Texts(state.name) + Texts(state.uuid))
    {
      Block(Some(state.key));
      Block(state.name);
      Block(state.uuid);
      KeysOfBoth({state.key}, Texts(state.name));
      KeysOfBoth({state.key} + Texts(state.name), Texts(state.uuid));
      Drop(state);
    }

    method Block(text: Option<string>)
      modifies this`deleted
      ensures deleted == old(deleted) + KeysOf(Texts(text))
      ensures old(AreKeys(deleted)) ==> AreKeys(deleted)
    {
      KeysAreKeys(Texts(text));
      var key := Key(text);
      if key.Some? {
        deleted := deleted + {key.value};
      }
    }

    method Drop(state: PlayerState)
      requires Indexes() && Has(state)
      modifies this`states, this`byUuid, this`byName
      ensures Indexes() && states == old(states) - {state.key}
      ensures byUuid == Unlisted(old(byUuid), state) && byName == Unlisted(old(byName), state)
      ensures old(Sane()) ==> Sane()
    {
      byUuid, byName := Unlisted(byUuid, state), Unlisted(byName, state);
      states := states - {state.key};
      forall k | k in states && old(Sane()) ensures IsGoodName(states[k].name) {
        assert old(IsGoodName(states[k].name));
      }
    }

    /**
     What `player_states_save` writes: a group for each state under its main key, and one for the deleted keys.
     `other` is what the fields that are not modelled, and all numbers, look like as texts.
     */
    function Save(now: int, other: string -> set<string>): map<string, Saved>
      reads this, states.Values
    {
      map k | k in states.Keys + (if deleted == {} then {} else {RESERVED}) ::
        if k in states
        then Saved(states[k].name, states[k].uuid, states[k].Clock().Effective(now), Written(k, other(k)))
        else Saved(None, None, 0, deleted)
    }

    /** The texts of all entries in the group of a state; the deleted keys go to the group of that name. */
    function Written(key: string, other: set<string>): set<string>
      requires key in states
      reads this, states.Values
    {
      Texts(states[key].name) + Texts(states[key].uuid) + other + if key == RESERVED then deleted else {}
    }

    /** Lines 430-467: a loaded state. */
    method Restore(key: string, saved: Saved) returns (state: PlayerState)
      requires Valid() && key !in states && key != "" && saved.playtime >= 0 && IsGoodName(saved.name)
      modifies this`states, this`byUuid, this`byName
      ensures Valid() && fresh(state) && states == old(states)[key := state]
      ensures old(byUuid).Keys <= byUuid.Keys && old(byName).Keys <= byName.Keys
      ensures Shows(state, saved)
    {
      state := Put(key, saved);
      Enlist(state);
    }

    method Put(key: string, saved: Saved) returns (state: PlayerState)
      requires Valid() && key !in states && key != "" && saved.playtime >= 0 && IsGoodName(saved.name)
      modifies this`states
      ensures Valid() && fresh(state) && state.key == key && states == old(states)[key := state]
      ensures state.name == saved.name && state.uuid == saved.uuid
      ensures state.Clock() == PlayTime.Clock(false, 0, saved.playtime)
    {
      state := new PlayerState(key);
      state.name, state.uuid, state.playtime := saved.name, saved.uuid, saved.playtime;
      states := states[key := state];
      forall k | k in old(states) ensures k in states && states[k] == old(states)[k] && k != key {
      }
    }

    /** Lines 459-466: both indexes get the loaded state. */
    method Enlist(state: PlayerState)
      requires Has(state)
      modifies this`byUuid, this`byName
      ensures byUuid == if Key(state.uuid).Some? then old(byUuid)[Key(state.uuid).value := state] else old(byUuid)
      ensures byName == if Key(state.name).Some? then old(byName)[Key(state.name).value := state] else old(byName)
      ensures old(Indexed()) ==> Indexed()
    {
      var uuidKey, nameKey := Key(state.uuid), Key(state.name);
      if uuidKey.Some? {
        byUuid := byUuid[uuidKey.value := state];
      }
      if nameKey.Some? {
        byName := byName[nameKey.value := state];
      }
    }

    /** A state is what the group says, and both indexes know its UUID and name. */
    ghost predicate Shows(state: PlayerState, saved: Saved)
      requires saved.playtime >= 0
      reads this`byUuid, this`byName, state
    {
      && state.name == saved.name && state.uuid == saved.uuid
      && state.Clock() == PlayTime.Clock(false, 0, saved.playtime)
      && (Key(saved.uuid).Some? ==> Key(saved.uuid).value in byUuid)
      && (Key(saved.name).Some? ==> Key(saved.name).value in byName)
    }

    ghost predicate Loaded(group: (string, Saved))
      reads this, states.Values
    {
      var kept := KeptAs(group);
      if kept.None? then group.0 !in states
      else group.0 in states && Shows(states[group.0], kept.value)
    }

    /** Lines 404-418: every text in the reserved group counts as a deleted key. */
    method ReadDeleted(texts: set<string>)
      modifies this`deleted
      ensures deleted == old(deleted) + KeysOf(texts)
    {
      var rest := texts;
      while rest != {}
        invariant rest <= texts && deleted == old(deleted) + KeysOf(texts - rest)
        decreases rest
      {
        var text :| text in rest;
        rest := rest - {text};
        var key := Key(Some(text));
        if key.Some? {
          deleted := deleted + {key.value};
        }
        OneMoreKey(texts - rest, text);
        assert texts - rest - {text} + {text} == texts - rest;
      }
      assert texts - {} == texts;
    }

    method ReadReserved(file: seq<(string, Saved)>)
      modifies this`deleted
      ensures deleted == DeletedIn(file, |file|) && AreKeys(deleted)
    {
      deleted := {};
      for i := 0 to |file|
        invariant deleted == DeletedIn(file, i)
      {
        if file[i].0 == RESERVED {
          ReadDeleted(file[i].1.texts);
        }
      }
      DeletedAreKeys(file, |file|);
    }

    /** `player_states_load`, for the groups of the file in order. */
    method Load(file: seq<(string, Saved)>)
      requires forall i, j :: 0 <= i < j < |file| ==> file[i].0 != file[j].0
      modifies this
      ensures Valid() && fresh(All())
      ensures deleted == DeletedIn(file, |file|)
      ensures forall k :: k in states ==> HasGroup(file, |file|, k)
      ensures forall j :: 0 <= j < |file| ==> Loaded(file[j])
    {
      states, byUuid, byName := map[], map[], map[];
      ReadReserved(file);
      for i := 0 to |file|
        invariant Valid() && (forall k :: k in states ==> fresh(states[k])) && deleted == DeletedIn(file, |file|)
        invariant forall k :: k in states ==> HasGroup(file, i, k)
        invariant LoadedUpTo(file, i)
      {
        LoadNext(file, i);
        forall k | k in states ensures HasGroup(file, i + 1, k) {
          assert k == file[i].0 || HasGroup(file, i, k);
        }
      }
    }

    ghost predicate LoadedUpTo(file: seq<(string, Saved)>, n: nat)
      requires n <= |file|
      reads this, states.Values
    {
      forall j {:trigger Loaded(file[j])} :: 0 <= j < n ==> Loaded(file[j])
    }

    method LoadNext(file: seq<(string, Saved)>, i: nat)
      requires Valid() && i < |file| && file[i].0 !in states && LoadedUpTo(file, i)
      requires forall j :: 0 <= j < i ==> file[j].0 != file[i].0
      modifies this`states, this`byUuid, this`byName
      ensures Valid() && LoadedUpTo(file, i + 1)
      ensures file[i].0 in states ==> fresh(states[file[i].0])
      ensures states == if file[i].0 in states then old(states)[file[i].0 := states[file[i].0]] else old(states)
    {
      LoadGroup(file[i]);
      forall j | 0 <= j < i ensures Loaded(file[j]) {
        assert old(Loaded(file[j])) && file[j].0 != file[i].0;
      }
    }

    method LoadGroup(group: (string, Saved))
      requires Valid() && group.0 !in states
      modifies this`states, this`byUuid, this`byName
      ensures Valid() && Loaded(group)
      ensures group.0 in states ==> fresh(states[group.0])
      ensures states == if group.0 in states then old(states)[group.0 := states[group.0]] else old(states)
      ensures old(byUuid).Keys <= byUuid.Keys && old(byName).Keys <= byName.Keys
    {
      if group.0 == "" || group.0 == RESERVED {
        return;
      }
      var kept := Kept(group.1);
      if kept.Some? {
        var state := Restore(group.0, kept.value);
      }
    }
  }

  predicate HasGroup(file: seq<(string, Saved)>, n: nat, key: string)
    requires n <= |file|
  {
    exists j :: 0 <= j < n && file[j].0 == key
  }

  /** The group of the tracking file that holds deleted keys. */
  const RESERVED := "__deleted"

  /** One group of the tracking file; `texts` are the values of all its entries, read as strings. */
  datatype Saved = Saved(name: Option<string>, uuid: Option<string>, playtime: int, texts: set<string>)

  function Texts(text: Option<string>): set<string> {
    if text.Some? then {text.value} else {}
  }

  function KeysOf(texts: set<string>): set<string> {
    set t | t in texts && Key(Some(t)).Some? :: Key(Some(t)).value
  }

  /** The deleted keys in the first `n` groups. */
  function DeletedIn(file: seq<(string, Saved)>, n: nat): set<string>
    requires n <= |file|
  {
    if n == 0 then {}
    else DeletedIn(file, n - 1) + if file[n - 1].0 == RESERVED then KeysOf(file[n - 1].1.texts) else {}
  }

  /** An index without the entries for `state`. */
  function Unlisted(index: map<string, PlayerState>, state: PlayerState): map<string, PlayerState> {
    map k | k in index && index[k] != state :: index[k]
  }

  lemma KeysAreKeys(texts: set<string>)
    ensures AreKeys(KeysOf(texts))
  {
    forall t | t in texts && Key(Some(t)).Some? ensures IsKey(Key(Some(t)).value) {
      SameCaseSameKey(Some(t), Key(Some(t)).value, Key(Some(t)).value);
    }
  }

  lemma OneMoreKey(texts: set<string>, text: string)
    ensures KeysOf(texts + {text}) == KeysOf(texts) + if Key(Some(text)).Some? then {Key(Some(text)).value} else {}
  {
  }

  lemma {:induction false} DeletedAreKeys(file: seq<(string, Saved)>, n: nat)
    requires n <= |file|
    ensures AreKeys(DeletedIn(file, n))
  {
    if n > 0 {
      DeletedAreKeys(file, n - 1);
      KeysAreKeys(file[n - 1].1.texts);
    }
  }

  /** What is loaded of a group: nothing without a valid name or UUID, and no invalid name. */
  function Kept(group: Saved): (r: Option<Saved>)
    ensures r.Some? ==> r.value.playtime >= 0 && IsGoodName(r.value.name)
  {
    var name := GoodName(group.name);
    if group.name.Some? && name.None? && GoodUuid(group.uuid).None? then None
    else Some(Saved(name, group.uuid, if group.playtime > 0 then group.playtime else 0, group.texts))
  }

  /** No state has an empty key, or the reserved one. */
  function KeptAs(group: (string, Saved)): (r: Option<Saved>)
    ensures r.Some? ==> r.value.playtime >= 0
  {
    if group.0 == "" || group.0 == RESERVED then None else Kept(group.1)
  }

  /** A new state's key in the main table (line 212). */
  function MainKey(uuidKey: Option<string>, nameKey: Option<string>): Option<string> {
    if uuidKey.Some? then uuidKey else nameKey
  }

  /** A store of one player. */
  ghost predicate Alone(store: PlayerStore, state: PlayerState)
    reads store, store.states.Values, store.byUuid.Values, store.byName.Values
  {
    store.Valid() && store.states == map[state.key := state] && store.deleted == {}
  }

  method SeenAs(store: PlayerStore, state: PlayerState, uuid: Option<string>, name: string)
    requires Alone(store, state) && ValidName(name)
    requires store.Found(UuidKey(uuid), NameKey(Some(name))) == Some(state)
    modifies store`states, store`byUuid, store`byName, state
    ensures Alone(store, state) && state.name == Some(name)
    ensures UuidKey(uuid).Some? ==> UuidKey(uuid).value in store.byUuid
  {
    assert store.All() == {state};
    assert !store.Blocked(UuidKey(uuid), NameKey(Some(name))) && !store.Clobbers(UuidKey(uuid), NameKey(Some(name)));
    assert store.Remaining(UuidKey(uuid), NameKey(Some(name))) == store.states;
    var r := store.Ensure(uuid, Some(name), true, 0);
    assert store.states == map[state.key := state];
  }

  method FirstSeen(name: string) returns (store: PlayerStore, state: PlayerState)
    requires NameKey(Some(name)).Some?
    ensures fresh(store) && fresh(state) && Alone(store, state) && state.key == NameKey(Some(name)).value
    ensures state.uuid == None && store.Found(None, NameKey(Some(name))) == Some(state)
  {
    store := new PlayerStore();
    state := store.Ensure(None, Some(name), true, 0);
  }

  method Rename(store: PlayerStore, state: PlayerState, uuid: string, first: string, second: string)
    requires Alone(store, state) && ValidUuid(uuid) && ValidName(first) && ValidName(second)
    requires Missing(state.uuid) && store.Found(None, NameKey(Some(first))) == Some(state)
    modifies store`states, store`byUuid, store`byName, state
    ensures Alone(store, state) && state.name == Some(second)
    ensures exists k :: k in store.byUuid && store.byUuid[k] == state
  {
    SeenAs(store, state, Some(uuid), first);
    SeenAs(store, state, Some(uuid), second);
    assert UuidKey(Some(uuid)).value in store.byUuid;
  }

  /**
   A player takes another name and someone else then takes the former one. The new state is put under the
   main key of the first, which both indexes still point to: the store is no longer valid.
   */
  method FormerNameReused(uuid: string, first: string, second: string) returns (store: PlayerStore)
    requires ValidUuid(uuid) && ValidName(first) && ValidName(second)
    requires Key(Some(first)).Some? && Key(Some(second)).Some? && Key(Some(first)) != Key(Some(second))
    ensures !store.Valid()
  {
    var state;
    store, state := FirstSeen(first);
    Rename(store, state, uuid, first, second);
    var other := store.Ensure(None, Some(first), true, 0);
  }

  /** Such a UUID and such names exist. */
  lemma SuchNamesExist()
    ensures ValidUuid("00000000-0000-0000-0000-000000000000")
    ensures ValidName("a") && ValidName("b") && Key(Some("a")) == Some("a") && Key(Some("b")) == Some("b")
  {
    assert Strip("a") == "a" && Strip("b") == "b";
    assert Lower("a") == "a" && Lower("b") == "b";
  }

  /** `file` holds the groups of `saved`, in some order. */
  predicate Holds(file: seq<(string, Saved)>, saved: map<string, Saved>) {
    && (forall i, j :: 0 <= i < j < |file| ==> file[i].0 != file[j].0)
    && (forall j :: 0 <= j < |file| ==> file[j].0 in saved && file[j].1 == saved[file[j].0])
    && (forall k :: k in saved ==> HasGroup(file, |file|, k))
  }

  lemma {:induction false} DeletedAre(file: seq<(string, Saved)>, n: nat, j: nat)
    requires n <= |file| && forall i, j :: 0 <= i < j < |file| ==> file[i].0 != file[j].0
    requires j < |file| && file[j].0 == RESERVED
    ensures DeletedIn(file, n) == if j < n then KeysOf(file[j].1.texts) else {}
  {
    if n > 0 {
      DeletedAre(file, n - 1, j);
      if n - 1 != j {
        assert file[n - 1].0 != RESERVED;
      }
    }
  }

  lemma {:induction false} NoneDeleted(file: seq<(string, Saved)>, n: nat)
    requires n <= |file| && forall j :: 0 <= j < |file| ==> file[j].0 != RESERVED
    ensures DeletedIn(file, n) == {}
  {
    if n > 0 {
      NoneDeleted(file, n - 1);
    }
  }

  lemma KeysOfBoth(a: set<string>, b: set<string>)
    ensures KeysOf(a + b) == KeysOf(a) + KeysOf(b)
  {
    forall k | k in KeysOf(a) + KeysOf(b) ensures k in KeysOf(a + b) {
      var t :| (t in a || t in b) && Key(Some(t)) == Some(k);
      assert t in a + b;
    }
  }

  lemma KeysOfKeys(keys: set<string>, others: set<string>)
    requires AreKeys(keys)
    ensures KeysOf(others + keys) == KeysOf(others) + keys
  {
    forall k | k in keys ensures k in KeysOf(keys) && Key(Some(k)) == Some(k) {
      assert IsKey(k);
    }
    KeysOfBoth(others, keys);
    assert KeysOf(keys) == keys;
  }

  /** The deleted keys of a file that was saved: those of the store, and the texts of a player in their group. */
  lemma DeletedKept(store: PlayerStore, file: seq<(string, Saved)>, now: int, other: string -> set<string>)
    requires store.Sane() && Holds(file, store.Save(now, other))
    ensures DeletedIn(file, |file|) == store.deleted + if RESERVED in store.states
              then KeysOf(store.Written(RESERVED, other(RESERVED))) else {}
  {
    var saved := store.Save(now, other);
    KeysOfKeys(store.deleted, {});
    if RESERVED in saved {
      assert HasGroup(file, |file|, RESERVED);
      var j :| 0 <= j < |file| && file[j].0 == RESERVED;
      DeletedAre(file, |file|, j);
      if RESERVED in store.states {
        var state := store.states[RESERVED];
        KeysOfKeys(store.deleted, Texts(state.name) + Texts(state.uuid) + other(RESERVED));
      } else {
        assert {} + store.deleted == store.deleted;
      }
    } else {
      NoneDeleted(file, |file|);
    }
  }

  /**
   A table saved at `now` and loaded, its groups in any order: every player is there with all play time counted once,
   but for one under the reserved key, whose name and UUID count as deleted from then on. Deleted keys stay deleted.
   */
  method SaveAndLoad(store: PlayerStore, file: seq<(string, Saved)>, now: int, other: string -> set<string>)
    requires store.Valid() && Holds(file, store.Save(now, other))
    modifies store
    ensures store.Valid() && store.states.Keys == old(store.states.Keys) - {RESERVED}
    ensures store.states.Keys == old(store.states.Keys) <==> RESERVED !in old(store.states)
    ensures forall k :: k in store.states ==>
              && store.states[k].name == old(store.states[k].name) && store.states[k].uuid == old(store.states[k].uuid)
              && store.states[k].Clock() == old(store.states[k].Clock()).Reload(now)
    ensures store.deleted == old(store.deleted) + if RESERVED in old(store.states)
              then KeysOf(old(store.Written(RESERVED, other(RESERVED)))) else {}
    ensures RESERVED in old(store.states) ==>
              && (Key(old(store.states[RESERVED].name)).Some? ==>
                    store.Blocked(None, Key(old(store.states[RESERVED].name))))
              && (Key(old(store.states[RESERVED].uuid)).Some? ==>
                    store.Blocked(Key(old(store.states[RESERVED].uuid)), None))
  {
    ghost var was := store.Save(now, other);
    DeletedKept(store, file, now, other);
    SavedAreKept(store, now, other);
    if RESERVED in store.states {
      ghost var texts := store.Written(RESERVED, other(RESERVED));
      assert Texts(store.states[RESERVED].name) <= texts && Texts(store.states[RESERVED].uuid) <= texts;
      KeyOfText(store.states[RESERVED].name, texts);
      KeyOfText(store.states[RESERVED].uuid, texts);
    }
    LoadSaved(store, file, was);
  }

  lemma KeyOfText(text: Option<string>, texts: set<string>)
    requires Texts(text) <= texts
    ensures Key(text).Some? ==> Key(text).value in KeysOf(texts)
  {
    if text.Some? {
      assert text.value in texts;
    }
  }

  /** What is written of a state is kept when it is read. */
  lemma SavedAreKept(store: PlayerStore, now: int, other: string -> set<string>)
    requires store.Sane()
    ensures AllKept(store.Save(now, other)) && "" !in store.Save(now, other)
  {
    var saved := store.Save(now, other);
    forall k | k in saved && k != RESERVED ensures Kept(saved[k]) == Some(saved[k]) {
      assert IsGoodName(store.states[k].name);
    }
  }

  predicate AllKept(saved: map<string, Saved>) {
    forall k :: k in saved && k != RESERVED ==> Kept(saved[k]) == Some(saved[k])
  }

  method LoadSaved(store: PlayerStore, file: seq<(string, Saved)>, ghost saved: map<string, Saved>)
    requires Holds(file, saved) && AllKept(saved) && "" !in saved
    modifies store
    ensures store.Valid() && store.states.Keys == saved.Keys - {RESERVED}
    ensures forall k :: k in store.states ==> Kept(saved[k]) == Some(saved[k]) && store.Shows(store.states[k], saved[k])
    ensures store.deleted == DeletedIn(file, |file|)
  {
    store.Load(file);
    forall k | k in store.states ensures k in saved && k != RESERVED {
      assert HasGroup(file, |file|, k);
      var j :| 0 <= j < |file| && file[j].0 == k;
      assert store.Loaded(file[j]);
    }
    forall k | k in saved && k != RESERVED
      ensures k in store.states && Kept(saved[k]) == Some(saved[k]) && store.Shows(store.states[k], saved[k])
    {
      assert HasGroup(file, |file|, k);
      var j :| 0 <= j < |file| && file[j].0 == k;
      assert store.Loaded(file[j]) && file[j] == (k, saved[k]);
    }
  }

  /** A player of the reserved name is lost when the table is saved and loaded, and not tracked again. */
  method ReservedNameIsLost(name: string, at: int, now: int, other: string -> set<string>)
    returns (seen: bool, kept: bool, again: bool)
    requires ValidName(name) && Key(Some(name)) == Some(RESERVED)
    ensures seen && !kept && !again
  {
    var store, state := FirstSeen(name);
    state.MarkOnline(at);
    seen := RESERVED in store.states;
    var saved := store.Save(now, other);
    var file := [(RESERVED, saved[RESERVED])];
    OneGroup(saved);
    SaveAndLoad(store, file, now, other);
    kept := RESERVED in store.states;
    var back := store.Ensure(None, Some(name), true, now);
    again := back != null;
  }

  lemma OneGroup(saved: map<string, Saved>)
    requires saved.Keys == {RESERVED}
    ensures Holds([(RESERVED, saved[RESERVED])], saved)
  {
    assert HasGroup([(RESERVED, saved[RESERVED])], 1, RESERVED) by {
      assert [(RESERVED, saved[RESERVED])][0].0 == RESERVED;
    }
  }

  /** Such a name exists. */
  lemma ReservedIsValid()
    ensures ValidName("__deleted") && Key(Some("__deleted")) == Some(RESERVED)
  {
    assert Strip("__deleted") == "__deleted" && Lower("__deleted") == "__deleted";
  }
}
