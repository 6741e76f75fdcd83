/**
 Play time of one player (`window-players.c`): whole seconds of each online session,
 however often the player is reported online and whenever the state is saved and reloaded.
 */
module PlayTime {
  const SECOND := 1_000_000

  /** `online`, `session_started_mono` (microseconds, 0 when no session runs) and `playtime_seconds` */
  datatype Clock = Clock(online: bool, started: int, playtime: nat) {
    /** `player_state_mark_online` */
    function Join(now: int): Clock {
      if online then this else Clock(true, now, playtime)
    }

    /** `player_state_effective_playtime` */
    function Effective(now: int): nat {
      playtime + if online && started > 0 && now > started then (now - started) / SECOND else 0
    }

    /** `player_state_mark_offline` */
    function Leave(now: int): Clock {
      Clock(false, if online then 0 else started, Effective(now))
    }

    /** Saving at `now`, then loading the saved state. */
    function Reload(now: int): Clock {
      Clock(false, 0, Effective(now))
    }

    /** The play time and session part of `merge_player_states`. */
    function Absorb(src: Clock, now: int): Clock {
      Clock(online || src.online,
            if !src.online then started
            else if !online then (if src.started > 0 then src.started else now)
            else if src.started > 0 && (started <= 0 || src.started < started) then src.started
            else started,
            playtime + src.playtime)
    }

    function Next(event: Event): Clock {
      match event
      case Seen(at) => Join(at)
      case Gone(at) => Leave(at)
      case Reloaded(at) => Reload(at)
    }
  }

  datatype Event = Seen(at: int) | Gone(at: int) | Reloaded(at: int)

  function Run(events: seq<Event>): Clock {
    if events == [] then Clock(false, 0, 0)
    else Run(events[..|events| - 1]).Next(events[|events| - 1])
  }

  /** Times are positive and do not go back, but for a machine that restarted between a save and the load. */
  predicate Ordered(events: seq<Event>) {
    && (forall i :: 0 <= i < |events| ==> events[i].at > 0)
    && (forall i, j :: 0 <= i < |events| && 0 <= j < |events| && j == i + 1 && !events[i].Reloaded? ==>
          events[i].at <= events[j].at)
  }

  /** Within a session times do not go back. */
  lemma {:induction false} SessionIsOrdered(events: seq<Event>, i: int, j: int)
    requires Ordered(events) && 0 <= i <= j < |events| && forall k :: i <= k < j ==> events[k].Seen?
    ensures events[i].at <= events[j].at
    decreases j - i
  {
    if i < j {
      SessionIsOrdered(events, i, j - 1);
    }
  }

  /** Event `i` opens a session: the player is seen, and was not before. */
  predicate Opens(events: seq<Event>, i: int) {
    0 <= i < |events| && events[i].Seen? && (i == 0 || !events[i - 1].Seen?)
  }

  /** Events `i` to `j` are one session: it is opened at `i`, and `j` is the first event not confirming it. */
  predicate IsSession(events: seq<Event>, i: int, j: int) {
    0 <= i < j < |events| && Opens(events, i) && !events[j].Seen? && forall k :: i <= k < j ==> events[k].Seen?
  }

  /** Whole seconds of the sessions ended in `events`, by their end. */
  ghost function Played(events: seq<Event>, upTo: nat): int
    requires upTo <= |events| && Ordered(events)
  {
    if upTo == 0 then 0
    else Played(events, upTo - 1) +
         var j := upTo - 1;
         if exists i :: IsSession(events, i, j)
         then var i :| IsSession(events, i, j); (events[j].at - events[i].at) / SECOND
         else 0
  }

  lemma SessionIsUnique(events: seq<Event>, i: int, i': int, j: int)
    requires IsSession(events, i, j) && IsSession(events, i', j)
    ensures i == i'
  {
  }

  /** A session opened at `i` and not ended by the first `n` events. */
  predicate Running(events: seq<Event>, i: int, n: nat) {
    Opens(events, i) && i < n <= |events| && forall k :: i <= k < n ==> events[k].Seen?
  }

  /** The clock after the first `n` events. */
  ghost predicate Tracks(events: seq<Event>, n: nat, clock: Clock)
    requires n <= |events| && Ordered(events)
  {
    && clock.playtime == Played(events, n)
    && clock.online == (n > 0 && events[n - 1].Seen?)
    && (clock.online ==> exists i :: Running(events, i, n) && clock.started == events[i].at)
  }

  lemma Stays(events: seq<Event>, n: nat, clock: Clock)
    requires n < |events| && Ordered(events) && Tracks(events, n, clock)
    ensures Tracks(events, n + 1, clock.Next(events[n]))
  {
    assert forall i :: IsSession(events, i, n) ==> events[n - 1].Seen?;
    if clock.online {
      var i :| Running(events, i, n) && clock.started == events[i].at;
      if events[n].Seen? {
        assert Running(events, i, n + 1);
      } else {
        assert IsSession(events, i, n);
        var i' :| IsSession(events, i', n)
                  && Played(events, n + 1) == Played(events, n) + (events[n].at - events[i'].at) / SECOND;
        SessionIsUnique(events, i, i', n);
        SessionIsOrdered(events, i, n);
      }
    } else if events[n].Seen? {
      assert Running(events, n, n + 1);
    }
  }

  lemma {:induction false} RunTracks(events: seq<Event>, n: nat)
    requires n <= |events| && Ordered(events)
    ensures Tracks(events, n, Run(events[..n]))
  {
    if n > 0 {
      RunTracks(events, n - 1);
      Stays(events, n - 1, Run(events[..n - 1]));
      assert events[..n][..n - 1] == events[..n - 1];
    }
  }

  /** Play time is the sum of the whole seconds of the sessions, and never counts one twice. */
  lemma PlaytimeIsSumOfSessions(events: seq<Event>)
    requires Ordered(events)
    ensures Run(events).playtime == Played(events, |events|)
    ensures Run(events).online == (events != [] && events[|events| - 1].Seen?)
  {
    RunTracks(events, |events|);
    assert events[..|events|] == events;
  }

  /** Reporting an online player again changes nothing, neither the total nor the running session. */
  lemma SeenAgain(events: seq<Event>, at: int)
    requires Ordered(events) && events != [] && events[|events| - 1].Seen?
    ensures Run(events + [Seen(at)]) == Run(events)
  {
    PlaytimeIsSumOfSessions(events);
    assert (events + [Seen(at)])[..|events|] == events;
  }

  /** What is saved and loaded again is what would have been counted had the player just left. */
  lemma ReloadCountsOnce(events: seq<Event>, at: int)
    requires Ordered(events + [Reloaded(at)])
    ensures Run(events + [Reloaded(at)]).playtime == Run(events).Effective(at)
            == Run(events + [Gone(at)]).playtime == Played(events + [Reloaded(at)], |events| + 1)
    ensures forall now :: Run(events + [Reloaded(at)]).Effective(now) == Run(events).Effective(at)
  {
    assert (events + [Reloaded(at)])[..|events|] == events == (events + [Gone(at)])[..|events|];
    PlaytimeIsSumOfSessions(events + [Reloaded(at)]);
  }

  /** Seconds are whole, and of a million microseconds. */
  lemma SecondsCount(clock: Clock, seconds: nat, rest: nat)
    requires clock.online && clock.started > 0 && rest < 1_000_000
    ensures clock.Leave(clock.started + 1_000_000 * seconds + rest)
         == Clock(false, 0, clock.playtime + seconds)
  {
  }

  /** Merging adds what both have played; the session that goes on is the one that started first. */
  lemma AbsorbAdds(dst: Clock, src: Clock, now: int)
    ensures var r := dst.Absorb(src, now);
            && r.playtime == dst.playtime + src.playtime
            && (r.online <==> dst.online || src.online)
            && (dst.online && dst.started > 0 && !(src.online && 0 < src.started < dst.started) ==>
                  r.started == dst.started)
            && (src.online && src.started > 0 && !(dst.online && 0 < dst.started < src.started) ==>
                  r.started == src.started)
  {
  }

  /** No play time is lost or counted twice by merging a session into one that it is part of. */
  lemma AbsorbedSession(dst: Clock, src: Clock, now: int, later: int)
    requires dst.online && src.online && 0 < dst.started <= src.started <= later
    ensures dst.Absorb(src, now).Effective(later) == dst.Effective(later) + src.playtime
  {
  }

  // ----- against real time -----

  /** Microseconds for which the player was online, from gap to gap. */
  function Online(events: seq<Event>): int {
    if |events| < 2 then 0
    else Online(events[..|events| - 1]) +
         if events[|events| - 2].Seen? then events[|events| - 1].at - events[|events| - 2].at else 0
  }

  function Sessions(events: seq<Event>): nat {
    if events == [] then 0
    else Sessions(events[..|events| - 1]) + if Opens(events, |events| - 1) then 1 else 0
  }

  /** The fractions of seconds dropped so far, of the sessions that have ended. */
  ghost predicate Bounded(events: seq<Event>, clock: Clock) {
    && clock.online == (events != [] && events[|events| - 1].Seen?)
    && (clock.online ==> 0 < clock.started <= events[|events| - 1].at)
    && var open := if clock.online then events[|events| - 1].at - clock.started else 0;
    var ended := Sessions(events) - if clock.online then 1 else 0;
    && ended >= 0
    && clock.playtime * SECOND <= Online(events) - open <= clock.playtime * SECOND + ended * (SECOND - 1)
  }

  lemma BoundedStep(events: seq<Event>, event: Event, clock: Clock)
    requires Ordered(events + [event]) && Bounded(events, clock)
    ensures Bounded(events + [event], clock.Next(event))
  {
    var all := events + [event];
    assert all[..|all| - 1] == events;
    if events != [] {
      assert all[|events| - 1] == events[|events| - 1];
      assert all[|events| - 1].Reloaded? || all[|events| - 1].at <= all[|events|].at;
    }
  }

  lemma RunStep(events: seq<Event>, before: seq<Event>, last: Event)
    requires events == before + [last] && Ordered(events) && Bounded(before, Run(before))
    ensures Bounded(events, Run(events))
  {
    assert events[..|events| - 1] == before;
    BoundedStep(before, last, Run(before));
  }

  /** At most a second is lost in each session, and none is gained. */
  lemma {:induction false} LessThanASecondIsLost(events: seq<Event>)
    requires Ordered(events)
    ensures Bounded(events, Run(events))
  {
    if events != [] {
      LessThanASecondIsLost(events[..|events| - 1]);
      RunStep(events, events[..|events| - 1], events[|events| - 1]);
    }
  }
}
