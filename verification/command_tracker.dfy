/**
 The reply tracker (`server-command-tracker.c`): which answers in the console belong to polling commands. Answers
 come in the order of the commands, so each kind of command has a queue that the answers are taken from.
 */
module CommandTracker {
  const TIMEOUT := 30_000_000
  const MAX_PENDING := 32

  datatype Pending = Pending(sentAt: int, automatic: bool)

  datatype Kind = Tps | Players | Other

  /** `command_queue` */
  function KindOf(command: string): Kind {
    if command == "tps" then Tps
    else if command == "list" || "list " <= command then Players
    else Other
  }

  predicate Expired(pending: Pending, now: int) {
    now - pending.sentAt >= TIMEOUT
  }

  // ----- one queue -----

  /** The queue without the expired commands at its head. */
  function DropExpired(queue: seq<Pending>, now: int): seq<Pending> {
    if queue != [] && Expired(queue[0], now) then DropExpired(queue[1..], now) else queue
  }

  datatype Event = Sent(pending: Pending) | Polled(now: int) | Replied

  function Next(queue: seq<Pending>, event: Event): seq<Pending> {
    match event
    case Sent(pending) => (if |queue| >= MAX_PENDING then queue[1..] else queue) + [pending]
    case Polled(now) => DropExpired(queue, now)
    case Replied => if queue == [] then [] else queue[1..]
  }

  function Run(events: seq<Event>): seq<Pending> {
    if events == [] then [] else Next(Run(events[..|events| - 1]), events[|events| - 1])
  }

  /** All commands sent, in order. */
  function Commands(events: seq<Event>): seq<Pending> {
    if events == [] then []
    else
      var before, last := Commands(events[..|events| - 1]), events[|events| - 1];
      if last.Sent? then before + [last.pending] else before
  }

  /** Replies that were matched with a command. */
  function Answered(events: seq<Event>): nat {
    if events == [] then 0
    else
      var before := events[..|events| - 1];
      Answered(before) + if events[|events| - 1].Replied? && Run(before) != [] then 1 else 0
  }

  /** Nothing is given up: the queue never overflows, and no poll finds an expired command. */
  predicate Kept(events: seq<Event>) {
    events != [] ==>
      var before, last := events[..|events| - 1], events[|events| - 1];
      && Kept(before)
      && (last.Sent? ==> |Run(before)| < MAX_PENDING)
      && (last.Polled? ==> DropExpired(Run(before), last.now) == Run(before))
  }

  /** As long as nothing is given up, the n-th reply is matched with the n-th command. */
  lemma {:induction false} FirstInFirstOut(events: seq<Event>)
    requires Kept(events)
    ensures Answered(events) <= |Commands(events)| && Run(events) == Commands(events)[Answered(events)..]
  {
    if events != [] {
      FirstInFirstOut(events[..|events| - 1]);
    }
  }

  lemma DroppedIsSuffix(queue: seq<Pending>, now: int) returns (n: nat)
    ensures n <= |queue| && DropExpired(queue, now) == queue[n..]
    ensures forall i :: 0 <= i < n ==> Expired(queue[i], now)
    ensures n < |queue| ==> !Expired(queue[n], now)
  {
    if queue != [] && Expired(queue[0], now) {
      var m := DroppedIsSuffix(queue[1..], now);
      n := m + 1;
      assert forall i :: 0 < i < n ==> queue[i] == queue[1..][i - 1];
    } else {
      n := 0;
    }
  }

  /** Whatever is given up, only the latest commands are waited for, and never more than the limit. */
  lemma {:induction false} LatestAreKept(events: seq<Event>) returns (n: nat)
    ensures n <= |Commands(events)| && Run(events) == Commands(events)[n..] && |Run(events)| <= MAX_PENDING
  {
    if events == [] {
      n := 0;
    } else {
      var before, last := events[..|events| - 1], events[|events| - 1];
      n := LatestAreKept(before);
      match last
      case Sent(_) => n := if |Run(before)| >= MAX_PENDING then n + 1 else n;
      case Polled(now) =>
        var m := DroppedIsSuffix(Run(before), now);
        n := n + m;
      case Replied => n := if Run(before) == [] then n else n + 1;
    }
  }

  predicate InOrder(commands: seq<Pending>) {
    forall i, j :: 0 <= i < j < |commands| ==> commands[i].sentAt <= commands[j].sentAt
  }

  /** With a clock that does not go back, polling may go on exactly when every unanswered command is overdue. */
  lemma ReadyWhenOverdue(events: seq<Event>, now: int)
    requires InOrder(Commands(events))
    ensures DropExpired(Run(events), now) == [] <==> forall pending <- Run(events) :: Expired(pending, now)
    ensures forall pending <- DropExpired(Run(events), now) :: !Expired(pending, now)
  {
    var n := LatestAreKept(events);
    var queue := Run(events);
    var m := DroppedIsSuffix(queue, now);
    forall i | m <= i < |queue| ensures !Expired(queue[i], now) {
      assert queue[m].sentAt <= queue[i].sentAt;
    }
  }

  // ----- in numbers -----

  /** Times are in microseconds: a command is given up when it is half a minute old. */
  lemma OverdueAfterHalfAMinute(pending: Pending, now: int)
    ensures Expired(pending, now) <==> now >= pending.sentAt + 30 * 1_000_000
  {
  }

  /** Of commands with no reply and no poll in between, the last 32 are waited for. */
  lemma {:induction false} ThirtyTwoWait(events: seq<Event>)
    requires forall event <- events :: event.Sent?
    ensures |Commands(events)| == |events|
    ensures Run(events) == if |events| <= 32 then Commands(events) else Commands(events)[|events| - 32..]
  {
    if events != [] {
      ThirtyTwoWait(events[..|events| - 1]);
    }
  }

  /** "tps", and "list" with or without more, are the commands that are polled. */
  lemma KindsAre(command: string)
    ensures KindOf(command) == Tps <==> command == ['t', 'p', 's']
    ensures KindOf(command) == Players <==>
              |command| >= 4 && command[..4] == ['l', 'i', 's', 't'] && (|command| == 4 || command[4] == ' ')
  {
    if |command| > 4 && command[..4] == "list" && command[4] == ' ' {
      assert command[..5] == "list ";
    }
    if "list " <= command {
      assert command[..4] == "list " [..4] == "list";
    }
    if |command| == 4 && command[..4] == "list" {
      assert command == command[..4];
    }
  }

  // ----- the tracker of a server -----

  class Tracker {
    var tps: seq<Pending>
    var players: seq<Pending>

    constructor ()
      ensures tps == players == []
    {
      tps, players := [], [];
    }

    function Queue(kind: Kind): seq<Pending>
      reads this
    {
      match kind
      case Tps => tps
      case Players => players
      case Other => []
    }

    method SetQueue(kind: Kind, queue: seq<Pending>)
      requires !kind.Other?
      modifies this
      ensures forall k: Kind :: Queue(k) == if k == kind then queue else old(Queue(k))
    {
      if kind.Tps? {
        tps := queue;
      } else {
        players := queue;
      }
    }

    /** `pumpkin_command_poll_ready` */
    method PollReady(command: string, now: int) returns (ready: bool)
      modifies this
      ensures var kind := KindOf(command);
              && (ready <==> !kind.Other? && Next(old(Queue(kind)), Polled(now)) == [])
              && forall k: Kind :: Queue(k) == if k == kind then Next(old(Queue(k)), Polled(now)) else old(Queue(k))
    {
      var kind := KindOf(command);
      if kind.Other? {
        return false;
      }
      var queue := Queue(kind);
      while queue != [] && Expired(queue[0], now)
        invariant DropExpired(queue, now) == DropExpired(old(Queue(kind)), now)
      {
        queue := queue[1..];
      }
      SetQueue(kind, queue);
      ready := queue == [];
    }

    /** `pumpkin_command_track` */
    method Track(command: string, automatic: bool, now: int)
      modifies this
      ensures var kind := KindOf(command);
              forall k: Kind :: Queue(k) == if k == kind && !k.Other?
                then Next(old(Queue(k)), Sent(Pending(now, automatic))) else old(Queue(k))
    {
      var kind := KindOf(command);
      if kind.Other? {
        return;
      }
      var queue := Queue(kind);
      if |queue| >= MAX_PENDING {
        queue := queue[1..];
      }
      SetQueue(kind, queue + [Pending(now, automatic)]);
    }

    /** `pumpkin_command_consume_reply`: whether the reply belongs to a polling command. */
    method ConsumeReply(command: string) returns (automatic: bool)
      modifies this
      ensures var kind := KindOf(command);
              && automatic == (old(Queue(kind)) != [] && old(Queue(kind))[0].automatic)
              && forall k: Kind :: Queue(k) == if k == kind then Next(old(Queue(k)), Replied) else old(Queue(k))
    {
      var kind := KindOf(command);
      if kind.Other? {
        return false;
      }
      var queue := Queue(kind);
      if queue == [] {
        return false;
      }
      SetQueue(kind, queue[1..]);
      automatic := queue[0].automatic;
    }

    /** `pumpkin_command_tracking_reset` */
    method Reset()
      modifies this
      ensures forall k: Kind :: Queue(k) == []
    {
      tps, players := [], [];
    }
  }
}
