/**
 The managed server's life cycle (`server.c`, the Linux path): start, stop, force
 stop, exit, automatic restart, stop deadline and maintenance. Signal handlers do
 not call back into the server.
 */
module Lifecycle {
  import opened Wrappers

  /** What the outside world can see of a run. */
  datatype Note =
    | StartAsked            // `pumpkin_server_start` called by the user
    | StopAsked             // `pumpkin_server_stop` or `pumpkin_server_force_stop`
    | Spawned
    | Exited
    | StopWritten           // "stop" handed to the process
    | Wrote(command: string)

  /**
   `timer` and `restart`: whether `stop_source_id` and `restart_source_id` are set; `input`: whether there is a stdin.
   */
  datatype State = State(
    running: bool,
    input: bool,
    stopRequested: bool,
    maintenance: bool,
    timedOut: bool,
    timer: bool,
    restart: bool,
    autoRestart: bool,
    log: seq<Note>
  )

  /** What a start finds: binary, configuration, and whether the process and its stdin come up. */
  datatype Launch = Launch(binary: bool, configured: bool, spawns: bool)

  datatype Event =
    | Start(launch: Launch)
    | Stop
    | ForceStop
    | ProcessExits
    | RestartDue(launch: Launch)
    | DeadlinePasses
    | StopWriteEnds(failed: bool, sameStream: bool)
    | BeginMaintenance
    | EndMaintenance
    | SetAutoRestart(on: bool)
    | Send(command: string, writable: bool)

  predicate Stopping(s: State) {
    s.stopRequested && s.running
  }

  function ClearStopRequest(s: State): State {
    s.(timer := false, timedOut := false)
  }

  function Record(s: State, n: Note): State {
    s.(log := s.log + [n])
  }

  /** `pumpkin_server_start`: the new state and the returned boolean. */
  function Started(s: State, l: Launch): (State, bool) {
    if s.maintenance || Stopping(s) then (s, false) else
    if s.running then (s, true) else
    var s1 := ClearStopRequest(s).(stopRequested := false, restart := false);
    if !l.binary || !l.configured || !l.spawns then (s1, false) else
    (Record(s1.(running := true, input := true), Spawned), true)
  }

  /** `pumpkin_server_stop` */
  function Stopped(s: State): State {
    var s1 := s.(restart := false);
    if !s.running || s.stopRequested then s1.(stopRequested := true) else
    var s2 := s1.(stopRequested := true, timer := true);
    if !s.input then s2.(timedOut := true) else Record(s2, StopWritten)
  }

  function ForceStopped(s: State): State {
    var s1 := Stopped(s);
    if !s1.running then s1 else ClearStopRequest(s1)
  }

  /** `process_wait_cb` */
  function Ended(s: State): State {
    Record(ClearStopRequest(s).(running := false, input := false, restart := s.autoRestart && !s.stopRequested), Exited)
  }

  /** `auto_restart_cb` */
  function Restarted(s: State, l: Launch): State {
    var s1 := s.(restart := false);
    if !s.autoRestart || s.stopRequested then s1 else Started(s1.(stopRequested := false), l).0
  }

  /** `send_console_command`: the new state and the returned boolean. */
  function Sent(s: State, command: string, writable: bool): (State, bool) {
    if Stopping(s) || !s.input || !s.running then (s, false) else
    if command == "" then (s, true) else
    if !writable then (s, false) else (Record(s, Wrote(command)), true)
  }

  /** Exits need a process, timers need to be set. */
  predicate Enabled(s: State, e: Event) {
    && (e.ProcessExits? ==> s.running)
    && (e.RestartDue? ==> s.restart)
    && (e.DeadlinePasses? ==> s.timer)
  }

  function Step(s: State, e: Event): State
    requires Enabled(s, e)
  {
    match e
    case Start(l) => Started(Record(s, StartAsked), l).0
    case Stop => Stopped(Record(s, StopAsked))
    case ForceStop => ForceStopped(Record(s, StopAsked))
    case ProcessExits => Ended(s)
    case RestartDue(l) => Restarted(s, l)
    case DeadlinePasses => s.(timer := false, timedOut := s.timedOut || s.running)
    case StopWriteEnds(failed, same) => s.(timedOut := s.timedOut || (failed && same && Stopping(s)))
    case BeginMaintenance => if s.restart then s else s.(maintenance := true)
    case EndMaintenance => s.(maintenance := false)
    case SetAutoRestart(on) => s.(autoRestart := on, restart := s.restart && on)
    case Send(command, writable) => Sent(s, command, writable).0
  }

  // ----- what the log must show -----

  /** The last order the user gave was to stop. */
  predicate LastOrderIsStop(log: seq<Note>) {
    if log == [] then false else
    match log[|log| - 1]
    case StopAsked => true
    case StartAsked => false
    case _ => LastOrderIsStop(log[..|log| - 1])
  }

  /** "stop" has been written since the last spawn. */
  predicate StopInSession(log: seq<Note>) {
    if log == [] then false else
    match log[|log| - 1]
    case StopWritten => true
    case Spawned => false
    case _ => StopInSession(log[..|log| - 1])
  }

  /** No spawn between an order to stop and the next order to start; in one session
      "stop" is written at most once and nothing is written after it. */
  predicate Orderly(log: seq<Note>) {
    forall k :: 0 <= k < |log| ==>
      && (log[k].Spawned? ==> !LastOrderIsStop(log[..k]))
      && (log[k].StopWritten? || log[k].Wrote? ==> !StopInSession(log[..k]))
  }

  predicate Inv(s: State) {
    && (s.restart ==> !s.running && !s.stopRequested && s.autoRestart)
    && (s.timer || s.timedOut ==> Stopping(s))
    && (s.input ==> s.running)
    && Orderly(s.log)
    && (LastOrderIsStop(s.log) ==> s.stopRequested)
    && (StopInSession(s.log) && s.running ==> s.stopRequested)
  }

  lemma AppendNote(log: seq<Note>, n: Note)
    requires Orderly(log)
    requires n.Spawned? ==> !LastOrderIsStop(log)
    requires n.StopWritten? || n.Wrote? ==> !StopInSession(log)
    ensures Orderly(log + [n])
    ensures LastOrderIsStop(log + [n]) <==> n.StopAsked? || (!n.StartAsked? && LastOrderIsStop(log))
    ensures StopInSession(log + [n]) <==> n.StopWritten? || (!n.Spawned? && StopInSession(log))
  {
    var next := log + [n];
    assert next[..|log|] == log;
    forall k | 0 <= k < |next|
      ensures next[k].Spawned? ==> !LastOrderIsStop(next[..k])
      ensures next[k].StopWritten? || next[k].Wrote? ==> !StopInSession(next[..k])
    {
      if k < |log| {
        assert next[k] == log[k] && next[..k] == log[..k];
      }
    }
  }

  lemma RecordKeeps(s: State, n: Note)
    requires Inv(s) && (n.StartAsked? || (n.Wrote? && s.running && !s.stopRequested))
    ensures Inv(Record(s, n))
  {
    AppendNote(s.log, n);
  }

  lemma StartedKeeps(s: State, l: Launch)
    requires Inv(s) && !LastOrderIsStop(s.log)
    ensures Inv(Started(s, l).0)
    ensures s.maintenance ==> Started(s, l).0.log == s.log
  {
    AppendNote(s.log, Spawned);
  }

  lemma StoppedKeeps(s: State)
    requires Inv(s)
    ensures Inv(Stopped(Record(s, StopAsked))) && Inv(ForceStopped(Record(s, StopAsked)))
  {
    AppendNote(s.log, StopAsked);
    var asked := s.log + [StopAsked];
    if s.running && !s.stopRequested {
      AppendNote(asked, StopWritten);
    }
  }

  lemma StepKeepsInv(s: State, e: Event)
    requires Inv(s) && Enabled(s, e)
    ensures Inv(Step(s, e))
  {
    match e
    case Start(l) =>
      RecordKeeps(s, StartAsked);
      AppendNote(s.log, StartAsked);
      StartedKeeps(Record(s, StartAsked), l);
    case Stop => StoppedKeeps(s);
    case ForceStop => StoppedKeeps(s);
    case ProcessExits => AppendNote(s.log, Exited);
    case RestartDue(l) =>
      StartedKeeps(s.(restart := false), l);
    case Send(command, writable) =>
      if s.running && !s.stopRequested {
        RecordKeeps(s, Wrote(command));
      }
    case _ =>
  }

  /** While maintenance is held no step spawns a process. */
  lemma NoSpawnInMaintenance(s: State, e: Event)
    requires Inv(s) && Enabled(s, e) && s.maintenance
    ensures !s.running ==> !Step(s, e).running
    ensures |Step(s, e).log| > |s.log| ==>
              forall k :: |s.log| <= k < |Step(s, e).log| ==> !Step(s, e).log[k].Spawned?
  {
  }

  // ----- whole runs -----

  function Fresh(autoRestart: bool): State {
    State(false, false, false, false, false, false, false, autoRestart, [])
  }

  ghost predicate Run(states: seq<State>, events: seq<Event>) {
    && |states| == |events| + 1 && states[0] == Fresh(states[0].autoRestart)
    && forall i :: 0 <= i < |events| ==> Enabled(states[i], events[i]) && states[i + 1] == Step(states[i], events[i])
  }

  lemma {:induction false} EveryStateIsSound(states: seq<State>, events: seq<Event>, n: nat)
    requires Run(states, events) && n < |states|
    ensures Inv(states[n])
    decreases n
  {
    if n > 0 {
      EveryStateIsSound(states, events, n - 1);
      StepKeepsInv(states[n - 1], events[n - 1]);
    }
  }

  lemma {:induction false} StopInSessionMeans(log: seq<Note>, j: nat, k: nat)
    requires j < k <= |log| && log[j].StopWritten? && forall m :: j < m < k ==> !log[m].Spawned?
    ensures StopInSession(log[..k])
    decreases k - j
  {
    if j + 1 < k {
      StopInSessionMeans(log, j, k - 1);
      assert log[..k][..k - 1] == log[..k - 1];
    }
  }

  lemma {:induction false} LastOrderMeans(log: seq<Note>, j: nat, k: nat)
    requires j < k <= |log| && log[j].StopAsked? && forall m :: j < m < k ==> !log[m].StartAsked?
    ensures LastOrderIsStop(log[..k])
    decreases k - j
  {
    if j + 1 < k {
      LastOrderMeans(log, j, k - 1);
      assert log[..k][..k - 1] == log[..k - 1];
    }
  }

  /** Over any run: between a user's stop and a spawn there is a user's start, and after "stop" has been written
      nothing more is written until a new process is spawned. */
  lemma RunsAreOrderly(states: seq<State>, events: seq<Event>, n: nat, j: nat, k: nat)
    requires Run(states, events) && n < |states| && j < k < |states[n].log|
    ensures var log := states[n].log;
            && (log[j].StopAsked? && log[k].Spawned? ==> exists m :: j < m < k && log[m].StartAsked?)
            && (log[j].StopWritten? && (log[k].StopWritten? || log[k].Wrote?) ==>
                  exists m :: j < m < k && log[m].Spawned?)
  {
    EveryStateIsSound(states, events, n);
    var log := states[n].log;
    if log[j].StopWritten? && forall m :: j < m < k ==> !log[m].Spawned? {
      StopInSessionMeans(log, j, k);
    }
    if log[j].StopAsked? && forall m :: j < m < k ==> !log[m].StartAsked? {
      LastOrderMeans(log, j, k);
    }
  }

  // ----- what must happen -----

  /** A process was spawned and has not exited. */
  predicate IsUp(log: seq<Note>) {
    log != [] && match log[|log| - 1]
                 case Spawned => true
                 case Exited => false
                 case _ => IsUp(log[..|log| - 1])
  }

  /** The user has asked for a stop since the last spawn. */
  predicate StopSince(log: seq<Note>) {
    log != [] && match log[|log| - 1]
                 case StopAsked => true
                 case Spawned => false
                 case _ => StopSince(log[..|log| - 1])
  }

  /** What the log says of the object. */
  ghost predicate Observed(s: State) {
    && s.running == s.input == IsUp(s.log)
    && (s.running ==> s.stopRequested == StopSince(s.log))
  }

  lemma Noted(log: seq<Note>, n: Note)
    ensures IsUp(log + [n]) == (n.Spawned? || (!n.Exited? && IsUp(log)))
    ensures StopSince(log + [n]) == (n.StopAsked? || (!n.Spawned? && StopSince(log)))
  {
    assert (log + [n])[..|log|] == log;
  }

  predicate Works(l: Launch) {
    l.binary && l.configured && l.spawns
  }

  /** How the server answers an event, by what its log says. */
  ghost predicate Responds(s: State, e: Event, t: State) {
    match e
    case Start(l) =>
      t.log == s.log + [StartAsked] + (if !s.maintenance && !IsUp(s.log) && Works(l) then [Spawned] else [])
    case Stop =>
      && t.log == s.log + [StopAsked] + (if IsUp(s.log) && !StopSince(s.log) then [StopWritten] else [])
      && !t.restart && (IsUp(s.log) && !StopSince(s.log) ==> t.timer)
    case ForceStop =>
      && t.log == s.log + [StopAsked] + (if IsUp(s.log) && !StopSince(s.log) then [StopWritten] else [])
      && !t.restart && !t.timer && !t.timedOut
    case ProcessExits => t.log == s.log + [Exited] && (t.restart <==> s.autoRestart && !StopSince(s.log))
    case RestartDue(l) => t.log == (if !s.maintenance && Works(l) then s.log + [Spawned] else s.log) && !t.restart
    case DeadlinePasses => t == s.(timer := false, timedOut := true)
    case StopWriteEnds(failed, same) =>
      t == s.(timedOut := s.timedOut || (failed && same && IsUp(s.log) && StopSince(s.log)))
    case BeginMaintenance => t == s.(maintenance := s.maintenance || !s.restart)
    case EndMaintenance => t == s.(maintenance := false)
    case SetAutoRestart(on) => t == s.(autoRestart := on, restart := s.restart && on)
    case Send(command, writable) =>
      t == s.(log := if IsUp(s.log) && !StopSince(s.log) && command != "" && writable then s.log + [Wrote(command)]
                     else s.log)
  }

  lemma StepResponds(s: State, e: Event)
    requires Inv(s) && Observed(s) && Enabled(s, e)
    ensures Observed(Step(s, e)) && Responds(s, e, Step(s, e))
  {
    match e
    case Start(_) =>
      Noted(s.log, StartAsked);
      Noted(s.log + [StartAsked], Spawned);
    case Stop => StopResponds(s);
    case ForceStop => StopResponds(s);
    case ProcessExits => Noted(s.log, Exited);
    case RestartDue(_) => Noted(s.log, Spawned);
    case Send(command, _) => Noted(s.log, Wrote(command));
    case _ =>
  }

  lemma StopResponds(s: State)
    requires Inv(s) && Observed(s)
    ensures Observed(Step(s, Stop)) && Responds(s, Stop, Step(s, Stop))
    ensures Observed(Step(s, ForceStop)) && Responds(s, ForceStop, Step(s, ForceStop))
  {
    Noted(s.log, StopAsked);
    Noted(s.log + [StopAsked], StopWritten);
  }

  lemma {:induction false} EveryStateIsObserved(states: seq<State>, events: seq<Event>, n: nat)
    requires Run(states, events) && n < |states|
    ensures Observed(states[n])
    decreases n
  {
    if n > 0 {
      EveryStateIsObserved(states, events, n - 1);
      EveryStateIsSound(states, events, n - 1);
      StepResponds(states[n - 1], events[n - 1]);
    }
  }

  /** Over any run every event is answered as the log asks for. */
  lemma EveryEventIsAnswered(states: seq<State>, events: seq<Event>, n: nat)
    requires Run(states, events) && n < |events|
    ensures Responds(states[n], events[n], states[n + 1])
  {
    EveryStateIsSound(states, events, n);
    EveryStateIsObserved(states, events, n);
    StepResponds(states[n], events[n]);
  }

  /** What calls a pending restart off. */
  predicate CallsOff(e: Event) {
    e.Start? || e.Stop? || e.ForceStop? || (e.SetAutoRestart? && !e.on) || e.RestartDue?
  }

  lemma {:induction false} RestartStaysPending(states: seq<State>, events: seq<Event>, n: nat, m: nat)
    requires Run(states, events) && n <= m < |states| && states[n].restart && !states[n].maintenance
    requires forall k :: n <= k < m ==> !CallsOff(events[k])
    ensures states[m].restart && !states[m].maintenance && states[m].log == states[n].log
    decreases m - n
  {
    if n < m {
      RestartStaysPending(states, events, n, m - 1);
      EveryStateIsSound(states, events, m - 1);
      EveryStateIsObserved(states, events, m - 1);
      EveryEventIsAnswered(states, events, m - 1);
      assert !CallsOff(events[m - 1]) && states[m - 1].restart && !states[m - 1].running;
    }
  }

  /** Over any run: a server that exits unasked, with automatic restart on, is spawned again when the restart is due. */
  lemma CrashedServerComesBack(states: seq<State>, events: seq<Event>, n: nat, m: nat)
    requires Run(states, events) && n < m < |events| && events[n].ProcessExits? && !states[n].maintenance
    requires states[n].autoRestart && !StopSince(states[n].log)
    requires forall k :: n < k < m ==> !CallsOff(events[k])
    requires events[m].RestartDue? && Works(events[m].launch)
    ensures states[m + 1].log == states[n].log + [Exited, Spawned]
  {
    EveryEventIsAnswered(states, events, n);
    RestartStaysPending(states, events, n + 1, m);
    EveryEventIsAnswered(states, events, m);
    assert states[n].log + [Exited] + [Spawned] == states[n].log + [Exited, Spawned];
  }

  // ----- the C object -----

  class Server {
    var running: bool
    var input: bool
    var stopRequested: bool
    var maintenance: bool
    var timedOut: bool
    var timer: bool
    var restart: bool
    var autoRestart: bool
    ghost var log: seq<Note>

    ghost function Now(): State
      reads this
    {
      State(running, input, stopRequested, maintenance, timedOut, timer, restart, autoRestart, log)
    }

    constructor (autoRestart: bool)
      ensures Now() == Fresh(autoRestart)
    {
      running, input, stopRequested, maintenance := false, false, false, false;
      timedOut, timer, restart := false, false, false;
      this.autoRestart := autoRestart;
      log := [];
    }

    predicate GetStopping()
      reads this
    {
      stopRequested && running
    }

    method ClearStop()
      modifies this
      ensures Now() == ClearStopRequest(old(Now()))
    {
      timer := false;
      timedOut := false;
    }

    method StartProcess(l: Launch) returns (ok: bool)
      modifies this
      ensures (Now(), ok) == Started(old(Now()), l)
    {
      if maintenance {
        return false;
      }
      if GetStopping() {
        return false;
      }
      if running {
        return true;
      }
      ClearStop();
      stopRequested := false;
      if restart {
        restart := false;
      }
      if !l.binary {
        return false;
      }
      if !l.configured {
        return false;
      }
      if !l.spawns {
        return false;
      }
      running := true;
      input := true;
      log := log + [Spawned];
      return true;
    }

    method StopProcess()
      modifies this
      ensures Now() == Stopped(old(Now()))
    {
      if restart {
        restart := false;
      }
      if !running || stopRequested {
        stopRequested := true;
        return;
      }
      stopRequested := true;
      timer := true;
      if !input {
        timedOut := true;
        return;
      }
      log := log + [StopWritten];
    }

    method ForceStopProcess()
      modifies this
      ensures Now() == ForceStopped(old(Now()))
    {
      StopProcess();
      if !running {
        return;
      }
      ClearStop();
    }

    method OnExit()
      requires running
      modifies this
      ensures Now() == Step(old(Now()), ProcessExits)
    {
      ClearStop();
      running, input := false, false;
      log := log + [Exited];
      if restart {
        restart := false;
      }
      if autoRestart && !stopRequested {
        restart := true;
      }
    }

    method OnRestartDue(l: Launch)
      requires restart
      modifies this
      ensures Now() == Step(old(Now()), RestartDue(l))
    {
      restart := false;
      if !autoRestart || stopRequested {
        return;
      }
      stopRequested := false;
      var ok := StartProcess(l);
    }

    method OnDeadline()
      requires timer
      modifies this
      ensures Now() == Step(old(Now()), DeadlinePasses)
    {
      timer := false;
      if running {
        timedOut := true;
      }
    }

    method OnStopWriteEnds(failed: bool, sameStream: bool)
      modifies this
      ensures Now() == Step(old(Now()), StopWriteEnds(failed, sameStream))
    {
      if failed && sameStream && GetStopping() {
        timedOut := true;
      }
    }

    method TakeMaintenance() returns (ok: bool)
      modifies this
      ensures ok <==> !old(restart) && !old(maintenance)
      ensures Now() == Step(old(Now()), BeginMaintenance)
    {
      if restart {
        return false;
      }
      if maintenance {
        return false;
      }
      maintenance := true;
      return true;
    }

    method SendCommand(command: string, writable: bool) returns (ok: bool)
      modifies this
      ensures (Now(), ok) == Sent(old(Now()), command, writable)
      ensures Now() == Step(old(Now()), Send(command, writable))
    {
      if GetStopping() {
        return false;
      }
      if !input || !running {
        return false;
      }
      if command == "" {
        return true;
      }
      if !writable {
        return false;
      }
      log := log + [Wrote(command)];
      return true;
    }

    method SetRestart(on: bool)
      modifies this
      ensures Now() == Step(old(Now()), SetAutoRestart(on))
    {
      autoRestart := on;
      if !on && restart {
        restart := false;
      }
    }

    method ReleaseMaintenance()
      modifies this
      ensures Now() == Step(old(Now()), Event.EndMaintenance)
    {
      if !maintenance {
        return;
      }
      maintenance := false;
    }

    method AskStart(l: Launch)
      modifies this
      ensures Now() == Step(old(Now()), Start(l))
    {
      log := log + [StartAsked];
      var ok := StartProcess(l);
    }

    method AskStop()
      modifies this
      ensures Now() == Step(old(Now()), Stop)
    {
      log := log + [StopAsked];
      StopProcess();
    }

    method AskForceStop()
      modifies this
      ensures Now() == Step(old(Now()), ForceStop)
    {
      ghost var asked := Record(Now(), StopAsked);
      log := log + [StopAsked];
      assert Now() == asked;
      ForceStopProcess();
      assert Now() == ForceStopped(asked);
    }

    /** What the user asks for, and every callback, is one step of the runs above. */
    method Handle(e: Event)
      requires Enabled(Now(), e)
      modifies this
      ensures Now() == Step(old(Now()), e)
    {
      match e
      case Start(l) => AskStart(l);
      case Stop => AskStop();
      case ForceStop => AskForceStop();
      case ProcessExits => OnExit();
      case RestartDue(l) => OnRestartDue(l);
      case DeadlinePasses => OnDeadline();
      case StopWriteEnds(failed, sameStream) => OnStopWriteEnds(failed, sameStream);
      case BeginMaintenance => var ok := TakeMaintenance();
      case EndMaintenance => ReleaseMaintenance();
      case SetAutoRestart(on) => SetRestart(on);
      case Send(command, writable) => var ok := SendCommand(command, writable);
    }
  }
}
