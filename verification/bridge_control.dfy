/**
 The minimap bridge controller (`minimap-bridge-control.c`): one load or unload
 request at a time, acknowledged by lines of the server's log.
 */
module BridgeControl {
  import opened Wrappers

  datatype Operation = Idle | Loading | Unloading

  /** What the controller reads at a call: the server, the bridge file store, and whether a write succeeds. */
  datatype Env = Env(
    pid: int,
    running: bool,
    maintenance: bool,
    stopping: bool,
    store: Option<Stored>,  // None: `pumpkin_map_bridge_set_enabled` failed
    canonical: bool,        // the bridge has its canonical file name
    writable: bool          // `pumpkin_server_send_command` succeeds
  )

  datatype Stored = Stored(name: Option<string>, changed: bool)

  datatype Command = Command(load: bool, target: string)

  /** The fields of the C struct; `timer` is `timeout != 0`. */
  datatype State = State(
    enabled: bool,
    loaded: bool,
    failed: bool,
    pid: int,
    name: Option<string>,
    target: Option<string>,
    pending: Operation,
    timer: bool
  )

  predicate StandsAt(line: string, part: string, i: nat) {
    i + |part| <= |line| && line[i..i + |part|] == part
  }

  /** `strstr` */
  predicate Contains(line: string, part: string) {
    exists i :: 0 <= i <= |line| && StandsAt(line, part, i)
  }

  // ----- the steps as functions -----

  /** Lines 75-82: a new process forgets what was pending. */
  function ForProcess(s: State, e: Env): State {
    if e.pid == s.pid then s else
    s.(timer := false, pending := Idle, target := None, failed := false, pid := e.pid, loaded := s.enabled && e.running)
  }

  function Filename(e: Env): string {
    if e.canonical then "map-bridge.wasm" else "smashed-map-bridge.wasm"
  }

  function Request(enabled: bool, name: string, e: Env): Command {
    Command(enabled, if enabled then "plugins/" + Filename(e) else name)
  }

  /** Lines 91-97: the first time the bridge's name is known, guess whether the process has it loaded. */
  function Named(s: State, name: string, changed: bool, e: Env): State {
    s.(name := Some(name),
       loaded := if s.name.None? then e.running && (!s.enabled || !changed) else s.loaded)
  }

  /** `sync_bridge`: the new state and the command written, if any. */
  function Sync(s: State, e: Env): (State, Option<Command>) {
    var s1 := ForProcess(s, e);
    if e.maintenance || e.stopping || s1.failed then (s1, None) else
    if e.store.None? then (s1.(failed := true), None) else
    if e.store.value.name.None? || s1.pending != Idle then (s1, None) else
    var s2 := Named(s1, e.store.value.name.value, e.store.value.changed, e);
    if !e.running || s2.loaded == s2.enabled then (s2, None) else
    var c := Request(s2.enabled, s2.name.value, e);
    if e.writable
    then (s2.(pending := if c.load then Loading else Unloading, target := Some(c.target), timer := true), Some(c))
    else (Settle(s2).(failed := true), None)
  }

  function Settle(s: State): State {
    s.(pending := Idle, target := None, timer := false)
  }

  function SuccessLine(load: bool, target: string): string {
    "Plugin " + target + (if load then " loaded" else " unloaded") + " successfully"
  }

  function AlreadyLine(load: bool, target: string): string {
    "Plugin " + target + " is " + (if load then "already " else "not ") + "loaded"
  }

  function FailureLine(load: bool, target: string): string {
    "Failed to " + (if load then "load" else "unload") + " plugin " + target + ":"
  }

  datatype Reply = Acknowledged | Refused | Unrelated

  /** Lines 55-64: what a log line says about the pending request. */
  function Classify(line: string, load: bool, target: string): Reply {
    if Contains(line, SuccessLine(load, target)) || Contains(line, AlreadyLine(load, target)) then Acknowledged
    else if Contains(line, FailureLine(load, target)) then Refused
    else Unrelated
  }

  /** `bridge_feedback` */
  function Feedback(s: State, line: string, e: Env): (State, Option<Command>)
    requires Consistent(s)
  {
    if s.pending == Idle then (s, None) else
    var load := s.pending == Loading;
    match Classify(line, load, s.target.value)
    case Acknowledged => Sync(Settle(s).(loaded := load), e)
    case Refused => (Settle(s).(failed := true), None)
    case Unrelated => (s, None)
  }

  /** `timed_out`; the source exists only while the timer does. */
  function TimedOut(s: State): State {
    Settle(s).(failed := true)
  }

  /** `pumpkin_minimap_bridge_set_enabled` on an existing controller */
  function Toggle(s: State, enabled: bool, e: Env): (State, Option<Command>) {
    Sync(s.(enabled := enabled, failed := false), e)
  }

  function Fresh(pid: int): State {
    State(false, false, false, pid, None, None, Idle, false)
  }

  // ----- what every reachable state keeps -----

  /** Idle, no target and no timer are the same thing, and a request has a known bridge. */
  predicate Consistent(s: State) {
    && (s.pending == Idle <==> s.target.None?)
    && (s.pending == Idle <==> !s.timer)
    && (s.pending != Idle ==> s.name.Some?)
  }

  datatype Event =
    | Toggled(enabled: bool, env: Env)
    | StateChanged(env: Env)
    | LogLine(line: string, env: Env)
    | Expired

  /** A timer event needs an armed timer. */
  predicate Enabled(s: State, event: Event) {
    event.Expired? ==> s.timer
  }

  function Step(s: State, event: Event): (State, Option<Command>)
    requires Consistent(s) && Enabled(s, event)
  {
    match event
    case Toggled(enabled, env) => Toggle(s, enabled, env)
    case StateChanged(env) => Sync(s, env)
    case LogLine(line, env) => Feedback(s, line, env)
    case Expired => (TimedOut(s), None)
  }

  lemma StepKeepsConsistent(s: State, event: Event)
    requires Consistent(s) && Enabled(s, event)
    ensures Consistent(Step(s, event).0)
  {
    match event
    case Toggled(enabled, env) => SyncKeepsConsistent(s.(enabled := enabled, failed := false), env);
    case StateChanged(env) => SyncKeepsConsistent(s, env);
    case LogLine(_, env) =>
      SyncKeepsConsistent(Settle(s).(loaded := s.pending == Loading), env);
    case Expired =>
  }

  lemma SyncKeepsConsistent(s: State, e: Env)
    requires Consistent(s)
    ensures Consistent(Sync(s, e).0)
  {
  }

  /** States a controller passes through, from its creation on. */
  ghost predicate History(states: seq<State>, events: seq<Event>) {
    && |states| == |events| + 1 && states[0] == Fresh(states[0].pid)
    && forall i :: 0 <= i < |events| ==>
         Consistent(states[i]) && Enabled(states[i], events[i]) ==> states[i + 1] == Step(states[i], events[i]).0
  }

  lemma {:induction false} EveryStateIsConsistent(states: seq<State>, events: seq<Event>, n: nat)
    requires History(states, events) && n < |states|
    requires forall i :: 0 <= i < |events| && events[i].Expired? ==> states[i].timer
    ensures Consistent(states[n])
    decreases n
  {
    if n > 0 {
      EveryStateIsConsistent(states, events, n - 1);
      StepKeepsConsistent(states[n - 1], events[n - 1]);
    }
  }

  /** A command goes out exactly from an idle, healthy controller of a running server whose bridge should change. */
  lemma SentExactlyWhen(s: State, e: Env)
    requires Consistent(s)
    ensures var s1 := ForProcess(s, e);
            Sync(s, e).1.Some? <==>
            && e.running && !e.maintenance && !e.stopping && e.writable
            && s1.pending == Idle && !s1.failed
            && e.store.Some? && e.store.value.name.Some?
            && Named(s1, e.store.value.name.value, e.store.value.changed, e).loaded != s.enabled
    ensures Sync(s, e).1.Some? ==>
              var (t, c) := Sync(s, e);
              && t.pending == (if s.enabled then Loading else Unloading) && t.target == Some(c.value.target)
              && c.value.load == s.enabled && t.loaded != t.enabled && !t.failed
  {
  }

  // ----- one process, with a host that answers -----

  /** The server's plugin host: whether the bridge is loaded, and the command it has not executed yet. */
  datatype Host = Host(loaded: bool, inbox: Option<Command>)

  /** The controller, its host, the commands written so far, and whether one was acknowledged. */
  datatype System = System(control: State, host: Host, sent: seq<bool>, acknowledged: bool)

  datatype Move =
    | UserToggles(enabled: bool, env: Env)
    | ServerChanges(env: Env)
    | HostAnswers(env: Env)          // executes its command and logs the result
    | OtherOutput(line: string, env: Env)

  /** What the host logs: it acts, or finds nothing to do. */
  function Answer(h: Host): string
    requires h.inbox.Some?
  {
    var c := h.inbox.value;
    if h.loaded == c.load then AlreadyLine(c.load, c.target) else SuccessLine(c.load, c.target)
  }

  /** Same process; writes go through; other output does not mimic a reply. */
  predicate Calm(y: System, m: Move)
    requires Consistent(y.control)
  {
    && (m.HostAnswers? ==> y.host.inbox.Some?)
    && m.env.pid == y.control.pid && m.env.writable
    && (m.OtherOutput? && y.control.pending != Idle ==>
          Classify(m.line, y.control.pending == Loading, y.control.target.value) == Unrelated)
  }

  function After(y: System, r: (State, Option<Command>), host: Host, acknowledged: bool): System {
    System(r.0,
           if r.1.Some? then host.(inbox := r.1) else host,
           if r.1.Some? then y.sent + [r.1.value.load] else y.sent,
           acknowledged)
  }

  function Next(y: System, m: Move): System
    requires Consistent(y.control) && Calm(y, m)
  {
    match m
    case UserToggles(enabled, env) => After(y, Toggle(y.control, enabled, env), y.host, y.acknowledged)
    case ServerChanges(env) => After(y, Sync(y.control, env), y.host, y.acknowledged)
    case HostAnswers(env) =>
      After(y, Feedback(y.control, Answer(y.host), env), Host(y.host.inbox.value.load, None), true)
    case OtherOutput(line, env) => After(y, Feedback(y.control, line, env), y.host, y.acknowledged)
  }

  /** Each command is the opposite of the one before. */
  predicate Alternates(sent: seq<bool>) {
    forall i :: 0 < i < |sent| ==> sent[i] != sent[i - 1]
  }

  predicate InStep(y: System) {
    var s := y.control;
    && Consistent(s)
    && (s.pending == Idle <==> y.host.inbox.None?)
    && (s.pending != Idle ==> y.host.inbox == Some(Command(s.pending == Loading, s.target.value)))
    && Alternates(y.sent) && (y.sent != [] ==> s.name.Some?)
    // the last command is what the controller takes the host to have done, or is waiting for
    && (y.sent != [] ==> y.sent[|y.sent| - 1] == if s.pending == Idle then s.loaded else s.pending == Loading)
    && (s.pending != Idle ==> y.sent != [] && s.loaded != (s.pending == Loading))
    && (y.acknowledged ==> y.sent != [] && y.host.loaded == s.loaded)
  }

  lemma LineContainsItself(line: string)
    ensures Contains(line, line)
  {
    assert line[0..0 + |line|] == line;
    assert StandsAt(line, line, 0);
  }

  /** The host's answer is always taken as the acknowledgement of the pending request. */
  lemma AnswerAcknowledges(y: System)
    requires InStep(y) && y.control.pending != Idle
    ensures Classify(Answer(y.host), y.control.pending == Loading, y.control.target.value) == Acknowledged
  {
    LineContainsItself(Answer(y.host));
  }

  lemma SyncKeepsInStep(y: System, s: State, host: Host, e: Env, acknowledged: bool)
    requires Consistent(s) && e.pid == s.pid && e.writable
    requires InStep(System(s, host, y.sent, acknowledged))
    ensures InStep(After(y, Sync(s, e), host, acknowledged))
  {
    var r := Sync(s, e);
    if r.1.Some? {
      var sent := y.sent + [r.1.value.load];
      assert sent[|sent| - 1] == r.1.value.load;
    }
  }

  lemma NextKeepsInStep(y: System, m: Move)
    requires InStep(y) && Calm(y, m)
    ensures InStep(Next(y, m))
  {
    match m
    case UserToggles(enabled, env) =>
      SyncKeepsInStep(y, y.control.(enabled := enabled, failed := false), y.host, env, y.acknowledged);
    case ServerChanges(env) =>
      SyncKeepsInStep(y, y.control, y.host, env, y.acknowledged);
    case HostAnswers(env) =>
      AnswerAcknowledges(y);
      var load := y.control.pending == Loading;
      SyncKeepsInStep(y, Settle(y.control).(loaded := load), Host(load, None), env, true);
    case OtherOutput(_, _) =>
  }

  ghost predicate Run(ys: seq<System>, ms: seq<Move>) {
    && |ys| == |ms| + 1
    && forall i :: 0 <= i < |ms| ==> Consistent(ys[i].control) && Calm(ys[i], ms[i]) && ys[i + 1] == Next(ys[i], ms[i])
  }

  /** Over any calm run, commands alternate, and once one is acknowledged `loaded` is the host's state. */
  lemma {:induction false} RunStaysInStep(ys: seq<System>, ms: seq<Move>, n: nat)
    requires Run(ys, ms) && n < |ys|
    requires ys[0].sent == [] && ys[0].host.inbox.None? && !ys[0].acknowledged
    requires Consistent(ys[0].control) && ys[0].control.pending == Idle
    ensures InStep(ys[n]) && Alternates(ys[n].sent)
    ensures ys[n].acknowledged ==> ys[n].host.loaded == ys[n].control.loaded
    decreases n
  {
    if n > 0 {
      RunStaysInStep(ys, ms, n - 1);
      NextKeepsInStep(ys[n - 1], ms[n - 1]);
    }
  }

  // ----- how far `loaded` can be trusted -----

  /** Line 93: what the controller takes the process to have done before anything was asked of it. */
  function Guess(enabled: bool, e: Env): bool
    requires e.store.Some?
  {
    e.running && (!enabled || !e.store.value.changed)
  }

  /** From any point where the bridge's name is known, only an acknowledgement makes `loaded` right or wrong. */
  lemma {:induction false} LoadedIsRight(ys: seq<System>, ms: seq<Move>, k: nat, n: nat)
    requires Run(ys, ms) && k <= n < |ys|
    requires InStep(ys[k]) && ys[k].control.name.Some?
    ensures InStep(ys[n]) && ys[n].control.name.Some?
    ensures ys[n].control.loaded == ys[n].host.loaded
       <==> ys[n].acknowledged || ys[k].control.loaded == ys[k].host.loaded
    ensures !ys[n].acknowledged ==>
              ys[n].control.loaded == ys[k].control.loaded && ys[n].host.loaded == ys[k].host.loaded
    decreases n
  {
    if k < n {
      LoadedIsRight(ys, ms, k, n - 1);
      NextKeepsInStep(ys[n - 1], ms[n - 1]);
      LoadedStays(ys[n - 1], ms[n - 1]);
    }
  }

  lemma LoadedStays(y: System, m: Move)
    requires InStep(y) && Calm(y, m) && y.control.name.Some?
    ensures var z := Next(y, m);
            && z.control.name.Some? && (y.acknowledged ==> z.acknowledged)
            && (!z.acknowledged ==> z.control.loaded == y.control.loaded && z.host.loaded == y.host.loaded)
  {
  }

  /** Nothing is asked of the host while the bridge's name is unknown. */
  lemma {:induction false} NamelessAsksNothing(ys: seq<System>, ms: seq<Move>, k: nat)
    requires Run(ys, ms) && k < |ys| && ys[k].control.name.None?
    requires ys[0].sent == [] && ys[0].host.inbox.None? && !ys[0].acknowledged
    requires Consistent(ys[0].control) && ys[0].control.pending == Idle
    ensures ys[k].sent == [] && ys[k].host == ys[0].host && !ys[k].acknowledged
    decreases k
  {
    if k > 0 {
      RunStaysInStep(ys, ms, k - 1);
      NameStays(ys[k - 1], ms[k - 1]);
      NamelessAsksNothing(ys, ms, k - 1);
    }
  }

  lemma NameStays(y: System, m: Move)
    requires InStep(y) && Calm(y, m)
    ensures y.control.name.Some? ==> Next(y, m).control.name.Some?
    ensures y.control.name.None? && Next(y, m).control.name.Some? ==>
              var z := Next(y, m);
              m.env.store.Some? && z.control.loaded == Guess(z.control.enabled, m.env) && z.host.loaded == y.host.loaded
  {
  }

  /**
   Over any calm run, from the step on at which the name becomes known: `loaded` is the host's state exactly when a
   command was acknowledged or the guess was right.
   */
  lemma GuessDecides(ys: seq<System>, ms: seq<Move>, k: nat, n: nat)
    requires Run(ys, ms) && k < n < |ys|
    requires ys[0].sent == [] && ys[0].host.inbox.None? && !ys[0].acknowledged
    requires Consistent(ys[0].control) && ys[0].control.pending == Idle
    requires ys[k].control.name.None? && ys[k + 1].control.name.Some?
    ensures ms[k].env.store.Some?
    ensures ys[n].control.loaded == ys[n].host.loaded
       <==> ys[n].acknowledged || Guess(ys[k + 1].control.enabled, ms[k].env) == ys[0].host.loaded
  {
    RunStaysInStep(ys, ms, k);
    NamelessAsksNothing(ys, ms, k);
    NameStays(ys[k], ms[k]);
    NextKeepsInStep(ys[k], ms[k]);
    LoadedIsRight(ys, ms, k + 1, n);
  }

  /**
   What the file store can report (`pumpkin_map_bridge_set_enabled`) of a file that was active or not: it is changed
   when that was not what is wanted, and a bridge that is disabled is not under its active name.
   */
  predicate Reports(active: bool, enabled: bool, e: Env) {
    e.store.Some? && e.store.value.name.Some? ==>
      e.store.value.changed == (active != enabled) && (!enabled ==> !e.canonical)
  }

  /** A process loads the bridge when it starts, if the file is active then. */
  predicate LoadedAtStart(h: Host, active: bool, e: Env) {
    h.loaded == (e.running && active)
  }

  /**
   The guess, of a process since whose start the file has not changed: it is wrong exactly for a running server whose
   bridge is to be disabled and was so already.
   */
  lemma GuessIsWrongExactlyWhen(active: bool, enabled: bool, e: Env, h: Host)
    requires e.store.Some? && e.store.value.name.Some? && Reports(active, enabled, e) && LoadedAtStart(h, active, e)
    ensures Guess(enabled, e) != h.loaded <==> e.running && !enabled && !e.store.value.changed
  {
  }

  /** What a call is told when the name becomes known. */
  lemma NameFromStore(y: System, m: Move)
    requires InStep(y) && Calm(y, m) && y.control.name.None? && Next(y, m).control.name.Some?
    ensures m.env.store.Some? && m.env.store.value.name.Some?
  {
  }

  /**
   Over any calm run, when the file has not changed between the start of the process and the step at which the name
   becomes known: `loaded` is the host's state exactly when a command was acknowledged or it was not the case, at that
   step, that a running server was to have the bridge disabled and nothing had to be changed for that.
   */
  lemma FileDecides(ys: seq<System>, ms: seq<Move>, k: nat, n: nat, active: bool)
    requires Run(ys, ms) && k < n < |ys|
    requires ys[0].sent == [] && ys[0].host.inbox.None? && !ys[0].acknowledged
    requires Consistent(ys[0].control) && ys[0].control.pending == Idle
    requires ys[k].control.name.None? && ys[k + 1].control.name.Some?
    requires Reports(active, ys[k + 1].control.enabled, ms[k].env) && LoadedAtStart(ys[0].host, active, ms[k].env)
    ensures ms[k].env.store.Some?
    ensures ys[n].control.loaded == ys[n].host.loaded <==>
              ys[n].acknowledged
              || !(ms[k].env.running && !ys[k + 1].control.enabled && !ms[k].env.store.value.changed)
  {
    RunStaysInStep(ys, ms, k);
    NameFromStore(ys[k], ms[k]);
    GuessDecides(ys, ms, k, n);
    GuessIsWrongExactlyWhen(active, ys[k + 1].control.enabled, ms[k].env, ys[0].host);
  }

  /** The guess can be wrong: a bridge that was disabled all along is taken to be loaded, and unloaded. */
  lemma FirstGuessCanBeWrong()
    ensures var e := Env(7, true, false, false, Some(Stored(Some("map-bridge"), false)), false, true);
            var y := System(Fresh(7), Host(false, None), [], false);
            InStep(y) && Calm(y, UserToggles(false, e)) && Reports(false, false, e) && LoadedAtStart(y.host, false, e)
            && var z := Next(y, UserToggles(false, e));
               z.control.loaded && !z.host.loaded && z.sent == [false]
  {
  }

  // ----- after the last toggle -----

  /** A server that keeps running, with the bridge file in place. */
  predicate Steady(e: Env, pid: int) {
    && e.pid == pid && e.running && !e.maintenance && !e.stopping && e.writable
    && e.store.Some? && e.store.value.name.Some?
  }

  /** The host's answers among the first `n` moves. */
  function Answers(ms: seq<Move>, n: nat): nat
    requires n <= |ms|
  {
    if n == 0 then 0 else Answers(ms, n - 1) + if ms[n - 1].HostAnswers? then 1 else 0
  }

  /** `answers` after the toggle: idle only in the wanted state, and after one answer no request is the wrong one. */
  predicate Settling(y: System, enabled: bool, pid: int, answers: nat) {
    var s := y.control;
    && InStep(y) && s.name.Some? && !s.failed && s.enabled == enabled && s.pid == pid
    && (s.pending == Idle ==> s.loaded == enabled)
    && (answers == 1 && s.pending != Idle ==> (s.pending == Loading) == enabled)
    && (answers >= 2 ==> s.pending == Idle)
    && answers <= 2
    && (answers > 0 ==> y.acknowledged)
  }

  lemma ToggleSettles(y: System, enabled: bool, e: Env)
    requires InStep(y) && Steady(e, y.control.pid)
    ensures Settling(Next(y, UserToggles(enabled, e)), enabled, y.control.pid, 0)
  {
    NextKeepsInStep(y, UserToggles(enabled, e));
  }

  lemma MoveSettles(y: System, m: Move, enabled: bool, pid: int, answers: nat)
    requires Settling(y, enabled, pid, answers) && Calm(y, m) && Steady(m.env, pid) && !m.UserToggles?
    ensures Settling(Next(y, m), enabled, pid, answers + if m.HostAnswers? then 1 else 0)
  {
    NextKeepsInStep(y, m);
    if m.HostAnswers? {
      AnswerAcknowledges(y);
    }
  }

  lemma {:induction false} RunSettles(ys: seq<System>, ms: seq<Move>, n: nat)
    requires Run(ys, ms) && 0 < n < |ys| && InStep(ys[0]) && ms[0].UserToggles?
    requires forall i :: 0 < i < |ms| ==> !ms[i].UserToggles?
    requires forall i :: 0 <= i < |ms| ==> Steady(ms[i].env, ys[0].control.pid)
    ensures Settling(ys[n], ms[0].enabled, ys[0].control.pid, Answers(ms, n))
    decreases n
  {
    if n == 1 {
      ToggleSettles(ys[0], ms[0].enabled, ms[0].env);
      assert Answers(ms, 1) == 0;
    } else {
      RunSettles(ys, ms, n - 1);
      MoveSettles(ys[n - 1], ms[n - 1], ms[0].enabled, ys[0].control.pid, Answers(ms, n - 1));
    }
  }

  /**
   Over any calm run of a steady server after the last toggle, with whatever else is logged or changes meanwhile: the
   host answers at most twice, and when it has, or when nothing is pending, the controller is in the wanted state.
   Once the host has answered and nothing is pending, so is the host.
   */
  lemma TwoAnswersSuffice(ys: seq<System>, ms: seq<Move>, n: nat)
    requires Run(ys, ms) && 0 < n < |ys| && InStep(ys[0]) && ms[0].UserToggles?
    requires forall i :: 0 < i < |ms| ==> !ms[i].UserToggles?
    requires forall i :: 0 <= i < |ms| ==> Steady(ms[i].env, ys[0].control.pid)
    ensures Answers(ms, n) <= 2 && ys[n].control.enabled == ms[0].enabled && !ys[n].control.failed
    ensures Answers(ms, n) == 2 ==> ys[n].control.pending == Idle
    ensures ys[n].control.pending == Idle ==> ys[n].control.loaded == ms[0].enabled
    ensures ys[n].control.pending == Idle && Answers(ms, n) > 0 ==> ys[n].host.loaded == ms[0].enabled
    ensures ys[n].control.pending != Idle ==> ys[n].host.inbox.Some?
  {
    RunSettles(ys, ms, n);
  }

  // ----- from one process to the next -----

  /**
   A new process, when the bridge's name is known: it is taken to have loaded what was wanted. That is right exactly
   when the file was in the wanted state at its start, or when there is no process.
   */
  lemma NewProcess(s: State, e: Env, h: Host, active: bool)
    requires e.pid != s.pid && s.name.Some? && LoadedAtStart(h, active, e)
    ensures var (t, sent) := Sync(s, e);
            && (t.loaded == h.loaded <==> !e.running || active == s.enabled)
            && sent == None && t.pending == Idle && t.pid == e.pid && t.enabled == s.enabled
            && (t.failed <==> !e.maintenance && !e.stopping && e.store == None)
  {
  }

  /** A bridge is loaded from its file and unloaded by its name, and only from a host that is free to act. */
  lemma CommandsAre(s: State, e: Env)
    ensures var (t, sent) := Sync(s, e);
            sent.Some? ==>
              && e.running && !e.maintenance && !e.stopping && e.writable && e.store.Some? && e.store.value.name.Some?
              && sent.value.load == s.enabled && t.timer && t.target == Some(sent.value.target)
              && sent.value.target == (if !s.enabled then e.store.value.name.value
                                       else if e.canonical then "plugins/map-bridge.wasm"
                                       else "plugins/smashed-map-bridge.wasm")
  {
    if e.canonical {
      assert "plugins/" + Filename(e) == "plugins/map-bridge.wasm";
    } else {
      assert "plugins/" + Filename(e) == "plugins/smashed-map-bridge.wasm";
    }
  }

  /** A turn in the life of a server: a move in one process, or a call that finds another process. */
  datatype Turn = Same(move: Move) | Other(toggle: Option<bool>, env: Env, active: bool)

  predicate Possible(y: System, t: Turn) {
    Consistent(y.control) && if t.Same? then Calm(y, t.move) else t.env.pid != y.control.pid && t.env.writable
  }

  /** The new process has its own host, which has been sent nothing. */
  function TakeTurn(y: System, t: Turn): System
    requires Possible(y, t)
  {
    match t
    case Same(m) => Next(y, m)
    case Other(toggle, env, active) =>
      var host := Host(env.running && active, None);
      var r := if toggle.Some? then Toggle(y.control, toggle.value, env) else Sync(y.control, env);
      After(System(y.control, host, [], false), r, host, false)
  }

  ghost predicate Life(ys: seq<System>, ts: seq<Turn>) {
    && |ys| == |ts| + 1
    && forall i :: 0 <= i < |ts| ==> Possible(ys[i], ts[i]) && ys[i + 1] == TakeTurn(ys[i], ts[i])
  }

  lemma OtherIsInStep(y: System, t: Turn)
    requires Possible(y, t) && t.Other? && y.control.name.Some?
    ensures var z := TakeTurn(y, t);
            && InStep(z) && z.control.name.Some? && z.sent == [] && !z.acknowledged
            && (z.control.loaded == z.host.loaded <==> !t.env.running || t.active == z.control.enabled)
  {
    var s := if t.toggle.Some? then y.control.(enabled := t.toggle.value, failed := false) else y.control;
    NewProcess(s, t.env, Host(t.env.running && t.active, None), t.active);
  }

  /**
   Over the whole life of a server, whatever its processes: `loaded` is the state of the present host exactly when that
   has acknowledged a command, or its process was started with the bridge file in the wanted state, or there is none.
   */
  lemma {:induction false} EveryProcessIsKnown(ys: seq<System>, ts: seq<Turn>, j: nat, n: nat)
    requires Life(ys, ts) && j < n < |ys| && ts[j].Other? && ys[j].control.name.Some?
    requires forall k :: j < k < n ==> ts[k].Same?
    ensures InStep(ys[n]) && ys[n].control.name.Some? && Alternates(ys[n].sent)
    ensures var start := ts[j];
            ys[n].control.loaded == ys[n].host.loaded
            <==> ys[n].acknowledged || !start.env.running || start.active == ys[j + 1].control.enabled
    ensures !ys[n].acknowledged ==>
              ys[n].control.loaded == ys[j + 1].control.loaded && ys[n].host.loaded == ys[j + 1].host.loaded
    decreases n
  {
    if n == j + 1 {
      OtherIsInStep(ys[j], ts[j]);
    } else {
      EveryProcessIsKnown(ys, ts, j, n - 1);
      NextKeepsInStep(ys[n - 1], ts[n - 1].move);
      LoadedStays(ys[n - 1], ts[n - 1].move);
    }
  }

  // ----- giving up -----

  /** After a refusal or a timeout nothing is written until the user toggles or the process changes. */
  lemma {:induction false} GivesUp(states: seq<State>, events: seq<Event>, k: nat, n: nat)
    requires History(states, events) && k < n < |events|
    requires forall i :: 0 <= i < |events| && events[i].Expired? ==> states[i].timer
    requires events[k].Expired? || (events[k].LogLine? && states[k].pending != Idle && states[k].target.Some?
               && Classify(events[k].line, states[k].pending == Loading, states[k].target.value) == Refused)
    requires forall i :: k < i <= n ==> !events[i].Toggled? && !events[i].Expired? && events[i].env.pid == states[k].pid
    ensures Consistent(states[n]) && states[n].failed && states[n].pending == Idle && states[n].pid == states[k].pid
    ensures Step(states[n], events[n]).1 == None
    decreases n
  {
    EveryStateIsConsistent(states, events, k);
    EveryStateIsConsistent(states, events, n);
    if k + 1 < n {
      GivesUp(states, events, k, n - 1);
    }
  }

  /** The texts that are looked for, with any bridge's name between. */
  lemma TextsAre(target: string)
    ensures SuccessLine(true, target) == "Plugin " + target + " loaded successfully"
    ensures SuccessLine(false, target) == "Plugin " + target + " unloaded successfully"
    ensures AlreadyLine(true, target) == "Plugin " + target + " is already loaded"
    ensures AlreadyLine(false, target) == "Plugin " + target + " is not loaded"
    ensures FailureLine(true, target) == "Failed to load plugin " + target + ":"
    ensures FailureLine(false, target) == "Failed to unload plugin " + target + ":"
  {
    assert " loaded" + " successfully" == " loaded successfully";
    assert " unloaded" + " successfully" == " unloaded successfully";
    assert "already " + "loaded" == "already loaded" && "not " + "loaded" == "not loaded";
  }

  // ----- the C object -----

  class Controller {
    var enabled: bool
    var loaded: bool
    var failed: bool
    var pid: int
    var name: Option<string>
    var target: Option<string>
    var pending: Operation
    var timer: bool

    ghost function Now(): State
      reads this
    {
      State(enabled, loaded, failed, pid, name, target, pending, timer)
    }

    constructor (pid: int)
      ensures Now() == Fresh(pid)
    {
      enabled, loaded, failed := false, false, false;
      this.pid := pid;
      name, target, pending, timer := None, None, Idle, false;
    }

    method ClearTimeout()
      modifies `timer
      ensures !timer
    {
      timer := false;
    }

    method SyncBridge(e: Env) returns (sent: Option<Command>)
      modifies this
      ensures (Now(), sent) == Sync(old(Now()), e)
    {
      sent := None;
      if e.pid != pid {
        ClearTimeout();
        pending := Idle;
        target := None;
        failed := false;
        pid := e.pid;
        loaded := enabled && e.running;
      }
      if e.maintenance || e.stopping || failed {
        return;
      }
      if e.store.None? {
        failed := true;
        return;
      }
      var found := e.store.value.name;
      if found.None? || pending != Idle {
        return;
      }
      if name.None? {
        name := found;
        loaded := e.running && (!enabled || !e.store.value.changed);
      }
      if name != found {
        name := found;
      }
      if !e.running || loaded == enabled {
        return;
      }
      var command := Request(enabled, name.value, e);
      target := Some(command.target);
      pending := if enabled then Loading else Unloading;
      timer := true;
      if !e.writable {
        ClearTimeout();
        pending := Idle;
        target := None;
        failed := true;
        return;
      }
      sent := Some(command);
    }

    method OnLogLine(line: string, e: Env) returns (sent: Option<Command>)
      requires Consistent(Now())
      modifies this
      ensures (Now(), sent) == Feedback(old(Now()), line, e)
    {
      sent := None;
      if pending == Idle {
        return;
      }
      var loading := pending == Loading;
      var t := target.value;
      if Contains(line, SuccessLine(loading, t)) || Contains(line, AlreadyLine(loading, t)) {
        ClearTimeout();
        loaded := loading;
        pending := Idle;
        target := None;
        sent := SyncBridge(e);
      } else if Contains(line, FailureLine(loading, t)) {
        ClearTimeout();
        pending := Idle;
        target := None;
        failed := true;
      }
    }

    method OnTimeout()
      requires timer
      modifies this
      ensures Now() == TimedOut(old(Now()))
    {
      timer := false;
      pending := Idle;
      target := None;
      failed := true;
    }

    method SetEnabled(enable: bool, e: Env) returns (sent: Option<Command>)
      modifies this
      ensures (Now(), sent) == Toggle(old(Now()), enable, e)
    {
      enabled := enable;
      failed := false;
      sent := SyncBridge(e);
    }
  }
}
