/** The lifecycle of the one server a supervisor owns: schedule, run, restart and stop
    race each other, and each locked section is one atomic step. */
module Supervisor {
  import opened Common

  /** A registered server: the restart generation it was built for, and its flags. */
  datatype Server = Server(id: nat, captured: nat, shouldExit: bool, started: bool)

  datatype Super = Super(
    scheduled: bool,
    running: bool,
    stopRequested: bool,
    generation: nat,
    server: Option<Server>,
    lastError: Option<string>)

  datatype Status = STARTING | RUNNING | STOPPING | STOPPED

  /** Why the loop in `run` is being left. */
  datatype Reason = StopSeen | NoRestart | Unclosed | Failed | Interrupted

  /** Where the thread inside `run` stands. */
  datatype Phase =
    | Absent
    | Checking
    | Capturing
    | Building(captured: nat)
    | Serving(captured: nat, id: nat)
    | Returned(captured: nat, id: nat)
    | Leaving(reason: Reason)

  /** The supervisor, its running thread, and what has happened so far: servers built in all
      and in this run, the generation the run began with, the one last built for, and the
      restarts accepted since the loop was left. */
  datatype World = World(sup: Super, phase: Phase, built: nat, inRun: nat, base: nat, served: int, late: nat)

  datatype Action =
    | Schedule
    | Begin
    | Check
    | Capture
    | Register
    | Fail(error: string)
    | Interrupt       // an exception that is no ordinary one: keyboard interrupt, interpreter exit
    | Ready
    | SelfExit
    | ServerReturns
    | Reread(closed: bool)
    | Leave
    | Restart
    | Stop

  const Idle := Super(false, false, false, 0, None, None)
  const Initial := World(Idle, Absent, 0, 0, 0, -1, 0)

  function Flagged(s: Option<Server>): Option<Server> {
    if s.Some? then Some(s.value.(shouldExit := true)) else None
  }

  // ---------------------------------------------------------------- locked sections

  predicate CanSchedule(s: Super) {
    !s.stopRequested && !s.scheduled && !s.running
  }

  predicate CanRestart(s: Super) {
    !s.stopRequested && (s.scheduled || s.running)
  }

  function AfterRestart(s: Super): Super {
    if !CanRestart(s) then s
    else if s.scheduled then s.(generation := s.generation + 1)
    else s.(generation := s.generation + 1, server := Flagged(s.server))
  }

  function AfterStop(s: Super): Super {
    s.(stopRequested := true, scheduled := false, server := Flagged(s.server))
  }

  function AfterRegister(s: Super, id: nat, captured: nat): Super {
    s.(server := Some(Server(id, captured, s.stopRequested || s.generation != captured, false)))
  }

  function StatusOf(s: Super): Status {
    if s.scheduled then STARTING
    else if !s.running then STOPPED
    else if s.server.None? then STARTING
    else if s.server.value.shouldExit then STOPPING
    else if s.server.value.started then RUNNING
    else STARTING
  }

  /** What the post-run re-read decides. */
  function Decision(s: Super, captured: nat, closed: bool): Phase {
    if s.stopRequested then Leaving(StopSeen)
    else if s.generation == captured then Leaving(NoRestart)
    else if !closed then Leaving(Unclosed)
    else Checking
  }

  predicate Enabled(w: World, a: Action) {
    match a
    case Check => w.phase.Checking?
    case Capture => w.phase.Capturing?
    case Register => w.phase.Building?
    case Fail(_) => w.phase.Building? || w.phase.Serving?
    case Interrupt => !w.phase.Absent? && !w.phase.Leaving?
    case Ready => w.phase.Serving?
    case SelfExit => w.phase.Serving?
    case ServerReturns => w.phase.Serving?
    case Reread(_) => w.phase.Returned?
    case Leave => w.phase.Leaving?
    case _ => true
  }

  function Step(w: World, a: Action): World
    requires Enabled(w, a)
  {
    var s := w.sup;
    match a
    case Schedule => if CanSchedule(s) then w.(sup := s.(scheduled := true)) else w
    case Begin =>
      if s.running || s.stopRequested then w.(sup := s.(scheduled := false))
      else w.(sup := s.(scheduled := false, running := true), phase := Checking,
              inRun := 0, base := s.generation, served := -1, late := 0)
    case Check => w.(phase := if s.stopRequested then Leaving(StopSeen) else Capturing, late := 0)
    case Capture => w.(phase := Building(s.generation))
    case Register =>
      w.(sup := AfterRegister(s, w.built, w.phase.captured), phase := Serving(w.phase.captured, w.built),
         built := w.built + 1, inRun := w.inRun + 1, served := w.phase.captured)
    case Fail(error) => w.(sup := s.(lastError := Some(error)), phase := Leaving(Failed), late := 0)
    case Interrupt => w.(phase := Leaving(Interrupted), late := 0)
    case Ready =>
      if s.server.Some? then w.(sup := s.(server := Some(s.server.value.(started := true)))) else w
    case SelfExit => w.(sup := s.(server := Flagged(s.server)))
    case ServerReturns => w.(phase := Returned(w.phase.captured, w.phase.id))
    case Reread(closed) =>
      w.(sup := if s.server.Some? && s.server.value.id == w.phase.id then s.(server := None) else s,
         phase := Decision(s, w.phase.captured, closed), late := 0)
    case Leave => w.(sup := s.(server := None, running := false), phase := Absent)
    case Restart =>
      w.(sup := AfterRestart(s), late := if CanRestart(s) && w.phase.Leaving? then w.late + 1 else w.late)
    case Stop => w.(sup := AfterStop(s))
  }

  /** `acts` can happen one after the other from `w`. */
  predicate Possible(w: World, acts: seq<Action>)
    decreases |acts|, 0
  {
    acts == [] ||
    (Possible(w, acts[..|acts| - 1]) && Enabled(Exec(w, acts[..|acts| - 1]), acts[|acts| - 1]))
  }

  function Exec(w: World, acts: seq<Action>): World
    requires Possible(w, acts)
    decreases |acts|, 1
  {
    if acts == [] then w else Step(Exec(w, acts[..|acts| - 1]), acts[|acts| - 1])
  }

  lemma Snoc(w: World, acts: seq<Action>, a: Action)
    requires Possible(w, acts) && Enabled(Exec(w, acts), a)
    ensures Possible(w, acts + [a]) && Exec(w, acts + [a]) == Step(Exec(w, acts), a)
  {
    assert (acts + [a])[..|acts|] == acts;
  }

  /** Some interleaving leads from `w0` to `w`. */
  ghost predicate Reached(w0: World, w: World) {
    exists acts :: Possible(w0, acts) && Exec(w0, acts) == w
  }

  lemma ReachedAtOnce(w: World)
    ensures Reached(w, w)
  {
    assert Possible(w, []) && Exec(w, []) == w;
  }

  lemma ReachedNext(w0: World, w: World, a: Action)
    requires Reached(w0, w) && Enabled(w, a)
    ensures Reached(w0, Step(w, a))
  {
    var acts :| Possible(w0, acts) && Exec(w0, acts) == w;
    Snoc(w0, acts, a);
  }

  // ---------------------------------------------------------------- what every step keeps

  predicate HasServer(p: Phase) {
    p.Serving? || p.Returned?
  }

  ghost predicate Inv(w: World) {
    var s, p := w.sup, w.phase;
    && !(s.scheduled && s.running)
    && (s.running <==> !p.Absent?)
    && (s.server.Some? ==> HasServer(p) || p.Leaving?)
    && (HasServer(p) ==> s.server.Some? && s.server.value.id == p.id && s.server.value.captured == p.captured)
    && (s.server.Some? && (s.stopRequested || s.generation != s.server.value.captured) ==> s.server.value.shouldExit)
    && w.base <= s.generation && w.served <= s.generation && Budget(w)
    && (HasServer(p) ==> w.served == p.captured)
    && (p == Leaving(NoRestart) ==> w.served + w.late == s.generation)
  }

  /** Servers built in this run, against the restarts accepted since it began. */
  predicate Budget(w: World) {
    match w.phase
    case Building(c) => w.base <= c <= w.sup.generation && w.inRun <= c - w.base
    case Serving(c, _) => w.base <= c <= w.sup.generation && w.inRun <= 1 + (c - w.base)
    case Returned(c, _) => w.base <= c <= w.sup.generation && w.inRun <= 1 + (c - w.base)
    case Leaving(_) => w.inRun <= 1 + (w.sup.generation - w.base)
    case Absent => w.inRun <= 1 + (w.sup.generation - w.base)
    case _ => w.inRun <= w.sup.generation - w.base
  }

  lemma StepKeepsInv(w: World, a: Action)
    requires Inv(w) && Enabled(w, a)
    ensures Inv(Step(w, a))
  {
  }

  lemma {:induction false} ExecKeepsInv(w: World, acts: seq<Action>)
    requires Inv(w) && Possible(w, acts)
    ensures Inv(Exec(w, acts))
  {
    if acts != [] {
      ExecKeepsInv(w, acts[..|acts| - 1]);
      StepKeepsInv(Exec(w, acts[..|acts| - 1]), acts[|acts| - 1]);
    }
  }

  /** In every interleaving: scheduled and running exclude each other, a server is registered
      only while running, a stale or stopped server is told to exit, and a run builds at most
      one server more than the restarts accepted since it began. */
  lemma Safety(acts: seq<Action>)
    requires Possible(Initial, acts)
    ensures var w := Exec(Initial, acts); var s := w.sup;
      && !(s.scheduled && s.running)
      && (s.server.Some? ==> s.running)
      && (s.server.Some? && (s.stopRequested || s.generation != s.server.value.captured) ==> s.server.value.shouldExit)
      && w.inRun <= 1 + (s.generation - w.base)
  {
    ExecKeepsInv(Initial, acts);
  }

  lemma ReachedKeepsInv(w0: World, w: World)
    requires Inv(w0) && Reached(w0, w)
    ensures Inv(w)
  {
    var acts :| Possible(w0, acts) && Exec(w0, acts) == w;
    ExecKeepsInv(w0, acts);
  }

  // ---------------------------------------------------------------- what is reported

  /** The reported status, by where the run stands. Nothing scheduled and no run is stopped; a
      registered server is stopping once it was told to exit, running once it is up, and starting
      before; and so is everything else. */
  lemma StatusExactly(acts: seq<Action>)
    requires Possible(Initial, acts)
    ensures var w := Exec(Initial, acts); var s, up := w.sup, w.sup.server;
      && (StatusOf(s) == STOPPED <==> w.phase.Absent? && !s.scheduled)
      && (StatusOf(s) == STOPPING <==> up.Some? && up.value.shouldExit)
      && (StatusOf(s) == RUNNING <==> up.Some? && up.value.started && !up.value.shouldExit)
      && (StatusOf(s) == STARTING <==>
            s.scheduled || (!w.phase.Absent? && (up.None? || (!up.value.started && !up.value.shouldExit))))
  {
    ExecKeepsInv(Initial, acts);
  }

  /** A run is left for the reason that is given. */
  ghost predicate ReasonTrue(w: World) {
    match w.phase
    case Leaving(StopSeen) => w.sup.stopRequested
    case Leaving(NoRestart) => w.served + w.late == w.sup.generation
    case Leaving(Unclosed) => w.served < w.sup.generation
    case Leaving(Failed) => w.sup.lastError.Some?
    case _ => true
  }

  lemma {:induction false} ReasonsAreTrue(acts: seq<Action>)
    requires Possible(Initial, acts)
    ensures ReasonTrue(Exec(Initial, acts))
  {
    if acts != [] {
      var front := acts[..|acts| - 1];
      ReasonsAreTrue(front);
      ExecKeepsInv(Initial, front);
    }
  }

  /** After a server returned, another is built exactly if a restart was accepted since it was
      captured, no stop was requested, and its runtime was closed. */
  lemma AnotherServerExactly(acts: seq<Action>, closed: bool)
    requires Possible(Initial, acts) && Exec(Initial, acts).phase.Returned?
    ensures var w := Exec(Initial, acts); var w' := Step(w, Reread(closed));
      && (w'.phase.Checking? <==> w.served < w.sup.generation && !w.sup.stopRequested && closed)
      && (!w'.phase.Checking? ==> w'.phase.Leaving?)
      && w'.sup.server.None? && w'.sup.generation == w.sup.generation && w'.sup.stopRequested == w.sup.stopRequested
  {
    ExecKeepsInv(Initial, acts);
  }

  // ---------------------------------------------------------------- restarts

  /** The run has answered for generation `g`: it built a server for it, or it is being left
      for a reason that excuses it. */
  ghost predicate Answers(w: World, g: nat) {
    && g <= w.sup.generation
    && (w.served >= g || !w.phase.Leaving? || w.phase.reason != NoRestart)
  }

  /** The run that was under way in `w` still is, at every step of `acts`. */
  predicate SameRun(w: World, acts: seq<Action>)
    requires Possible(w, acts)
    decreases |acts|
  {
    Exec(w, acts).sup.running && (acts == [] || SameRun(w, acts[..|acts| - 1]))
  }

  lemma {:induction false} AnswersKept(w: World, g: nat, acts: seq<Action>)
    requires Inv(w) && Possible(w, acts) && SameRun(w, acts) && Answers(w, g)
    ensures Answers(Exec(w, acts), g)
  {
    if acts != [] {
      var before := acts[..|acts| - 1];
      AnswersKept(w, g, before);
      ExecKeepsInv(w, before);
    }
  }

  /** A restart accepted before the loop is left is served by a server built for its
      generation, unless the run ends by stop, failure, interruption or an unclosed runtime. */
  lemma RestartIsServed(w: World, acts: seq<Action>)
    requires Inv(w) && w.sup.running && CanRestart(w.sup) && !w.phase.Leaving?
    requires Possible(Step(w, Restart), acts) && SameRun(Step(w, Restart), acts)
    ensures var w' := Exec(Step(w, Restart), acts);
      w'.phase == Leaving(NoRestart) ==> w'.served >= w.sup.generation + 1
  {
    StepKeepsInv(w, Restart);
    AnswersKept(Step(w, Restart), w.sup.generation + 1, acts);
  }

  /** A restart accepted while a run is only scheduled is served by that run. */
  lemma ScheduledRestartIsServed(w: World, acts: seq<Action>)
    requires Inv(w) && w.sup.scheduled && CanRestart(w.sup)
    requires var begun := Step(Step(w, Restart), Begin); Possible(begun, acts) && SameRun(begun, acts)
    ensures var w' := Exec(Step(Step(w, Restart), Begin), acts);
      w'.phase == Leaving(NoRestart) ==> w'.served >= w.sup.generation + 1
  {
    StepKeepsInv(w, Restart);
    StepKeepsInv(Step(w, Restart), Begin);
    AnswersKept(Step(Step(w, Restart), Begin), w.sup.generation + 1, acts);
  }

  /** Once the loop is left, the run builds nothing more. */
  lemma {:induction false} LeavingBuildsNothing(w: World, acts: seq<Action>)
    requires Inv(w) && w.phase.Leaving? && Possible(w, acts) && SameRun(w, acts)
    ensures Exec(w, acts).phase == w.phase && Exec(w, acts).built == w.built
  {
    if acts != [] {
      LeavingBuildsNothing(w, acts[..|acts| - 1]);
    }
  }

  /** When a run ends quietly, it has served every accepted restart if and only if none was
      accepted after its last re-read. */
  lemma QuietEndServesAll(acts: seq<Action>)
    requires Possible(Initial, acts) && Exec(Initial, acts).phase == Leaving(NoRestart)
    ensures var w := Exec(Initial, acts); w.served == w.sup.generation <==> w.late == 0
  {
    ExecKeepsInv(Initial, acts);
  }

  /** The window: a restart that is accepted between the re-read and the end of the run
      returns true, yet the run ends with the one server it had. */
  lemma AcceptedRestartWithoutEffect() returns (acts: seq<Action>, w: World)
    ensures Possible(Initial, acts) && w == Exec(Initial, acts)
    ensures CanRestart(w.sup) && w.phase == Leaving(NoRestart)
    ensures var ended := Step(Step(w, Restart), Leave);
      && StatusOf(ended.sup) == STOPPED && !ended.sup.stopRequested && ended.sup.lastError.None?
      && ended.built == 1 && ended.served < ended.sup.generation
  {
    var script := [Begin, Check, Capture, Register, ServerReturns, Reread(true)];
    acts, w := [], Initial;
    while |acts| < |script|
      invariant |acts| <= |script| && acts == script[..|acts|]
      invariant Possible(Initial, acts) && w == Exec(Initial, acts)
      invariant w == Story(|acts|)
    {
      var a := script[|acts|];
      Snoc(Initial, acts, a);
      assert acts + [a] == script[..|acts| + 1];
      acts, w := acts + [a], Step(w, a);
    }
  }

  /** The states the window is reached through. */
  function Story(k: nat): World {
    var up := Idle.(running := true);
    var registered := up.(server := Some(Server(0, 0, false, false)));
    match k
    case 0 => Initial
    case 1 => World(up, Checking, 0, 0, 0, -1, 0)
    case 2 => World(up, Capturing, 0, 0, 0, -1, 0)
    case 3 => World(up, Building(0), 0, 0, 0, -1, 0)
    case 4 => World(registered, Serving(0, 0), 1, 1, 0, 0, 0)
    case 5 => World(registered, Returned(0, 0), 1, 1, 0, 0, 0)
    case _ => World(up, Leaving(NoRestart), 1, 1, 0, 0, 0)
  }

  // ---------------------------------------------------------------- stop

  /** Servers that can still be built once stop was requested. */
  function AfterStopBudget(w: World): nat {
    if w.phase.Capturing? || w.phase.Building? then 1 else 0
  }

  /** A stop is final: at most the server already being built is registered, told to exit at
      once, and the supervisor never reports a running server again. */
  lemma {:induction false} StopIsFinal(w: World, acts: seq<Action>)
    requires Inv(w) && w.sup.stopRequested && Possible(w, acts)
    ensures var w' := Exec(w, acts);
      && w'.sup.stopRequested
      && w'.built + AfterStopBudget(w') <= w.built + AfterStopBudget(w)
      && StatusOf(w'.sup) != RUNNING
      && (w.phase.Absent? ==> w'.phase.Absent? && (acts != [] ==> w'.built == w.built))
  {
    ExecKeepsInv(w, acts);
    if acts != [] {
      StopIsFinal(w, acts[..|acts| - 1]);
      ExecKeepsInv(w, acts[..|acts| - 1]);
    }
  }

  // ---------------------------------------------------------------- the supervisor itself

  /** What happens while the running thread is between two locked sections: other threads ask
      for something, `run` included, or the server that is being served moves its own flags. */
  datatype Request = AskSchedule | AskRestart | AskStop | AskRun | BecomesReady | ExitsItself

  function ActionOf(r: Request): Action {
    match r
    case AskSchedule => Schedule
    case AskRestart => Restart
    case AskStop => Stop
    case AskRun => Begin
    case BecomesReady => Ready
    case ExitsItself => SelfExit
  }

  predicate FromServer(r: Request) {
    r.BecomesReady? || r.ExitsItself?
  }

  datatype Entrance = Entered | RunsAlready | StoppedBefore
  datatype Build = Built | BuildFailed(error: string) | BuildInterrupted
  datatype Exit = Exited | Crashed(error: string) | ServeInterrupted

  /** One pass of the loop: the requests that arrive around each of its locked sections, and
      how its server fares. */
  datatype Turn = Turn(
    first: seq<Request>, second: seq<Request>, building: seq<Request>, build: Build,
    serving: seq<Request>, exit: Exit, returned: seq<Request>, closed: bool)

  const Quiet := Turn([], [], [], Built, [], Exited, [], true)

  class ServerSupervisor {
    var scheduled: bool
    var running: bool
    var stopRequested: bool
    var generation: nat
    var server: Option<Server>
    var lastError: Option<string>
    var nextServer: nat

    constructor ()
      ensures State() == Idle && nextServer == 0
    {
      scheduled, running, stopRequested, generation := false, false, false, 0;
      server, lastError, nextServer := None, None, 0;
    }

    function State(): Super
      reads this
    {
      Super(scheduled, running, stopRequested, generation, server, lastError)
    }

    method GetStatus() returns (s: Status)
      ensures s == StatusOf(State())
    {
      if scheduled { return STARTING; }
      if !running { return STOPPED; }
      if server.None? { return STARTING; }
      if server.value.shouldExit { return STOPPING; }
      if server.value.started { return RUNNING; }
      return STARTING;
    }

    method ScheduleRun() returns (accepted: bool)
      modifies this`scheduled
      ensures accepted == old(CanSchedule(State())) && scheduled == (accepted || old(scheduled))
    {
      if stopRequested || scheduled || running {
        return false;
      }
      scheduled := true;
      return true;
    }

    method RequestRestart() returns (accepted: bool)
      modifies this`generation, this`server
      ensures accepted == old(CanRestart(State())) && State() == AfterRestart(old(State()))
    {
      if stopRequested {
        return false;
      }
      if scheduled {
        generation := generation + 1;
        return true;
      }
      if !running {
        return false;
      }
      generation := generation + 1;
      if server.Some? {
        server := Some(server.value.(shouldExit := true));
      }
      return true;
    }

    method RequestStop()
      modifies this`stopRequested, this`scheduled, this`server
      ensures State() == AfterStop(old(State()))
    {
      stopRequested := true;
      scheduled := false;
      if server.Some? {
        server := Some(server.value.(shouldExit := true));
      }
    }

    method Handle(r: Request, ghost w: World)
      requires w.sup == State() && running && Enabled(w, ActionOf(r))
      modifies this
      ensures State() == Step(w, ActionOf(r)).sup && running && nextServer == old(nextServer)
    {
      match r {
        case AskSchedule => var _ := ScheduleRun();
        case AskRestart => var _ := RequestRestart();
        case AskStop => RequestStop();
        case AskRun => var _ := EnterRun(w);
        case BecomesReady =>
          if server.Some? {
            server := Some(server.value.(started := true));
          }
        case ExitsItself =>
          if server.Some? {
            server := Some(server.value.(shouldExit := true));
          }
      }
    }

    /** The entrance of `run`: refused with an error while a run is under way, and without one
        after a stop. */
    method EnterRun(ghost w: World) returns (entered: Entrance)
      requires w.sup == State()
      modifies this`scheduled, this`running
      ensures State() == Step(w, Begin).sup
      ensures entered == if old(running) then RunsAlready else if stopRequested then StoppedBefore else Entered
    {
      scheduled := false;
      if running {
        return RunsAlready;
      }
      if stopRequested {
        return StoppedBefore;
      }
      running := true;
      return Entered;
    }

    /** The other threads act while the running one holds no lock. Only a server that is being
        served can move its flags. */
    method Yield(requests: seq<Request>, serving: bool, ghost w0: World, ghost w: World) returns (ghost w': World)
      requires w.sup == State() && running && Reached(w0, w) && (serving ==> w.phase.Serving?)
      modifies this
      ensures w'.sup == State() && running && Reached(w0, w') && nextServer == old(nextServer)
      ensures w' == w.(sup := w'.sup, late := w'.late)
      ensures requests == [] ==> w' == w
    {
      w' := w;
      for i := 0 to |requests|
        invariant w'.sup == State() && running && Reached(w0, w') && nextServer == old(nextServer)
        invariant w' == w.(sup := w'.sup, late := w'.late)
        invariant requests == [] ==> w' == w
      {
        if FromServer(requests[i]) && !serving {
          continue;
        }
        Handle(requests[i], w');
        ReachedNext(w0, w', ActionOf(requests[i]));
        w' := Step(w', ActionOf(requests[i]));
      }
    }

    /** Builds a server and registers it, already told to exit if it is stale. */
    method Launch(t: Turn, captured: nat, ghost w0: World, ghost w: World) returns (launched: bool, ghost w': World)
      requires Reached(w0, w) && w.sup == State() && running && w.phase == Building(captured) && nextServer == w.built
      modifies this
      ensures Reached(w0, w') && w'.sup == State() && running && nextServer == w'.built
      ensures launched <==> t.build.Built?
      ensures launched ==> w'.phase == Serving(captured, w.built)
      ensures !launched ==> w'.phase == Leaving(if t.build.BuildInterrupted? then Interrupted else Failed)
      ensures w'.base == w.base && w'.built - w.built == w'.inRun - w.inRun
      ensures t == Quiet ==> w'.sup.generation == w.sup.generation
    {
      w' := Yield(t.building, false, w0, w);
      if t.build.BuildInterrupted? {
        ReachedNext(w0, w', Interrupt);
        w' := Step(w', Interrupt);
        return false, w';
      }
      if t.build.BuildFailed? {
        lastError := Some(t.build.error);
        ReachedNext(w0, w', Fail(t.build.error));
        w' := Step(w', Fail(t.build.error));
        return false, w';
      }
      server := Some(Server(nextServer, captured, false, false));
      if stopRequested || generation != captured {
        server := Some(server.value.(shouldExit := true));
      }
      nextServer := nextServer + 1;
      ReachedNext(w0, w', Register);
      w' := Step(w', Register);
      return true, w';
    }

    /** Lets the registered server run until it returns or raises. */
    method Serve(t: Turn, captured: nat, id: nat, ghost w0: World, ghost w: World)
      returns (returned: bool, ghost w': World)
      requires Reached(w0, w) && w.sup == State() && running && w.phase == Serving(captured, id)
      modifies this
      ensures Reached(w0, w') && w'.sup == State() && running && nextServer == old(nextServer)
      ensures returned <==> t.exit.Exited?
      ensures returned ==> w'.phase == Returned(captured, id)
      ensures !returned ==> w'.phase == Leaving(if t.exit.ServeInterrupted? then Interrupted else Failed)
      ensures w'.base == w.base && w'.built == w.built && w'.inRun == w.inRun
      ensures t == Quiet ==> w'.sup.generation == w.sup.generation
    {
      w' := Yield(t.serving, true, w0, w);
      if t.exit.ServeInterrupted? {
        ReachedNext(w0, w', Interrupt);
        w' := Step(w', Interrupt);
        return false, w';
      }
      if t.exit.Crashed? {
        lastError := Some(t.exit.error);
        ReachedNext(w0, w', Fail(t.exit.error));
        w' := Step(w', Fail(t.exit.error));
        return false, w';
      }
      ReachedNext(w0, w', ServerReturns);
      w' := Step(w', ServerReturns);
      return true, w';
    }

    /** One server from build to re-read. An exception of either leaves the loop. */
    method RunOnce(t: Turn, captured: nat, ghost w0: World, ghost w: World) returns (again: bool, ghost w': World)
      requires Reached(w0, w) && w.sup == State() && running && w.phase == Building(captured) && nextServer == w.built
      modifies this
      ensures Reached(w0, w') && w'.sup == State() && running && nextServer == w'.built
      ensures if again then w'.phase == Checking else w'.phase.Leaving?
      ensures w'.base == w.base && w'.built - w.built == w'.inRun - w.inRun
      ensures t == Quiet && w.sup.generation == captured ==> !again
    {
      var id := nextServer;
      again, w' := Launch(t, captured, w0, w);
      if again {
        again, w' := Serve(t, captured, id, w0, w');
      }
      if again {
        again, w' := ReadBack(t, captured, id, w0, w');
      }
    }

    /** The post-run re-read and its verdict. */
    method ReadBack(t: Turn, captured: nat, id: nat, ghost w0: World, ghost w: World)
      returns (again: bool, ghost w': World)
      requires Reached(w0, w) && w.sup == State() && running && w.phase == Returned(captured, id)
      modifies this
      ensures Reached(w0, w') && w'.sup == State() && running && nextServer == old(nextServer)
      ensures if again then w'.phase == Checking else w'.phase.Leaving?
      ensures w'.base == w.base && w'.built == w.built && w'.inRun == w.inRun
      ensures t == Quiet && w.sup.generation == captured ==> !again
    {
      w' := Yield(t.returned, false, w0, w);
      if server.Some? && server.value.id == id {
        server := None;
      }
      var restartRequested := generation != captured;
      var stop := stopRequested;
      ReachedNext(w0, w', Reread(t.closed));
      w' := Step(w', Reread(t.closed));
      return restartRequested && !stop && t.closed, w';
    }

    /** The whole loop. It is one interleaving of the steps above, it ends because only an
        accepted restart continues it, and it builds at most one server more than the restarts
        accepted meanwhile. */
    method Run(turns: seq<Turn>, ending: seq<Request>, ghost w0: World) returns (raised: bool, ghost w: World)
      requires Inv(w0) && w0.sup == State() && w0.built == nextServer
      modifies this
      ensures Reached(w0, w) && w.sup == State() && nextServer == w.built
      ensures raised <==> old(running)
      ensures raised ==> w == Step(w0, Begin)
      ensures !raised ==> !running && !scheduled && server.None?
      ensures !raised ==> nextServer - old(nextServer) <= 1 + (generation - old(generation))
      ensures old(stopRequested) ==> nextServer == old(nextServer)
    {
      ReachedAtOnce(w0);
      ReachedNext(w0, w0, Begin);
      w := Step(w0, Begin);
      var entered := EnterRun(w0);
      if !entered.Entered? {
        return entered.RunsAlready?, w;
      }
      var i, again := 0, true;
      while again
        invariant Reached(w0, w) && w.sup == State() && running && nextServer == w.built
        invariant w.base == old(generation) && w.built - w.inRun == old(nextServer)
        invariant if again then w.phase == Checking else w.phase.Leaving?
        invariant i <= |turns| + 1 && (again ==> i <= |turns|)
        decreases |turns| + 1 - i, again
      {
        var t := if i < |turns| then turns[i] else Quiet;
        w := Yield(t.first, false, w0, w);
        ReachedNext(w0, w, Check);
        w := Step(w, Check);
        if stopRequested {
          again := false;
        } else {
          w := Yield(t.second, false, w0, w);
          var captured := generation;
          ReachedNext(w0, w, Capture);
          w := Step(w, Capture);
          again, w := RunOnce(t, captured, w0, w);
          i := i + 1;
        }
      }
      w := Yield(ending, false, w0, w);
      ReachedKeepsInv(w0, w);
      server := None;
      running := false;
      ReachedNext(w0, w, Leave);
      w := Step(w, Leave);
      ReachedKeepsInv(w0, w);
      return false, w;
    }
  }
}
