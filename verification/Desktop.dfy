/** The desktop shell: one tray loop that keeps at most one server thread over a supervisor. */
module Desktop {
  import opened Common
  import opened Supervisor

  /** The server thread: never made, reserved but not made yet, made, inside `run`, finished. */
  datatype Worker = NoWorker | Reserved | Spawned | InRun | Done

  datatype Shell = Shell(world: World, worker: Worker)

  const NewShell := Shell(Initial, NoWorker)

  /** What the tray, the server thread and any other holder of the supervisor can do.
      `Reserve` and `Spawn` are the two halves of the section under the thread lock. */
  datatype Move =
    | Reserve
    | Spawn
    | Enter
    | Advance(action: Action)
    | Finish
    | AskRestartOf
    | Quit

  predicate Alive(t: Worker) {
    t.Spawned? || t.InRun?
  }

  /** The steps of a thread inside `run`. */
  predicate RunnerAction(a: Action) {
    !(a.Schedule? || a.Begin? || a.Restart? || a.Stop?)
  }

  predicate Allowed(s: Shell, m: Move) {
    match m
    case Reserve => !s.worker.Reserved?
    case Spawn => s.worker.Reserved?
    case Enter => s.worker.Spawned?
    case Advance(a) => s.worker.InRun? && RunnerAction(a) && Enabled(s.world, a)
    case Finish => s.worker.InRun? && s.world.phase.Absent?
    case _ => true
  }

  function After(s: Shell, m: Move): Shell
    requires Allowed(s, m)
  {
    match m
    case Reserve =>
      if Alive(s.worker) || !CanSchedule(s.world.sup) then s
      else s.(world := Step(s.world, Schedule), worker := Reserved)
    case Spawn => s.(worker := Spawned)
    case Enter => s.(world := Step(s.world, Begin), worker := InRun)
    case Advance(a) => s.(world := Step(s.world, a))
    case Finish => s.(worker := Done)
    case AskRestartOf => s.(world := Step(s.world, Restart))
    case Quit => s.(world := Step(s.world, Stop))
  }

  ghost predicate Inv(s: Shell) {
    && Supervisor.Inv(s.world)
    && (s.world.sup.scheduled ==> s.worker.Reserved? || s.worker.Spawned?)
    && ((s.worker.Reserved? || s.worker.Spawned?) && !s.world.sup.stopRequested ==> s.world.sup.scheduled)
    && (s.worker.InRun? ==> (s.world.sup.running <==> !s.world.phase.Absent?))
    && (s.world.sup.running ==> s.worker.InRun?)
  }

  predicate Feasible(s: Shell, moves: seq<Move>)
    decreases |moves|, 0
  {
    moves == [] ||
    (Feasible(s, moves[..|moves| - 1]) && Allowed(Play(s, moves[..|moves| - 1]), moves[|moves| - 1]))
  }

  function Play(s: Shell, moves: seq<Move>): Shell
    requires Feasible(s, moves)
    decreases |moves|, 1
  {
    if moves == [] then s else After(Play(s, moves[..|moves| - 1]), moves[|moves| - 1])
  }

  /** The shell never starts a second run: `run` is entered only while no run is under way, and
      a scheduled run always has a thread that will make it. */
  lemma {:induction false} OneRunAtATime(s: Shell, moves: seq<Move>)
    requires Inv(s) && Feasible(s, moves)
    ensures Inv(Play(s, moves))
    ensures Allowed(Play(s, moves), Enter) ==> !Play(s, moves).world.sup.running
  {
    if moves != [] {
      var before, m := Play(s, moves[..|moves| - 1]), moves[|moves| - 1];
      OneRunAtATime(s, moves[..|moves| - 1]);
      match m
      case Reserve => if CanSchedule(before.world.sup) { StepKeepsInv(before.world, Schedule); }
      case Enter => StepKeepsInv(before.world, Begin);
      case Advance(a) => StepKeepsInv(before.world, a);
      case AskRestartOf => StepKeepsInv(before.world, Restart);
      case Quit => StepKeepsInv(before.world, Stop);
      case _ =>
    }
  }

  /** After its server exited on its own, the shell can always start another one. */
  lemma RelaunchAfterExit(moves: seq<Move>)
    requires Feasible(NewShell, moves)
    requires var s := Play(NewShell, moves); s.worker.Done? && !s.world.sup.stopRequested
    ensures var s := Play(NewShell, moves);
      After(s, Reserve).worker == Reserved && After(s, Reserve).world.sup.scheduled
  {
    OneRunAtATime(NewShell, moves);
  }

  // ---------------------------------------------------------------- what has happened so far

  /** A thread can be made: there is none, or it has finished. */
  predicate Vacant(thread: Option<Move>) {
    thread.None? || thread.value.Finish?
  }

  /** The last step in the life of the server thread. A reservation is one if there is no thread
      or a finished one, and no stop was asked for. */
  function LastOfThread(moves: seq<Move>): Option<Move> {
    if moves == [] then None
    else
      var before, m := moves[..|moves| - 1], moves[|moves| - 1];
      if m.Spawn? || m.Enter? || m.Finish? then Some(m)
      else if m.Reserve? && Vacant(LastOfThread(before)) && Quit !in before then Some(m)
      else LastOfThread(before)
  }

  /** What the moves of the shell ask of the supervisor. */
  function Calls(moves: seq<Move>): seq<Action> {
    if moves == [] then []
    else
      var before, m := moves[..|moves| - 1], moves[|moves| - 1];
      Calls(before) + match m
        case Reserve => if Vacant(LastOfThread(before)) then [Schedule] else []
        case Enter => [Begin]
        case Advance(a) => [a]
        case AskRestartOf => [Restart]
        case Quit => [Stop]
        case _ => []
  }

  /** Where the thread is after the last step of its life. */
  predicate ThreadAfter(t: Worker, last: Option<Move>) {
    match last
    case None => t.NoWorker?
    case Some(Reserve) => t.Reserved?
    case Some(Spawn) => t.Spawned?
    case Some(Enter) => t.InRun?
    case Some(Finish) => t.Done?
    case _ => false
  }

  /** The state of the supervisor is the one its calls lead to, and the thread is where the last
      step of its life left it. */
  ghost predicate Driven(s: Shell, moves: seq<Move>) {
    && Possible(Initial, Calls(moves)) && Exec(Initial, Calls(moves)) == s.world
    && ThreadAfter(s.worker, LastOfThread(moves)) && (s.world.sup.stopRequested <==> Quit in moves)
  }

  lemma ThreadNext(s: Shell, moves: seq<Move>, m: Move)
    requires Inv(s) && Driven(s, moves) && Allowed(s, m)
    ensures ThreadAfter(After(s, m).worker, LastOfThread(moves + [m]))
    ensures After(s, m).world.sup.stopRequested <==> Quit in moves + [m]
  {
    LastNext(moves, m);
    assert Quit in moves + [m] <==> Quit in moves || m == Quit;
  }

  lemma LastNext(moves: seq<Move>, m: Move)
    ensures LastOfThread(moves + [m]) ==
      if m.Spawn? || m.Enter? || m.Finish? || (m.Reserve? && Vacant(LastOfThread(moves)) && Quit !in moves)
      then Some(m) else LastOfThread(moves)
  {
    assert (moves + [m])[..|moves|] == moves;
  }

  lemma DrivenNext(s: Shell, moves: seq<Move>, m: Move)
    requires Inv(s) && Driven(s, moves) && Allowed(s, m)
    ensures Driven(After(s, m), moves + [m])
  {
    var calls := Calls(moves);
    ThreadNext(s, moves, m);
    assert (moves + [m])[..|moves|] == moves;
    assert calls + [] == calls;
    match m
    case Reserve => if Vacant(LastOfThread(moves)) { Snoc(Initial, calls, Schedule); }
    case Enter => Snoc(Initial, calls, Begin);
    case Advance(a) => Snoc(Initial, calls, a);
    case AskRestartOf => Snoc(Initial, calls, Restart);
    case Quit => Snoc(Initial, calls, Stop);
    case _ =>
  }

  /** The shell is one more interleaving of the supervisor, of exactly the calls its moves make,
      so that everything proved of the supervisor holds of it. */
  lemma {:induction false} ShellDrivesTheSupervisor(moves: seq<Move>)
    requires Feasible(NewShell, moves)
    ensures Driven(Play(NewShell, moves), moves)
  {
    if moves != [] {
      var before, m := moves[..|moves| - 1], moves[|moves| - 1];
      OneRunAtATime(NewShell, before);
      ShellDrivesTheSupervisor(before);
      DrivenNext(Play(NewShell, before), before, m);
      assert moves == before + [m];
    } else {
      assert Calls([]) == [];
    }
  }

  /** A thread is reserved exactly if there is none or it has finished, and no stop came; it is
      made, enters `run`, steps and finishes in this order. */
  lemma ThreadInOrder(moves: seq<Move>)
    requires Feasible(NewShell, moves)
    ensures var s, last := Play(NewShell, moves), LastOfThread(moves);
      && (Allowed(s, Reserve) <==> last != Some(Reserve))
      && (Allowed(s, Reserve) ==>
            (After(s, Reserve).worker.Reserved? <==> Vacant(last) && Quit !in moves)
            && (!After(s, Reserve).worker.Reserved? ==> After(s, Reserve) == s))
      && (Allowed(s, Spawn) <==> last == Some(Reserve))
      && (Allowed(s, Enter) <==> last == Some(Spawn))
      && (Allowed(s, Finish) <==> last == Some(Enter) && !s.world.sup.running)
      && (forall a :: Allowed(s, Advance(a)) <==>
            last == Some(Enter) && Enabled(s.world, a) && a !in [Schedule, Begin, Restart, Stop])
      && Allowed(s, AskRestartOf) && Allowed(s, Quit)
  {
    OneRunAtATime(NewShell, moves);
    ShellDrivesTheSupervisor(moves);
  }

  // ---------------------------------------------------------------- restarts that are dropped

  /** Asking for a restart changes nothing exactly after a stop, or when there is no run to
      restart: no thread, or one that has left its run. The shell asks only when it has just
      found its thread alive, so of these only the thread that has left its run, or ended
      since, is possible without a stop. */
  lemma RestartDroppedExactly(moves: seq<Move>)
    requires Feasible(NewShell, moves)
    ensures var s := Play(NewShell, moves);
      After(s, AskRestartOf).world.sup == s.world.sup <==>
        || s.world.sup.stopRequested
        || s.worker.NoWorker? || s.worker.Done?
        || (s.worker.InRun? && s.world.phase.Absent?)
  {
    OneRunAtATime(NewShell, moves);
  }

  lemma Plays(moves: seq<Move>, m: Move)
    requires Feasible(NewShell, moves) && Allowed(Play(NewShell, moves), m)
    ensures Feasible(NewShell, moves + [m]) && Play(NewShell, moves + [m]) == After(Play(NewShell, moves), m)
  {
    assert (moves + [m])[..|moves|] == moves;
  }

  /** A restart that is dropped: the server failed, its run is over, and its thread is alive
      for a moment more. */
  lemma RestartIsDropped() returns (moves: seq<Move>)
    ensures Feasible(NewShell, moves)
    ensures var s := Play(NewShell, moves);
      Alive(s.worker) && !s.world.sup.stopRequested && After(s, AskRestartOf).world.sup == s.world.sup
  {
    var script := [Reserve, Spawn, Enter, Advance(Check), Advance(Capture), Advance(Fail("error")), Advance(Leave)];
    moves := [];
    var up := Idle.(running := true);
    var failed := up.(lastError := Some("error"));
    ghost var story := [
      NewShell,
      Shell(World(Idle.(scheduled := true), Absent, 0, 0, 0, -1, 0), Reserved),
      Shell(World(Idle.(scheduled := true), Absent, 0, 0, 0, -1, 0), Spawned),
      Shell(World(up, Checking, 0, 0, 0, -1, 0), InRun),
      Shell(World(up, Capturing, 0, 0, 0, -1, 0), InRun),
      Shell(World(up, Building(0), 0, 0, 0, -1, 0), InRun),
      Shell(World(failed, Leaving(Failed), 0, 0, 0, -1, 0), InRun),
      Shell(World(failed.(running := false), Absent, 0, 0, 0, -1, 0), InRun)];
    while |moves| < |script|
      invariant |moves| <= |script| && moves == script[..|moves|]
      invariant Feasible(NewShell, moves) && Play(NewShell, moves) == story[|moves|]
    {
      var m := script[|moves|];
      Plays(moves, m);
      assert moves + [m] == script[..|moves| + 1];
      moves := moves + [m];
    }
  }

  class DesktopController {
    const supervisor: ServerSupervisor
    var worker: Worker

    constructor (supervisor: ServerSupervisor)
      ensures this.supervisor == supervisor && worker == NoWorker
    {
      this.supervisor := supervisor;
      worker := NoWorker;
    }

    ghost predicate Mirrors(s: Shell)
      reads this, supervisor
    {
      s.world.sup == supervisor.State() && s.worker == worker
    }

    method StartServer(ghost s: Shell) returns (ghost s': Shell)
      requires Mirrors(s) && !s.worker.Reserved?
      modifies this, supervisor
      ensures s' == if After(s, Reserve).worker.Reserved? then After(After(s, Reserve), Spawn) else s
      ensures Mirrors(s') && supervisor.nextServer == old(supervisor.nextServer)
    {
      s' := s;
      if worker.Spawned? || worker.InRun? {
        return;
      }
      var accepted := supervisor.ScheduleRun();
      if !accepted {
        return;
      }
      worker := Spawned;
      s' := After(After(s, Reserve), Spawn);
    }

    method RestartServer(ghost s: Shell) returns (ghost s': Shell)
      requires Mirrors(s) && !s.worker.Reserved?
      modifies this, supervisor
      ensures Alive(s.worker) ==> s' == After(s, AskRestartOf)
      ensures !Alive(s.worker) ==>
        s' == if CanSchedule(s.world.sup) then After(After(s, Reserve), Spawn) else s
      ensures Mirrors(s')
    {
      if worker.Spawned? || worker.InRun? {
        var _ := supervisor.RequestRestart();
        s' := After(s, AskRestartOf);
      } else {
        s' := StartServer(s);
      }
    }

    method QuitServer(ghost s: Shell) returns (ghost s': Shell)
      requires Mirrors(s)
      modifies supervisor
      ensures s' == After(s, Quit) && Mirrors(s')
    {
      supervisor.RequestStop();
      s' := After(s, Quit);
    }
  }
}
