/** What the supervisor holds, read off the calls and steps that led there. */
module SupervisorHistory {
  import opened Common
  import opened Supervisor

  // ---------------------------------------------------------------- reading a history

  predicate Open(step: Option<Action>) {
    step.Some? && !step.value.Leave?
  }

  /** The last step of a run. Entering `run` is one unless a run is under way or a stop came. */
  function LastStep(acts: seq<Action>): Option<Action> {
    if acts == [] then None
    else
      var before, a := acts[..|acts| - 1], acts[|acts| - 1];
      if a.Schedule? || a.Restart? || a.Stop? || a.Ready? || a.SelfExit? then LastStep(before)
      else if a.Begin? && (Open(LastStep(before)) || Stop in before) then LastStep(before)
      else Some(a)
  }

  /** A run was entered and not left since. */
  predicate RunOpen(acts: seq<Action>) {
    Open(LastStep(acts))
  }

  /** A run was scheduled, and neither entered nor stopped since. */
  predicate ScheduleOpen(acts: seq<Action>) {
    acts != [] &&
    var before, a := acts[..|acts| - 1], acts[|acts| - 1];
    !a.Begin? && !a.Stop? && (ScheduleOpen(before) || (a.Schedule? && !RunOpen(before) && Stop !in before))
  }

  predicate RestartCounts(before: seq<Action>) {
    Stop !in before && (ScheduleOpen(before) || RunOpen(before))
  }

  /** The restarts accepted: those asked for before any stop, with a run scheduled or open. */
  function Restarts(acts: seq<Action>): nat {
    if acts == [] then 0
    else
      var before, a := acts[..|acts| - 1], acts[|acts| - 1];
      Restarts(before) + if a.Restart? && RestartCounts(before) then 1 else 0
  }

  /** How many of them the run had seen when it last took a generation to build for. */
  function Seen(acts: seq<Action>): nat {
    if acts == [] then 0
    else if acts[|acts| - 1].Capture? then Restarts(acts[..|acts| - 1])
    else Seen(acts[..|acts| - 1])
  }

  function Registrations(acts: seq<Action>): nat {
    if acts == [] then 0
    else Registrations(acts[..|acts| - 1]) + if acts[|acts| - 1].Register? then 1 else 0
  }

  function LastFailure(acts: seq<Action>): Option<string> {
    if acts == [] then None
    else if acts[|acts| - 1].Fail? then Some(acts[|acts| - 1].error)
    else LastFailure(acts[..|acts| - 1])
  }

  /** The loop is over and the run not left yet: a check found a stop, the server failed or was
      interrupted, or a re-read found a stop, no new restart, or a runtime that is not closed. */
  predicate LoopOver(acts: seq<Action>) {
    acts != [] &&
    var before, a := acts[..|acts| - 1], acts[|acts| - 1];
    match a
    case Check => Stop in before
    case Fail(_) => true
    case Interrupt => true
    case Reread(closed) => Stop in before || Restarts(before) == Seen(before) || !closed
    case Leave => false
    case _ => LoopOver(before)
  }

  /** A server was registered, and neither given up by a re-read nor left behind since. */
  predicate ServerUp(acts: seq<Action>) {
    acts != [] &&
    var before, a := acts[..|acts| - 1], acts[|acts| - 1];
    a.Register? || (!a.Reread? && !a.Leave? && ServerUp(before))
  }

  /** It reported readiness since. */
  predicate BecameReady(acts: seq<Action>) {
    acts != [] &&
    var before, a := acts[..|acts| - 1], acts[|acts| - 1];
    a.Ready? || (!a.Register? && BecameReady(before))
  }

  /** It was told to exit: it was stale or stopped when registered, or a stop, an accepted
      restart or its own exit came since. */
  predicate ToldToExit(acts: seq<Action>) {
    acts != [] &&
    var before, a := acts[..|acts| - 1], acts[|acts| - 1];
    if a.Register? then Stop in before || Restarts(before) != Seen(before)
    else a.Stop? || a.SelfExit? || (a.Restart? && RestartCounts(before)) || ToldToExit(before)
  }

  // ---------------------------------------------------------------- the state is its history

  /** Where the run stands, by its last step. */
  predicate StandsAfter(p: Phase, over: bool, step: Option<Action>) {
    if over then p.Leaving?
    else match step
      case None => p.Absent?
      case Some(Begin) => p.Checking?
      case Some(Check) => p.Capturing?
      case Some(Capture) => p.Building?
      case Some(Register) => p.Serving?
      case Some(ServerReturns) => p.Returned?
      case Some(Reread(_)) => p.Checking?
      case Some(Leave) => p.Absent?
      case _ => false
  }

  ghost predicate Told(w: World, acts: seq<Action>) {
    && (w.sup.stopRequested <==> Stop in acts)
    && (w.sup.running <==> RunOpen(acts))
    && (w.sup.scheduled <==> ScheduleOpen(acts))
    && w.sup.generation == Restarts(acts)
    && (HasServer(w.phase) || w.phase.Building? ==> w.phase.captured == Seen(acts))
    && w.built == Registrations(acts)
    && w.sup.lastError == LastFailure(acts)
    && StandsAfter(w.phase, LoopOver(acts), LastStep(acts))
    && (w.sup.server.Some? <==> ServerUp(acts))
    && (w.sup.server.Some? ==>
         && (w.sup.server.value.started <==> BecameReady(acts))
         && (w.sup.server.value.shouldExit <==> ToldToExit(acts)))
  }

  lemma ToldNext(w: World, acts: seq<Action>, a: Action)
    requires Inv(w) && Told(w, acts) && Enabled(w, a)
    ensures Told(Step(w, a), acts + [a])
  {
    assert (acts + [a])[..|acts|] == acts;
  }

  /** Everything the supervisor holds and where its run stands, from what has happened. */
  lemma {:induction false} HistoryTells(acts: seq<Action>)
    requires Possible(Initial, acts)
    ensures Told(Exec(Initial, acts), acts)
  {
    if acts != [] {
      var before, a := acts[..|acts| - 1], acts[|acts| - 1];
      HistoryTells(before);
      ExecKeepsInv(Initial, before);
      ToldNext(Exec(Initial, before), before, a);
      assert acts == before + [a];
    }
  }

  /** The steps that may come next: only those that follow the last step of the run, unless the
      loop is over. Calls of other threads may come at any time. */
  ghost predicate NextSteps(w: World, over: bool, last: Option<Action>) {
    && (Enabled(w, Check) <==> !over && (last == Some(Begin) || (last.Some? && last.value.Reread?)))
    && (Enabled(w, Capture) <==> !over && last == Some(Check))
    && (Enabled(w, Register) <==> !over && last == Some(Capture))
    && (Enabled(w, ServerReturns) <==> !over && last == Some(Register))
    && (forall closed :: Enabled(w, Reread(closed)) <==> !over && last == Some(ServerReturns))
    && (forall e :: Enabled(w, Fail(e)) <==> !over && (last == Some(Capture) || last == Some(Register)))
    && (Enabled(w, Interrupt) <==> !over && Open(last))
    && (Enabled(w, Leave) <==> over)
    && (Enabled(w, Ready) <==> !over && last == Some(Register))
    && (Enabled(w, SelfExit) <==> !over && last == Some(Register))
    && Enabled(w, Schedule) && Enabled(w, Begin) && Enabled(w, Restart) && Enabled(w, Stop)
  }

  lemma NextStepsFollow(w: World, over: bool, last: Option<Action>)
    requires StandsAfter(w.phase, over, last)
    ensures NextSteps(w, over, last)
  {
  }

  lemma StepsInOrder(acts: seq<Action>)
    requires Possible(Initial, acts)
    ensures NextSteps(Exec(Initial, acts), LoopOver(acts), LastStep(acts))
  {
    HistoryTells(acts);
    NextStepsFollow(Exec(Initial, acts), LoopOver(acts), LastStep(acts));
  }

  /** A restart counts exactly if no stop came and the status is not stopped; it then raises the
      generation by one. One that does not count changes nothing. */
  lemma RestartExactly(acts: seq<Action>)
    requires Possible(Initial, acts)
    ensures var w := Exec(Initial, acts);
      && (RestartCounts(acts) <==> Stop !in acts && StatusOf(w.sup) != STOPPED)
      && (RestartCounts(acts) ==> Step(w, Restart).sup.generation == w.sup.generation + 1)
      && (!RestartCounts(acts) ==> Step(w, Restart).sup == w.sup)
  {
    HistoryTells(acts);
    ExecKeepsInv(Initial, acts);
  }
}
