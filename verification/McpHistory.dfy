/** What the history fields of the Computer Use queue record, read off the steps themselves. */
module McpHistory {
  import opened Common
  import opened McpQueue
  import opened McpAnswers

  /** The ids that a step flags. */
  function FlagsOf(w: World, a: Action): set<nat> {
    if a.CancelFlag? && w.reader.Cancelling? then {w.reader.call.id}
    else if a.FlagPending? then set k | k in w.s.pending :: w.s.pending[k].id
    else {}
  }

  /** How often the worker has tested a flag; calls are tested in order of acceptance. */
  function Checks(acts: seq<Action>): nat {
    if acts == [] then 0 else Checks(acts[..|acts| - 1]) + if acts[|acts| - 1].Check? then 1 else 0
  }

  /** The id was flagged when fewer calls than that had been tested. */
  ghost predicate CameEarly(acts: seq<Action>, id: nat)
    requires Possible(Initial, acts)
    decreases |acts|
  {
    acts != [] &&
    var before, a := acts[..|acts| - 1], acts[|acts| - 1];
    CameEarly(before, id) || (id in FlagsOf(Exec(Initial, before), a) && Checks(before) <= id)
  }

  /** The id was flagged when fewer calls than that had been answered. */
  ghost predicate CameInTime(acts: seq<Action>, id: nat)
    requires Possible(Initial, acts)
    decreases |acts|
  {
    acts != [] &&
    var before, a := acts[..|acts| - 1], acts[|acts| - 1];
    CameInTime(before, id) || (id in FlagsOf(Exec(Initial, before), a) && |Exec(Initial, before).s.answers| <= id)
  }

  /** The helper came to `o` after the test of the call with this id. */
  predicate CameTo(acts: seq<Action>, id: nat, o: Outcome) {
    acts != [] &&
    var before, a := acts[..|acts| - 1], acts[|acts| - 1];
    (a == Finish(o) && Checks(before) == id + 1) || CameTo(before, id, o)
  }

  // ---------------------------------------------------------------- one step

  lemma UncheckedExactly(w: World, c: Call)
    requires Conserved(w) && IsAccepted(w, c)
    ensures Unchecked(w, c) <==> Checked(w) <= c.id
    ensures c in Outstanding(w) <==> |w.s.answers| <= c.id
  {
    if Unchecked(w, c) {
      UncheckedIsLater(w, c);
    }
    if c in Outstanding(w) {
      OutstandingIsLater(w, c);
    }
    if |w.s.answers| <= c.id {
      assert Outstanding(w)[c.id - |w.s.answers|] == c;
    }
    if Checked(w) <= c.id && !w.worker.Got? {
      assert Rest(w)[c.id - Checked(w)] == c;
    }
  }

  lemma FlagsTell(w: World, a: Action, id: nat)
    requires Conserved(w) && FlagsOfAccepted(w) && Enabled(w, a)
    ensures id in Step(w, a).early <==> id in w.early || (id in FlagsOf(w, a) && Checked(w) <= id)
    ensures id in Step(w, a).inTime <==> id in w.inTime || (id in FlagsOf(w, a) && |w.s.answers| <= id)
    ensures id in Step(w, a).s.flagged <==> id in w.s.flagged || id in FlagsOf(w, a)
  {
    if a.CancelFlag? {
      UncheckedExactly(w, w.reader.call);
    }
    if a.FlagPending? {
      forall k | k in w.s.pending
        ensures Unchecked(w, w.s.pending[k]) <==> Checked(w) <= w.s.pending[k].id
        ensures w.s.pending[k] in Outstanding(w) <==> |w.s.answers| <= w.s.pending[k].id
      {
        UncheckedExactly(w, w.s.pending[k]);
      }
    }
  }

  lemma OutcomesTell(w: World, a: Action, id: nat, o: Outcome)
    requires Conserved(w) && OutcomesOfTheirs(w) && Enabled(w, a)
    ensures id in Step(w, a).outcomes && Step(w, a).outcomes[id] == o <==>
      (a == Finish(o) && Checked(w) == id + 1) || (id in w.outcomes && w.outcomes[id] == o)
  {
    if a.Finish? {
      LeadIsNext(w);
    }
  }

  lemma CheckedMoves(w: World, a: Action)
    requires Enabled(w, a)
    ensures Checked(Step(w, a)) == Checked(w) + if a.Check? then 1 else 0
  {
  }

  // ---------------------------------------------------------------- whole runs

  lemma {:induction false} ChecksCount(acts: seq<Action>)
    requires Possible(Initial, acts)
    ensures Checks(acts) == Checked(Exec(Initial, acts))
  {
    if acts != [] {
      ChecksCount(acts[..|acts| - 1]);
      CheckedMoves(Exec(Initial, acts[..|acts| - 1]), acts[|acts| - 1]);
    }
  }

  /** Every state of a run is as the invariants say. */
  lemma Reached(acts: seq<Action>)
    requires Possible(Initial, acts)
    ensures var w := Exec(Initial, acts);
      && Conserved(w) && FlagsOfAccepted(w) && OutcomesOfTheirs(w) && PendingByKey(w)
      && Checks(acts) == Checked(w)
  {
    InitialInv();
    ExecKeepsInv(Initial, acts);
    RunKeepsExact(Initial, acts);
    ChecksCount(acts);
  }

  /** What is recorded as an early flag, and as a flag in time, is just that: a flag that came
      before the call was tested, and one that came before it was answered. */
  lemma {:induction false} FlagsAreTrue(acts: seq<Action>, id: nat)
    requires Possible(Initial, acts)
    ensures id in Exec(Initial, acts).early <==> CameEarly(acts, id)
    ensures id in Exec(Initial, acts).inTime <==> CameInTime(acts, id)
  {
    if acts != [] {
      var before := acts[..|acts| - 1];
      FlagsAreTrue(before, id);
      Reached(before);
      FlagsTell(Exec(Initial, before), acts[|acts| - 1], id);
    }
  }

  /** What is recorded as the outcome of a call is what its helper came to. */
  lemma {:induction false} OutcomesAreTrue(acts: seq<Action>, id: nat, o: Outcome)
    requires Possible(Initial, acts)
    ensures id in Exec(Initial, acts).outcomes && Exec(Initial, acts).outcomes[id] == o <==> CameTo(acts, id, o)
  {
    if acts != [] {
      var before := acts[..|acts| - 1];
      OutcomesAreTrue(before, id, o);
      Reached(before);
      OutcomesTell(Exec(Initial, before), acts[|acts| - 1], id, o);
    }
  }

  // ---------------------------------------------------------------- what may happen when

  predicate OfWorker(a: Action) {
    a.Top? || a.Get? || a.Check? || a.Finish? || a.Respond? || a.Drop?
  }

  predicate OfReader(a: Action) {
    a.Accept? || a.Put? || a.CancelLookup? || a.CancelFlag?
  }

  function LastOfWorker(acts: seq<Action>): Option<Action> {
    if acts == [] then None
    else if OfWorker(acts[|acts| - 1]) then Some(acts[|acts| - 1])
    else LastOfWorker(acts[..|acts| - 1])
  }

  function LastOfReader(acts: seq<Action>): Option<Action> {
    if acts == [] then None
    else if OfReader(acts[|acts| - 1]) then Some(acts[|acts| - 1])
    else LastOfReader(acts[..|acts| - 1])
  }

  /** Where the worker is after its last step. It leaves on finding the server closed or an end
      marker, and answers at once a call that was flagged before it was tested. */
  predicate WorkerAfter(p: Worker, last: Option<Action>) {
    match last
    case None => p.AtTop?
    case Some(Top) => p.Waiting? || p.Gone?
    case Some(Get) => p.Got? || p.Gone?
    case Some(Check) => p.Running? || p.Done?
    case Some(Finish(o)) => p.Finished? && p.outcome == o
    case Some(Respond) => p.Done?
    case Some(Drop) => p.AtTop?
    case _ => false
  }

  /** Where the reader is after its last step: in the middle of enqueuing the call it accepted, or
      of flagging the one it found, or between two messages. */
  predicate ReaderAfter(r: Reader, last: Option<Action>) {
    match last
    case None => r.Idle?
    case Some(Accept(key, mutating)) => r.Idle? || (r.Enqueuing? && r.call.key == key && r.call.mutating == mutating)
    case Some(Put) => r.Idle?
    case Some(CancelLookup(key)) => r.Idle? || (r.Cancelling? && r.call.key == key)
    case Some(CancelFlag) => r.Idle?
    case _ => false
  }

  lemma NextTells(w: World, a: Action)
    requires PendingByKey(w) && Enabled(w, a)
    ensures var w' := Step(w, a);
      && (if OfWorker(a) then WorkerAfter(w'.worker, Some(a)) else w'.worker == w.worker)
      && (if OfReader(a) then ReaderAfter(w'.reader, Some(a)) else w'.reader == w.reader)
      && (w'.s.closed <==> a.Close? || w.s.closed)
  {
  }

  /** Where the threads are and whether the server is closed, by what has happened. */
  lemma {:induction false} ThreadsTell(acts: seq<Action>)
    requires Possible(Initial, acts)
    ensures var w := Exec(Initial, acts);
      && WorkerAfter(w.worker, LastOfWorker(acts)) && ReaderAfter(w.reader, LastOfReader(acts))
      && (w.s.closed <==> Close in acts)
  {
    if acts != [] {
      var before, a := acts[..|acts| - 1], acts[|acts| - 1];
      ThreadsTell(before);
      Reached(before);
      NextTells(Exec(Initial, before), a);
      assert acts == before + [a];
    }
  }

  /** Which step of the worker may come after its last one. */
  ghost predicate WorkerSteps(w: World, last: Option<Action>) {
    && (Enabled(w, Top) <==> last == None || last == Some(Drop))
    && (Enabled(w, Get) <==> last == Some(Top) && w.worker.Waiting? && w.s.queue != [])
    && (Enabled(w, Check) <==> last == Some(Get) && w.worker.Got?)
    && (forall o :: Enabled(w, Finish(o)) <==> last == Some(Check) && w.worker.Running?)
    && (Enabled(w, Respond) <==> last.Some? && last.value.Finish?)
    && (Enabled(w, Drop) <==> last == Some(Respond) || (last == Some(Check) && !w.worker.Running?))
  }

  /** Which step of the reader may come after its last one. */
  ghost predicate ReaderSteps(w: World, last: Option<Action>) {
    && (Enabled(w, Put) ==> last.Some? && last.value.Accept? && w.reader.call.key == last.value.key)
    && (Enabled(w, CancelFlag) ==> last.Some? && last.value.CancelLookup? && w.reader.call.key == last.value.key)
    && (forall k, m :: Enabled(w, Accept(k, m)) <==> !Enabled(w, Put) && !Enabled(w, CancelFlag))
    && (forall k :: Enabled(w, CancelLookup(k)) <==> !Enabled(w, Put) && !Enabled(w, CancelFlag))
  }

  lemma WorkerStepsFollow(w: World, last: Option<Action>)
    requires WorkerAfter(w.worker, last)
    ensures WorkerSteps(w, last)
  {
  }

  lemma ReaderStepsFollow(w: World, last: Option<Action>)
    requires ReaderAfter(w.reader, last)
    ensures ReaderSteps(w, last)
  {
  }

  /** The steps of each thread come in one order, whatever comes between; closers may come at any
      time, and flag and put the end marker once the server is closed, and a worker that then
      comes to its test leaves. */
  lemma StepsInOrder(acts: seq<Action>)
    requires Possible(Initial, acts)
    ensures var w := Exec(Initial, acts);
      && WorkerSteps(w, LastOfWorker(acts)) && ReaderSteps(w, LastOfReader(acts))
      && Enabled(w, Close)
      && (Enabled(w, FlagPending) <==> Close in acts) && (Enabled(w, PutSentinel) <==> Close in acts)
      && (Enabled(w, Top) ==> (Step(w, Top).worker.Gone? <==> Close in acts))
  {
    ThreadsTell(acts);
    WorkerStepsFollow(Exec(Initial, acts), LastOfWorker(acts));
    ReaderStepsFollow(Exec(Initial, acts), LastOfReader(acts));
  }

  predicate PendingByKey(w: World) {
    forall k | k in w.s.pending :: w.s.pending[k].key == k
  }
}
