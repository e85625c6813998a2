/** The tool-call queue of the Computer Use server: a reader that accepts and cancels calls,
    one worker that answers them, and closers that shut both down. */
module McpQueue {
  import opened Common

  /** An accepted call. `id` numbers the acceptances; `key` is the client's request id. */
  datatype Call = Call(id: nat, key: string, mutating: bool)

  datatype Outcome = Returned | HelperError | OtherError

  datatype Reply = Result | CancelledBeforeStart | Cancelled | Failed | Indeterminate | MustReinspect

  /** A written answer, and whether the call was flagged when its result was checked. */
  datatype Answer = Answer(call: Call, reply: Reply, flagged: bool)

  datatype Reader = Idle | Enqueuing(call: Call) | Cancelling(call: Call)

  /** The worker: about to test the closed flag, waiting for a call, holding one it has not
      checked, running it, holding its outcome, having answered it, or gone. */
  datatype Worker =
    | AtTop
    | Waiting
    | Got(call: Call)
    | Running(call: Call)
    | Finished(call: Call, outcome: Outcome)
    | Done(call: Call)
    | Gone

  /** What the threads share. */
  datatype Shared = Shared(
    pending: map<string, Call>,
    queue: seq<Option<Call>>,
    closed: bool,
    flagged: set<nat>,
    answers: seq<Answer>)

  /** The shared state, where each thread stands, and the history: calls accepted, calls handed
      to the helper and how it ended them, calls that were flagged before the worker had checked
      them, and calls that were flagged before they were answered. */
  datatype World = World(
    s: Shared, reader: Reader, worker: Worker, accepted: seq<Call>, dispatched: seq<Call>,
    outcomes: map<nat, Outcome>, early: set<nat>, inTime: set<nat>)

  const Initial := World(Shared(map[], [], false, {}, []), Idle, AtTop, [], [], map[], {}, {})

  datatype Action =
    | Accept(key: string, mutating: bool)
    | Put
    | CancelLookup(key: string)
    | CancelFlag
    | Close
    | FlagPending
    | PutSentinel
    | Top
    | Get
    | Check
    | Finish(outcome: Outcome)
    | Respond
    | Drop

  /** The answer to a call whose helper ended with `outcome`. */
  function Verdict(outcome: Outcome, flagged: bool, mutating: bool): Reply {
    match outcome
    case Returned => if !flagged then Result else if mutating then MustReinspect else Cancelled
    case _ => if flagged && mutating then Indeterminate else Failed
  }

  function One(x: Option<Call>): seq<Call> {
    if x.Some? then [x.value] else []
  }

  function Queued(queue: seq<Option<Call>>): seq<Call> {
    if queue == [] then [] else One(queue[0]) + Queued(queue[1..])
  }

  function Arriving(r: Reader): seq<Call> {
    if r.Enqueuing? then [r.call] else []
  }

  /** The calls in the queue and, behind them, the one the reader has yet to put there. */
  function Rest(w: World): seq<Call> {
    Queued(w.s.queue) + Arriving(w.reader)
  }

  /** A call of which the worker has not yet tested the flag. */
  predicate Unchecked(w: World, c: Call) {
    c in Rest(w) || w.worker == Got(c)
  }

  predicate Enabled(w: World, a: Action) {
    match a
    case Accept(_, _) => w.reader.Idle?
    case Put => w.reader.Enqueuing?
    case CancelLookup(_) => w.reader.Idle?
    case CancelFlag => w.reader.Cancelling?
    case Close => true
    case FlagPending => w.s.closed
    case PutSentinel => w.s.closed
    case Top => w.worker.AtTop?
    case Get => w.worker.Waiting? && w.s.queue != []
    case Check => w.worker.Got?
    case Finish(_) => w.worker.Running?
    case Respond => w.worker.Finished?
    case Drop => w.worker.Done?
  }

  function Step(w: World, a: Action): World
    requires Enabled(w, a)
  {
    var s := w.s;
    match a
    case Accept(key, mutating) =>
      if key in s.pending then w
      else
        var c := Call(|w.accepted|, key, mutating);
        w.(s := s.(pending := s.pending[key := c]), reader := Enqueuing(c), accepted := w.accepted + [c])
    case Put => w.(s := s.(queue := s.queue + [Some(w.reader.call)]), reader := Idle)
    case CancelLookup(key) => if key in s.pending then w.(reader := Cancelling(s.pending[key])) else w
    case CancelFlag =>
      var id := w.reader.call.id;
      w.(s := s.(flagged := s.flagged + {id}), reader := Idle,
         early := if Unchecked(w, w.reader.call) then w.early + {id} else w.early,
         inTime := if w.reader.call in Outstanding(w) then w.inTime + {id} else w.inTime)
    case Close => w.(s := s.(closed := true))
    case FlagPending =>
      w.(s := s.(flagged := s.flagged + set k | k in s.pending :: s.pending[k].id),
         early := w.early + set k | k in s.pending && Unchecked(w, s.pending[k]) :: s.pending[k].id,
         inTime := w.inTime + set k | k in s.pending && s.pending[k] in Outstanding(w) :: s.pending[k].id)
    case PutSentinel => w.(s := s.(queue := s.queue + [None]))
    case Top => w.(worker := if s.closed then Gone else Waiting)
    case Get =>
      w.(s := s.(queue := s.queue[1..]), worker := if s.queue[0].Some? then Got(s.queue[0].value) else Gone)
    case Check =>
      var c := w.worker.call;
      if c.id in s.flagged
      then w.(s := s.(answers := s.answers + [Answer(c, CancelledBeforeStart, true)]), worker := Done(c))
      else w.(worker := Running(c), dispatched := w.dispatched + [c])
    case Finish(outcome) =>
      w.(worker := Finished(w.worker.call, outcome), outcomes := w.outcomes[w.worker.call.id := outcome])
    case Respond =>
      var c := w.worker.call;
      var flagged := c.id in s.flagged;
      var answer := Answer(c, Verdict(w.worker.outcome, flagged, c.mutating), flagged);
      w.(s := s.(answers := s.answers + [answer]), worker := Done(c))
    case Drop => w.(s := s.(pending := s.pending - {w.worker.call.key}), worker := AtTop)
  }

  // ---------------------------------------------------------------- conservation

  /** The call the worker is on and has not answered. */
  function Lead(w: Worker): seq<Call> {
    if w.Got? || w.Running? || w.Finished? then [w.call] else []
  }

  function Outstanding(w: World): seq<Call> {
    Lead(w.worker) + Rest(w)
  }

  /** The accepted calls in order of acceptance are those answered, then the one the worker is
      on, then those waiting: nothing is lost, repeated or overtaken. */
  ghost predicate Conserved(w: World) {
    InSequence(w.accepted, w.s.answers, Outstanding(w))
  }

  ghost predicate InSequence(accepted: seq<Call>, answers: seq<Answer>, outstanding: seq<Call>) {
    && |answers| <= |accepted|
    && (forall i | 0 <= i < |answers| :: answers[i].call == accepted[i])
    && outstanding == accepted[|answers|..]
    && (forall i | 0 <= i < |accepted| :: accepted[i].id == i)
  }

  lemma SequenceGains(accepted: seq<Call>, answers: seq<Answer>, outstanding: seq<Call>, c: Call)
    requires InSequence(accepted, answers, outstanding) && c.id == |accepted|
    ensures InSequence(accepted + [c], answers, outstanding + [c])
  {
  }

  lemma SequenceAnswers(accepted: seq<Call>, answers: seq<Answer>, outstanding: seq<Call>, x: Answer)
    requires InSequence(accepted, answers, [x.call] + outstanding)
    ensures InSequence(accepted, answers + [x], outstanding)
  {
    var rest := [x.call] + outstanding;
    assert rest[0] == x.call && rest[1..] == outstanding;
    assert rest[0] == accepted[|answers|];
  }

  lemma Associative(a: seq<Call>, b: seq<Call>, c: seq<Call>)
    ensures (a + b) + c == a + (b + c)
  {
  }

  lemma {:induction false} QueuedSnoc(queue: seq<Option<Call>>, x: Option<Call>)
    ensures Queued(queue + [x]) == Queued(queue) + One(x)
  {
    if queue == [] {
      assert queue + [x] == [x];
      assert Queued([x]) == One(x) + Queued([]);
      assert Queued([]) + One(x) == One(x) == One(x) + [];
    } else {
      QueuedSnoc(queue[1..], x);
      assert (queue + [x])[0] == queue[0] && (queue + [x])[1..] == queue[1..] + [x];
      Associative(One(queue[0]), Queued(queue[1..]), One(x));
    }
  }

  /** How the waiting calls change: one joins at the end, or the first is taken. */
  lemma RestMoves(w: World, a: Action)
    requires Enabled(w, a)
    ensures a.Accept? && a.key !in w.s.pending ==> Rest(Step(w, a)) == Rest(w) + [Call(|w.accepted|, a.key, a.mutating)]
    ensures a.Get? ==> Rest(w) == One(w.s.queue[0]) + Rest(Step(w, a))
    ensures !(a.Accept? && a.key !in w.s.pending) && !a.Get? ==> Rest(Step(w, a)) == Rest(w)
  {
    match a
    case Put => QueuedSnoc(w.s.queue, Some(w.reader.call));
    case PutSentinel =>
      QueuedSnoc(w.s.queue, None);
      assert Queued(w.s.queue) + One(None) == Queued(w.s.queue);
    case _ =>
  }

  lemma LeadMoves(w: World, a: Action)
    requires Enabled(w, a)
    ensures var w' := Step(w, a);
      && (a.Get? ==> Lead(w.worker) == [] && Lead(w'.worker) == One(w.s.queue[0]))
      && (|w'.s.answers| > |w.s.answers| ==>
           Lead(w.worker) == [w.worker.call] && Lead(w'.worker) == [] && (a.Check? || a.Respond?))
      && (!a.Get? && |w'.s.answers| == |w.s.answers| ==> Lead(w'.worker) == Lead(w.worker))
  {
  }

  lemma OutstandingMoves(w: World, a: Action)
    requires Enabled(w, a)
    ensures a.Accept? && a.key !in w.s.pending ==>
      Outstanding(Step(w, a)) == Outstanding(w) + [Call(|w.accepted|, a.key, a.mutating)]
    ensures |Step(w, a).s.answers| > |w.s.answers| ==> Outstanding(w) == [w.worker.call] + Outstanding(Step(w, a))
    ensures !(a.Accept? && a.key !in w.s.pending) && |Step(w, a).s.answers| == |w.s.answers| ==>
      Outstanding(Step(w, a)) == Outstanding(w)
  {
    RestMoves(w, a);
    var w' := Step(w, a);
    LeadMoves(w, a);
    if a.Accept? {
      Associative(Lead(w.worker), Rest(w), [Call(|w.accepted|, a.key, a.mutating)]);
    } else if a.Get? {
      Associative([], One(w.s.queue[0]), Rest(w'));
    } else if |w'.s.answers| > |w.s.answers| {
      Associative([w.worker.call], [], Rest(w));
    }
  }

  lemma StepConserves(w: World, a: Action)
    requires Conserved(w) && Enabled(w, a)
    ensures Conserved(Step(w, a))
  {
    OutstandingMoves(w, a);
    var w' := Step(w, a);
    if a.Accept? && a.key !in w.s.pending {
      SequenceGains(w.accepted, w.s.answers, Outstanding(w), Call(|w.accepted|, a.key, a.mutating));
    } else if a.Respond? || (a.Check? && w'.worker.Done?) {
      SequenceAnswers(w.accepted, w.s.answers, Outstanding(w'), w'.s.answers[|w.s.answers|]);
    }
  }

  // ---------------------------------------------------------------- the pending table

  /** The calls whose request ids the client may not use again yet. */
  function Held(w: World): seq<Call> {
    (if w.worker.Done? then [w.worker.call] else []) + Outstanding(w)
  }

  /** The pending table holds exactly the calls being enqueued, queued, executing, or answered
      but not yet dropped, each under its own key. */
  ghost predicate PendingExact(w: World) {
    Table(w.s.pending, Held(w))
  }

  ghost predicate Table(pending: map<string, Call>, held: seq<Call>) {
    && (forall c | c in held :: c.key in pending && pending[c.key] == c)
    && (forall k | k in pending :: pending[k].key == k && pending[k] in held)
    && (forall i, j | 0 <= i < j < |held| :: held[i].key != held[j].key)
  }

  lemma TableGains(pending: map<string, Call>, held: seq<Call>, c: Call)
    requires Table(pending, held) && c.key !in pending
    ensures Table(pending[c.key := c], held + [c])
  {
    forall i | 0 <= i < |held| ensures held[i].key != c.key {
      assert held[i] in held;
    }
  }

  lemma TableLoses(pending: map<string, Call>, held: seq<Call>, c: Call)
    requires Table(pending, [c] + held)
    ensures Table(pending - {c.key}, held)
  {
    var all := [c] + held;
    forall i | 0 <= i < |held| ensures held[i].key != c.key {
      assert all[0] == c && all[i + 1] == held[i];
    }
    forall i, j | 0 <= i < j < |held| ensures held[i].key != held[j].key {
      assert all[i + 1] == held[i] && all[j + 1] == held[j];
    }
  }

  lemma HeldMoves(w: World, a: Action)
    requires Enabled(w, a)
    ensures a.Accept? && a.key !in w.s.pending ==> Held(Step(w, a)) == Held(w) + [Call(|w.accepted|, a.key, a.mutating)]
    ensures a.Drop? ==> Held(w) == [w.worker.call] + Held(Step(w, a))
    ensures !(a.Accept? && a.key !in w.s.pending) && !a.Drop? ==> Held(Step(w, a)) == Held(w)
  {
    OutstandingMoves(w, a);
    var o, o' := Outstanding(w), Outstanding(Step(w, a));
    assert [] + o == o && [] + o' == o';
    if a.Accept? && w.worker.Done? {
      Associative([w.worker.call], o, [Call(|w.accepted|, a.key, a.mutating)]);
    }
  }

  lemma StepKeepsPendingExact(w: World, a: Action)
    requires PendingExact(w) && Enabled(w, a)
    ensures PendingExact(Step(w, a))
  {
    HeldMoves(w, a);
    if a.Accept? && a.key !in w.s.pending {
      TableGains(w.s.pending, Held(w), Call(|w.accepted|, a.key, a.mutating));
    } else if a.Drop? {
      TableLoses(w.s.pending, Held(Step(w, a)), w.worker.call);
    }
  }

  // ---------------------------------------------------------------- cancellation

  /** How many calls, in order of acceptance, the worker has checked. */
  function Checked(w: World): nat {
    |w.s.answers| + if w.worker.Running? || w.worker.Finished? then 1 else 0
  }

  /** What an answer may say. */
  ghost predicate Honest(x: Answer, dispatched: seq<Call>, early: set<nat>) {
    && (x.reply == Result ==> !x.flagged && x.call in dispatched)
    && (x.flagged && x.call.mutating ==> x.reply in {CancelledBeforeStart, Indeterminate, MustReinspect})
    && (x.reply == CancelledBeforeStart ==> x.call !in dispatched)
    && (x.call.id in early ==> x.reply == CancelledBeforeStart)
  }

  /** Calls reach the helper in order and at most once, never after a flag that came early. */
  ghost predicate CancelsHonoured(w: World) {
    && (forall i, j | 0 <= i < j < |w.dispatched| :: w.dispatched[i].id < w.dispatched[j].id)
    && (forall c | c in w.dispatched :: c.id < Checked(w) && c.id !in w.early)
    && w.early <= w.s.flagged
    && (w.worker.Running? || w.worker.Finished? ==> w.worker.call in w.dispatched)
    && (forall x | x in w.s.answers :: Honest(x, w.dispatched, w.early))
  }

  lemma UncheckedIsLater(w: World, c: Call)
    requires Conserved(w) && Unchecked(w, c)
    ensures Checked(w) <= c.id < |w.accepted|
  {
    if c in Rest(w) {
      var i :| 0 <= i < |Rest(w)| && Rest(w)[i] == c;
      assert Outstanding(w)[|Lead(w.worker)| + i] == c;
    } else {
      assert Outstanding(w)[0] == c;
    }
  }

  lemma LeadIsNext(w: World)
    requires Conserved(w) && Lead(w.worker) != []
    ensures w.worker.call.id == |w.s.answers| < |w.accepted|
  {
    assert Outstanding(w)[0] == w.worker.call;
  }

  /** No call is answered before the worker has come to it. */
  lemma LeadIsUnanswered(w: World)
    requires Conserved(w) && Lead(w.worker) != []
    ensures forall x | x in w.s.answers :: x.call.id < w.worker.call.id
  {
    LeadIsNext(w);
    forall x | x in w.s.answers ensures x.call.id < w.worker.call.id {
      var i :| 0 <= i < |w.s.answers| && w.s.answers[i] == x;
      assert w.accepted[i].id == i;
    }
  }

  lemma CheckHonours(w: World)
    requires Conserved(w) && CancelsHonoured(w) && Enabled(w, Check)
    ensures CancelsHonoured(Step(w, Check))
  {
    LeadIsNext(w);
    LeadIsUnanswered(w);
    var w', c := Step(w, Check), w.worker.call;
    forall x | x in w'.s.answers ensures Honest(x, w'.dispatched, w'.early) {
      if x in w.s.answers {
        assert x.call != c;
      }
    }
  }

  lemma RespondHonours(w: World)
    requires Conserved(w) && CancelsHonoured(w) && Enabled(w, Respond)
    ensures CancelsHonoured(Step(w, Respond))
  {
    LeadIsNext(w);
    var w' := Step(w, Respond);
    forall x | x in w'.s.answers ensures Honest(x, w'.dispatched, w'.early) {
    }
  }

  lemma FlagHonours(w: World, a: Action)
    requires Conserved(w) && CancelsHonoured(w) && Enabled(w, a) && (a.CancelFlag? || a.FlagPending?)
    ensures CancelsHonoured(Step(w, a))
  {
    var w' := Step(w, a);
    forall id | id in w'.early && id !in w.early ensures Checked(w) <= id && id in w'.s.flagged {
      if a.CancelFlag? {
        UncheckedIsLater(w, w.reader.call);
      } else {
        var k :| k in w.s.pending && Unchecked(w, w.s.pending[k]) && id == w.s.pending[k].id;
        UncheckedIsLater(w, w.s.pending[k]);
      }
    }
    forall x | x in w'.s.answers ensures Honest(x, w'.dispatched, w'.early) {
      var i :| 0 <= i < |w.s.answers| && w.s.answers[i] == x;
      assert x.call == w.accepted[i];
    }
  }

  lemma StepHonours(w: World, a: Action)
    requires Conserved(w) && CancelsHonoured(w) && Enabled(w, a)
    ensures CancelsHonoured(Step(w, a))
  {
    if a.Check? {
      CheckHonours(w);
    } else if a.Respond? {
      RespondHonours(w);
    } else if a.CancelFlag? || a.FlagPending? {
      FlagHonours(w, a);
    }
  }

  // ---------------------------------------------------------------- all runs

  /** An open server has no end marker in its queue, and its worker is there. */
  predicate OpenIsServed(w: World) {
    !w.s.closed ==> None !in w.s.queue && !w.worker.Gone?
  }

  ghost predicate Inv(w: World) {
    Conserved(w) && PendingExact(w) && CancelsHonoured(w) && OpenIsServed(w)
  }

  lemma StepKeepsServed(w: World, a: Action)
    requires OpenIsServed(w) && Enabled(w, a)
    ensures OpenIsServed(Step(w, a))
  {
  }

  lemma StepKeepsInv(w: World, a: Action)
    requires Inv(w) && Enabled(w, a)
    ensures Inv(Step(w, a))
  {
    StepConserves(w, a);
    StepKeepsPendingExact(w, a);
    StepHonours(w, a);
    StepKeepsServed(w, a);
  }

  predicate Possible(w: World, acts: seq<Action>)
    decreases |acts|, 0
  {
    acts == [] ||
    (Possible(w, acts[..|acts| - 1]) && Enabled(Exec(w, acts[..|acts| - 1]), acts[|acts| - 1]))
  }

  function Exec(w: World, acts: seq<Action>): World
    requires Possible(w, acts)
    decreases |acts|, 1
  {
    if acts == [] then w else Step(Exec(w, acts[..|acts| - 1]), acts[|acts| - 1])
  }

  lemma {:induction false} ExecKeepsInv(w: World, acts: seq<Action>)
    requires Inv(w) && Possible(w, acts)
    ensures Inv(Exec(w, acts))
  {
    if acts != [] {
      ExecKeepsInv(w, acts[..|acts| - 1]);
      StepKeepsInv(Exec(w, acts[..|acts| - 1]), acts[|acts| - 1]);
    }
  }

  lemma InitialInv()
    ensures Inv(Initial)
  {
  }

  /** In every interleaving the answers are a prefix of the accepted calls, each answered once
      and in order; a call cancelled before the worker checked it never reaches the helper; and
      a mutating call that was flagged when its result was checked is not answered with it. */
  lemma QueueSafety(acts: seq<Action>)
    requires Possible(Initial, acts)
    ensures var w := Exec(Initial, acts);
      && |w.s.answers| <= |w.accepted|
      && (forall i | 0 <= i < |w.s.answers| :: w.s.answers[i].call == w.accepted[i])
      && (forall c | c in w.dispatched :: c.id !in w.early)
      && (forall x | x in w.s.answers && x.flagged && x.call.mutating :: x.reply != Result && x.reply != Failed)
  {
    InitialInv();
    ExecKeepsInv(Initial, acts);
  }

  /** A request id is refused as a duplicate exactly while a call with it is held: also after
      its answer was written, until the worker has dropped it. */
  lemma RefusedExactlyWhileHeld(acts: seq<Action>, key: string)
    requires Possible(Initial, acts)
    ensures var w := Exec(Initial, acts); key in w.s.pending <==> exists c :: c in Held(w) && c.key == key
  {
    InitialInv();
    ExecKeepsInv(Initial, acts);
    var w := Exec(Initial, acts);
    if key in w.s.pending {
      assert w.s.pending[key] in Held(w);
    }
  }

  // ---------------------------------------------------------------- the worker left alone

  /** What the worker does next; `fate` says how the helper ends each call. */
  function WorkerAction(w: World, fate: Call -> Outcome): Action {
    match w.worker
    case AtTop => Top
    case Waiting => Get
    case Got(_) => Check
    case Running(c) => Finish(fate(c))
    case Finished(_, _) => Respond
    case Done(_) => Drop
    case Gone => Top
  }

  function Rank(w: Worker): nat {
    match w
    case AtTop => 1
    case Waiting => 0
    case Got(_) => 5
    case Running(_) => 4
    case Finished(_, _) => 3
    case Done(_) => 2
    case Gone => 0
  }

  predicate CanGoOn(w: World) {
    !w.s.closed && None !in w.s.queue && !w.worker.Gone? && (w.worker.Waiting? ==> w.s.queue != [])
  }

  function WorkerStep(w: World, fate: Call -> Outcome): (v: World)
    requires CanGoOn(w)
    ensures !v.s.closed && None !in v.s.queue && !v.worker.Gone?
    ensures v.reader == w.reader && v.accepted == w.accepted
    ensures |v.s.queue| < |w.s.queue| || (v.s.queue == w.s.queue && Rank(v.worker) < Rank(w.worker))
  {
    Step(w, WorkerAction(w, fate))
  }

  /** The worker of an open server, left alone until it waits on an empty queue. */
  function Drain(w: World, fate: Call -> Outcome): World
    requires !w.s.closed && None !in w.s.queue && !w.worker.Gone?
    decreases |w.s.queue|, Rank(w.worker)
  {
    if !CanGoOn(w) then w else Drain(WorkerStep(w, fate), fate)
  }

  lemma WorkerStepKeepsInv(w: World, fate: Call -> Outcome)
    requires Inv(w) && CanGoOn(w)
    ensures Inv(WorkerStep(w, fate))
  {
    StepKeepsInv(w, WorkerAction(w, fate));
  }

  lemma IdleHasAnsweredAll(w: World)
    requires Inv(w) && w.worker.Waiting? && w.s.queue == [] && !w.reader.Enqueuing?
    ensures |w.s.answers| == |w.accepted| && w.s.pending == map[]
  {
    assert Outstanding(w) == [] && Held(w) == [];
  }

  /** While the server is open, the worker answers every accepted call, whatever becomes of
      each, and then holds no request id. */
  lemma {:induction false} OpenServerAnswersAll(w: World, fate: Call -> Outcome)
    requires Inv(w) && !w.s.closed && !w.reader.Enqueuing?
    ensures var d := Drain(w, fate);
      d.accepted == w.accepted && |d.s.answers| == |d.accepted| && d.s.pending == map[]
    decreases |w.s.queue|, Rank(w.worker)
  {
    if !CanGoOn(w) {
      IdleHasAnsweredAll(w);
    } else {
      WorkerStepKeepsInv(w, fate);
      OpenServerAnswersAll(WorkerStep(w, fate), fate);
    }
  }

  // ---------------------------------------------------------------- the server itself

  ghost predicate Reached(w: World) {
    exists acts :: Possible(Initial, acts) && Exec(Initial, acts) == w
  }

  lemma ReachedNext(w: World, a: Action)
    requires Reached(w) && Enabled(w, a)
    ensures Reached(Step(w, a))
  {
    var acts :| Possible(Initial, acts) && Exec(Initial, acts) == w;
    assert (acts + [a])[..|acts|] == acts;
    assert Possible(Initial, acts + [a]) && Exec(Initial, acts + [a]) == Step(w, a);
  }

  lemma ReachedInv(w: World)
    requires Reached(w)
    ensures Inv(w)
  {
    var acts :| Possible(Initial, acts) && Exec(Initial, acts) == w;
    InitialInv();
    ExecKeepsInv(Initial, acts);
  }

  /** A message of the client, or the closing of its stream. */
  datatype Message = ToolCall(key: string, mutating: bool) | Cancel(key: string) | Shutdown

  class McpServer {
    var pending: map<string, Call>
    var queue: seq<Option<Call>>
    var closed: bool
    var flagged: set<nat>
    var answers: seq<Answer>
    var nextId: nat

    constructor ()
      ensures State() == Initial.s && nextId == 0
    {
      pending, queue, closed, flagged, answers, nextId := map[], [], false, {}, [], 0;
    }

    function State(): Shared
      reads this
    {
      Shared(pending, queue, closed, flagged, answers)
    }

    /** The server is in the reachable state `w`. */
    ghost predicate At(w: World)
      reads this
    {
      Reached(w) && w.s == State() && |w.accepted| == nextId
    }

    /** Accepts a call unless its id is in use; the table is updated before the queue. */
    method EnqueueToolCall(key: string, mutating: bool, ghost w: World) returns (accepted: bool, ghost w': World)
      requires At(w) && w.reader.Idle?
      modifies this
      ensures At(w') && w'.reader.Idle? && w'.worker == w.worker
      ensures accepted <==> key !in old(pending)
      ensures !accepted ==> w' == w
      ensures accepted ==> w' == Step(Step(w, Accept(key, mutating)), Put)
    {
      if key in pending {
        return false, w;
      }
      var call := Call(nextId, key, mutating);
      nextId := nextId + 1;
      pending := pending[key := call];
      ReachedNext(w, Accept(key, mutating));
      w' := Step(w, Accept(key, mutating));
      queue := queue + [Some(call)];
      ReachedNext(w', Put);
      w' := Step(w', Put);
      return true, w';
    }

    method CancelCall(key: string, ghost w: World) returns (ghost w': World)
      requires At(w) && w.reader.Idle?
      modifies this
      ensures At(w') && w'.reader.Idle? && w'.worker == w.worker
      ensures if key in old(pending) then w' == Step(Step(w, CancelLookup(key)), CancelFlag) else w' == w
    {
      w' := w;
      if key !in pending {
        return;
      }
      var call := pending[key];
      ReachedNext(w, CancelLookup(key));
      w' := Step(w, CancelLookup(key));
      flagged := flagged + {call.id};
      ReachedNext(w', CancelFlag);
      w' := Step(w', CancelFlag);
    }

    method CloseServer(ghost w: World) returns (ghost w': World)
      requires At(w)
      modifies this
      ensures At(w') && w'.reader == w.reader && w'.worker == w.worker && closed
      ensures if old(closed) then w' == w else w' == Step(Step(Step(w, Close), FlagPending), PutSentinel)
    {
      w' := w;
      if closed {
        return;
      }
      closed := true;
      ReachedNext(w', Close);
      w' := Step(w', Close);
      flagged := flagged + set k | k in pending :: pending[k].id;
      ReachedNext(w', FlagPending);
      w' := Step(w', FlagPending);
      queue := queue + [None];
      ReachedNext(w', PutSentinel);
      w' := Step(w', PutSentinel);
    }

    /** The reader and the closers act while the worker is between two of its steps. */
    method Receive(messages: seq<Message>, ghost w: World) returns (ghost w': World)
      requires At(w) && w.reader.Idle?
      modifies this
      ensures At(w') && w'.reader.Idle? && w'.worker == w.worker
      ensures answers == old(answers) && (messages == [] ==> queue == old(queue))
    {
      w' := w;
      for i := 0 to |messages|
        invariant At(w') && w'.reader.Idle? && w'.worker == w.worker
        invariant answers == old(answers) && (messages == [] ==> queue == old(queue))
      {
        match messages[i] {
          case ToolCall(key, mutating) => var _, next := EnqueueToolCall(key, mutating, w'); w' := next;
          case Cancel(key) => w' := CancelCall(key, w');
          case Shutdown => w' := CloseServer(w');
        }
      }
    }

    method Write(call: Call, reply: Reply, wasFlagged: bool)
      modifies this`answers
      ensures answers == old(answers) + [Answer(call, reply, wasFlagged)]
    {
      answers := answers + [Answer(call, reply, wasFlagged)];
    }

    /** The helper runs while messages keep arriving. */
    method RunHelper(call: Call, outcome: Outcome, during: seq<Message>, ghost w: World) returns (ghost w': World)
      requires At(w) && w.reader.Idle? && w.worker == Running(call)
      modifies this
      ensures At(w') && w'.reader.Idle? && w'.worker == Finished(call, outcome)
      ensures |answers| == |old(answers)|
      ensures during == [] ==> queue == old(queue)
    {
      w' := Receive(during, w);
      ReachedInv(w);
      ReachedInv(w');
      LeadIsNext(w);
      LeadIsNext(w');
      ReachedNext(w', Finish(outcome));
      w' := Step(w', Finish(outcome));
    }

    /** Runs one call unless it was cancelled, and writes exactly one answer to it. */
    method ExecuteCall(call: Call, outcome: Outcome, during: seq<Message>, ghost w: World) returns (ghost w': World)
      requires At(w) && w.reader.Idle? && w.worker == Got(call)
      modifies this
      ensures At(w') && w'.reader.Idle? && w'.worker == Done(call)
      ensures |answers| == |old(answers)| + 1 && answers[|answers| - 1].call == call
      ensures call.id in old(flagged) ==> answers[|answers| - 1] == Answer(call, CancelledBeforeStart, true)
      ensures call.id !in old(flagged) ==>
        var flag, x := call.id in flagged, answers[|answers| - 1];
        && x.flagged == flag
        && (outcome == Returned && !flag ==> x.reply == Result)
        && (outcome == Returned && flag && !call.mutating ==> x.reply == Cancelled)
        && (outcome == Returned && flag && call.mutating ==> x.reply == MustReinspect)
        && (outcome != Returned && flag && call.mutating ==> x.reply == Indeterminate)
        && (outcome != Returned && !(flag && call.mutating) ==> x.reply == Failed)
      ensures during == [] ==> queue == old(queue)
    {
      ReachedNext(w, Check);
      w' := Step(w, Check);
      if call.id in flagged {
        Write(call, CancelledBeforeStart, true);
        return;
      }
      w' := RunHelper(call, outcome, during, w');
      var wasFlagged := call.id in flagged;
      if outcome == Returned {
        if wasFlagged {
          Write(call, if call.mutating then MustReinspect else Cancelled, wasFlagged);
        } else {
          Write(call, Result, wasFlagged);
        }
      } else if wasFlagged && call.mutating {
        Write(call, Indeterminate, wasFlagged);
      } else {
        Write(call, Failed, wasFlagged);
      }
      ReachedNext(w', Respond);
      w' := Step(w', Respond);
    }

    /** Waits for the queue to be filled. */
    method Await(script: seq<seq<Message>>, i: nat, ghost w: World) returns (j: nat, ghost w': World)
      requires At(w) && w.reader.Idle? && w.worker.Waiting? && i <= |script|
      modifies this
      ensures At(w') && w'.reader.Idle? && w'.worker.Waiting? && i <= j <= |script|
      ensures queue == [] ==> j == |script|
      ensures j == i ==> queue == old(queue)
    {
      w', j := w, i;
      while queue == [] && j < |script|
        invariant At(w') && w'.reader.Idle? && w'.worker.Waiting? && i <= j <= |script|
        invariant j == i ==> queue == old(queue)
        decreases |script| - j
      {
        w' := Receive(script[j], w');
        j := j + 1;
      }
    }

    /** Takes the first item of the queue; a call is executed and its id freed, an end marker
        ends the worker. */
    method TakeItem(fate: Call -> Outcome, during: seq<Message>, ghost w: World) returns (alive: bool, ghost w': World)
      requires At(w) && w.reader.Idle? && w.worker.Waiting? && queue != []
      modifies this
      ensures At(w') && w'.reader.Idle? && (if alive then w'.worker.AtTop? else w'.worker.Gone?)
      ensures alive <==> old(queue)[0].Some?
      ensures !alive || during == [] ==> queue == old(queue)[1..]
    {
      var item := queue[0];
      queue := queue[1..];
      ReachedNext(w, Get);
      w' := Step(w, Get);
      if item.None? {
        return false, w';
      }
      w' := ExecuteCall(item.value, fate(item.value), during, w');
      pending := pending - {item.value.key};
      ReachedNext(w', Drop);
      w' := Step(w', Drop);
      return true, w';
    }

    /** The worker loop against a finite script of messages and helper outcomes. It ends when
        the server is closed, or waits on an empty queue having answered every call. */
    method CallWorker(script: seq<seq<Message>>, fate: Call -> Outcome, ghost w: World) returns (ghost w': World)
      requires At(w) && w.reader.Idle? && w.worker.AtTop?
      modifies this
      ensures At(w')
      ensures w'.worker.Gone? || (w'.worker.Waiting? && queue == [])
      ensures !closed ==> |answers| == nextId && pending == map[]
    {
      w' := w;
      var i, alive := 0, true;
      while alive
        invariant At(w') && w'.reader.Idle? && i <= |script|
        invariant if alive then w'.worker.AtTop? else w'.worker.Gone? || (w'.worker.Waiting? && queue == [])
        decreases |script| - i, |queue|, alive
      {
        ReachedNext(w', Top);
        w' := Step(w', Top);
        if closed {
          alive := false;
        } else {
          i, w' := Await(script, i, w');
          if queue == [] {
            alive := false;
          } else if i < |script| {
            alive, w' := TakeItem(fate, script[i], w');
            i := i + 1;
          } else {
            alive, w' := TakeItem(fate, [], w');
          }
        }
      }
      ReachedInv(w');
      if !closed {
        assert Outstanding(w') == [] && Held(w') == [];
      }
    }
  }
}
