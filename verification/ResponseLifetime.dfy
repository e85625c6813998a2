/** The lease a request takes on the provider runtime, and the cleanup of a streaming response
    that releases it: one task, awaited by any number of callers that may all be cancelled. */
module ResponseLifetime {
  import opened Common

  /** How an awaited operation ends: normally, with an ordinary exception, or cancelled. */
  datatype Outcome = Fine | Fault | Cancel

  // ---------------------------------------------------------------- cleanup as a protocol

  /** The cleanup task: not made, made but not begun, closing the body, releasing the lease, or
      done. */
  datatype Task = Unmade | Made | Closing | Releasing | Finished(cancelled: bool)

  /** A caller of `aclose`, or the end of a call of the response. */
  datatype Waiter = Awaiting(cancelled: bool) | Ended(raisesCancel: bool)

  /** `closes` and `releases` count the attempts; `bodyCancelled` records that closing the body
      ended in a cancellation, and `killed` that the task was cancelled before it began. */
  datatype Lifetime = Lifetime(
    bound: bool, task: Task, waiters: map<nat, Waiter>, closes: nat, releases: nat, bodyCancelled: bool, killed: bool)

  const Fresh := Lifetime(false, Unmade, map[], 0, 0, false, false)

  datatype Action =
    | Bind
    | Enter(caller: nat)
    | CancelCaller(caller: nat)
    | Kill
    | Begin
    | BodyCloses(outcome: Outcome)
    | LeaseReleases(outcome: Outcome)
    | Wake(caller: nat)

  /** A caller can be cancelled as long as it is suspended, also when the task has just ended;
      only the shutdown of the event loop cancels the task itself. */
  predicate Enabled(l: Lifetime, a: Action) {
    match a
    case Bind => true
    case Enter(c) => c !in l.waiters
    case CancelCaller(c) => c in l.waiters && l.waiters[c].Awaiting?
    case Kill => l.task.Made?
    case Begin => l.task.Made?
    case BodyCloses(_) => l.task.Closing?
    case LeaseReleases(_) => l.task.Releasing?
    case Wake(c) => c in l.waiters && l.waiters[c].Awaiting? && l.task.Finished?
  }

  /** A bind is accepted once, and only before cleanup has started. */
  predicate BindAccepted(l: Lifetime) {
    !l.bound && l.task.Unmade?
  }

  /** A caller that finds the task done does not wait for it. */
  function Step(l: Lifetime, a: Action): Lifetime
    requires Enabled(l, a)
  {
    match a
    case Bind => if BindAccepted(l) then l.(bound := true) else l
    case Enter(c) =>
      if l.task.Finished? then l.(waiters := l.waiters[c := Ended(l.task.cancelled)])
      else l.(task := if l.task.Unmade? then Made else l.task, waiters := l.waiters[c := Awaiting(false)])
    case CancelCaller(c) => l.(waiters := l.waiters[c := Awaiting(true)])
    case Kill => l.(task := Finished(true), killed := true)
    case Begin => l.(task := Closing)
    case BodyCloses(o) =>
      l.(closes := l.closes + 1, bodyCancelled := o.Cancel?,
         task := if o.Cancel? then Finished(true) else if l.bound then Releasing else Finished(false))
    case LeaseReleases(o) => l.(releases := l.releases + 1, task := Finished(o.Cancel?))
    case Wake(c) => l.(waiters := l.waiters[c := Ended(l.task.cancelled || l.waiters[c].cancelled)])
  }

  /** What every interleaving keeps. */
  ghost predicate Inv(l: Lifetime) {
    && l.releases <= 1 && l.closes <= 1
    && (l.closes == 1 <==> l.task.Releasing? || (l.task.Finished? && !l.killed))
    && (l.killed ==> l.task == Finished(true))
    && (l.task.Releasing? ==> l.bound && !l.bodyCancelled)
    && (l.bodyCancelled ==> l.closes == 1 && l.task == Finished(true))
    && (l.task.Finished? ==> (l.releases == 1 <==> l.bound && !l.bodyCancelled && !l.killed))
    && (l.releases == 1 ==> l.task.Finished?)
    && (l.task.Unmade? <==> l.waiters == map[])
    && (forall c | c in l.waiters && l.waiters[c].Ended? :: l.task.Finished?)
    && (forall c | c in l.waiters && l.waiters[c].Ended? && l.task.Finished? && l.task.cancelled ::
         l.waiters[c].raisesCancel)
  }

  predicate Possible(acts: seq<Action>)
    decreases |acts|, 0
  {
    acts == [] ||
    (Possible(acts[..|acts| - 1]) && Enabled(Exec(acts[..|acts| - 1]), acts[|acts| - 1]))
  }

  function Exec(acts: seq<Action>): Lifetime
    requires Possible(acts)
    decreases |acts|, 1
  {
    if acts == [] then Fresh else Step(Exec(acts[..|acts| - 1]), acts[|acts| - 1])
  }

  lemma StepKeepsInv(l: Lifetime, a: Action)
    requires Inv(l) && Enabled(l, a)
    ensures Inv(Step(l, a))
  {
  }

  lemma {:induction false} ExecKeepsInv(acts: seq<Action>)
    requires Possible(acts)
    ensures Inv(Exec(acts))
  {
    if acts != [] {
      ExecKeepsInv(acts[..|acts| - 1]);
      StepKeepsInv(Exec(acts[..|acts| - 1]), acts[|acts| - 1]);
    }
  }

  predicate Cancelled(acts: seq<Action>, caller: nat) {
    CancelCaller(caller) in acts
  }

  /** However many callers close the response and however often they are cancelled: the body is
      closed and the lease released at most once; no caller gets control back before cleanup has
      run to its end; the body is then closed exactly unless the task was cancelled before it
      began; and a bound lease is released exactly unless that happened or closing the body was
      itself cancelled. */
  lemma CleanupIsExactlyOnce(acts: seq<Action>, caller: nat)
    requires Possible(acts) && caller in Exec(acts).waiters && Exec(acts).waiters[caller].Ended?
    ensures var l := Exec(acts);
      && l.closes <= 1 && (l.closes == 1 <==> Kill !in acts)
      && l.releases <= 1
      && (l.releases == 1 <==> l.bound && Kill !in acts && BodyCloses(Cancel) !in acts)
  {
    ExecKeepsInv(acts);
    HistoryKept(acts);
  }

  lemma {:induction false} HistoryKept(acts: seq<Action>)
    requires Possible(acts)
    ensures Exec(acts).killed <==> Kill in acts
    ensures Exec(acts).bodyCancelled <==> BodyCloses(Cancel) in acts
  {
    if acts != [] {
      var front := acts[..|acts| - 1];
      assert acts == front + [acts[|acts| - 1]];
      ExecKeepsInv(front);
      HistoryKept(front);
    }
  }

  /** A caller sees a cancellation exactly when it was cancelled while it waited, or when the
      cleanup itself ended cancelled. */
  lemma {:induction false} CancellationIsRestored(acts: seq<Action>, caller: nat)
    requires Possible(acts) && caller in Exec(acts).waiters
    ensures var l := Exec(acts);
      match l.waiters[caller]
      case Awaiting(c) => c <==> Cancelled(acts, caller)
      case Ended(raises) => l.task.Finished? && (raises <==> Cancelled(acts, caller) || l.task.cancelled)
  {
    var front, last := acts[..|acts| - 1], acts[|acts| - 1];
    assert Cancelled(acts, caller) <==> Cancelled(front, caller) || last == CancelCaller(caller) by {
      assert acts == front + [last];
    }
    ExecKeepsInv(front);
    if caller in Exec(front).waiters {
      CancellationIsRestored(front, caller);
    } else if Cancelled(front, caller) {
      CancelledHasEntered(front, caller);
    }
  }

  /** Only a caller that has entered can have been cancelled. */
  lemma {:induction false} CancelledHasEntered(acts: seq<Action>, caller: nat)
    requires Possible(acts) && Cancelled(acts, caller)
    ensures caller in Exec(acts).waiters
  {
    var front, last := acts[..|acts| - 1], acts[|acts| - 1];
    assert acts == front + [last];
    if last != CancelCaller(caller) {
      CancelledHasEntered(front, caller);
    }
  }

  // ---------------------------------------------------------------- what may happen when

  /** A bind came before the first caller. */
  predicate BoundInTime(acts: seq<Action>)
    decreases |acts|
  {
    acts != [] &&
    (BoundInTime(acts[..|acts| - 1]) ||
     (acts[|acts| - 1] == Bind && forall a | a in acts :: !a.Enter?))
  }

  predicate SomeoneEntered(acts: seq<Action>) {
    exists a | a in acts :: a.Enter?
  }

  predicate BodyClosed(acts: seq<Action>) {
    exists a | a in acts :: a.BodyCloses?
  }

  predicate LeaseReleased(acts: seq<Action>) {
    exists a | a in acts :: a.LeaseReleases?
  }

  /** The cleanup task is over: it was cancelled before it began, closing the body was, or the
      body is closed and the lease, if there is one, released. */
  predicate CleanedUp(acts: seq<Action>) {
    || Kill in acts || BodyCloses(Cancel) in acts
    || (BodyClosed(acts) && (BoundInTime(acts) ==> LeaseReleased(acts)))
  }

  lemma {:induction false} CallersTell(acts: seq<Action>, caller: nat)
    requires Possible(acts)
    ensures caller in Exec(acts).waiters <==> Enter(caller) in acts
  {
    if acts != [] {
      assert acts == acts[..|acts| - 1] + [acts[|acts| - 1]];
      CallersTell(acts[..|acts| - 1], caller);
    }
  }

  lemma {:induction false} BindingTells(acts: seq<Action>)
    requires Possible(acts)
    ensures Exec(acts).task.Unmade? <==> !SomeoneEntered(acts)
    ensures Exec(acts).bound <==> BoundInTime(acts)
  {
    if acts != [] {
      var front, last := acts[..|acts| - 1], acts[|acts| - 1];
      assert acts == front + [last];
      BindingTells(front);
      assert SomeoneEntered(acts) <==> SomeoneEntered(front) || last.Enter?;
      assert BoundInTime(acts) <==> BoundInTime(front) || (last == Bind && !SomeoneEntered(acts));
      ExecKeepsInv(front);
      if last.Begin? || last.Kill? || last.Wake? || last.CancelCaller? {
        assert !Exec(front).task.Unmade?;
      }
    }
  }

  lemma {:induction false} BeginTells(acts: seq<Action>)
    requires Possible(acts)
    ensures var l := Exec(acts);
      Begin in acts <==> l.task.Closing? || l.task.Releasing? || (l.task.Finished? && !l.killed)
  {
    if acts != [] {
      var front, last := acts[..|acts| - 1], acts[|acts| - 1];
      assert acts == front + [last];
      ExecKeepsInv(front);
      BeginTells(front);
    }
  }

  lemma {:induction false} EndingsTell(acts: seq<Action>)
    requires Possible(acts)
    ensures Exec(acts).closes == 1 <==> BodyClosed(acts)
    ensures Exec(acts).releases == 1 <==> LeaseReleased(acts)
  {
    if acts != [] {
      var front, last := acts[..|acts| - 1], acts[|acts| - 1];
      assert acts == front + [last];
      ExecKeepsInv(front);
      EndingsTell(front);
      assert BodyClosed(acts) <==> BodyClosed(front) || last.BodyCloses?;
      assert LeaseReleased(acts) <==> LeaseReleased(front) || last.LeaseReleases?;
    }
  }

  /** What may happen at each point of a run, and what no longer may: one task, begun or killed
      at most once and only for a caller; one attempt on the body, one on a lease that was bound
      in time, and none on the lease when closing the body was cancelled. A caller can be
      cancelled while it waits, and gets control back once the task is over. */
  lemma StepsExactly(acts: seq<Action>)
    requires Possible(acts)
    ensures var l := Exec(acts);
      && Enabled(l, Bind)
      && (forall c :: Enabled(l, Enter(c)) <==> Enter(c) !in acts)
      && (Enabled(l, Kill) <==> SomeoneEntered(acts) && Begin !in acts && Kill !in acts)
      && (Enabled(l, Begin) <==> SomeoneEntered(acts) && Begin !in acts && Kill !in acts)
      && (forall o :: Enabled(l, BodyCloses(o)) <==> Begin in acts && !BodyClosed(acts))
      && (forall o :: Enabled(l, LeaseReleases(o)) <==>
            BodyClosed(acts) && BodyCloses(Cancel) !in acts && BoundInTime(acts) && !LeaseReleased(acts))
      && (forall c :: Enabled(l, CancelCaller(c)) <==> Enter(c) in acts && l.waiters[c].Awaiting?)
      && (forall c :: Enabled(l, Wake(c)) <==> Enter(c) in acts && l.waiters[c].Awaiting? && CleanedUp(acts))
  {
    ExecKeepsInv(acts);
    HistoryKept(acts);
    forall c ensures c in Exec(acts).waiters <==> Enter(c) in acts {
      CallersTell(acts, c);
    }
    BindingTells(acts);
    BeginTells(acts);
    EndingsTell(acts);
  }

  /** Whatever has happened, a waiting caller can still get control back, without the task being
      killed or anyone being cancelled. */
  lemma {:induction false} CallersGetBack(acts: seq<Action>, caller: nat) returns (more: seq<Action>)
    requires Possible(acts) && caller in Exec(acts).waiters
    ensures Possible(acts + more) && caller in Exec(acts + more).waiters && Exec(acts + more).waiters[caller].Ended?
    ensures forall a | a in more :: a == Begin || a == BodyCloses(Fine) || a == LeaseReleases(Fine) || a == Wake(caller)
    decreases var l := Exec(acts);
      if l.waiters[caller].Ended? then 0 else match l.task
        case Unmade => 5
        case Made => 4
        case Closing => 3
        case Releasing => 2
        case Finished(_) => 1
  {
    var l := Exec(acts);
    if l.waiters[caller].Ended? {
      more := [];
      assert acts + [] == acts;
    } else {
      ExecKeepsInv(acts);
      var next := match l.task
        case Made => Begin
        case Closing => BodyCloses(Fine)
        case Releasing => LeaseReleases(Fine)
        case _ => Wake(caller);
      assert (acts + [next])[..|acts|] == acts;
      var rest := CallersGetBack(acts + [next], caller);
      more := [next] + rest;
      assert acts + more == (acts + [next]) + rest;
    }
  }

  // ---------------------------------------------------------------- leases and responses

  class Lease {
    var releases: nat

    constructor ()
      ensures releases == 0
    {
      releases := 0;
    }

    method Release(o: Outcome) returns (result: Outcome)
      modifies this
      ensures releases == old(releases) + 1 && result == o
    {
      releases := releases + 1;
      return o;
    }
  }

  /** How the outside treats one close: how often a waiting caller is cancelled before the task
      is done, whether once more before it notices, whether the task is cancelled before it
      begins, and how closing the body and releasing the lease end. */
  datatype Closure = Closure(cancellations: nat, late: bool, killed: bool, body: Outcome, lease: Outcome)

  /** The cleanup stops short of the lease. */
  predicate StopsShort(c: Closure) {
    c.killed || c.body.Cancel?
  }

  /** A close as a run of the protocol, from the bind to the end of the task. */
  function Script(bound: bool, c: Closure): seq<Action> {
    (if bound then [Bind] else []) + [Enter(0)]
    + (if c.killed then [Kill] else [Begin, BodyCloses(c.body)])
    + (if !bound || c.killed || c.body.Cancel? then [] else [LeaseReleases(c.lease)])
  }

  lemma Snoc(acts: seq<Action>, a: Action)
    requires Possible(acts) && Enabled(Exec(acts), a)
    ensures Possible(acts + [a]) && Exec(acts + [a]) == Step(Exec(acts), a)
  {
    assert (acts + [a])[..|acts|] == acts;
  }

  /** A close is a run of the protocol: the body is closed unless the task was killed, the lease
      released unless the cleanup stopped short of it, and the task ends cancelled exactly if it
      stopped short or releasing was cancelled. */
  lemma ClosureIsARun(bound: bool, c: Closure)
    ensures Possible(Script(bound, c))
    ensures var l := Exec(Script(bound, c));
      && l.bound == bound && l.task == Finished(StopsShort(c) || (bound && c.lease.Cancel?))
      && l.closes == (if c.killed then 0 else 1) && l.releases == if bound && !StopsShort(c) then 1 else 0
  {
    var acts := if bound then [Bind] else [];
    if bound {
      Snoc([], Bind);
      assert [] + [Bind] == [Bind];
    }
    Snoc(acts, Enter(0));
    acts := acts + [Enter(0)];
    if c.killed {
      Snoc(acts, Kill);
      assert Script(bound, c) == acts + [Kill];
    } else {
      Snoc(acts, Begin);
      acts := acts + [Begin];
      Snoc(acts, BodyCloses(c.body));
      acts := acts + [BodyCloses(c.body)];
      if bound && !c.body.Cancel? {
        Snoc(acts, LeaseReleases(c.lease));
        assert Script(bound, c) == acts + [LeaseReleases(c.lease)];
      } else {
        assert Script(bound, c) == acts;
      }
    }
  }

  class ManagedResponse {
    var release: Option<Lease>
    var task: Task
    var closes: nat

    constructor ()
      ensures release == None && task == Unmade && closes == 0
    {
      release, task, closes := None, Unmade, 0;
    }

    ghost function Owned(): set<object>
      reads this
    {
      {this} + if release.Some? then {release.value} else {}
    }

    /** The lease has been released once if cleanup got that far, and otherwise not at all. */
    ghost predicate Sound(stoppedShort: bool)
      reads Owned()
    {
      && (task.Unmade? || task.Finished?)
      && (task.Unmade? ==> closes == 0) && closes <= 1
      && (release.Some? ==> release.value.releases == if task.Finished? && !stoppedShort then 1 else 0)
    }

    /** A response retains one lease, bound before its cleanup starts. */
    method BindRelease(lease: Lease) returns (ok: bool)
      modifies this`release
      ensures ok <==> old(release).None? && task.Unmade?
      ensures release == if ok then Some(lease) else old(release)
    {
      if release.Some? {
        return false;
      }
      if !task.Unmade? {
        return false;
      }
      release := Some(lease);
      return true;
    }

    /** The cleanup task, from its first step to its end. */
    method Cleanup(c: Closure)
      requires task.Made?
      modifies Owned()
      ensures release == old(release) && closes == old(closes) + if c.killed then 0 else 1
      ensures task == Finished(StopsShort(c) || (release.Some? && c.lease.Cancel?))
      ensures release.Some? ==>
        release.value.releases == old(release.value.releases) + if StopsShort(c) then 0 else 1
    {
      if c.killed {
        task := Finished(true);
        return;
      }
      closes := closes + 1;
      if c.body.Cancel? {
        task := Finished(true);
        return;
      }
      if release.None? {
        task := Finished(false);
        return;
      }
      var o := release.value.Release(c.lease);
      task := Finished(o.Cancel?);
    }

    /** Waits through every cancellation of the caller, then restores it. */
    method WaitForCleanup(c: Closure) returns (cancelled: bool)
      requires task.Made? || task.Finished?
      modifies Owned()
      ensures release == old(release) && task.Finished?
      ensures old(task).Finished? ==> task == old(task) && closes == old(closes)
      ensures old(task).Made? ==> closes == old(closes) + if c.killed then 0 else 1
      ensures old(task).Made? ==> task == Finished(StopsShort(c) || (release.Some? && c.lease.Cancel?))
      ensures release.Some? ==>
        release.value.releases == old(release.value.releases) + if old(task).Made? && !StopsShort(c) then 1 else 0
      ensures cancelled <==> task.cancelled || (old(task).Made? && (c.cancellations > 0 || c.late))
    {
      cancelled := false;
      var pending := c.cancellations;
      while !task.Finished?
        invariant release == old(release) && 0 <= pending <= c.cancellations
        invariant task.Made? || task.Finished?
        invariant task.Made? || old(task).Finished? ==> task == old(task) && closes == old(closes)
        invariant old(task).Finished? ==> !cancelled
        invariant task.Made? ==> (cancelled <==> pending < c.cancellations)
        invariant old(task).Made? && task.Finished? ==>
          && closes == old(closes) + (if c.killed then 0 else 1)
          && task == Finished(StopsShort(c) || (release.Some? && c.lease.Cancel?))
          && (cancelled <==> c.cancellations > 0 || c.late)
        invariant release.Some? ==>
          release.value.releases ==
            old(release.value.releases) + if old(task).Made? && task.Finished? && !StopsShort(c) then 1 else 0
        decreases task.Made?, pending
      {
        if pending > 0 {
          cancelled := true;
          pending := pending - 1;
        } else {
          Cleanup(c);
          cancelled := cancelled || c.late;
        }
      }
      return cancelled || task.cancelled;
    }

    /** Any number of closes act as one. */
    method Close(c: Closure, ghost stoppedShort: bool) returns (cancelled: bool, ghost stoppedShort': bool)
      requires Sound(stoppedShort)
      modifies Owned()
      ensures Sound(stoppedShort') && task.Finished? && release == old(release)
      ensures stoppedShort' == if old(task).Unmade? then StopsShort(c) else stoppedShort
    {
      stoppedShort' := stoppedShort;
      if task.Unmade? {
        task := Made;
        stoppedShort' := StopsShort(c);
      }
      cancelled := WaitForCleanup(c);
    }
  }

  // ---------------------------------------------------------------- the endpoint

  datatype Acquire = Acquired | ApplicationFailure | OtherFailure

  /** What the handler hands back for an acquired lease. */
  datatype Handled =
    | PlainResponse
    | UnmanagedStream(close: Outcome)
    | ManagedStream(response: ManagedResponse)
    | ApplicationError
    | OtherError

  datatype Created = Responded | ErrorResponse | Raised

  /** Hands the lease to a managed response, or releases it at once. */
  method BindLifetime(handled: Handled, lease: Lease, o: Outcome) returns (created: Created)
    requires handled.PlainResponse? || handled.UnmanagedStream? || handled.ManagedStream?
    modifies lease, if handled.ManagedStream? then {handled.response} else {}
    ensures !handled.ManagedStream? ==> lease.releases == old(lease.releases) + 1
    ensures handled.ManagedStream? ==> lease.releases == old(lease.releases)
    ensures handled.ManagedStream? ==>
      (created == Responded <==> old(handled.response.release).None? && old(handled.response.task).Unmade?)
    ensures handled.ManagedStream? ==>
      handled.response.task == old(handled.response.task) && handled.response.closes == old(handled.response.closes)
    ensures handled.ManagedStream? ==>
      handled.response.release == if created.Responded? then Some(lease) else old(handled.response.release)
    ensures handled.UnmanagedStream? ==> created == Raised
    ensures handled.PlainResponse? ==> created == if o.Fine? then Responded else Raised
  {
    if handled.ManagedStream? {
      var ok := handled.response.BindRelease(lease);
      return if ok then Responded else Raised;
    }
    var result := lease.Release(o);
    return if handled.PlainResponse? && result.Fine? then Responded else Raised;
  }

  /** One request of either endpoint, up to the response it hands to the server. */
  method CreateResponse(acquire: Acquire, handled: Handled, o: Outcome) returns (created: Created, lease: Option<Lease>)
    modifies if handled.ManagedStream? then {handled.response} else {}
    ensures lease.Some? <==> acquire.Acquired?
    ensures lease.Some? ==> fresh(lease.value)
    ensures lease.Some? ==> lease.value.releases == if handled.ManagedStream? then 0 else 1
    ensures !acquire.Acquired? ==> created == if acquire.ApplicationFailure? then ErrorResponse else Raised
    ensures acquire.Acquired? && !handled.ManagedStream? ==>
      created == if handled.PlainResponse? && o.Fine? then Responded
                 else if handled.ApplicationError? && o.Fine? then ErrorResponse else Raised
    ensures handled.ManagedStream? && acquire.Acquired? ==>
      (created.Responded? <==> old(handled.response.release).None? && old(handled.response.task).Unmade?)
    ensures handled.ManagedStream? ==>
      handled.response.task == old(handled.response.task) && handled.response.closes == old(handled.response.closes)
    ensures handled.ManagedStream? && created.Responded? ==> lease.Some? && handled.response.release == lease
  {
    if !acquire.Acquired? {
      return if acquire.ApplicationFailure? then ErrorResponse else Raised, None;
    }
    var taken := new Lease();
    lease := Some(taken);
    if handled.ApplicationError? {
      var result := taken.Release(o);
      created := if result.Fine? then ErrorResponse else Raised;
    } else if handled.OtherError? {
      var _ := taken.Release(o);
      created := Raised;
    } else {
      created := BindLifetime(handled, taken, o);
    }
  }

  /** A request whose handler streams through a new managed response, from the acquired lease to
      the last of any number of closes: the lease is released exactly once, unless the cleanup
      stopped short of it, and then not at all. */
  method ServeStream(first: Closure, more: seq<Closure>, o: Outcome) returns (lease: Lease)
    ensures fresh(lease) && lease.releases == if first.killed || first.body.Cancel? then 0 else 1
  {
    var response := new ManagedResponse();
    var created, taken := CreateResponse(Acquired, ManagedStream(response), o);
    lease := taken.value;
    var _, stopped := response.Close(first, false);
    for i := 0 to |more|
      invariant fresh(response) && fresh(lease) && response.release == Some(lease)
      invariant response.task.Finished? && response.Sound(StopsShort(first)) && stopped == StopsShort(first)
    {
      var _, again := response.Close(more[i], stopped);
      stopped := again;
    }
  }
}
