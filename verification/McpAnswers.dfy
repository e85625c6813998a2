/** What the answers of the Computer Use queue say, call by call and over all runs. */
module McpAnswers {
  import opened McpQueue

  /** An answer tells what happened: whether the call was cancelled before it was answered, and
      what its helper came to, if it was started at all. */
  ghost predicate Told(x: Answer, outcomes: map<nat, Outcome>, inTime: set<nat>) {
    var id := x.call.id;
    && (x.flagged <==> id in inTime)
    && (x.reply == CancelledBeforeStart <==> id !in outcomes)
    && (id !in outcomes ==> id in inTime)
    && (id in outcomes ==>
          && (x.reply == Result <==> outcomes[id] == Returned && id !in inTime)
          && (x.reply == Cancelled <==> outcomes[id] == Returned && id in inTime && !x.call.mutating)
          && (x.reply == MustReinspect <==> outcomes[id] == Returned && id in inTime && x.call.mutating)
          && (x.reply == Indeterminate <==> outcomes[id] != Returned && id in inTime && x.call.mutating)
          && (x.reply == Failed <==> outcomes[id] != Returned && !(id in inTime && x.call.mutating)))
  }

  ghost predicate AllTold(w: World) {
    forall x | x in w.s.answers :: Told(x, w.outcomes, w.inTime)
  }

  /** The flag of an unanswered call is up exactly if it came in time. */
  ghost predicate FlagsInTime(w: World) {
    forall c | c in Outstanding(w) :: c.id in w.inTime <==> c.id in w.s.flagged
  }

  /** Outcomes belong to answered calls, or to the one about to be answered. */
  ghost predicate OutcomesOfTheirs(w: World) {
    && (forall id | id in w.outcomes :: id < |w.s.answers| || (w.worker.Finished? && id == w.worker.call.id))
    && (w.worker.Finished? ==>
          w.worker.call.id in w.outcomes && w.outcomes[w.worker.call.id] == w.worker.outcome)
  }

  ghost predicate IsAccepted(w: World, c: Call) {
    c.id < |w.accepted| && w.accepted[c.id] == c
  }

  /** Flags belong to accepted calls. */
  ghost predicate FlagsOfAccepted(w: World) {
    && (forall id | id in w.s.flagged || id in w.inTime :: id < |w.accepted|)
    && (forall k | k in w.s.pending :: IsAccepted(w, w.s.pending[k]))
    && (w.reader.Cancelling? ==> IsAccepted(w, w.reader.call))
  }

  ghost predicate AnswersExact(w: World) {
    AllTold(w) && FlagsInTime(w) && OutcomesOfTheirs(w) && FlagsOfAccepted(w)
  }

  lemma OutstandingIsLater(w: World, c: Call)
    requires Conserved(w) && c in Outstanding(w)
    ensures |w.s.answers| <= c.id && IsAccepted(w, c)
  {
    var i :| 0 <= i < |Outstanding(w)| && Outstanding(w)[i] == c;
    assert w.accepted[|w.s.answers| + i] == c;
  }

  lemma AnsweredIsEarlier(w: World, x: Answer)
    requires Conserved(w) && x in w.s.answers
    ensures x.call.id < |w.s.answers|
  {
    var i :| 0 <= i < |w.s.answers| && w.s.answers[i] == x;
    assert w.accepted[i].id == i;
  }

  lemma FlagsStayOfAccepted(w: World, a: Action)
    requires FlagsOfAccepted(w) && Enabled(w, a)
    ensures FlagsOfAccepted(Step(w, a))
  {
  }

  lemma OutcomesStayTheirs(w: World, a: Action)
    requires Conserved(w) && OutcomesOfTheirs(w) && Enabled(w, a)
    ensures OutcomesOfTheirs(Step(w, a))
  {
    if a.Respond? || a.Check? || a.Finish? {
      LeadIsNext(w);
    }
  }

  lemma FlagsStayInTime(w: World, a: Action)
    requires Conserved(w) && FlagsInTime(w) && FlagsOfAccepted(w) && Enabled(w, a)
    ensures FlagsInTime(Step(w, a))
  {
    var w' := Step(w, a);
    OutstandingMoves(w, a);
    forall c | c in Outstanding(w') ensures c.id in w'.inTime <==> c.id in w'.s.flagged {
      if a.Accept? && c !in Outstanding(w) {
        assert c.id == |w.accepted|;
      } else {
        assert c in Outstanding(w);
        SameIdSameCall(w, a, c);
      }
    }
  }

  /** Flagging changes nothing for an outstanding call but through its own flag. */
  lemma SameIdSameCall(w: World, a: Action, c: Call)
    requires Conserved(w) && FlagsInTime(w) && FlagsOfAccepted(w) && Enabled(w, a) && c in Outstanding(w)
    ensures c.id in Step(w, a).inTime <==> c.id in Step(w, a).s.flagged
  {
    OutstandingIsLater(w, c);
  }

  lemma AllStayTold(w: World, a: Action)
    requires Conserved(w) && AnswersExact(w) && Enabled(w, a)
    ensures AllTold(Step(w, a))
  {
    var w' := Step(w, a);
    forall x | x in w'.s.answers ensures Told(x, w'.outcomes, w'.inTime) {
      if x in w.s.answers {
        OldStaysTold(w, a, x);
      } else {
        NewIsTold(w, a, x);
      }
    }
  }

  lemma OldStaysTold(w: World, a: Action, x: Answer)
    requires Conserved(w) && AnswersExact(w) && Enabled(w, a) && x in w.s.answers
    ensures Told(x, Step(w, a).outcomes, Step(w, a).inTime)
  {
    AnsweredIsEarlier(w, x);
    if a.Finish? {
      LeadIsNext(w);
    }
    forall c | c in Outstanding(w) ensures c.id != x.call.id {
      OutstandingIsLater(w, c);
    }
  }

  lemma NewIsTold(w: World, a: Action, x: Answer)
    requires Conserved(w) && AnswersExact(w) && Enabled(w, a)
    requires x in Step(w, a).s.answers && x !in w.s.answers
    ensures Told(x, Step(w, a).outcomes, Step(w, a).inTime)
  {
    LeadIsNext(w);
    assert x.call == w.worker.call && w.worker.call == Outstanding(w)[0];
  }

  lemma StepKeepsExact(w: World, a: Action)
    requires Conserved(w) && AnswersExact(w) && Enabled(w, a)
    ensures AnswersExact(Step(w, a))
  {
    FlagsStayOfAccepted(w, a);
    OutcomesStayTheirs(w, a);
    FlagsStayInTime(w, a);
    AllStayTold(w, a);
  }

  lemma {:induction false} RunKeepsExact(w: World, acts: seq<Action>)
    requires Inv(w) && AnswersExact(w) && Possible(w, acts)
    ensures AnswersExact(Exec(w, acts))
  {
    if acts != [] {
      RunKeepsExact(w, acts[..|acts| - 1]);
      ExecKeepsInv(w, acts[..|acts| - 1]);
      StepKeepsExact(Exec(w, acts[..|acts| - 1]), acts[|acts| - 1]);
    }
  }

  /** In every interleaving, every answer is the one that its call's history demands: cancelled
      before start exactly if the helper was never started, which takes a cancellation in time;
      the result exactly if the helper returned and no cancellation came in time; a cancelled or
      uncertain result exactly if one did; and a failure, uncertain exactly for a mutating call
      cancelled in time. */
  lemma EveryAnswerIsExact(acts: seq<Action>, x: Answer)
    requires Possible(Initial, acts) && x in Exec(Initial, acts).s.answers
    ensures Told(x, Exec(Initial, acts).outcomes, Exec(Initial, acts).inTime)
  {
    InitialInv();
    RunKeepsExact(Initial, acts);
  }
}
