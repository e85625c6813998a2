/** Controller fallback: which allowlisted controller may replace a failed one, and what any
    chain of replacements keeps. */
module Fallback {
  import opened Common
  import opened Capabilities

  datatype Target = Target(
    provider: string, modelRef: string, scope: string, protocol: string, window: int, capabilities: set<Capability>)

  datatype FailureKind = ContextWindowExceeded | OtherFailure(name: string)

  datatype Failed = Failed(kind: FailureKind, retryable: bool)

  datatype Attempt = Attempt(
    attempted: seq<string>, committedOutput: bool, committedTools: bool, canonical: bool, tokens: int)

  datatype FallbackPolicy = FallbackPolicy(
    allowed: seq<string>, sameSubscription: bool, crossProtocol: bool, contextFallback: bool)

  datatype Reason =
    | SameController | AlreadyCommitted | Disabled | NotAllowlisted | AlreadyAttempted | NotCanonical
    | OtherSubscription | CrossProtocol | LacksCapabilities | TooLarge | ContextFallbackDisabled
    | NotLarger | NotRetryable | Unknown | Eligible

  datatype Decision = Decision(reason: Reason, provider: Option<string>, modelRef: string)

  datatype FallbackPlan = FallbackPlan(selected: Option<Target>, decisions: seq<Decision>)

  predicate Committed(a: Attempt) {
    a.committedOutput || a.committedTools
  }

  /** What a request needs from a replacement, and what went wrong with the present controller. */
  datatype Need = Need(failure: Failed, required: set<Capability>, state: Attempt)

  /** All conditions under which `target` may replace `source`. */
  ghost predicate MayReplace(source: Target, target: Target, n: Need, p: FallbackPolicy) {
    && target.modelRef != source.modelRef
    && !Committed(n.state) && n.state.canonical
    && target.modelRef in p.allowed && target.modelRef !in n.state.attempted
    && (p.sameSubscription ==> target.scope == source.scope)
    && (!p.crossProtocol ==> target.protocol == source.protocol)
    && n.required <= target.capabilities
    && n.state.tokens <= target.window
    && if n.failure.kind.ContextWindowExceeded? then p.contextFallback && target.window > source.window
       else n.failure.retryable
  }

  /** What each reason says, by itself. */
  ghost predicate Obstructs(why: Reason, source: Target, target: Target, n: Need, p: FallbackPolicy) {
    match why
    case SameController => target.modelRef == source.modelRef
    case AlreadyCommitted => n.state.committedOutput || n.state.committedTools
    case Disabled => |p.allowed| == 0
    case NotAllowlisted => target.modelRef !in p.allowed
    case AlreadyAttempted => target.modelRef in n.state.attempted
    case NotCanonical => !n.state.canonical
    case OtherSubscription => p.sameSubscription && target.scope != source.scope
    case CrossProtocol => !p.crossProtocol && target.protocol != source.protocol
    case LacksCapabilities => exists c :: c in n.required && c !in target.capabilities
    case TooLarge => n.state.tokens > target.window
    case ContextFallbackDisabled => n.failure.kind.ContextWindowExceeded? && !p.contextFallback
    case NotLarger => n.failure.kind.ContextWindowExceeded? && target.window <= source.window
    case NotRetryable => !n.failure.kind.ContextWindowExceeded? && !n.failure.retryable
    case Unknown => false
    case Eligible => false
  }

  /** The order in which the reasons are looked for. */
  const Reasons: seq<Reason> := [
    SameController, AlreadyCommitted, Disabled, NotAllowlisted, AlreadyAttempted, NotCanonical, OtherSubscription,
    CrossProtocol, LacksCapabilities, TooLarge, ContextFallbackDisabled, NotLarger, NotRetryable]

  ghost predicate FirstObstacle(source: Target, target: Target, n: Need, p: FallbackPolicy, i: int) {
    && 0 <= i < |Reasons| && Obstructs(Reasons[i], source, target, n, p)
    && forall j | 0 <= j < i :: !Obstructs(Reasons[j], source, target, n, p)
  }

  function Evaluate(source: Target, target: Target, n: Need, p: FallbackPolicy): (r: Reason)
    ensures r == Eligible <==> MayReplace(source, target, n, p)
  {
    if target.modelRef == source.modelRef then SameController
    else if Committed(n.state) then AlreadyCommitted
    else if p.allowed == [] then Disabled
    else if target.modelRef !in p.allowed then NotAllowlisted
    else if target.modelRef in n.state.attempted then AlreadyAttempted
    else if !n.state.canonical then NotCanonical
    else if p.sameSubscription && target.scope != source.scope then OtherSubscription
    else if target.protocol != source.protocol && !p.crossProtocol then CrossProtocol
    else if !(n.required <= target.capabilities) then LacksCapabilities
    else if n.state.tokens > target.window then TooLarge
    else if n.failure.kind.ContextWindowExceeded? then
      if !p.contextFallback then ContextFallbackDisabled
      else if target.window <= source.window then NotLarger
      else Eligible
    else if !n.failure.retryable then NotRetryable
    else Eligible
  }

  /** A target is refused for the first obstacle, and accepted exactly if there is none. */
  lemma ReasonExactly(source: Target, target: Target, n: Need, p: FallbackPolicy)
    ensures forall i | FirstObstacle(source, target, n, p, i) :: Evaluate(source, target, n, p) == Reasons[i]
    ensures Evaluate(source, target, n, p) == Eligible <==> forall i :: !FirstObstacle(source, target, n, p, i)
  {
    var why := Evaluate(source, target, n, p);
    if why != Eligible {
      var i := Position(why);
      assert FirstObstacle(source, target, n, p, i);
    }
  }

  function Position(why: Reason): (i: nat)
    requires why != Eligible && why != Unknown
    ensures i < |Reasons| && Reasons[i] == why
  {
    match why
    case SameController => 0
    case AlreadyCommitted => 1
    case Disabled => 2
    case NotAllowlisted => 3
    case AlreadyAttempted => 4
    case NotCanonical => 5
    case OtherSubscription => 6
    case CrossProtocol => 7
    case LacksCapabilities => 8
    case TooLarge => 9
    case ContextFallbackDisabled => 10
    case NotLarger => 11
    case NotRetryable => 12
  }

  /** `t` is the last of the targets with the reference `ref`. */
  ghost predicate LastFor(targets: seq<Target>, ref: string, t: Target) {
    exists i :: LastAt(targets, ref, t, i)
  }

  ghost predicate LastAt(targets: seq<Target>, ref: string, t: Target, i: int) {
    && 0 <= i < |targets| && targets[i] == t && t.modelRef == ref
    && forall j | i < j < |targets| :: targets[j].modelRef != ref
  }

  /** The targets by reference; of several with one reference the last counts. */
  function ByRef(targets: seq<Target>): (m: map<string, Target>)
    ensures forall r | r in m :: m[r].modelRef == r && m[r] in targets
  {
    if targets == [] then map[]
    else ByRef(targets[..|targets| - 1])[targets[|targets| - 1].modelRef := targets[|targets| - 1]]
  }

  /** The table holds exactly the references of the targets, each with the last of its targets. */
  lemma {:induction false} ByRefExactly(targets: seq<Target>, ref: string)
    ensures ref in ByRef(targets) <==> exists t :: t in targets && t.modelRef == ref
    ensures forall t :: LastFor(targets, ref, t) <==> ref in ByRef(targets) && ByRef(targets)[ref] == t
  {
    if targets != [] {
      var front, last := targets[..|targets| - 1], targets[|targets| - 1];
      assert targets == front + [last];
      ByRefExactly(front, ref);
      forall t ensures LastFor(targets, ref, t) <==> ref in ByRef(targets) && ByRef(targets)[ref] == t {
        LastStep(front, last, ref, t);
      }
    }
  }

  lemma LastStep(front: seq<Target>, last: Target, ref: string, t: Target)
    ensures LastFor(front + [last], ref, t) <==> if last.modelRef == ref then t == last else LastFor(front, ref, t)
  {
    var targets := front + [last];
    if LastFor(targets, ref, t) {
      var i :| LastAt(targets, ref, t, i);
      if i < |front| {
        assert targets[|front|] == last;
        forall j | i < j < |front| ensures front[j].modelRef != ref {
          assert targets[j] == front[j];
        }
        assert LastAt(front, ref, t, i);
      }
    }
    if last.modelRef == ref {
      assert LastAt(targets, ref, last, |front|);
    } else if i :| LastAt(front, ref, t, i) {
      assert LastAt(targets, ref, t, i);
    }
  }

  predicate EligibleRef(source: Target, known: map<string, Target>, n: Need, p: FallbackPolicy, r: string) {
    r in known && Evaluate(source, known[r], n, p) == Eligible
  }

  function DecisionFor(source: Target, known: map<string, Target>, n: Need, p: FallbackPolicy, r: string): Decision {
    if r !in known then Decision(Unknown, None, r)
    else Decision(Evaluate(source, known[r], n, p), Some(known[r].provider), known[r].modelRef)
  }

  /** The first eligible reference at or after position `i` of the allowlist. */
  function FirstFrom(source: Target, known: map<string, Target>, n: Need, p: FallbackPolicy, i: nat):
    (r: Option<Target>)
    requires i <= |p.allowed|
    ensures r.Some? ==> exists j ::
      i <= j < |p.allowed| && EligibleRef(source, known, n, p, p.allowed[j]) && r.value == known[p.allowed[j]]
    ensures r.None? ==> forall j | i <= j < |p.allowed| :: !EligibleRef(source, known, n, p, p.allowed[j])
    decreases |p.allowed| - i
  {
    if i == |p.allowed| then None
    else if EligibleRef(source, known, n, p, p.allowed[i]) then Some(known[p.allowed[i]])
    else FirstFrom(source, known, n, p, i + 1)
  }

  function Select(source: Target, targets: seq<Target>, n: Need, p: FallbackPolicy): Option<Target> {
    FirstFrom(source, ByRef(targets), n, p, 0)
  }

  /** `t` is what the reference stands for, and it may replace the source. */
  ghost predicate CanServe(source: Target, targets: seq<Target>, n: Need, p: FallbackPolicy, ref: string, t: Target) {
    LastFor(targets, ref, t) && MayReplace(source, t, n, p)
  }

  /** The `k`-th allowed reference is the first that stands for a possible replacement, `t`. */
  ghost predicate Chosen(source: Target, targets: seq<Target>, n: Need, p: FallbackPolicy, k: int, t: Target) {
    && 0 <= k < |p.allowed| && CanServe(source, targets, n, p, p.allowed[k], t)
    && forall j, u | 0 <= j < k :: !CanServe(source, targets, n, p, p.allowed[j], u)
  }

  /** A decision names the reference considered, the provider behind it, and why. */
  ghost predicate Tells(d: Decision, source: Target, targets: seq<Target>, n: Need, p: FallbackPolicy, ref: string) {
    && d.modelRef == ref
    && (d.reason == Unknown <==> forall t :: !LastFor(targets, ref, t))
    && (d.provider.None? <==> forall t :: !LastFor(targets, ref, t))
    && forall t | LastFor(targets, ref, t) ::
         && d.provider == Some(t.provider)
         && (d.reason == Eligible <==> MayReplace(source, t, n, p))
         && (forall i | FirstObstacle(source, t, n, p, i) :: d.reason == Reasons[i])
  }

  lemma EligibleExactly(source: Target, targets: seq<Target>, n: Need, p: FallbackPolicy, ref: string)
    ensures EligibleRef(source, ByRef(targets), n, p, ref) <==> exists t :: CanServe(source, targets, n, p, ref, t)
    ensures forall t | CanServe(source, targets, n, p, ref, t) :: ref in ByRef(targets) && ByRef(targets)[ref] == t
  {
    ByRefExactly(targets, ref);
    if EligibleRef(source, ByRef(targets), n, p, ref) {
      assert CanServe(source, targets, n, p, ref, ByRef(targets)[ref]);
    }
  }

  lemma DecisionTells(source: Target, targets: seq<Target>, n: Need, p: FallbackPolicy, ref: string)
    ensures Tells(DecisionFor(source, ByRef(targets), n, p, ref), source, targets, n, p, ref)
  {
    ByRefExactly(targets, ref);
    if ref in ByRef(targets) {
      assert LastFor(targets, ref, ByRef(targets)[ref]);
      ReasonExactly(source, ByRef(targets)[ref], n, p);
    }
  }

  /** The selection is the last target given for the first allowed reference whose last target
      may replace the source, and there is none exactly if no reference has such a target. */
  lemma SelectExactly(source: Target, targets: seq<Target>, n: Need, p: FallbackPolicy)
    ensures Select(source, targets, n, p).None? <==>
      forall k, t | 0 <= k < |p.allowed| :: !CanServe(source, targets, n, p, p.allowed[k], t)
    ensures forall k, t | Chosen(source, targets, n, p, k, t) :: Select(source, targets, n, p) == Some(t)
    ensures Select(source, targets, n, p).Some? ==>
      exists k :: Chosen(source, targets, n, p, k, Select(source, targets, n, p).value)
  {
    var known := ByRef(targets);
    forall k | 0 <= k < |p.allowed|
      ensures EligibleRef(source, known, n, p, p.allowed[k]) <==>
        exists t :: CanServe(source, targets, n, p, p.allowed[k], t)
      ensures forall t | CanServe(source, targets, n, p, p.allowed[k], t) ::
        p.allowed[k] in known && known[p.allowed[k]] == t
    {
      EligibleExactly(source, targets, n, p, p.allowed[k]);
    }
    var k := FirstEligible(source, known, n, p, 0);
    if k < |p.allowed| {
      var t :| CanServe(source, targets, n, p, p.allowed[k], t);
      assert Chosen(source, targets, n, p, k, t);
    }
  }

  /** Where the first eligible reference stands. */
  function FirstEligible(source: Target, known: map<string, Target>, n: Need, p: FallbackPolicy, i: nat): (k: nat)
    requires i <= |p.allowed|
    ensures i <= k <= |p.allowed| && (k < |p.allowed| ==> EligibleRef(source, known, n, p, p.allowed[k]))
    ensures forall j | i <= j < k :: !EligibleRef(source, known, n, p, p.allowed[j])
    ensures FirstFrom(source, known, n, p, i) == if k < |p.allowed| then Some(known[p.allowed[k]]) else None
    decreases |p.allowed| - i
  {
    if i == |p.allowed| || EligibleRef(source, known, n, p, p.allowed[i]) then i
    else FirstEligible(source, known, n, p, i + 1)
  }

  /** The plan as the walk leaves it: one decision per reference up to the first eligible one. */
  ghost predicate Walked(plan: FallbackPlan, source: Target, targets: seq<Target>, n: Need, p: FallbackPolicy) {
    var known := ByRef(targets);
    && plan.selected == Select(source, targets, n, p) && |plan.decisions| <= |p.allowed|
    && (forall i | 0 <= i < |plan.decisions| :: plan.decisions[i] == DecisionFor(source, known, n, p, p.allowed[i]))
    && (forall i | 0 <= i < |plan.decisions| - 1 :: !EligibleRef(source, known, n, p, p.allowed[i]))
    && (plan.selected.None? ==> |plan.decisions| == |p.allowed|)
    && (plan.selected.Some? ==>
          && plan.decisions != [] && EligibleRef(source, known, n, p, p.allowed[|plan.decisions| - 1])
          && plan.selected.value == known[p.allowed[|plan.decisions| - 1]])
  }

  lemma WalkedIsExact(plan: FallbackPlan, source: Target, targets: seq<Target>, n: Need, p: FallbackPolicy)
    requires Walked(plan, source, targets, n, p)
    ensures forall i | 0 <= i < |plan.decisions| :: Tells(plan.decisions[i], source, targets, n, p, p.allowed[i])
    ensures plan.selected.None? <==>
      forall k, t | 0 <= k < |p.allowed| :: !CanServe(source, targets, n, p, p.allowed[k], t)
    ensures plan.selected.Some? ==> Chosen(source, targets, n, p, |plan.decisions| - 1, plan.selected.value)
  {
    SelectExactly(source, targets, n, p);
    forall i | 0 <= i < |plan.decisions| ensures Tells(plan.decisions[i], source, targets, n, p, p.allowed[i]) {
      DecisionTells(source, targets, n, p, p.allowed[i]);
    }
    if plan.selected.Some? {
      forall j, u | 0 <= j < |plan.decisions| - 1 ensures !CanServe(source, targets, n, p, p.allowed[j], u) {
        EligibleExactly(source, targets, n, p, p.allowed[j]);
      }
      EligibleExactly(source, targets, n, p, p.allowed[|plan.decisions| - 1]);
    }
  }

  /** The walk has refused the references it has come to, and recorded why. */
  ghost predicate RefusedSoFar(decisions: seq<Decision>, source: Target, targets: seq<Target>, n: Need,
      p: FallbackPolicy) {
    var known, i := ByRef(targets), |decisions|;
    && i <= |p.allowed| && Select(source, targets, n, p) == FirstFrom(source, known, n, p, i)
    && forall k | 0 <= k < i ::
         decisions[k] == DecisionFor(source, known, n, p, p.allowed[k])
         && !EligibleRef(source, known, n, p, p.allowed[k])
  }

  lemma WalkGoesOn(decisions: seq<Decision>, source: Target, targets: seq<Target>, n: Need, p: FallbackPolicy)
    requires RefusedSoFar(decisions, source, targets, n, p) && |decisions| < |p.allowed|
    requires !EligibleRef(source, ByRef(targets), n, p, p.allowed[|decisions|])
    ensures var d := DecisionFor(source, ByRef(targets), n, p, p.allowed[|decisions|]);
      RefusedSoFar(decisions + [d], source, targets, n, p)
  {
    var d := DecisionFor(source, ByRef(targets), n, p, p.allowed[|decisions|]);
    assert forall k | 0 <= k < |decisions| :: (decisions + [d])[k] == decisions[k];
  }

  lemma WalkStops(decisions: seq<Decision>, source: Target, targets: seq<Target>, n: Need, p: FallbackPolicy)
    requires RefusedSoFar(decisions, source, targets, n, p) && |decisions| < |p.allowed|
    requires EligibleRef(source, ByRef(targets), n, p, p.allowed[|decisions|])
    ensures var known, r := ByRef(targets), p.allowed[|decisions|]; var d := DecisionFor(source, known, n, p, r);
      Walked(FallbackPlan(Some(known[r]), decisions + [d]), source, targets, n, p)
  {
    var d := DecisionFor(source, ByRef(targets), n, p, p.allowed[|decisions|]);
    assert forall k | 0 <= k < |decisions| :: (decisions + [d])[k] == decisions[k];
  }

  /** Walks the allowlist in its declared order, records one decision per reference considered,
      and stops at the first eligible one. */
  method SelectFallback(source: Target, targets: seq<Target>, n: Need, p: FallbackPolicy) returns (plan: FallbackPlan)
    ensures plan.selected == Select(source, targets, n, p) && |plan.decisions| <= |p.allowed|
    ensures forall i | 0 <= i < |plan.decisions| :: Tells(plan.decisions[i], source, targets, n, p, p.allowed[i])
    ensures plan.selected.None? <==>
      forall k, t | 0 <= k < |p.allowed| :: !CanServe(source, targets, n, p, p.allowed[k], t)
    ensures plan.selected.None? ==> |plan.decisions| == |p.allowed|
    ensures plan.selected.Some? ==> Chosen(source, targets, n, p, |plan.decisions| - 1, plan.selected.value)
  {
    var known := ByRef(targets);
    var decisions: seq<Decision> := [];
    for i := 0 to |p.allowed|
      invariant |decisions| == i && RefusedSoFar(decisions, source, targets, n, p)
    {
      var r := p.allowed[i];
      if EligibleRef(source, known, n, p, r) {
        WalkStops(decisions, source, targets, n, p);
      } else {
        WalkGoesOn(decisions, source, targets, n, p);
      }
      if r !in known {
        decisions := decisions + [Decision(Unknown, None, r)];
        continue;
      }
      var reason := Evaluate(source, known[r], n, p);
      decisions := decisions + [Decision(reason, Some(known[r].provider), known[r].modelRef)];
      if reason == Eligible {
        plan := FallbackPlan(Some(known[r]), decisions);
        WalkedIsExact(plan, source, targets, n, p);
        return;
      }
    }
    plan := FallbackPlan(None, decisions);
    WalkedIsExact(plan, source, targets, n, p);
  }

  // ---------------------------------------------------------------- chains

  /** One failure after another, each answered by a fallback from the controller it hit; the
      references tried so far accumulate, and everything else about a need is arbitrary. */
  function Chain(source: Target, targets: seq<Target>, tried: seq<string>, needs: seq<Need>, p: FallbackPolicy):
    seq<Target>
    decreases |needs|
  {
    if needs == [] then []
    else
      var n := needs[0].(state := needs[0].state.(attempted := tried));
      var next := Select(source, targets, n, p);
      if next.None? then []
      else [next.value] + Chain(next.value, targets, tried + [next.value.modelRef], needs[1..], p)
  }

  function Before(source: Target, chain: seq<Target>, i: nat): Target
    requires i < |chain|
  {
    if i == 0 then source else chain[i - 1]
  }

  /** What links a hop of a chain to the controller it leaves. */
  ghost predicate Hop(source: Target, target: Target, n: Need, p: FallbackPolicy) {
    && target.modelRef != source.modelRef
    && (p.sameSubscription ==> target.scope == source.scope)
    && (!p.crossProtocol ==> target.protocol == source.protocol)
    && (n.failure.kind.ContextWindowExceeded? ==> target.window > source.window)
    && n.required <= target.capabilities && n.state.tokens <= target.window && !Committed(n.state)
  }

  lemma {:induction false} ChainHops(source: Target, targets: seq<Target>, tried: seq<string>, needs: seq<Need>,
      p: FallbackPolicy)
    ensures var c := Chain(source, targets, tried, needs, p);
      |c| <= |needs| && forall i | 0 <= i < |c| :: Hop(Before(source, c, i), c[i], needs[i], p)
    decreases |needs|
  {
    var c := Chain(source, targets, tried, needs, p);
    if c != [] {
      var rest := Chain(c[0], targets, tried + [c[0].modelRef], needs[1..], p);
      assert c == [c[0]] + rest;
      ChainHops(c[0], targets, tried + [c[0].modelRef], needs[1..], p);
      forall i | 0 < i < |c| ensures Hop(Before(source, c, i), c[i], needs[i], p) {
        assert c[i] == rest[i - 1] && needs[1..][i - 1] == needs[i];
        assert Before(c[0], rest, i - 1) == Before(source, c, i);
      }
    }
  }

  /** Along a whole chain the subscription and the protocol of the first controller are kept
      where the policy asks for it. */
  lemma {:induction false} ChainKeepsLane(source: Target, targets: seq<Target>, tried: seq<string>, needs: seq<Need>,
      p: FallbackPolicy, i: nat)
    requires i < |Chain(source, targets, tried, needs, p)|
    ensures var c := Chain(source, targets, tried, needs, p);
      && (p.sameSubscription ==> c[i].scope == source.scope)
      && (!p.crossProtocol ==> c[i].protocol == source.protocol)
  {
    ChainHops(source, targets, tried, needs, p);
    var c := Chain(source, targets, tried, needs, p);
    assert Hop(Before(source, c, i), c[i], needs[i], p);
    if i > 0 {
      ChainKeepsLane(source, targets, tried, needs, p, i - 1);
    }
  }

  /** The allowlisted references that have not been tried. */
  function Untried(p: FallbackPolicy, tried: seq<string>): set<string> {
    set r | r in p.allowed && r !in tried
  }

  /** A chain never tries a reference twice, nor one tried before it, and each hop uses up one
      untried reference: however many failures follow, it ends within the allowlist. */
  lemma {:induction false} ChainEnds(source: Target, targets: seq<Target>, tried: seq<string>, needs: seq<Need>,
      p: FallbackPolicy)
    ensures var c := Chain(source, targets, tried, needs, p);
      && |c| <= |Untried(p, tried)|
      && (forall i | 0 <= i < |c| :: c[i].modelRef in Untried(p, tried))
      && (forall i, j | 0 <= i < j < |c| :: c[i].modelRef != c[j].modelRef)
    decreases |needs|
  {
    var c := Chain(source, targets, tried, needs, p);
    if c != [] {
      var tried' := tried + [c[0].modelRef];
      var rest := Chain(c[0], targets, tried', needs[1..], p);
      assert c == [c[0]] + rest;
      ChainEnds(c[0], targets, tried', needs[1..], p);
      assert c[0].modelRef in Untried(p, tried);
      assert Untried(p, tried') == Untried(p, tried) - {c[0].modelRef};
    }
  }

  lemma {:induction false} UntriedWithinAllowlist(p: FallbackPolicy, tried: seq<string>, n: nat)
    requires n <= |p.allowed|
    ensures |set r | r in p.allowed[..n] && r !in tried| <= n
  {
    if n > 0 {
      UntriedWithinAllowlist(p, tried, n - 1);
      var before, all := set r | r in p.allowed[..n - 1] && r !in tried, set r | r in p.allowed[..n] && r !in tried;
      assert p.allowed[..n] == p.allowed[..n - 1] + [p.allowed[n - 1]];
      assert all <= before + {p.allowed[n - 1]};
      assert before + {p.allowed[n - 1]} == all + (before + {p.allowed[n - 1]} - all);
    }
  }

  lemma ChainWithinAllowlist(source: Target, targets: seq<Target>, tried: seq<string>, needs: seq<Need>,
      p: FallbackPolicy)
    ensures |Chain(source, targets, tried, needs, p)| <= |p.allowed|
  {
    ChainEnds(source, targets, tried, needs, p);
    UntriedWithinAllowlist(p, tried, |p.allowed|);
    assert p.allowed[..|p.allowed|] == p.allowed;
    assert Untried(p, tried) == set r | r in p.allowed[..|p.allowed|] && r !in tried;
  }
}
