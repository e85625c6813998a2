/** Planning which approved helpers stand in for capabilities the controller lacks. */
module Capabilities {
  import opened Common

  datatype Capability =
    | TextInput | TextOutput | NativeTools | ParallelTools | NamedToolChoice | ReasoningEffort
    | StructuredOutput | VisionInput | ImageToolResults | ScreenshotVision
    | SemanticBrowserControl | SemanticMacosControl | PixelComputerUse

  datatype Mode = Strict | SmartLocal | SmartGo | Custom

  datatype Helper = Helper(
    id: string, family: string, modelRef: string, capabilities: set<Capability>, local: bool, billable: bool)

  datatype Policy = Policy(mode: Mode, allowed: set<string>, controllerFailover: bool)

  datatype Plan =
    | Primary
    | UseHelpers(unknown: set<Capability>, unsupported: set<Capability>, helpers: seq<Helper>)

  datatype PlanError = Unavailable(capabilities: set<Capability>) | FailoverIsSeparate(capabilities: set<Capability>)

  const Baseline: set<Capability> := {TextInput, TextOutput}

  predicate HelperAllowed(p: Policy, h: Helper) {
    && h.id in p.allowed
    && match p.mode
       case Strict => false
       case SmartLocal => h.local
       case SmartGo => Lower(h.family) == "opencode_go"
       case Custom => true
  }

  /** Everything the allowed helpers of a list can do. */
  function Coverage(p: Policy, helpers: seq<Helper>): set<Capability> {
    if helpers == [] then {}
    else (if HelperAllowed(p, helpers[0]) then helpers[0].capabilities else {}) + Coverage(p, helpers[1..])
  }

  function Together(helpers: seq<Helper>): set<Capability> {
    if helpers == [] then {} else helpers[0].capabilities + Together(helpers[1..])
  }

  lemma {:induction false} TogetherSnoc(helpers: seq<Helper>, h: Helper)
    ensures Together(helpers + [h]) == Together(helpers) + h.capabilities
  {
    if helpers == [] {
      assert [h][1..] == [];
    } else {
      assert (helpers + [h])[1..] == helpers[1..] + [h];
      TogetherSnoc(helpers[1..], h);
    }
  }

  lemma {:induction false} CoverageSnoc(p: Policy, helpers: seq<Helper>, h: Helper)
    ensures Coverage(p, helpers + [h]) == Coverage(p, helpers) + if HelperAllowed(p, h) then h.capabilities else {}
  {
    if helpers == [] {
      assert [h][1..] == [];
    } else {
      assert (helpers + [h])[1..] == helpers[1..] + [h];
      CoverageSnoc(p, helpers[1..], h);
    }
  }

  /** Each helper of the selection covers a missing capability that none before it covers. */
  ghost predicate Irredundant(missing: set<Capability>, selected: seq<Helper>) {
    forall i | 0 <= i < |selected| ::
      exists c :: c in missing && c in selected[i].capabilities && c !in Together(selected[..i])
  }

  lemma IrredundantSnoc(missing: set<Capability>, selected: seq<Helper>, h: Helper, c: Capability)
    requires Irredundant(missing, selected)
    requires c in missing && c in h.capabilities && c !in Together(selected)
    ensures Irredundant(missing, selected + [h])
  {
    var longer := selected + [h];
    forall i | 0 <= i < |longer|
      ensures exists x :: x in missing && x in longer[i].capabilities && x !in Together(longer[..i])
    {
      if i < |selected| {
        assert longer[..i] == selected[..i] && longer[i] == selected[i];
      } else {
        assert longer[..i] == selected && longer[i] == h;
      }
    }
  }

  /** `selected` consists of the allowed helpers at the ascending positions `at`, all below `n`. */
  ghost predicate Picks(p: Policy, helpers: seq<Helper>, n: nat, selected: seq<Helper>, at: seq<nat>) {
    && |at| == |selected| && n <= |helpers|
    && (forall i | 0 <= i < |at| :: at[i] < n && helpers[at[i]] == selected[i] && HelperAllowed(p, selected[i]))
    && (forall i, j | 0 <= i < j < |at| :: at[i] < at[j])
  }

  lemma PicksSnoc(p: Policy, helpers: seq<Helper>, n: nat, selected: seq<Helper>, at: seq<nat>)
    requires Picks(p, helpers, n, selected, at) && n < |helpers| && HelperAllowed(p, helpers[n])
    ensures Picks(p, helpers, n + 1, selected + [helpers[n]], at + [n])
  {
  }

  /** The `i`-th helper is allowed and has something missing that no allowed one before it has. */
  ghost predicate Adds(p: Policy, missing: set<Capability>, helpers: seq<Helper>, i: nat)
    requires i < |helpers|
  {
    HelperAllowed(p, helpers[i]) && exists c ::
      c in missing && c in helpers[i].capabilities && c !in Coverage(p, helpers[..i])
  }

  /** The positions are those of the helpers below `n` that add something. */
  ghost predicate AllThatAdd(p: Policy, missing: set<Capability>, helpers: seq<Helper>, n: nat, at: seq<nat>) {
    n <= |helpers| && forall i | 0 <= i < n :: i in at <==> Adds(p, missing, helpers, i)
  }

  /** The selection is made of the helpers of the list that add something, in its order. */
  ghost predicate TakenInOrder(p: Policy, missing: set<Capability>, helpers: seq<Helper>, selected: seq<Helper>) {
    exists at ::
      Picks(p, helpers, |helpers|, selected, at) && AllThatAdd(p, missing, helpers, |helpers|, at)
  }

  /** A helper is in the selection exactly if it adds something at some place of the list. */
  lemma TakenExactly(p: Policy, missing: set<Capability>, helpers: seq<Helper>, selected: seq<Helper>, h: Helper)
    requires TakenInOrder(p, missing, helpers, selected)
    ensures h in selected <==> exists i :: 0 <= i < |helpers| && helpers[i] == h && Adds(p, missing, helpers, i)
  {
    var at :| Picks(p, helpers, |helpers|, selected, at) && AllThatAdd(p, missing, helpers, |helpers|, at);
    if h in selected {
      var k :| 0 <= k < |selected| && selected[k] == h;
      assert at[k] in at && helpers[at[k]] == h;
    }
    if i :| 0 <= i < |helpers| && helpers[i] == h && Adds(p, missing, helpers, i) {
      var k :| 0 <= k < |at| && at[k] == i;
      assert selected[k] == h;
    }
  }

  /** Nothing adds once everything missing is covered. */
  lemma NothingAdds(p: Policy, missing: set<Capability>, helpers: seq<Helper>, n: nat, at: seq<nat>)
    requires n <= |helpers| && missing <= Coverage(p, helpers[..n]) && AllThatAdd(p, missing, helpers, n, at)
    requires forall i | i in at :: i < n
    ensures AllThatAdd(p, missing, helpers, |helpers|, at)
  {
    forall i | n <= i < |helpers| ensures !Adds(p, missing, helpers, i) {
      CoverageGrows(p, helpers[..n], helpers[..i]);
    }
  }

  lemma AddsOrNot(p: Policy, missing: set<Capability>, helpers: seq<Helper>, n: nat, at: seq<nat>)
    requires n < |helpers| && AllThatAdd(p, missing, helpers, n, at) && forall i | i in at :: i < n
    ensures Adds(p, missing, helpers, n) ==> AllThatAdd(p, missing, helpers, n + 1, at + [n])
    ensures !Adds(p, missing, helpers, n) ==> AllThatAdd(p, missing, helpers, n + 1, at)
  {
  }

  /** The state of the greedy loop when it has seen the first `n` helpers. */
  ghost predicate Greedy(p: Policy, missing: set<Capability>, helpers: seq<Helper>, n: nat, selected: seq<Helper>,
      at: seq<nat>, remaining: set<Capability>) {
    && Picks(p, helpers, n, selected, at) && AllThatAdd(p, missing, helpers, n, at)
    && remaining == missing - Coverage(p, helpers[..n]) == missing - Together(selected)
    && Irredundant(missing, selected)
  }

  lemma GreedyTakes(p: Policy, missing: set<Capability>, helpers: seq<Helper>, n: nat, selected: seq<Helper>,
      at: seq<nat>, remaining: set<Capability>)
    requires Greedy(p, missing, helpers, n, selected, at, remaining) && n < |helpers|
    requires HelperAllowed(p, helpers[n]) && remaining * helpers[n].capabilities != {}
    ensures Greedy(p, missing, helpers, n + 1, selected + [helpers[n]], at + [n],
                   remaining - remaining * helpers[n].capabilities)
  {
    var c :| c in remaining * helpers[n].capabilities;
    assert Adds(p, missing, helpers, n);
    AddsOrNot(p, missing, helpers, n, at);
    CoverageSnoc(p, helpers[..n], helpers[n]);
    assert helpers[..n + 1] == helpers[..n] + [helpers[n]];
    IrredundantSnoc(missing, selected, helpers[n], c);
    TogetherSnoc(selected, helpers[n]);
    PicksSnoc(p, helpers, n, selected, at);
  }

  lemma GreedyPasses(p: Policy, missing: set<Capability>, helpers: seq<Helper>, n: nat, selected: seq<Helper>,
      at: seq<nat>, remaining: set<Capability>)
    requires Greedy(p, missing, helpers, n, selected, at, remaining) && n < |helpers|
    requires !HelperAllowed(p, helpers[n]) || remaining * helpers[n].capabilities == {}
    ensures Greedy(p, missing, helpers, n + 1, selected, at, remaining)
  {
    assert !Adds(p, missing, helpers, n) by {
      if HelperAllowed(p, helpers[n]) {
        forall c | c in missing && c in helpers[n].capabilities ensures c in Coverage(p, helpers[..n]) {
          assert c !in remaining * helpers[n].capabilities;
        }
      }
    }
    AddsOrNot(p, missing, helpers, n, at);
    CoverageSnoc(p, helpers[..n], helpers[n]);
    assert helpers[..n + 1] == helpers[..n] + [helpers[n]];
  }

  lemma GreedyEnds(p: Policy, missing: set<Capability>, helpers: seq<Helper>, n: nat, selected: seq<Helper>,
      at: seq<nat>)
    requires Greedy(p, missing, helpers, n, selected, at, {})
    ensures Greedy(p, missing, helpers, |helpers|, selected, at, {})
  {
    forall c | c in missing ensures c in Coverage(p, helpers[..n]) {
      assert c !in missing - Coverage(p, helpers[..n]);
    }
    CoverageGrows(p, helpers[..n], helpers);
    assert helpers[..|helpers|] == helpers;
    NothingAdds(p, missing, helpers, n, at);
  }

  lemma GreedyStarts(p: Policy, missing: set<Capability>, helpers: seq<Helper>)
    ensures Greedy(p, missing, helpers, 0, [], [], missing)
  {
    assert helpers[..0] == [];
  }

  lemma GreedyDone(p: Policy, missing: set<Capability>, helpers: seq<Helper>, selected: seq<Helper>,
      at: seq<nat>, remaining: set<Capability>)
    requires Greedy(p, missing, helpers, |helpers|, selected, at, remaining)
    ensures remaining == missing - Coverage(p, helpers) == missing - Together(selected)
    ensures Irredundant(missing, selected) && TakenInOrder(p, missing, helpers, selected)
  {
    assert helpers[..|helpers|] == helpers;
  }

  /** The greedy loop. It leaves uncovered exactly what no allowed helper covers, and takes
      exactly the helpers that add something. */
  method SelectHelpers(p: Policy, missing: set<Capability>, helpers: seq<Helper>)
    returns (selected: seq<Helper>, remaining: set<Capability>)
    ensures remaining == missing - Coverage(p, helpers)
    ensures remaining == missing - Together(selected)
    ensures Irredundant(missing, selected) && TakenInOrder(p, missing, helpers, selected)
  {
    remaining := missing;
    selected := [];
    ghost var at: seq<nat> := [];
    GreedyStarts(p, missing, helpers);
    for i := 0 to |helpers|
      invariant Greedy(p, missing, helpers, i, selected, at, remaining)
    {
      var helper := helpers[i];
      if !HelperAllowed(p, helper) {
        GreedyPasses(p, missing, helpers, i, selected, at, remaining);
        continue;
      }
      var covered := remaining * helper.capabilities;
      if covered == {} {
        GreedyPasses(p, missing, helpers, i, selected, at, remaining);
        continue;
      }
      GreedyTakes(p, missing, helpers, i, selected, at, remaining);
      selected := selected + [helper];
      at := at + [i];
      remaining := remaining - covered;
      if remaining == {} {
        GreedyEnds(p, missing, helpers, i + 1, selected, at);
        break;
      }
    }
    GreedyDone(p, missing, helpers, selected, at, remaining);
  }

  lemma {:induction false} CoverageMember(p: Policy, helpers: seq<Helper>, c: Capability)
    ensures c in Coverage(p, helpers) <==> exists h :: h in helpers && HelperAllowed(p, h) && c in h.capabilities
  {
    if helpers != [] {
      CoverageMember(p, helpers[1..], c);
      if h :| h in helpers && HelperAllowed(p, h) && c in h.capabilities {
        assert h == helpers[0] || h in helpers[1..];
      }
    }
  }

  /** What each mode admits of the allowlisted helpers: none, the local ones, those of the
      OpenCode Go family, or all. */
  ghost predicate FitsMode(mode: Mode, h: Helper) {
    (mode == Custom) || (mode == SmartLocal && h.local) || (mode == SmartGo && Lower(h.family) == "opencode_go")
  }

  /** A capability is covered exactly if an allowlisted helper that the mode admits has it. */
  lemma CoveredExactly(p: Policy, helpers: seq<Helper>, c: Capability)
    ensures c in Coverage(p, helpers) <==>
      exists h :: h in helpers && h.id in p.allowed && FitsMode(p.mode, h) && c in h.capabilities
  {
    CoverageMember(p, helpers, c);
    forall h ensures HelperAllowed(p, h) <==> h.id in p.allowed && FitsMode(p.mode, h) {
    }
  }

  /** What a controller lacks: every capability asked for, beyond plain text in and out, that it
      is not known to support. */
  lemma LackingExactly(required: set<Capability>, supported: set<Capability>, known: set<Capability>, c: Capability)
    ensures c in Missing(required, supported, known) <==>
      c in required && c != TextInput && c != TextOutput && !(c in known && c in supported)
  {
  }

  /** A list with more helpers covers at least as much. */
  lemma CoverageGrows(p: Policy, fewer: seq<Helper>, more: seq<Helper>)
    requires forall h | h in fewer :: h in more
    ensures Coverage(p, fewer) <= Coverage(p, more)
  {
    forall c | c in Coverage(p, fewer) ensures c in Coverage(p, more) {
      CoverageMember(p, fewer, c);
      CoverageMember(p, more, c);
    }
  }

  /** An irredundant selection needs no more helpers than there are missing capabilities. */
  lemma {:induction false} SelectionIsSmall(missing: set<Capability>, selected: seq<Helper>)
    requires Irredundant(missing, selected)
    ensures |selected| <= |missing * Together(selected)| <= |missing|
  {
    if selected != [] {
      var front, last := selected[..|selected| - 1], selected[|selected| - 1];
      assert selected == front + [last];
      forall i | 0 <= i < |front|
        ensures exists c :: c in missing && c in front[i].capabilities && c !in Together(front[..i])
      {
        assert front[..i] == selected[..i];
        var c :| c in missing && c in selected[i].capabilities && c !in Together(selected[..i]);
        assert c in front[i].capabilities;
      }
      SelectionIsSmall(missing, front);
      TogetherSnoc(front, last);
      var c :| c in missing && c in last.capabilities && c !in Together(selected[..|selected| - 1]);
      SmallerSet(missing * Together(front), missing * Together(selected), c);
    }
    NotLarger(missing * Together(selected), missing);
  }

  lemma SmallerSet(a: set<Capability>, b: set<Capability>, c: Capability)
    requires a <= b && c in b && c !in a
    ensures |a| < |b|
  {
    NotLarger(a, b - {c});
  }

  lemma NotLarger(a: set<Capability>, b: set<Capability>)
    requires a <= b
    ensures |a| <= |b|
  {
    assert b == a + (b - a);
  }

  // ---------------------------------------------------------------- plans

  function Missing(required: set<Capability>, supported: set<Capability>, known: set<Capability>): set<Capability> {
    (required - Baseline) - (known * supported)
  }

  lemma SelectedFit(p: Policy, missing: set<Capability>, helpers: seq<Helper>, selected: seq<Helper>)
    requires TakenInOrder(p, missing, helpers, selected)
    ensures forall h | h in selected :: h in helpers && h.id in p.allowed && FitsMode(p.mode, h)
  {
    var at :| Picks(p, helpers, |helpers|, selected, at);
    forall h | h in selected ensures h in helpers && h.id in p.allowed && FitsMode(p.mode, h) {
      var i :| 0 <= i < |selected| && selected[i] == h;
      assert helpers[at[i]] == h;
    }
  }

  /** A plan succeeds exactly when the allowed helpers together cover what the controller is
      not known to support. */
  method MakePlan(p: Policy, required: set<Capability>, supported: set<Capability>, known: set<Capability>,
      helpers: seq<Helper>)
    returns (r: Result<Plan, PlanError>)
    ensures r.Success? <==> Missing(required, supported, known) <= Coverage(p, helpers)
    ensures r.Success? ==> (r.value.Primary? <==> Missing(required, supported, known) == {})
    ensures r.Success? && r.value.UseHelpers? ==>
      && r.value.unknown + r.value.unsupported == Missing(required, supported, known)
      && r.value.unknown !! known && r.value.unsupported <= known
      && Missing(required, supported, known) <= Together(r.value.helpers)
      && |r.value.helpers| <= |Missing(required, supported, known)|
      && Irredundant(Missing(required, supported, known), r.value.helpers)
      && TakenInOrder(p, Missing(required, supported, known), helpers, r.value.helpers)
      && (forall h | h in r.value.helpers :: h in helpers && h.id in p.allowed && FitsMode(p.mode, h))
    ensures r.Failure? ==> r.error.FailoverIsSeparate? == p.controllerFailover
    ensures r.Failure? ==> r.error.capabilities == Missing(required, supported, known) - Coverage(p, helpers)
  {
    var requested := required - Baseline;
    var unknown := requested - known;
    var unsupported := (requested * known) - supported;
    var missing := unknown + unsupported;
    assert missing == Missing(required, supported, known);
    if missing == {} {
      return Success(Primary);
    }
    var selected, remaining := SelectHelpers(p, missing, helpers);
    if remaining != {} {
      return Failure(if p.controllerFailover then FailoverIsSeparate(remaining) else Unavailable(remaining));
    }
    assert missing <= Coverage(p, helpers) by {
      forall c | c in missing ensures c in Coverage(p, helpers) {
        assert c !in remaining;
      }
    }
    SelectionIsSmall(missing, selected);
    SelectedFit(p, missing, helpers, selected);
    return Success(UseHelpers(unknown, unsupported, selected));
  }

  /** Strict routing never covers anything with a helper. */
  lemma {:induction false} StrictCoversNothing(p: Policy, helpers: seq<Helper>)
    requires p.mode.Strict?
    ensures Coverage(p, helpers) == {}
  {
    if helpers != [] {
      StrictCoversNothing(p, helpers[1..]);
    }
  }
}
