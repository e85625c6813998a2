/** Resolution of a requested model name to a provider route, and what a session of parent
    and child requests can rely on. */
module ModelRouter {
  import opened Common
  import opened LruTable
  import opened ParentRoutes

  datatype Normalized = Normalized(modelRef: string, window: Option<int>)

  datatype Direct = Direct(providerId: string, providerModel: string, reasoningOff: bool, ultracode: bool)

  /** The settings a router is built from: the default model and the models and reasoning
      preferences of the tiers that have their own, the registered providers, the manual context
      windows, and whether children inherit. Normalizing a reference, applying the aliases and
      decoding a gateway id are parameters. */
  datatype Router = Router(
    normalize: string -> Normalized,
    alias: string -> string,
    decode: string -> Option<Direct>,
    defaultModel: string,
    tierModels: map<string, string>,
    tierReasoning: map<string, string>,
    catalog: set<string>,
    windows: map<string, int>,
    policy: string,
    inheritance: bool)

  datatype RouteError = UnknownProvider(id: string) | MalformedRef(ref: string)

  /** The first value of a list that is there. */
  function FirstPresent<T>(values: seq<Option<T>>): (r: Option<T>)
    ensures r.None? <==> forall v | v in values :: v.None?
    ensures r.Some? ==> exists i ::
      0 <= i < |values| && values[i] == r && forall j | 0 <= j < i :: values[j].None?
  {
    if values == [] then None
    else if values[0].Some? then values[0]
    else
      var rest := FirstPresent(values[1..]);
      assert rest.Some? ==> exists i ::
        0 <= i < |values[1..]| && values[1..][i] == rest && (forall j | 0 <= j < i :: values[1..][j].None?)
        && values[i + 1] == rest && (forall j | 0 <= j < i + 1 :: values[j].None?);
      rest
  }

  function OrElse<T>(a: Option<T>, b: Option<T>): Option<T> {
    if a.Some? then a else b
  }

  function ManualWindow(r: Router, modelRef: string): Option<int> {
    if modelRef in r.windows then Some(r.windows[modelRef]) else None
  }

  // ---------------------------------------------------------------- tiers

  /** The tiers, in the order in which a name is searched for them. */
  const Tiers: seq<string> := ["fable", "opus", "haiku", "sonnet"]

  predicate Contains(s: string, part: string) {
    part <= s || (s != "" && Contains(s[1..], part))
  }

  lemma {:induction false} ContainsExactly(s: string, part: string)
    ensures Contains(s, part) <==> exists front, rest :: s == front + part + rest
  {
    if part <= s {
      assert s == "" + part + s[|part|..];
    } else if s != "" {
      ContainsExactly(s[1..], part);
      if front, rest :| s[1..] == front + part + rest {
        assert s == ([s[0]] + front) + part + rest;
      }
      if front, rest :| s == front + part + rest {
        assert front != "" by {
          assert front == "" ==> s == part + rest;
        }
        assert s[1..] == front[1..] + part + rest;
      }
    }
  }

  function FirstTier(name: string, from: nat): (r: nat)
    requires from <= |Tiers|
    ensures from <= r <= |Tiers| && (r < |Tiers| ==> Contains(Lower(name), Tiers[r]))
    ensures forall i | from <= i < r :: !Contains(Lower(name), Tiers[i])
    decreases |Tiers| - from
  {
    if from == |Tiers| || Contains(Lower(name), Tiers[from]) then from else FirstTier(name, from + 1)
  }

  function MatchedTier(name: string): Option<string> {
    var i := FirstTier(name, 0);
    if i < |Tiers| then Some(Tiers[i]) else None
  }

  // ---------------------------------------------------------------- what a name asks for

  function Inbound(r: Router, name: string): Normalized {
    r.normalize(name)
  }

  function Target(r: Router, name: string): Normalized {
    r.normalize(r.alias(Inbound(r, name).modelRef))
  }

  predicate Aliased(r: Router, name: string) {
    r.alias(Inbound(r, name).modelRef) != Inbound(r, name).modelRef
  }

  /** The window the client asked for with the name or with the alias behind it. */
  function RequestedWindow(r: Router, name: string): Option<int> {
    OrElse(Inbound(r, name).window, Target(r, name).window)
  }

  /** The provider and model that a reference names itself: as a gateway id, or else as
      `provider/model`. Either way the provider must be registered. */
  function DirectOf(r: Router, ref: string): Option<Direct> {
    var decoded := r.decode(ref);
    if decoded.Some? then if decoded.value.providerId in r.catalog then decoded else None
    else
      var split := SplitRef(ref);
      if split.None? || split.value.0 !in r.catalog || split.value.1 == "" then None
      else Some(Direct(split.value.0, split.value.1, false, false))
  }

  /** A name that neither an alias nor a direct provider reference pins to a route. */
  predicate Logical(r: Router, name: string) {
    !Aliased(r, name) && DirectOf(r, Target(r, name).modelRef).None?
  }

  function DirectRoute(r: Router, name: string, d: Direct): Route {
    var modelRef := d.providerId + "/" + d.providerModel;
    Route(
      name, d.providerId, d.providerModel, modelRef,
      if d.ultracode then "ultracode" else if d.reasoningOff then "off" else r.policy,
      OrElse(RequestedWindow(r, name), ManualWindow(r, modelRef)),
      if Aliased(r, name) then "model_alias" else "request_model",
      Aliased(r, name))
  }

  function FromParent(name: string, parent: Route, window: Option<int>): Route {
    Route(name, parent.providerId, parent.providerModel, parent.providerModelRef, parent.reasoning,
          OrElse(window, parent.window), "parent_inherited", false)
  }

  /** The configured reference for a name, and the setting it comes from. */
  function ConfiguredRef(r: Router, ref: string): (string, string) {
    var tier := MatchedTier(ref);
    if tier.Some? && tier.value in r.tierModels then (r.tierModels[tier.value], "model_" + tier.value)
    else (r.defaultModel, "model")
  }

  function ConfiguredReasoning(r: Router, name: string): string {
    var tier := MatchedTier(name);
    var overrides := (Aliased(r, name) || !r.inheritance) && tier.Some? && tier.value in r.tierReasoning;
    if overrides then r.tierReasoning[tier.value] else r.policy
  }

  function ProviderOf(ref: string): string {
    var split := SplitRef(ref);
    if split.Some? then split.value.0 else ref
  }

  function ConfiguredRoute(r: Router, name: string): Result<Route, RouteError> {
    var (chosen, source) := ConfiguredRef(r, Target(r, name).modelRef);
    var normalized := r.normalize(chosen);
    var modelRef := normalized.modelRef;
    var provider := ProviderOf(modelRef);
    if provider !in r.catalog then Failure(UnknownProvider(provider))
    else if SplitRef(modelRef).None? then Failure(MalformedRef(modelRef))
    else Success(Route(
      name, provider, SplitRef(modelRef).value.1, modelRef, ConfiguredReasoning(r, name),
      OrElse(OrElse(RequestedWindow(r, name), normalized.window), ManualWindow(r, modelRef)),
      source, Aliased(r, name)))
  }

  function Resolve(r: Router, name: string, parent: Option<Route>): Result<Route, RouteError> {
    var d := DirectOf(r, Target(r, name).modelRef);
    if d.Some? then Success(DirectRoute(r, name, d.value))
    else if parent.Some? && r.inheritance && !Aliased(r, name) then
      Success(FromParent(name, parent.value, RequestedWindow(r, name)))
    else ConfiguredRoute(r, name)
  }

  // ---------------------------------------------------------------- what a route is

  /** What a name asks for: its reference without decoration, through the aliases. */
  function Asked(r: Router, name: string): Normalized {
    r.normalize(r.alias(r.normalize(name).modelRef))
  }

  predicate ThroughAlias(r: Router, name: string) {
    r.alias(r.normalize(name).modelRef) != r.normalize(name).modelRef
  }

  predicate ThroughParent(r: Router, name: string) {
    !ThroughAlias(r, name) && DirectOf(r, Asked(r, name).modelRef).None?
  }

  /** `ref` names this provider and model around its first slash. */
  ghost predicate Names(ref: string, provider: string, model: string) {
    '/' !in provider && ref == provider + "/" + model
  }

  lemma SplitNames(ref: string, provider: string, model: string)
    ensures Names(ref, provider, model) <==> SplitRef(ref) == Some((provider, model))
  {
    if Names(ref, provider, model) {
      SplitExactly(ref, provider, model);
    }
  }

  /** A reference is direct exactly if it is a gateway id of a registered provider, or no
      gateway id and a registered provider and a model around a slash; and it is direct to that. */
  lemma DirectExactly(r: Router, ref: string, d: Direct)
    ensures DirectOf(r, ref) == Some(d) <==>
      && d.providerId in r.catalog
      && (r.decode(ref) == Some(d)
          || (r.decode(ref).None? && Names(ref, d.providerId, d.providerModel) && d.providerModel != ""
              && !d.reasoningOff && !d.ultracode))
  {
    SplitNames(ref, d.providerId, d.providerModel);
  }

  /** The configured reference is that of the first tier in the name, if that tier has one, and
      the default model otherwise. */
  ghost predicate Configures(r: Router, ref: string, chosen: string, source: string) {
    if exists i :: TierChosen(r, ref, i) then
      exists i :: TierChosen(r, ref, i) && chosen == r.tierModels[Tiers[i]] && source == "model_" + Tiers[i]
    else chosen == r.defaultModel && source == "model"
  }

  ghost predicate TierChosen(r: Router, ref: string, i: int) {
    FirstTierIs(ref, i) && Tiers[i] in r.tierModels
  }

  ghost predicate FirstTierIs(name: string, i: int) {
    && 0 <= i < |Tiers| && Contains(Lower(name), Tiers[i])
    && forall j | 0 <= j < i :: !Contains(Lower(name), Tiers[j])
  }

  lemma MatchedTierExactly(name: string)
    ensures MatchedTier(name).None? <==> forall i :: !FirstTierIs(name, i)
    ensures forall i | FirstTierIs(name, i) :: MatchedTier(name) == Some(Tiers[i])
  {
    var k := FirstTier(name, 0);
    if k < |Tiers| {
      assert FirstTierIs(name, k);
    }
    forall i | FirstTierIs(name, i) ensures i == k {
    }
  }

  lemma ConfiguredRefExactly(r: Router, ref: string)
    ensures Configures(r, ref, ConfiguredRef(r, ref).0, ConfiguredRef(r, ref).1)
  {
    MatchedTierExactly(ref);
    var k := FirstTier(ref, 0);
    if k < |Tiers| && Tiers[k] in r.tierModels {
      assert TierChosen(r, ref, k);
    }
  }

  /** The windows that count for a route, the first present one winning. */
  function DirectWindows(r: Router, name: string, modelRef: string): seq<Option<int>> {
    [r.normalize(name).window, Asked(r, name).window, ManualWindow(r, modelRef)]
  }

  function ConfiguredWindows(r: Router, name: string, normalized: Normalized): seq<Option<int>> {
    [r.normalize(name).window, Asked(r, name).window, normalized.window, ManualWindow(r, normalized.modelRef)]
  }

  /** A direct name resolves to what it names, whatever its parent, with the reasoning it
      forces or else the general policy. */
  lemma DirectRouteIs(r: Router, name: string, parent: Option<Route>, d: Direct)
    requires DirectOf(r, Asked(r, name).modelRef) == Some(d)
    ensures Resolve(r, name, parent).Success?
    ensures var route := Resolve(r, name, parent).value;
      && route.originalModel == name && route.providerId == d.providerId && route.providerModel == d.providerModel
      && route.providerModelRef == d.providerId + "/" + d.providerModel
      && (route.reasoning == "ultracode" <== d.ultracode)
      && (route.reasoning == "off" <== d.reasoningOff && !d.ultracode)
      && (route.reasoning == r.policy <== !d.reasoningOff && !d.ultracode)
      && route.window == FirstPresent(DirectWindows(r, name, route.providerModelRef))
      && (route.aliasApplied <==> ThroughAlias(r, name))
      && route.source == if route.aliasApplied then "model_alias" else "request_model"
  {
  }

  /** An inheriting name resolves to its parent's provider, model and reasoning, under its own
      name and with its own window if it asks for one. */
  lemma InheritedRouteIs(r: Router, name: string, parent: Route)
    requires r.inheritance && ThroughParent(r, name)
    ensures Resolve(r, name, Some(parent)).Success?
    ensures var route := Resolve(r, name, Some(parent)).value;
      && route.originalModel == name && SameLane(route, parent)
      && route.window == FirstPresent([r.normalize(name).window, Asked(r, name).window, parent.window])
      && route.source == "parent_inherited" && !route.aliasApplied
  {
  }

  /** Every other name resolves through the settings. */
  ghost predicate ThroughSettings(r: Router, name: string, parent: Option<Route>) {
    && DirectOf(r, Asked(r, name).modelRef).None?
    && (parent.None? || !r.inheritance || ThroughAlias(r, name))
  }

  /** It resolves if and only if the configured reference names a registered provider and a
      model; otherwise the failure names the provider, or the reference if it has no slash. */
  lemma ConfiguredExactly(r: Router, name: string, parent: Option<Route>)
    requires ThroughSettings(r, name, parent)
    ensures var ref := r.normalize(ConfiguredRef(r, Asked(r, name).modelRef).0).modelRef;
      && (Resolve(r, name, parent).Success? <==>
            exists provider, model :: Names(ref, provider, model) && provider in r.catalog)
      && (forall id :: Resolve(r, name, parent) == Failure(UnknownProvider(id)) <==>
            id !in r.catalog && ((exists model :: Names(ref, id, model)) || ('/' !in ref && id == ref)))
      && (Resolve(r, name, parent) == Failure(MalformedRef(ref)) <==> '/' !in ref && ref in r.catalog)
  {
    var ref := r.normalize(ConfiguredRef(r, Asked(r, name).modelRef).0).modelRef;
    var result := Resolve(r, name, parent);
    if SplitRef(ref).Some? {
      var (p, m) := SplitRef(ref).value;
      assert Names(ref, p, m);
      forall provider, model | Names(ref, provider, model) ensures provider == p && model == m {
        SplitNames(ref, provider, model);
      }
    }
  }

  lemma FirstOfFour<T>(a: Option<T>, b: Option<T>, c: Option<T>, d: Option<T>)
    ensures FirstPresent([a, b, c, d]) == OrElse(OrElse(OrElse(a, b), c), d)
  {
    FirstStep(a, [b, c, d]);
    FirstStep(b, [c, d]);
    FirstStep(c, [d]);
    FirstStep(d, []);
    assert [a, b, c, d] == [a] + [b, c, d] && [b, c, d] == [b] + [c, d] && [c, d] == [c] + [d] && [d] == [d] + [];
  }

  lemma FirstStep<T>(v: Option<T>, rest: seq<Option<T>>)
    ensures FirstPresent([v] + rest) == OrElse(v, FirstPresent(rest))
  {
    assert ([v] + rest)[1..] == rest;
  }

  /** Field by field, what a name that resolves through the settings resolves to. */
  lemma ConfiguredRouteIs(r: Router, name: string, parent: Option<Route>)
    requires ThroughSettings(r, name, parent) && Resolve(r, name, parent).Success?
    ensures var route := Resolve(r, name, parent).value;
      && route.originalModel == name && route.providerId in r.catalog
      && Names(route.providerModelRef, route.providerId, route.providerModel)
      && (exists chosen :: Configures(r, Asked(r, name).modelRef, chosen, route.source)
            && route.providerModelRef == r.normalize(chosen).modelRef
            && route.window == FirstPresent(ConfiguredWindows(r, name, r.normalize(chosen))))
      && (route.aliasApplied <==> ThroughAlias(r, name))
  {
    ConfiguredRefExactly(r, Asked(r, name).modelRef);
    FirstOfFour(r.normalize(name).window, Asked(r, name).window,
                r.normalize(ConfiguredRef(r, Asked(r, name).modelRef).0).window,
                ManualWindow(r, Resolve(r, name, parent).value.providerModelRef));
    var chosen := ConfiguredRef(r, Asked(r, name).modelRef).0;
    assert Configures(r, Asked(r, name).modelRef, chosen, Resolve(r, name, parent).value.source);
  }

  /** A tier's own reasoning preference counts for the first tier in the name, and only for
      aliased names or without inheritance; everything else uses the general policy. */
  lemma ConfiguredReasoningIs(r: Router, name: string, parent: Option<Route>)
    requires ThroughSettings(r, name, parent) && Resolve(r, name, parent).Success?
    ensures var reasoning := Resolve(r, name, parent).value.reasoning;
      && (forall i | FirstTierIs(name, i) && Tiers[i] in r.tierReasoning && (ThroughAlias(r, name) || !r.inheritance) ::
            reasoning == r.tierReasoning[Tiers[i]])
      && ((!ThroughAlias(r, name) && r.inheritance) || (forall i | FirstTierIs(name, i) :: Tiers[i] !in r.tierReasoning)
          ==> reasoning == r.policy)
  {
    MatchedTierExactly(name);
    var k := FirstTier(name, 0);
    if k < |Tiers| {
      assert FirstTierIs(name, k);
    }
  }

  /** Whatever is resolved goes to a registered provider, if its parent does. */
  lemma ProviderIsRegistered(r: Router, name: string, parent: Option<Route>)
    requires parent.Some? ==> parent.value.providerId in r.catalog
    ensures Resolve(r, name, parent).Success? ==> Resolve(r, name, parent).value.providerId in r.catalog
  {
    var d := DirectOf(r, Asked(r, name).modelRef);
    if d.Some? {
      DirectExactly(r, Asked(r, name).modelRef, d.value);
    }
  }

  /** Two routes reach the same model of the same provider with the same reasoning. */
  predicate SameLane(a: Route, b: Route) {
    && a.providerId == b.providerId && a.providerModel == b.providerModel
    && a.providerModelRef == b.providerModelRef && a.reasoning == b.reasoning
  }

  /** Within a lane, only the name, the window and where the route came from can differ. */
  lemma LaneExactly(a: Route, b: Route)
    ensures SameLane(a, b) <==> exists name, window, source, aliased ::
      a == Route(name, b.providerId, b.providerModel, b.providerModelRef, b.reasoning, window, source, aliased)
  {
    if SameLane(a, b) {
      assert a == Route(a.originalModel, b.providerId, b.providerModel, b.providerModelRef, b.reasoning,
                        a.window, a.source, a.aliasApplied);
    }
  }

  predicate SameLaneAs(a: Result<Route, RouteError>, b: Route) {
    a.Success? && SameLane(a.value, b)
  }

  /** A parent matters to logical names under inheritance, and to no other name. */
  lemma ParentMattersExactlyToLogicalNames(r: Router, name: string, parent: Route)
    ensures Logical(r, name) && r.inheritance ==>
      Resolve(r, name, Some(parent)).Success? && SameLane(Resolve(r, name, Some(parent)).value, parent)
    ensures !(Logical(r, name) && r.inheritance) ==> Resolve(r, name, Some(parent)) == Resolve(r, name, None)
  {
  }

  /** The route of a chain of children, each resolved under the route before it. */
  function Descend(r: Router, root: Route, names: seq<string>): Result<Route, RouteError> {
    if names == [] then Success(root)
    else
      var above := Descend(r, root, names[..|names| - 1]);
      if above.Failure? then above else Resolve(r, names[|names| - 1], Some(above.value))
  }

  /** The last window asked for along the chain, or the one at its root. */
  function ChainWindow(r: Router, root: Option<int>, names: seq<string>): Option<int> {
    if names == [] then root
    else OrElse(RequestedWindow(r, names[|names| - 1]), ChainWindow(r, root, names[..|names| - 1]))
  }

  /** A chain of logical children of any depth stays in the lane of its root. */
  lemma {:induction false} DescendantsStayInLane(r: Router, root: Route, names: seq<string>)
    requires r.inheritance && forall n | n in names :: Logical(r, n)
    ensures Descend(r, root, names).Success? && SameLane(Descend(r, root, names).value, root)
    ensures Descend(r, root, names).value.window == ChainWindow(r, root.window, names)
  {
    if names != [] {
      assert names[|names| - 1] in names;
      DescendantsStayInLane(r, root, names[..|names| - 1]);
    }
  }

  // ---------------------------------------------------------------- sessions

  /** One message request: look the parent up, resolve, and remember the route once all local
      checks have admitted the request. */
  function Serve(r: Router, reg: Registry, session: Option<string>, g: int, name: string, admitted: bool):
    (Registry, Result<Route, RouteError>)
  {
    var parent := Answer(reg, Lookup(session, Some(g)));
    var looked := Step(reg, Lookup(session, Some(g)));
    var route := Resolve(r, name, parent);
    if route.Failure? || !admitted then (looked, route)
    else (Step(looked, Remember(session, Some(g), route.value)), route)
  }

  /** The requests of one session and generation, served one after the other, with calls of
      other sessions in between. */
  datatype Turn = Request(name: string, admitted: bool) | Other(call: Call)

  function ServeTurn(r: Router, reg: Registry, session: Option<string>, g: int, t: Turn): Registry {
    match t
    case Request(name, admitted) => Serve(r, reg, session, g, name, admitted).0
    case Other(call) => Step(reg, call)
  }

  function ServeAll(r: Router, reg: Registry, session: Option<string>, g: int, turns: seq<Turn>): Registry {
    if turns == [] then reg
    else ServeTurn(r, ServeAll(r, reg, session, g, turns[..|turns| - 1]), session, g, turns[|turns| - 1])
  }

  /** The registry calls that a turn, or all turns, amount to. */
  function TurnCalls(r: Router, reg: Registry, session: Option<string>, g: int, t: Turn): seq<Call> {
    match t
    case Request(name, admitted) =>
      var route := Serve(r, reg, session, g, name, admitted).1;
      if route.Success? && admitted then [Lookup(session, Some(g)), Remember(session, Some(g), route.value)]
      else [Lookup(session, Some(g))]
    case Other(call) => [call]
  }

  function CallsOf(r: Router, reg: Registry, session: Option<string>, g: int, turns: seq<Turn>): seq<Call> {
    if turns == [] then []
    else
      var front := turns[..|turns| - 1];
      CallsOf(r, reg, session, g, front)
        + TurnCalls(r, ServeAll(r, reg, session, g, front), session, g, turns[|turns| - 1])
  }

  lemma TurnIsARun(r: Router, reg: Registry, session: Option<string>, g: int, t: Turn)
    ensures ServeTurn(r, reg, session, g, t) == Run(reg, TurnCalls(r, reg, session, g, t))
  {
    var calls := TurnCalls(r, reg, session, g, t);
    assert Run(reg, []) == reg;
    assert calls[..1][..0] == [] && calls[..1][0] == calls[0];
    assert Run(reg, calls[..1]) == Step(reg, calls[0]);
    if |calls| == 1 {
      assert calls == calls[..1];
    }
  }

  lemma {:induction false} RunConcat(reg: Registry, a: seq<Call>, b: seq<Call>)
    ensures Run(reg, a + b) == Run(Run(reg, a), b)
  {
    if b == [] {
      assert a + b == a;
    } else {
      RunConcat(reg, a, b[..|b| - 1]);
      assert (a + b)[..|a + b| - 1] == a + b[..|b| - 1];
    }
  }

  lemma {:induction false} ServeAllIsARun(r: Router, reg: Registry, session: Option<string>, g: int, turns: seq<Turn>)
    ensures ServeAll(r, reg, session, g, turns) == Run(reg, CallsOf(r, reg, session, g, turns))
  {
    if turns != [] {
      var front := turns[..|turns| - 1];
      var before := ServeAll(r, reg, session, g, front);
      ServeAllIsARun(r, reg, session, g, front);
      TurnIsARun(r, before, session, g, turns[|turns| - 1]);
      RunConcat(reg, CallsOf(r, reg, session, g, front), TurnCalls(r, before, session, g, turns[|turns| - 1]));
    }
  }

  function OtherSessions(turns: seq<Turn>, k: Key): set<Key> {
    set t | t in turns && t.Other? && CallKey(t.call).Some? && CallKey(t.call).value != k :: CallKey(t.call).value
  }

  lemma {:induction false} CallsOfProperties(r: Router, reg: Registry, session: Option<string>, g: int, k: Key,
      turns: seq<Turn>)
    requires SessionKey(session) == Some(k)
    requires forall t | t in turns && t.Other? ::
      !t.call.Clear? && (CallKey(t.call) == Some(k) ==> t.call.generation == Some(g))
    ensures OneGeneration(CallsOf(r, reg, session, g, turns), k, g)
    ensures Others(CallsOf(r, reg, session, g, turns), k) <= OtherSessions(turns, k)
  {
    if turns != [] {
      var front, t := turns[..|turns| - 1], turns[|turns| - 1];
      assert t in turns && forall x | x in front :: x in turns;
      CallsOfProperties(r, reg, session, g, k, front);
      var last := TurnCalls(r, ServeAll(r, reg, session, g, front), session, g, t);
      forall c | c in last ensures CallKey(c) == Some(k) || (t.Other? && c == t.call) {
      }
      assert Others(CallsOf(r, reg, session, g, turns), k) ==
        Others(CallsOf(r, reg, session, g, front), k) + Others(last, k);
    }
  }

  /** The calls of other sessions leave this one alone. */
  ghost predicate Bystanders(turns: seq<Turn>, k: Key, g: int) {
    forall t | t in turns && t.Other? :: !t.call.Clear? && (CallKey(t.call) == Some(k) ==> t.call.generation == Some(g))
  }

  lemma FewOthers(r: Router, reg: Registry, session: Option<string>, k: Key, g: int, turns: seq<Turn>)
    requires SessionKey(session) == Some(k) && Bystanders(turns, k, g)
    ensures var calls := CallsOf(r, reg, session, g, turns);
      OneGeneration(calls, k, g) && |Others(calls, k)| <= |OtherSessions(turns, k)|
  {
    CallsOfProperties(r, reg, session, g, k, turns);
    SubsetSize(Others(CallsOf(r, reg, session, g, turns), k), OtherSessions(turns, k));
  }

  lemma LookupKeepsOut(reg: Registry, session: Option<string>, k: Key, g: int)
    requires Inv(reg) && SessionKey(session) == Some(k) && Answer(reg, Lookup(session, Some(g))).None?
    ensures var looked := Step(reg, Lookup(session, Some(g)));
      Inv(looked) && looked.max == reg.max && !Settled(looked.entries, k, Some(g))
  {
    StepKeepsInv(reg, Lookup(session, Some(g)));
  }

  /** The route of a session's first admitted request is what every later lookup finds. */
  lemma FirstRouteIsFound(r: Router, reg: Registry, session: Option<string>, k: Key, g: int, first: string,
      turns: seq<Turn>)
    requires Inv(reg) && SessionKey(session) == Some(k)
    requires Answer(reg, Lookup(session, Some(g))).None? && Resolve(r, first, None).Success?
    requires Bystanders(turns, k, g) && |OtherSessions(turns, k)| < reg.max
    ensures var began := Serve(r, reg, session, g, first, true).0;
      Answer(ServeAll(r, began, session, g, turns), Lookup(session, Some(g))) == Some(Resolve(r, first, None).value)
  {
    var root := Resolve(r, first, None).value;
    var looked := Step(reg, Lookup(session, Some(g)));
    var began := Step(looked, Remember(session, Some(g), root));
    LookupKeepsOut(reg, session, k, g);
    ServeAllIsARun(r, began, session, g, turns);
    FewOthers(r, began, session, k, g, turns);
    FirstRouteWins(looked, Remember(session, Some(g), root), CallsOf(r, began, session, g, turns), session, k, g);
  }

  /** Once a session's first request was admitted, every later logical request of the session
      goes to the same provider and model with the same reasoning, whatever direct, aliased or
      refused requests it makes in between, until `max` other sessions are used or the registry
      is cleared. */
  lemma SessionStaysInLane(r: Router, reg: Registry, session: Option<string>, k: Key, g: int, first: string,
                           turns: seq<Turn>, name: string, admitted: bool)
    requires Inv(reg) && SessionKey(session) == Some(k) && r.inheritance
    requires Answer(reg, Lookup(session, Some(g))).None? && Resolve(r, first, None).Success?
    requires Bystanders(turns, k, g) && |OtherSessions(turns, k)| < reg.max
    requires Logical(r, name)
    ensures var began := Serve(r, reg, session, g, first, true).0;
      SameLaneAs(Serve(r, ServeAll(r, began, session, g, turns), session, g, name, admitted).1,
        Resolve(r, first, None).value)
  {
    FirstRouteIsFound(r, reg, session, k, g, first, turns);
    ParentMattersExactlyToLogicalNames(r, name, Resolve(r, first, None).value);
  }
}
