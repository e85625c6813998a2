/** The registry of parent routes: accepted routes and token-count hints per session, each
    namespace bounded and scoped to a provider generation. */
module ParentRoutes {
  import opened Common
  import opened LruTable

  datatype Route = Route(
    originalModel: string,
    providerId: string,
    providerModel: string,
    providerModelRef: string,
    reasoning: string,
    window: Option<int>,
    source: string,
    aliasApplied: bool)

  datatype Entry = Entry(generation: Option<int>, resolved: Route)

  datatype Registry = Registry(entries: Ordered<Entry>, probes: Ordered<Entry>, max: nat)

  datatype Call =
    | Lookup(session: Option<string>, generation: Option<int>)
    | LookupProbe(session: Option<string>, generation: Option<int>)
    | Remember(session: Option<string>, generation: Option<int>, route: Route)
    | RememberProbe(session: Option<string>, generation: Option<int>, route: Route)
    | Clear

  /** The key of a session; the digest kept by the program is taken to be injective. */
  function SessionKey(session: Option<string>): Option<Key> {
    if session.None? then None
    else
      var normalized := Strip(session.value);
      if normalized == "" || |normalized| > 512 then None else Some(normalized)
  }

  /** A key is the id without white space around it, of one to 512 characters. */
  lemma SessionKeyExactly(id: string, k: string)
    ensures SessionKey(Some(id)) == Some(k) <==> Strips(id, k) && 1 <= |k| <= 512
    ensures SessionKey(None) == None
  {
    if k != "" {
      StripExactly(id, k);
    }
  }

  function CallKey(c: Call): Option<Key> {
    if c.Clear? then None else SessionKey(c.session)
  }

  /** The entry may not serve a request of this generation. */
  predicate Stale(e: Entry, g: Option<int>) {
    g.Some? && e.generation.Some? && e.generation != g
  }

  /** The entry is the one a write of this generation must leave in place. */
  predicate Settled(o: Ordered<Entry>, k: Key, g: Option<int>) {
    k in o.table && (g.None? || o.table[k].generation == g)
  }

  function LookupOp(o: Ordered<Entry>, k: Key, g: Option<int>): Op<Entry> {
    if k !in o.table then Keep
    else if Stale(o.table[k], g) then Drop(k)
    else Touch(k)
  }

  function Found(o: Ordered<Entry>, k: Key, g: Option<int>): Option<Route> {
    if k in o.table && !Stale(o.table[k], g) then Some(o.table[k].resolved) else None
  }

  /** What a call does to the authoritative namespace. */
  function EntriesOp(o: Ordered<Entry>, c: Call): Op<Entry> {
    if c.Clear? then Wipe
    else if CallKey(c).None? then Keep
    else
      var k := CallKey(c).value;
      match c
      case Lookup(_, g) => LookupOp(o, k, g)
      case LookupProbe(_, g) => LookupOp(o, k, g)
      case Remember(_, g, route) => if Settled(o, k, g) then Touch(k) else Store(k, Entry(g, route))
      case _ => Keep
  }

  /** What a call does to the namespace of hints. */
  function ProbesOp(r: Registry, c: Call): Op<Entry> {
    if c.Clear? then Wipe
    else if CallKey(c).None? then Keep
    else
      var k := CallKey(c).value;
      match c
      case LookupProbe(_, g) => if Found(r.entries, k, g).Some? then Keep else LookupOp(r.probes, k, g)
      case Remember(_, _, _) => Drop(k)
      case RememberProbe(_, g, route) =>
        if Settled(r.entries, k, g) then Keep
        else if Settled(r.probes, k, g) then Touch(k)
        else Store(k, Entry(g, route))
      case _ => Keep
  }

  function Step(r: Registry, c: Call): Registry {
    r.(entries := Apply(r.entries, EntriesOp(r.entries, c), r.max), probes := Apply(r.probes, ProbesOp(r, c), r.max))
  }

  function Answer(r: Registry, c: Call): Option<Route> {
    if CallKey(c).None? then None
    else
      var k := CallKey(c).value;
      match c
      case Lookup(_, g) => Found(r.entries, k, g)
      case LookupProbe(_, g) =>
        if Found(r.entries, k, g).Some? then Found(r.entries, k, g) else Found(r.probes, k, g)
      case _ => None
  }

  function Empty(max: nat): Registry {
    Registry(Ordered([], map[]), Ordered([], map[]), max)
  }

  function Run(r: Registry, calls: seq<Call>): Registry {
    if calls == [] then r else Step(Run(r, calls[..|calls| - 1]), calls[|calls| - 1])
  }

  // ---------------------------------------------------------------- what every call keeps

  ghost predicate Inv(r: Registry) {
    && r.max > 0
    && Valid(r.entries) && |r.entries.order| <= r.max
    && Valid(r.probes) && |r.probes.order| <= r.max
    && forall k | k in r.entries.table && k in r.probes.table ::
         r.entries.table[k].generation != r.probes.table[k].generation
  }

  lemma GenerationsDiffer(r: Registry, c: Call, k: Key)
    requires Inv(r) && k in Step(r, c).entries.table && k in Step(r, c).probes.table
    ensures Step(r, c).entries.table[k].generation != Step(r, c).probes.table[k].generation
  {
    ApplyOrigin(r.entries, EntriesOp(r.entries, c), r.max, k);
    ApplyOrigin(r.probes, ProbesOp(r, c), r.max, k);
  }

  lemma StepKeepsInv(r: Registry, c: Call)
    requires Inv(r)
    ensures Inv(Step(r, c))
  {
    ApplyKeepsValid(r.entries, EntriesOp(r.entries, c), r.max);
    ApplyKeepsValid(r.probes, ProbesOp(r, c), r.max);
    var r' := Step(r, c);
    forall k | k in r'.entries.table && k in r'.probes.table
      ensures r'.entries.table[k].generation != r'.probes.table[k].generation
    {
      GenerationsDiffer(r, c, k);
    }
  }

  /** Both namespaces stay within the bound, and a session held in both is held for two
      different generations. */
  lemma {:induction false} RunKeepsInv(r: Registry, calls: seq<Call>)
    requires Inv(r)
    ensures Inv(Run(r, calls)) && Run(r, calls).max == r.max
  {
    if calls != [] {
      RunKeepsInv(r, calls[..|calls| - 1]);
      StepKeepsInv(Run(r, calls[..|calls| - 1]), calls[|calls| - 1]);
    }
  }

  // ---------------------------------------------------------------- least recently used

  /** The history of touches of the authoritative namespace. */
  function EntriesLog(r: Registry, calls: seq<Call>): seq<Key> {
    if calls == [] then []
    else
      var before := calls[..|calls| - 1];
      EntriesLog(r, before) + Touched(EntriesOp(Run(r, before).entries, calls[|calls| - 1]))
  }

  function ProbesLog(r: Registry, calls: seq<Call>): seq<Key> {
    if calls == [] then []
    else
      var before := calls[..|calls| - 1];
      ProbesLog(r, before) + Touched(ProbesOp(Run(r, before), calls[|calls| - 1]))
  }

  lemma StepInOrder(r: Registry, c: Call, entriesLog: seq<Key>, probesLog: seq<Key>)
    requires Inv(r) && InOrder(r.entries.order, entriesLog) && InOrder(r.probes.order, probesLog)
    ensures InOrder(Step(r, c).entries.order, entriesLog + Touched(EntriesOp(r.entries, c)))
    ensures InOrder(Step(r, c).probes.order, probesLog + Touched(ProbesOp(r, c)))
  {
    ApplyKeepsOrder(r.entries, EntriesOp(r.entries, c), r.max, entriesLog);
    ApplyKeepsOrder(r.probes, ProbesOp(r, c), r.max, probesLog);
  }

  /** Key order is order of last touch, in both namespaces. */
  lemma {:induction false} RunInOrder(max: nat, calls: seq<Call>)
    requires max > 0
    ensures InOrder(Run(Empty(max), calls).entries.order, EntriesLog(Empty(max), calls))
    ensures InOrder(Run(Empty(max), calls).probes.order, ProbesLog(Empty(max), calls))
  {
    if calls != [] {
      var before := calls[..|calls| - 1];
      RunInOrder(max, before);
      RunKeepsInv(Empty(max), before);
      StepInOrder(
        Run(Empty(max), before), calls[|calls| - 1], EntriesLog(Empty(max), before), ProbesLog(Empty(max), before));
    }
  }

  /** In every run, an accepted route that another session's call removes is the one touched
      longest ago, after at least `max` other sessions have been touched since. */
  lemma RouteEvictedLate(max: nat, calls: seq<Call>, c: Call, k: Key)
    requires max > 0 && !c.Clear? && CallKey(c) != Some(k)
    requires k in Run(Empty(max), calls).entries.table && k !in Run(Empty(max), calls + [c]).entries.table
    ensures |TouchedSince(EntriesLog(Empty(max), calls + [c]), k)| >= max
    ensures k !in TouchedSince(EntriesLog(Empty(max), calls + [c]), k)
    ensures forall x | x in Run(Empty(max), calls).entries.table && x != k ::
              Last(EntriesLog(Empty(max), calls), k) < Last(EntriesLog(Empty(max), calls), x)
  {
    var r := Run(Empty(max), calls);
    assert (calls + [c])[..|calls|] == calls;
    RunKeepsInv(Empty(max), calls);
    RunInOrder(max, calls);
    EvictionIsLate(r.entries, EntriesOp(r.entries, c), max, EntriesLog(Empty(max), calls), k);
  }

  /** The same for hints: a hint that a call of another session removes is the one touched
      longest ago, after at least `max` other sessions have had hints touched since. */
  lemma HintEvictedLate(max: nat, calls: seq<Call>, c: Call, k: Key)
    requires max > 0 && !c.Clear? && CallKey(c) != Some(k)
    requires k in Run(Empty(max), calls).probes.table && k !in Run(Empty(max), calls + [c]).probes.table
    ensures |TouchedSince(ProbesLog(Empty(max), calls + [c]), k)| >= max
    ensures k !in TouchedSince(ProbesLog(Empty(max), calls + [c]), k)
    ensures forall x | x in Run(Empty(max), calls).probes.table && x != k ::
              Last(ProbesLog(Empty(max), calls), k) < Last(ProbesLog(Empty(max), calls), x)
  {
    var r := Run(Empty(max), calls);
    assert (calls + [c])[..|calls|] == calls;
    RunKeepsInv(Empty(max), calls);
    RunInOrder(max, calls);
    EvictionIsLate(r.probes, ProbesOp(r, c), max, ProbesLog(Empty(max), calls), k);
  }

  // ---------------------------------------------------------------- affinity

  /** Sessions other than `k` that the calls name. */
  function Others(calls: seq<Call>, k: Key): set<Key> {
    set c | c in calls && CallKey(c).Some? && CallKey(c).value != k :: CallKey(c).value
  }

  /** The session `k` is used under the one generation `g`, and nothing is cleared. */
  predicate OneGeneration(calls: seq<Call>, k: Key, g: int) {
    forall c | c in calls :: !c.Clear? && (CallKey(c) == Some(k) ==> c.generation == Some(g))
  }

  lemma PrefixNames(calls: seq<Call>, k: Key)
    requires calls != []
    ensures var before, c := calls[..|calls| - 1], calls[|calls| - 1];
      && c in calls && (forall x | x in before :: x in calls) && Others(before, k) <= Others(calls, k)
      && (CallKey(c).Some? && CallKey(c).value != k ==> CallKey(c).value in Others(calls, k))
  {
    assert calls[|calls| - 1] in calls;
  }

  lemma StepSpares(m: Registry, c: Call, k: Key, g: int, others: set<Key>)
    requires k in m.entries.table && m.entries.table[k].generation == Some(g)
    requires !c.Clear? && (CallKey(c) == Some(k) ==> c.generation == Some(g))
    requires CallKey(c).Some? && CallKey(c).value != k ==> CallKey(c).value in others
    ensures Spares(EntriesOp(m.entries, c), k, others)
  {
  }

  lemma {:induction false} FirstRouteStands(r: Registry, calls: seq<Call>, k: Key, g: int, e: Entry)
    requires Inv(r) && k in r.entries.table && r.entries.table[k] == e && e.generation == Some(g)
    requires OneGeneration(calls, k, g)
    requires |Behind(r.entries.order, k) + Others(calls, k)| < r.max && k !in Behind(r.entries.order, k)
    ensures var r' := Run(r, calls);
      && k in r'.entries.table && r'.entries.table[k] == e
      && Behind(r'.entries.order, k) <= Behind(r.entries.order, k) + Others(calls, k)
  {
    if calls != [] {
      var before, c := calls[..|calls| - 1], calls[|calls| - 1];
      var used, all := Behind(r.entries.order, k) + Others(before, k), Behind(r.entries.order, k) + Others(calls, k);
      PrefixNames(calls, k);
      SubsetSize(used, all);
      FirstRouteStands(r, before, k, g, e);
      RunKeepsInv(r, before);
      RunMax(r, before);
      StepSpares(Run(r, before), c, k, g, all);
      ApplyRetains(Run(r, before).entries, EntriesOp(Run(r, before).entries, c), r.max, k, all);
    }
  }

  /** The first route accepted for a session under a generation is the one every later lookup
      of that session returns, whatever else is remembered for it, until `max` other sessions
      are used or the registry is cleared. */
  lemma FirstRouteWins(r: Registry, first: Call, calls: seq<Call>, session: Option<string>, k: Key, g: int)
    requires Inv(r) && SessionKey(session) == Some(k)
    requires first.Remember? && first.session == session && first.generation == Some(g)
    requires !Settled(r.entries, k, Some(g))
    requires OneGeneration(calls, k, g) && |Others(calls, k)| < r.max
    ensures Answer(Run(Step(r, first), calls), Lookup(session, Some(g))) == Some(first.route)
    ensures Answer(Run(Step(r, first), calls), LookupProbe(session, Some(g))) == Some(first.route)
  {
    var r1, e := Step(r, first), Entry(Some(g), first.route);
    StepKeepsInv(r, first);
    ApplyKeepsValid(r.entries, Store(k, e), r.max);
    StoredIsLast(r.entries, k, e, r.max);
    assert Behind(r1.entries.order, k) + Others(calls, k) == Others(calls, k);
    FirstRouteStands(r1, calls, k, g, e);
  }

  // ---------------------------------------------------------------- hints are found

  /** The session `k` is probed under the one generation `g` and accepts no route, and nothing
      is cleared. */
  predicate OnlyProbed(calls: seq<Call>, k: Key, g: int) {
    forall c | c in calls ::
      !c.Clear? && (CallKey(c) == Some(k) ==> c.generation == Some(g) && !c.Remember?)
  }

  lemma StepSparesHint(m: Registry, c: Call, k: Key, g: int, others: set<Key>)
    requires k in m.probes.table && m.probes.table[k].generation == Some(g)
    requires !c.Clear? && (CallKey(c) == Some(k) ==> c.generation == Some(g) && !c.Remember?)
    requires CallKey(c).Some? && CallKey(c).value != k ==> CallKey(c).value in others
    ensures Spares(ProbesOp(m, c), k, others)
  {
  }

  lemma NoRouteAppears(m: Registry, c: Call, k: Key)
    requires k !in m.entries.table && (CallKey(c) == Some(k) ==> !c.Remember?)
    ensures k !in Step(m, c).entries.table
  {
  }

  lemma {:induction false} FirstHintStands(r: Registry, calls: seq<Call>, k: Key, g: int, e: Entry)
    requires Inv(r) && k in r.probes.table && r.probes.table[k] == e && e.generation == Some(g)
    requires OnlyProbed(calls, k, g) && k !in r.entries.table
    requires |Behind(r.probes.order, k) + Others(calls, k)| < r.max && k !in Behind(r.probes.order, k)
    ensures var r' := Run(r, calls);
      && k in r'.probes.table && r'.probes.table[k] == e && k !in r'.entries.table
      && Behind(r'.probes.order, k) <= Behind(r.probes.order, k) + Others(calls, k)
  {
    if calls != [] {
      var before, c := calls[..|calls| - 1], calls[|calls| - 1];
      var used, all := Behind(r.probes.order, k) + Others(before, k), Behind(r.probes.order, k) + Others(calls, k);
      PrefixNames(calls, k);
      SubsetSize(used, all);
      FirstHintStands(r, before, k, g, e);
      RunKeepsInv(r, before);
      RunMax(r, before);
      StepSparesHint(Run(r, before), c, k, g, all);
      NoRouteAppears(Run(r, before), c, k);
      ApplyRetains(Run(r, before).probes, ProbesOp(Run(r, before), c), r.max, k, all);
    }
  }

  /** The first hint for a session without an accepted route is the one that probes return, and
      lookups do not, until a route is accepted for it, `max` other sessions are used, or the
      registry is cleared. */
  lemma FirstHintWins(r: Registry, first: Call, calls: seq<Call>, session: Option<string>, k: Key, g: int)
    requires Inv(r) && SessionKey(session) == Some(k) && k !in r.entries.table
    requires first.RememberProbe? && first.session == session && first.generation == Some(g)
    requires !Settled(r.probes, k, Some(g))
    requires OnlyProbed(calls, k, g) && |Others(calls, k)| < r.max
    ensures Answer(Run(Step(r, first), calls), LookupProbe(session, Some(g))) == Some(first.route)
    ensures Answer(Run(Step(r, first), calls), Lookup(session, Some(g))) == None
  {
    var r1, e := Step(r, first), Entry(Some(g), first.route);
    StepKeepsInv(r, first);
    ApplyKeepsValid(r.probes, Store(k, e), r.max);
    StoredIsLast(r.probes, k, e, r.max);
    assert Behind(r1.probes.order, k) + Others(calls, k) == Others(calls, k);
    FirstHintStands(r1, calls, k, g, e);
  }

  /** An entry of either namespace serves a generation unless both name one and they differ. */
  ghost predicate Serves(o: Ordered<Entry>, k: Key, g: Option<int>, route: Route) {
    && k in o.table && o.table[k].resolved == route
    && (g.None? || o.table[k].generation.None? || g == o.table[k].generation)
  }

  /** What each question is answered: a lookup by the accepted route alone, a probe by the
      accepted route or else by the hint. */
  lemma AnswersExactly(r: Registry, session: Option<string>, k: Key, g: Option<int>, route: Route)
    requires SessionKey(session) == Some(k)
    ensures Answer(r, Lookup(session, g)) == Some(route) <==> Serves(r.entries, k, g, route)
    ensures Answer(r, LookupProbe(session, g)) == Some(route) <==>
      || Serves(r.entries, k, g, route)
      || ((forall x :: !Serves(r.entries, k, g, x)) && Serves(r.probes, k, g, route))
  {
    if k in r.entries.table {
      var x := r.entries.table[k].resolved;
      assert Serves(r.entries, k, g, x) <==> !Stale(r.entries.table[k], g);
    }
  }

  /** A question without a usable session id is answered with nothing. */
  lemma NamelessIsUnanswered(r: Registry, session: Option<string>, g: Option<int>)
    requires session.None? || Strip(session.value) == "" || |Strip(session.value)| > 512
    ensures Answer(r, Lookup(session, g)) == None && Answer(r, LookupProbe(session, g)) == None
    ensures forall route :: Step(r, Remember(session, g, route)) == r && Step(r, RememberProbe(session, g, route)) == r
  {
  }

  lemma StoredIsLast(o: Ordered<Entry>, k: Key, e: Entry, max: nat)
    requires Valid(o) && |o.order| <= max && max > 0
    ensures Behind(Apply(o, Store(k, e), max).order, k) == {}
  {
    var moved := Moved(o.order, k);
    MovedProperties(o.order, k);
    BehindMoved(moved, k, k);
    WithoutElements(o.order, k);
    assert k !in Elements(Without(o.order, k));
    BehindLast(Without(o.order, k), k);
    if |moved| > max {
      assert moved[0] != k;
      assert Behind(moved[1..], k) == Behind(moved, k);
    }
  }

  // ---------------------------------------------------------------- hints carry no authority

  function WithoutHints(calls: seq<Call>): seq<Call> {
    if calls == [] then []
    else
      var rest, c := WithoutHints(calls[..|calls| - 1]), calls[|calls| - 1];
      if c.RememberProbe? then rest else rest + [c]
  }

  lemma EntriesIgnoreHints(r: Registry, q: Registry, c: Call)
    requires r.entries == q.entries && r.max == q.max
    ensures Step(r, c).entries == if c.RememberProbe? then q.entries else Step(q, c).entries
    ensures Step(r, c).max == r.max
  {
  }

  lemma {:induction false} EntriesWithoutHints(r: Registry, q: Registry, calls: seq<Call>)
    requires r.entries == q.entries && r.max == q.max
    ensures Run(r, calls).entries == Run(q, WithoutHints(calls)).entries
  {
    if calls != [] {
      var before, c := calls[..|calls| - 1], calls[|calls| - 1];
      EntriesWithoutHints(r, q, before);
      RunMax(r, before);
      RunMax(q, WithoutHints(before));
      EntriesIgnoreHints(Run(r, before), Run(q, WithoutHints(before)), c);
      assert (WithoutHints(before) + [c])[..|WithoutHints(before)|] == WithoutHints(before);
    }
  }

  /** Removing every remembered hint from a run changes no accepted route, and therefore no
      answer of `lookup`. */
  lemma HintsCarryNoAuthority(r: Registry, q: Registry, calls: seq<Call>)
    requires r.entries == q.entries && r.max == q.max
    ensures Run(r, calls).entries == Run(q, WithoutHints(calls)).entries
    ensures forall s, g :: Answer(Run(r, calls), Lookup(s, g)) == Answer(Run(q, WithoutHints(calls)), Lookup(s, g))
  {
    EntriesWithoutHints(r, q, calls);
  }

  lemma {:induction false} RunMax(r: Registry, calls: seq<Call>)
    ensures Run(r, calls).max == r.max
  {
    if calls != [] {
      RunMax(r, calls[..|calls| - 1]);
    }
  }

  // ---------------------------------------------------------------- provenance

  /** The entry was remembered by a call of the run, with no `clear` since. */
  ghost predicate RememberedBy(calls: seq<Call>, i: int, k: Key, e: Entry) {
    && 0 <= i < |calls| && calls[i].Remember? && CallKey(calls[i]) == Some(k)
    && calls[i].generation == e.generation && calls[i].route == e.resolved
    && forall j | i < j < |calls| :: !calls[j].Clear?
  }

  ghost predicate HintedBy(calls: seq<Call>, i: int, k: Key, e: Entry) {
    && 0 <= i < |calls| && calls[i].RememberProbe? && CallKey(calls[i]) == Some(k)
    && calls[i].generation == e.generation && calls[i].route == e.resolved
    && forall j | i < j < |calls| :: !calls[j].Clear?
  }

  lemma {:induction false} EntriesWereRemembered(max: nat, calls: seq<Call>, k: Key)
    requires k in Run(Empty(max), calls).entries.table
    ensures exists i :: RememberedBy(calls, i, k, Run(Empty(max), calls).entries.table[k])
  {
    if calls != [] {
      var before, c := calls[..|calls| - 1], calls[|calls| - 1];
      var r, r' := Run(Empty(max), before), Run(Empty(max), calls);
      if k in r.entries.table && r.entries.table[k] == r'.entries.table[k] {
        EntriesWereRemembered(max, before, k);
        var i :| RememberedBy(before, i, k, r.entries.table[k]);
        assert RememberedBy(calls, i, k, r'.entries.table[k]);
      } else {
        assert RememberedBy(calls, |before|, k, r'.entries.table[k]);
      }
    }
  }

  lemma {:induction false} HintsWereRemembered(max: nat, calls: seq<Call>, k: Key)
    requires k in Run(Empty(max), calls).probes.table
    ensures exists i :: HintedBy(calls, i, k, Run(Empty(max), calls).probes.table[k])
  {
    if calls != [] {
      var before, c := calls[..|calls| - 1], calls[|calls| - 1];
      var r, r' := Run(Empty(max), before), Run(Empty(max), calls);
      if k in r.probes.table && r.probes.table[k] == r'.probes.table[k] {
        HintsWereRemembered(max, before, k);
        var i :| HintedBy(before, i, k, r.probes.table[k]);
        assert HintedBy(calls, i, k, r'.probes.table[k]);
      } else {
        assert HintedBy(calls, |before|, k, r'.probes.table[k]);
      }
    }
  }

  /** A lookup never crosses a generation: what it returns was remembered for the same session
      since the last clear, under the same generation or under none. */
  lemma LookupStaysInGeneration(max: nat, calls: seq<Call>, session: Option<string>, g: int)
    requires Answer(Run(Empty(max), calls), Lookup(session, Some(g))).Some?
    ensures exists i, e ::
      && SessionKey(session).Some? && RememberedBy(calls, i, SessionKey(session).value, e)
      && (e.generation.None? || e.generation == Some(g))
      && e.resolved == Answer(Run(Empty(max), calls), Lookup(session, Some(g))).value
  {
    var k := SessionKey(session).value;
    EntriesWereRemembered(max, calls, k);
    var e := Run(Empty(max), calls).entries.table[k];
    var i :| RememberedBy(calls, i, k, e);
  }

  // ---------------------------------------------------------------- the registry itself

  /** An ordered dictionary, changed in place. */
  class OrderedDict {
    var order: seq<Key>
    var table: map<Key, Entry>

    constructor ()
      ensures Contents() == Ordered([], map[])
    {
      order, table := [], map[];
    }

    function Contents(): Ordered<Entry>
      reads this
    {
      Ordered(order, table)
    }

    method Pop(k: Key)
      requires Valid(Contents())
      modifies this
      ensures Contents() == Apply(old(Contents()), Drop(k), 0)
    {
      WithoutElements(order, k);
      order := Without(order, k);
      table := table - {k};
    }

    method MoveToEnd(k: Key)
      modifies this
      ensures Contents() == Ordered(Moved(old(order), k), old(table))
    {
      order := Without(order, k) + [k];
    }

    /** An existing key keeps its place; a new one goes to the end. */
    method SetItem(k: Key, e: Entry)
      modifies this
      ensures Contents() == Ordered(if k in old(table) then old(order) else old(order) + [k], old(table)[k := e])
    {
      if k !in table {
        order := order + [k];
      }
      table := table[k := e];
    }

    method PopFirst()
      requires order != []
      modifies this
      ensures Contents() == DropFirst(old(Contents()))
    {
      table := table - {order[0]};
      order := order[1..];
    }

    method Clear()
      modifies this
      ensures Contents() == Ordered([], map[])
    {
      order, table := [], map[];
    }
  }

  /** Setting a key and moving it to the end is the same whether or not it was there. */
  lemma {:induction false} MovedAfterAppend(s: seq<Key>, k: Key)
    ensures Without(s + [k], k) == Without(s, k)
  {
    if s == [] {
      assert Without([k], k) == Without([], k);
    } else {
      assert (s + [k])[1..] == s[1..] + [k];
      MovedAfterAppend(s[1..], k);
    }
  }

  class ParentRouteRegistry {
    const entries: OrderedDict
    const probes: OrderedDict
    const maxEntries: nat

    constructor (maxEntries: nat)
      requires maxEntries > 0
      ensures this.maxEntries == maxEntries && State() == Empty(maxEntries) && Sound()
      ensures fresh(entries) && fresh(probes)
    {
      this.maxEntries := maxEntries;
      entries := new OrderedDict();
      probes := new OrderedDict();
    }

    function State(): Registry
      reads entries, probes
    {
      Registry(entries.Contents(), probes.Contents(), maxEntries)
    }

    ghost predicate Sound()
      reads entries, probes
    {
      entries != probes && Inv(State())
    }

    /** The shared lookup: drops a stale entry, refreshes a usable one. */
    method LookupEntry(dict: OrderedDict, k: Key, g: Option<int>) returns (r: Option<Route>)
      requires Valid(dict.Contents())
      modifies dict
      ensures dict.Contents() == Apply(old(dict.Contents()), LookupOp(old(dict.Contents()), k, g), maxEntries)
      ensures r == Found(old(dict.Contents()), k, g)
    {
      if k !in dict.table {
        return None;
      }
      var entry := dict.table[k];
      if g.Some? && entry.generation.Some? && entry.generation != g {
        dict.Pop(k);
        return None;
      }
      dict.MoveToEnd(k);
      return Some(entry.resolved);
    }

    method Trim(dict: OrderedDict)
      requires |dict.order| <= maxEntries + 1
      modifies dict
      ensures dict.Contents() ==
        if |old(dict.order)| > maxEntries then DropFirst(old(dict.Contents())) else old(dict.Contents())
    {
      while |dict.order| > maxEntries
        invariant dict.Contents() ==
          if |old(dict.order)| > maxEntries && |dict.order| <= maxEntries then DropFirst(old(dict.Contents()))
          else old(dict.Contents())
        decreases |dict.order|
      {
        dict.PopFirst();
      }
    }

    /** Writes an entry as the most recent one and drops the oldest if there are too many. */
    method StoreEntry(dict: OrderedDict, k: Key, e: Entry)
      requires Valid(dict.Contents()) && |dict.order| <= maxEntries
      modifies dict
      ensures dict.Contents() == Apply(old(dict.Contents()), Store(k, e), maxEntries)
    {
      assert k in dict.table <==> k in Elements(dict.order);
      if k !in dict.table {
        MovedAfterAppend(dict.order, k);
      }
      MovedProperties(dict.order, k);
      dict.SetItem(k, e);
      dict.MoveToEnd(k);
      Trim(dict);
    }

    method LookupRoute(session: Option<string>, g: Option<int>) returns (r: Option<Route>)
      requires Sound()
      modifies entries
      ensures State() == Step(old(State()), Lookup(session, g)) && r == Answer(old(State()), Lookup(session, g))
      ensures Sound()
    {
      StepKeepsInv(State(), Lookup(session, g));
      var key := SessionKey(session);
      if key.None? {
        return None;
      }
      r := LookupEntry(entries, key.value, g);
    }

    method LookupProbeRoute(session: Option<string>, g: Option<int>) returns (r: Option<Route>)
      requires Sound()
      modifies entries, probes
      ensures State() == Step(old(State()), LookupProbe(session, g))
      ensures r == Answer(old(State()), LookupProbe(session, g))
      ensures Sound()
    {
      StepKeepsInv(State(), LookupProbe(session, g));
      var key := SessionKey(session);
      if key.None? {
        return None;
      }
      var committed := LookupEntry(entries, key.value, g);
      if committed.Some? {
        return committed;
      }
      r := LookupEntry(probes, key.value, g);
    }

    method RememberRoute(session: Option<string>, route: Route, g: Option<int>)
      requires Sound()
      modifies entries, probes
      ensures State() == Step(old(State()), Remember(session, g, route))
      ensures Sound()
    {
      StepKeepsInv(State(), Remember(session, g, route));
      var key := SessionKey(session);
      if key.None? {
        return;
      }
      var k := key.value;
      probes.Pop(k);
      if k in entries.table && (g.None? || entries.table[k].generation == g) {
        entries.MoveToEnd(k);
        return;
      }
      StoreEntry(entries, k, Entry(g, route));
    }

    method RememberProbeRoute(session: Option<string>, route: Route, g: Option<int>)
      requires Sound()
      modifies probes
      ensures State() == Step(old(State()), RememberProbe(session, g, route))
      ensures Sound()
    {
      StepKeepsInv(State(), RememberProbe(session, g, route));
      var key := SessionKey(session);
      if key.None? {
        return;
      }
      var k := key.value;
      if k in entries.table && (g.None? || entries.table[k].generation == g) {
        return;
      }
      if k in probes.table && (g.None? || probes.table[k].generation == g) {
        probes.MoveToEnd(k);
        return;
      }
      StoreEntry(probes, k, Entry(g, route));
    }

    method ClearAll()
      requires Sound()
      modifies entries, probes
      ensures State() == Empty(maxEntries) && Sound()
    {
      entries.Clear();
      probes.Clear();
    }
  }
}
