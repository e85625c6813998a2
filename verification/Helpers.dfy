/** Approved helpers: the registry, the session policy built from it, and the race between a
    helper's worker thread and the controller that waits for it. */
module Helpers {
  import opened Common
  import opened Capabilities
  import opened Sorting

  datatype Approved = Approved(
    id: string, family: string, capabilities: set<Capability>, local: bool, billable: bool,
    maxOutput: nat, mutating: set<string>)

  function Metadata(h: Approved): Helper {
    Helper(h.id, h.family, if h.local then "local-tool" else "helper", h.capabilities, h.local, h.billable)
  }

  // ---------------------------------------------------------------- the registry

  /** Registered helpers are never removed or replaced. */
  ghost predicate Grows(before: map<string, Approved>, after: map<string, Approved>) {
    forall id | id in before :: id in after && after[id] == before[id]
  }

  ghost predicate KeyedById(helpers: map<string, Approved>) {
    forall id | id in helpers :: helpers[id].id == id
  }

  function ByName(): string -> Rank {
    (id: string) => Rank(0, id)
  }

  /** The names come in ascending order, none twice. */
  ghost predicate AscendingNames(ids: seq<string>) {
    && (forall i, j | 0 <= i < j < |ids| :: StringLe(ids[i], ids[j]))
    && Distinct(ids)
  }

  /** The elements of a set, sorted. */
  method SortedNames(names: set<string>) returns (ids: seq<string>)
    ensures AscendingNames(ids) && |ids| == |names|
    ensures forall id :: id in ids <==> id in names
  {
    var listed: seq<string> := [];
    var rest := names;
    while rest != {}
      invariant rest <= names && |listed| + |rest| == |names|
      invariant forall id :: id in listed <==> id in names && id !in rest
      invariant Distinct(listed)
      decreases rest
    {
      var id :| id in rest;
      listed := listed + [id];
      rest := rest - {id};
    }
    ids := StableSort(ByName(), listed);
    SortedNamesAre(listed, ids);
  }

  lemma SortedNamesAre(listed: seq<string>, ids: seq<string>)
    requires ids == StableSort(ByName(), listed) && Distinct(listed)
    ensures AscendingNames(ids) && |ids| == |listed|
    ensures forall id :: id in ids <==> id in listed
  {
    SortSorts(ByName(), listed);
    SortKeepsDistinct(ByName(), listed);
    forall i, j | 0 <= i < j < |ids| ensures StringLe(ids[i], ids[j]) {
      assert RankLe(ByName()(ids[i]), ByName()(ids[j]));
    }
    forall id ensures id in ids <==> id in listed {
      SortKeepsElements(ByName(), listed, id);
    }
  }

  class Registry {
    var helpers: map<string, Approved>
    var frozen: bool

    constructor ()
      ensures helpers == map[] && !frozen
    {
      helpers, frozen := map[], false;
    }

    method Register(h: Approved) returns (ok: bool)
      requires KeyedById(helpers)
      modifies this`helpers
      ensures ok <==> !frozen && h.id !in old(helpers)
      ensures helpers == if ok then old(helpers)[h.id := h] else old(helpers)
      ensures KeyedById(helpers) && Grows(old(helpers), helpers)
    {
      if frozen {
        return false;
      }
      if h.id in helpers {
        return false;
      }
      helpers := helpers[h.id := h];
      return true;
    }

    method Freeze()
      modifies this`frozen
      ensures frozen
    {
      frozen := true;
    }

    /** The metadata of every registered helper, once each and in order of their ids. */
    method RouterHelpers() returns (rows: seq<Helper>)
      requires KeyedById(helpers)
      ensures |rows| == |helpers|
      ensures forall h | h in rows :: h.id in helpers && h == Metadata(helpers[h.id])
      ensures forall id | id in helpers :: Metadata(helpers[id]) in rows
      ensures forall i, j | 0 <= i < j < |rows| :: StringLe(rows[i].id, rows[j].id) && rows[i].id != rows[j].id
    {
      var ids := SortedNames(helpers.Keys);
      rows := RowsFor(helpers, ids);
      RowsDescribe(helpers, ids);
    }
  }

  function RowsFor(helpers: map<string, Approved>, ids: seq<string>): (rows: seq<Helper>)
    requires forall id | id in ids :: id in helpers
    ensures |rows| == |ids| && forall i | 0 <= i < |ids| :: rows[i] == Metadata(helpers[ids[i]])
  {
    seq(|ids|, i requires 0 <= i < |ids| => Metadata(helpers[ids[i]]))
  }

  lemma RowsDescribe(helpers: map<string, Approved>, ids: seq<string>)
    requires KeyedById(helpers) && AscendingNames(ids) && forall id :: id in ids <==> id in helpers
    ensures var rows := RowsFor(helpers, ids);
      && (forall h | h in rows :: h.id in helpers && h == Metadata(helpers[h.id]))
      && (forall id | id in helpers :: Metadata(helpers[id]) in rows)
      && (forall i, j | 0 <= i < j < |rows| :: StringLe(rows[i].id, rows[j].id) && rows[i].id != rows[j].id)
  {
    var rows := RowsFor(helpers, ids);
    forall i | 0 <= i < |ids| ensures ids[i] in helpers && rows[i].id == ids[i] {
      assert ids[i] in ids;
    }
    forall id | id in helpers ensures Metadata(helpers[id]) in rows {
      var i :| 0 <= i < |ids| && ids[i] == id;
      assert rows[i] == Metadata(helpers[id]);
    }
  }

  // ---------------------------------------------------------------- the session policy

  datatype ProviderMode = StrictProvider | AllowListed | Diagnostic

  const DefaultLocalTools: set<string> := {"computer", "browser"}
  const DefaultForbidden: set<string> := {"anthropic", "openai", "codex", "chatgpt"}

  datatype SessionPolicy = SessionPolicy(
    provider: string, model: string, lanes: set<string>, routing: Policy, remoteFamilies: set<string>,
    localTools: set<string>, forbidden: set<string>, providerMode: ProviderMode, paidFallback: bool)

  /** What the launch configuration asks for. */
  datatype Request = Request(
    controller: string, helpers: set<string>, lanes: set<string>, mode: ProviderMode, routing: Mode, paid: bool)

  datatype PolicyError =
    | MalformedController
    | Unregistered(id: string)
    | BillableNeedsPaidFallback(id: string)
    | RemoteNeedsAllowList
    | NoPrimary
    | StrictForbidsPaidFallback
    | StrictAllowsNoHelper

  function Family(h: Approved): string {
    Lower(Strip(h.family))
  }

  function LocalFamilies(helpers: map<string, Approved>, ids: set<string>): set<string> {
    set id | id in ids && id in helpers && helpers[id].local :: Family(helpers[id])
  }

  function RemoteFamilies(helpers: map<string, Approved>, ids: set<string>): set<string> {
    set id | id in ids && id in helpers && !helpers[id].local :: Family(helpers[id])
  }

  function AllowedIds(requested: set<string>): set<string> {
    set id | id in requested && Strip(id) != "" :: Strip(id)
  }

  /** The conditions under which a session may start. */
  ghost predicate Admissible(helpers: map<string, Approved>, q: Request) {
    var allowed := AllowedIds(q.helpers);
    && (exists provider, model :: NamesPrimary(q.controller, provider, model))
    && allowed <= helpers.Keys
    && (forall id | id in allowed && !helpers[id].local && helpers[id].billable :: q.paid)
    && (RemoteFamilies(helpers, allowed) != {} ==> q.mode.AllowListed?)
    && !(q.mode.StrictProvider? && q.paid)
    && (q.routing.Strict? ==> allowed == {})
  }

  ghost predicate NamesPrimary(controller: string, provider: string, model: string) {
    provider != "" && model != "" && '/' !in provider && controller == provider + "/" + model
  }

  /** The allowed ids are the requested ones, trimmed, without the blank ones. */
  lemma AllowedExactly(requested: set<string>, x: string)
    ensures x in AllowedIds(requested) <==> x != "" && exists id :: id in requested && Strip(id) == x
  {
  }

  /** The lanes are the requested families, trimmed and in lower case, without the blank ones. */
  lemma LanesExactly(requested: set<string>, x: string)
    ensures x in Lanes(requested) <==> exists id :: id in requested && Strip(id) != "" && Lower(Strip(id)) == x
  {
  }

  /** The helper is remote and may bill without consent. */
  predicate Bills(helpers: map<string, Approved>, id: string, paid: bool) {
    id in helpers && !helpers[id].local && helpers[id].billable && !paid
  }

  /** Of the ids for which `p` holds, this one comes first. */
  ghost predicate FirstOf(ids: set<string>, p: string -> bool, id: string) {
    id in ids && p(id) && forall x | x in ids && p(x) :: StringLe(id, x)
  }

  ghost function IsMissing(helpers: map<string, Approved>): string -> bool {
    (id: string) => id !in helpers
  }

  ghost function MayBill(helpers: map<string, Approved>, paid: bool): string -> bool {
    (id: string) => Bills(helpers, id, paid)
  }

  lemma FirstFound(ids: set<string>, names: seq<string>, i: nat, p: string -> bool)
    requires AscendingNames(names) && (forall id :: id in names <==> id in ids)
    requires i < |names| && p(names[i]) && forall j | 0 <= j < i :: !p(names[j])
    ensures FirstOf(ids, p, names[i])
  {
    StringLeTotal(names[i], names[i]);
    forall x | x in ids && p(x) ensures StringLe(names[i], x) {
      var k :| 0 <= k < |names| && names[k] == x;
      if k != i {
        assert i < k;
      }
    }
  }

  /** The first allowed id that is not registered. */
  method FindUnregistered(helpers: map<string, Approved>, allowed: set<string>) returns (missing: Option<string>)
    ensures missing.None? <==> allowed <= helpers.Keys
    ensures missing.Some? ==> FirstOf(allowed, IsMissing(helpers), missing.value)
  {
    var names := SortedNames(allowed);
    for i := 0 to |names|
      invariant forall j | 0 <= j < i :: names[j] in helpers
    {
      if names[i] !in helpers {
        FirstFound(allowed, names, i, IsMissing(helpers));
        return Some(names[i]);
      }
    }
    return None;
  }

  /** What visiting these names has collected, none of them being refused. */
  ghost predicate Collected(helpers: map<string, Approved>, names: seq<string>, paid: bool,
      localTools: set<string>, remote: set<string>) {
    var seen := set id | id in names;
    && localTools == DefaultLocalTools + LocalFamilies(helpers, seen)
    && remote == RemoteFamilies(helpers, seen)
    && forall i | 0 <= i < |names| :: !Bills(helpers, names[i], paid)
  }

  lemma CollectedGains(helpers: map<string, Approved>, names: seq<string>, id: string, paid: bool,
      localTools: set<string>, remote: set<string>)
    requires Collected(helpers, names, paid, localTools, remote) && id in helpers && !Bills(helpers, id, paid)
    ensures var f := {Family(helpers[id])};
      if helpers[id].local then Collected(helpers, names + [id], paid, localTools + f, remote)
      else Collected(helpers, names + [id], paid, localTools, remote + f)
  {
    assert (set x | x in names + [id]) == (set x | x in names) + {id};
  }

  lemma FirstRefused(helpers: map<string, Approved>, allowed: set<string>, names: seq<string>, i: nat, paid: bool,
      localTools: set<string>, remote: set<string>)
    requires AscendingNames(names) && (forall id :: id in names <==> id in allowed) && i < |names|
    requires Collected(helpers, names[..i], paid, localTools, remote) && Bills(helpers, names[i], paid)
    ensures FirstOf(allowed, MayBill(helpers, paid), names[i])
  {
    assert forall j | 0 <= j < i :: names[j] == names[..i][j];
    FirstFound(allowed, names, i, MayBill(helpers, paid));
  }

  lemma AllCollected(helpers: map<string, Approved>, names: seq<string>, allowed: set<string>, paid: bool,
      localTools: set<string>, remote: set<string>)
    requires Collected(helpers, names, paid, localTools, remote) && forall id :: id in names <==> id in allowed
    ensures localTools == DefaultLocalTools + LocalFamilies(helpers, allowed)
    ensures remote == RemoteFamilies(helpers, allowed)
    ensures forall id | id in allowed :: !Bills(helpers, id, paid)
  {
    assert (set x | x in names) == allowed;
  }

  /** Visits the allowed helpers in order of their ids and sorts their families, stopping at one
      that may bill without consent. */
  method CollectFamilies(helpers: map<string, Approved>, allowed: set<string>, paid: bool)
    returns (refused: Option<string>, localTools: set<string>, remote: set<string>)
    requires allowed <= helpers.Keys
    ensures refused.None? <==> forall id | id in allowed :: !Bills(helpers, id, paid)
    ensures refused.Some? ==> FirstOf(allowed, MayBill(helpers, paid), refused.value)
    ensures refused.None? ==> localTools == DefaultLocalTools + LocalFamilies(helpers, allowed)
    ensures refused.None? ==> remote == RemoteFamilies(helpers, allowed)
  {
    localTools, remote := DefaultLocalTools, {};
    var names := SortedNames(allowed);
    for i := 0 to |names|
      invariant Collected(helpers, names[..i], paid, localTools, remote)
    {
      var h := helpers[names[i]];
      assert names[..i + 1] == names[..i] + [names[i]];
      if !Bills(helpers, names[i], paid) {
        CollectedGains(helpers, names[..i], names[i], paid, localTools, remote);
      }
      if h.local {
        localTools := localTools + {Family(h)};
        continue;
      }
      if h.billable && !paid {
        FirstRefused(helpers, allowed, names, i, paid, localTools, remote);
        return Some(names[i]), localTools, remote;
      }
      remote := remote + {Family(h)};
    }
    assert names[..|names|] == names;
    AllCollected(helpers, names, allowed, paid, localTools, remote);
    return None, localTools, remote;
  }

  /** What a refused launch is told: the first condition that fails, and the first helper, by id,
      that fails it. */
  ghost predicate ErrorIs(e: PolicyError, helpers: map<string, Approved>, q: Request) {
    var allowed := AllowedIds(q.helpers);
    var registered := allowed <= helpers.Keys;
    var free := forall id | id in allowed :: !Bills(helpers, id, q.paid);
    var listed := RemoteFamilies(helpers, allowed) == {} || q.mode.AllowListed?;
    var primary := exists provider, model :: NamesPrimary(q.controller, provider, model);
    match e
    case MalformedController => '/' !in q.controller
    case Unregistered(id) => '/' in q.controller && FirstOf(allowed, IsMissing(helpers), id)
    case BillableNeedsPaidFallback(id) =>
      '/' in q.controller && registered && FirstOf(allowed, MayBill(helpers, q.paid), id)
    case RemoteNeedsAllowList => '/' in q.controller && registered && free && !listed
    case NoPrimary => '/' in q.controller && registered && free && listed && !primary
    case StrictForbidsPaidFallback => registered && free && listed && primary && q.mode.StrictProvider? && q.paid
    case StrictAllowsNoHelper =>
      && registered && free && listed && primary && !(q.mode.StrictProvider? && q.paid)
      && q.routing.Strict? && allowed != {}
  }

  /** Resolves one immutable policy, or says why there is none. */
  method BuildSessionPolicy(helpers: map<string, Approved>, q: Request) returns (r: Result<SessionPolicy, PolicyError>)
    ensures r.Success? <==> Admissible(helpers, q)
    ensures r.Success? ==> IsSessionFor(r.value, helpers, q)
    ensures r.Failure? ==> ErrorIs(r.error, helpers, q)
  {
    var named := SplitRef(q.controller);
    if named.None? {
      return Failure(MalformedController);
    }
    var (provider, model) := named.value;
    ghost var primary := provider != "" && model != "";
    assert (exists p, m :: NamesPrimary(q.controller, p, m)) <==> primary by {
      if p, m :| NamesPrimary(q.controller, p, m) {
        SplitExactly(q.controller, p, m);
      } else if primary {
        assert NamesPrimary(q.controller, provider, model);
      }
    }
    var allowed := AllowedIds(q.helpers);
    var missing := FindUnregistered(helpers, allowed);
    if missing.Some? {
      return Failure(Unregistered(missing.value));
    }
    assert allowed <= helpers.Keys;
    var refused, localTools, remote := CollectFamilies(helpers, allowed, q.paid);
    if refused.Some? {
      return Failure(BillableNeedsPaidFallback(refused.value));
    }
    if remote != {} && !q.mode.AllowListed? {
      return Failure(RemoteNeedsAllowList);
    }
    var forbidden := DefaultForbidden;
    if q.paid && q.mode.AllowListed? {
      forbidden := forbidden - remote;
    }
    if provider == "" || model == "" {
      return Failure(NoPrimary);
    }
    if q.mode.StrictProvider? && q.paid {
      return Failure(StrictForbidsPaidFallback);
    }
    if q.routing.Strict? && allowed != {} {
      return Failure(StrictAllowsNoHelper);
    }
    return Success(SessionPolicy(
      provider, model, Lanes(q.lanes), Policy(q.routing, allowed, false), remote, localTools, forbidden,
      q.mode, q.paid));
  }

  function Lanes(requested: set<string>): set<string> {
    set id | id in requested && Strip(id) != "" :: Lower(Strip(id))
  }

  /** What a resolved policy holds. */
  ghost predicate IsSessionFor(s: SessionPolicy, helpers: map<string, Approved>, q: Request) {
    var allowed := AllowedIds(q.helpers);
    && NamesPrimary(q.controller, s.provider, s.model)
    && s.lanes == Lanes(q.lanes)
    && s.routing == Policy(q.routing, allowed, false)
    && s.remoteFamilies == RemoteFamilies(helpers, allowed)
    && s.localTools == DefaultLocalTools + LocalFamilies(helpers, allowed)
    && s.forbidden == DefaultForbidden - (if q.paid && q.mode.AllowListed? then s.remoteFamilies else {})
    && s.providerMode == q.mode && s.paidFallback == q.paid
  }

  // ---------------------------------------------------------------- the egress guard

  datatype Egress = Granted | Refused | OnlyReported

  /** Whether a helper of this family may be used: its family must be open to its kind, and
      a forbidden family is open only to the controller's own provider. A diagnostic session
      reports what it would refuse. */
  function Authorize(s: SessionPolicy, family: string, local: bool): Egress {
    var f, primary := Lower(Strip(family)), Lower(s.provider);
    var remote := s.lanes + if s.providerMode.AllowListed? then s.remoteFamilies else {};
    var open := if local then f in {"local"} + LowerAll(s.localTools) else f in {primary} + LowerAll(remote);
    if open && !(f in LowerAll(s.forbidden) && f != primary) then Granted
    else if s.providerMode.Diagnostic? then OnlyReported
    else Refused
  }

  function LowerAll(names: set<string>): set<string> {
    set n | n in names :: Lower(n)
  }

  lemma LowerIdempotent(n: string)
    ensures Lower(Lower(n)) == Lower(n)
  {
  }

  /** In a resolved session, the guard grants an allowed helper exactly unless its family is
      one of the forbidden ones, was not bought, and is not the controller's own. */
  lemma AllowedHelperIsGrantedExactly(helpers: map<string, Approved>, q: Request, s: SessionPolicy, id: string)
    requires Admissible(helpers, q) && IsSessionFor(s, helpers, q) && id in AllowedIds(q.helpers)
    ensures var h := helpers[id];
      Authorize(s, h.family, h.local) == Granted <==>
        || Family(h) !in DefaultForbidden
        || Family(h) == Lower(s.provider)
        || (q.paid && exists x :: x in AllowedIds(q.helpers) && !helpers[x].local && Family(helpers[x]) == Family(h))
  {
    var h := helpers[id];
    var f := Family(h);
    LowerIdempotent(Strip(h.family));
    if h.local {
      assert f in s.localTools && Lower(f) in LowerAll(s.localTools);
    } else {
      assert f in s.remoteFamilies && Lower(f) in LowerAll(s.remoteFamilies);
    }
    ForbiddenAreLower(s, f);
  }

  lemma ForbiddenAreLower(s: SessionPolicy, f: string)
    requires s.forbidden <= DefaultForbidden
    ensures f in LowerAll(s.forbidden) <==> f in s.forbidden
  {
    forall n | n in DefaultForbidden ensures Lower(n) == n {
      LowerOfForbidden();
    }
    if f in s.forbidden {
      assert Lower(f) in LowerAll(s.forbidden);
    }
  }

  lemma LowerOfForbidden()
    ensures Lower("anthropic") == "anthropic" && Lower("openai") == "openai"
    ensures Lower("codex") == "codex" && Lower("chatgpt") == "chatgpt"
  {
  }

  // ---------------------------------------------------------------- worker against timeout

  /** What the helper's own code produced. */
  datatype Product = RaisedError | NotAMapping | NotJson | Output(bytes: nat)

  /** The helper's thread: at work, having put its product in the queue, or ended. */
  datatype Thread = AtWork | Delivered | Exited

  datatype Status = SUCCESS | FAILED | TIMED_OUT | INDETERMINATE | OUTPUT_REJECTED

  /** The controller: waiting, past its timeout, past the cancel signal, past the grace period,
      holding the product, or finished. */
  datatype Controller = Waiting | Expired | Signalled | GraceOver | Took(product: Product) | Verdict(status: Status)

  datatype Race = Race(
    mutating: bool, bound: nat, thread: Thread, product: Option<Product>, queued: bool, cancel: bool,
    controller: Controller)

  datatype Move =
    | Deliver(product: Product)
    | ThreadEnds
    | Take
    | Expire
    | Signal
    | GraceEnds
    | JudgeTimeout
    | JudgeProduct

  predicate Allowed(r: Race, m: Move) {
    match m
    case Deliver(_) => r.thread.AtWork?
    case ThreadEnds => r.thread.Delivered?
    case Take => r.controller.Waiting? && r.queued
    case Expire => r.controller.Waiting? && !r.queued
    case Signal => r.controller.Expired?
    case GraceEnds => r.controller.Signalled?
    case JudgeTimeout => r.controller.GraceOver?
    case JudgeProduct => r.controller.Took?
  }

  function StatusOf(p: Product, bound: nat): Status {
    match p
    case RaisedError => FAILED
    case NotAMapping => OUTPUT_REJECTED
    case NotJson => OUTPUT_REJECTED
    case Output(bytes) => if bytes > bound then OUTPUT_REJECTED else SUCCESS
  }

  function After(r: Race, m: Move): Race
    requires Allowed(r, m)
  {
    match m
    case Deliver(p) => r.(thread := Delivered, product := Some(p), queued := true)
    case ThreadEnds => r.(thread := Exited)
    case Take => r.(controller := if r.product.Some? then Took(r.product.value) else r.controller, queued := false)
    case Expire => r.(controller := Expired)
    case Signal => r.(cancel := true, controller := Signalled)
    case GraceEnds => r.(controller := GraceOver)
    case JudgeTimeout => r.(controller := Verdict(if r.mutating || !r.thread.Exited? then INDETERMINATE else TIMED_OUT))
    case JudgeProduct => r.(controller := Verdict(StatusOf(r.controller.product, r.bound)))
  }

  function StartOf(mutating: bool, bound: nat): Race {
    Race(mutating, bound, AtWork, None, false, false, Waiting)
  }

  predicate Possible(mutating: bool, bound: nat, moves: seq<Move>)
    decreases |moves|, 0
  {
    moves == [] ||
    (Possible(mutating, bound, moves[..|moves| - 1])
      && Allowed(Play(mutating, bound, moves[..|moves| - 1]), moves[|moves| - 1]))
  }

  function Play(mutating: bool, bound: nat, moves: seq<Move>): Race
    requires Possible(mutating, bound, moves)
    decreases |moves|, 1
  {
    if moves == [] then StartOf(mutating, bound)
    else After(Play(mutating, bound, moves[..|moves| - 1]), moves[|moves| - 1])
  }

  predicate TimedOutPath(c: Controller) {
    c.Signalled? || c.GraceOver? || (c.Verdict? && (c.status.TIMED_OUT? || c.status.INDETERMINATE?))
  }

  predicate TookProduct(c: Controller) {
    c.Took? || (c.Verdict? && !TimedOutPath(c))
  }

  /** What every interleaving of the worker and the controller keeps. */
  ghost predicate HonestRace(r: Race) {
    && (r.cancel <==> TimedOutPath(r.controller))
    && (r.thread.AtWork? <==> r.product.None?)
    && (r.queued <==> r.product.Some? && !TookProduct(r.controller))
    && (r.controller.Took? ==> r.product == Some(r.controller.product))
    && (r.controller == Verdict(TIMED_OUT) ==> r.thread.Exited? && !r.mutating)
    && (r.controller.Verdict? && !TimedOutPath(r.controller) ==>
          r.product.Some? && r.controller.status == StatusOf(r.product.value, r.bound))
  }

  lemma {:induction false} EveryRaceIsHonest(mutating: bool, bound: nat, moves: seq<Move>)
    requires Possible(mutating, bound, moves)
    ensures HonestRace(Play(mutating, bound, moves))
    ensures Play(mutating, bound, moves).mutating == mutating && Play(mutating, bound, moves).bound == bound
  {
    if moves != [] {
      EveryRaceIsHonest(mutating, bound, moves[..|moves| - 1]);
    }
  }

  lemma {:induction false} ExpiryIsRemembered(mutating: bool, bound: nat, moves: seq<Move>)
    requires Possible(mutating, bound, moves)
    ensures var c := Play(mutating, bound, moves).controller; Expire in moves <==> c.Expired? || TimedOutPath(c)
  {
    if moves != [] {
      var front, last := moves[..|moves| - 1], moves[|moves| - 1];
      assert moves == front + [last];
      ExpiryIsRemembered(mutating, bound, front);
      EveryRaceIsHonest(mutating, bound, front);
    }
  }

  /** The product of the helper is what it delivered, once. */
  lemma {:induction false} ProductIsDelivered(mutating: bool, bound: nat, moves: seq<Move>, p: Product)
    requires Possible(mutating, bound, moves)
    ensures Play(mutating, bound, moves).product == Some(p) <==> Deliver(p) in moves
  {
    if moves != [] {
      var front, last := moves[..|moves| - 1], moves[|moves| - 1];
      assert moves == front + [last];
      EveryRaceIsHonest(mutating, bound, front);
      ProductIsDelivered(mutating, bound, front, p);
    }
  }

  /** The thread had ended when the timeout was judged. */
  ghost predicate EndedInTime(moves: seq<Move>) {
    exists k :: 0 <= k < |moves| && moves[k] == JudgeTimeout && ThreadEnds in moves[..k]
  }

  lemma {:induction false} ThreadIsEnded(mutating: bool, bound: nat, moves: seq<Move>)
    requires Possible(mutating, bound, moves)
    ensures Play(mutating, bound, moves).thread.Exited? <==> ThreadEnds in moves
  {
    if moves != [] {
      var front, last := moves[..|moves| - 1], moves[|moves| - 1];
      assert moves == front + [last];
      ThreadIsEnded(mutating, bound, front);
    }
  }

  lemma EndedBefore(front: seq<Move>, last: Move)
    ensures EndedInTime(front + [last]) <==> EndedInTime(front) || (last == JudgeTimeout && ThreadEnds in front)
  {
    var moves := front + [last];
    if EndedInTime(moves) {
      var k :| 0 <= k < |moves| && moves[k] == JudgeTimeout && ThreadEnds in moves[..k];
      if k < |front| {
        assert moves[..k] == front[..k] && front[k] == JudgeTimeout;
      } else {
        assert moves[..k] == front;
      }
    }
    if k :| 0 <= k < |front| && front[k] == JudgeTimeout && ThreadEnds in front[..k] {
      assert moves[..k] == front[..k] && moves[k] == JudgeTimeout;
    }
    if last == JudgeTimeout && ThreadEnds in front {
      assert moves[|front|] == JudgeTimeout && moves[..|front|] == front;
    }
  }

  lemma {:induction false} TimeoutIsJudged(mutating: bool, bound: nat, moves: seq<Move>)
    requires Possible(mutating, bound, moves)
    ensures var c := Play(mutating, bound, moves).controller;
      && (c == Verdict(TIMED_OUT) <==> !mutating && EndedInTime(moves))
      && (JudgeTimeout in moves <==> c == Verdict(TIMED_OUT) || c == Verdict(INDETERMINATE))
  {
    if moves == [] {
      assert !EndedInTime(moves);
    } else {
      var front, last := moves[..|moves| - 1], moves[|moves| - 1];
      assert moves == front + [last];
      TimeoutIsJudged(mutating, bound, front);
      EveryRaceIsHonest(mutating, bound, front);
      ThreadIsEnded(mutating, bound, front);
      EndedBefore(front, last);
    }
  }

  /** Which verdict a race ends with, by what happened in it. Within the time: success exactly
      for delivered output within the bound, failure exactly for a raised error, rejection exactly
      for the rest. After it: a timeout exactly if the helper does not mutate and its thread had
      ended when the timeout was judged, and otherwise an indeterminate result. */
  lemma VerdictExactly(mutating: bool, bound: nat, moves: seq<Move>, status: Status)
    requires Possible(mutating, bound, moves) && Play(mutating, bound, moves).controller == Verdict(status)
    ensures Expire !in moves ==>
      && (status == SUCCESS <==> exists n: nat :: n <= bound && Deliver(Output(n)) in moves)
      && (status == FAILED <==> Deliver(RaisedError) in moves)
      && (status == OUTPUT_REJECTED <==>
            || Deliver(NotAMapping) in moves || Deliver(NotJson) in moves
            || exists n: nat :: n > bound && Deliver(Output(n)) in moves)
      && status != TIMED_OUT && status != INDETERMINATE
    ensures Expire in moves ==>
      && (status == TIMED_OUT <==> !mutating && EndedInTime(moves))
      && (status == INDETERMINATE <==> mutating || !EndedInTime(moves))
    ensures Play(mutating, bound, moves).cancel <==> Expire in moves
  {
    EveryRaceIsHonest(mutating, bound, moves);
    ExpiryIsRemembered(mutating, bound, moves);
    TimeoutIsJudged(mutating, bound, moves);
    forall p ensures Play(mutating, bound, moves).product == Some(p) <==> Deliver(p) in moves {
      ProductIsDelivered(mutating, bound, moves, p);
    }
  }

  /** No race gets stuck: the thread can end, and the controller can judge. */
  lemma RaceGoesOn(mutating: bool, bound: nat, moves: seq<Move>) returns (next: Move)
    requires Possible(mutating, bound, moves) && !Play(mutating, bound, moves).controller.Verdict?
    ensures Possible(mutating, bound, moves + [next])
    ensures !next.Deliver? && !next.ThreadEnds?
  {
    var r := Play(mutating, bound, moves);
    EveryRaceIsHonest(mutating, bound, moves);
    next := if r.controller.Waiting? then (if r.queued then Take else Expire)
            else if r.controller.Expired? then Signal
            else if r.controller.Signalled? then GraceEnds
            else if r.controller.GraceOver? then JudgeTimeout
            else JudgeProduct;
    assert (moves + [next])[..|moves|] == moves;
  }

  /** What the two threads may do at each point, and what only one of them may. */
  lemma MovesExactly(mutating: bool, bound: nat, moves: seq<Move>)
    requires Possible(mutating, bound, moves)
    ensures var r := Play(mutating, bound, moves);
      && (forall p :: Allowed(r, Deliver(p)) <==> forall q :: Deliver(q) !in moves)
      && (Allowed(r, ThreadEnds) <==> ThreadEnds !in moves && exists q :: Deliver(q) in moves)
      && (Allowed(r, Take) <==> Take !in moves && Expire !in moves && exists q :: Deliver(q) in moves)
      && (Allowed(r, Expire) <==> Take !in moves && Expire !in moves && forall q :: Deliver(q) !in moves)
      && (Allowed(r, Signal) <==> Expire in moves && Signal !in moves)
      && (Allowed(r, GraceEnds) <==> Signal in moves && GraceEnds !in moves)
      && (Allowed(r, JudgeTimeout) <==> GraceEnds in moves && JudgeTimeout !in moves)
      && (Allowed(r, JudgeProduct) <==> Take in moves && JudgeProduct !in moves)
  {
    EveryRaceIsHonest(mutating, bound, moves);
    HistoryOfMoves(mutating, bound, moves);
    forall p ensures Play(mutating, bound, moves).product == Some(p) <==> Deliver(p) in moves {
      ProductIsDelivered(mutating, bound, moves, p);
    }
    ThreadIsEnded(mutating, bound, moves);
  }

  /** How far the controller has come, by what it did. */
  lemma {:induction false} HistoryOfMoves(mutating: bool, bound: nat, moves: seq<Move>)
    requires Possible(mutating, bound, moves)
    ensures var c := Play(mutating, bound, moves).controller;
      && (Take in moves <==> TookProduct(c))
      && (JudgeProduct in moves <==> c.Verdict? && !TimedOutPath(c))
      && (Expire in moves <==> c.Expired? || TimedOutPath(c))
      && (Signal in moves <==> TimedOutPath(c))
      && (GraceEnds in moves <==> c.GraceOver? || (c.Verdict? && TimedOutPath(c)))
      && (JudgeTimeout in moves <==> c.Verdict? && TimedOutPath(c))
  {
    if moves != [] {
      var front, last := moves[..|moves| - 1], moves[|moves| - 1];
      assert moves == front + [last];
      HistoryOfMoves(mutating, bound, front);
      EveryRaceIsHonest(mutating, bound, front);
    }
  }

  // ---------------------------------------------------------------- planned execution

  /** The rows list the helpers in order of their ids. */
  ghost predicate Listing(helpers: map<string, Approved>, rows: seq<Helper>) {
    && (forall h | h in rows :: h.id in helpers && h == Metadata(helpers[h.id]))
    && (forall id | id in helpers :: Metadata(helpers[id]) in rows)
    && (forall i, j | 0 <= i < j < |rows| :: StringLe(rows[i].id, rows[j].id) && rows[i].id != rows[j].id)
  }

  /** Some allowed helper has the capability. */
  ghost predicate SomeoneHas(helpers: map<string, Approved>, policy: Policy, c: Capability) {
    exists id :: id in helpers && HelperAllowed(policy, Metadata(helpers[id])) && c in helpers[id].capabilities
  }

  /** The helper is allowed, and has something missing that no allowed helper with a smaller id
      has. */
  ghost predicate Useful(helpers: map<string, Approved>, policy: Policy, missing: set<Capability>, id: string) {
    && id in helpers && HelperAllowed(policy, Metadata(helpers[id]))
    && exists c :: c in missing && c in helpers[id].capabilities && !SomeoneBefore(helpers, policy, id, c)
  }

  ghost predicate SomeoneBefore(helpers: map<string, Approved>, policy: Policy, id: string, c: Capability) {
    exists x :: x in helpers && x != id && StringLe(x, id)
      && HelperAllowed(policy, Metadata(helpers[x])) && c in helpers[x].capabilities
  }

  lemma CoveredBySomeone(helpers: map<string, Approved>, rows: seq<Helper>, policy: Policy, c: Capability)
    requires Listing(helpers, rows) && KeyedById(helpers)
    ensures c in Coverage(policy, rows) <==> SomeoneHas(helpers, policy, c)
  {
    CoverageMember(policy, rows, c);
    if id :| id in helpers && HelperAllowed(policy, Metadata(helpers[id])) && c in helpers[id].capabilities {
      assert Metadata(helpers[id]) in rows;
    }
  }

  lemma ListedBefore(helpers: map<string, Approved>, rows: seq<Helper>, i: nat, x: string)
    requires Listing(helpers, rows) && KeyedById(helpers) && i < |rows|
    ensures x in helpers && x != rows[i].id && StringLe(x, rows[i].id) <==>
      x in helpers && Metadata(helpers[x]) in rows[..i]
  {
    if x in helpers {
      var k :| 0 <= k < |rows| && rows[k] == Metadata(helpers[x]);
      if k < i {
        assert rows[..i][k] == rows[k];
      } else {
        StringLeTotal(x, rows[i].id);
      }
    }
  }

  lemma CoveredBefore(helpers: map<string, Approved>, rows: seq<Helper>, policy: Policy, i: nat, c: Capability)
    requires Listing(helpers, rows) && KeyedById(helpers) && i < |rows|
    ensures c in Coverage(policy, rows[..i]) <==> SomeoneBefore(helpers, policy, rows[i].id, c)
  {
    CoverageMember(policy, rows[..i], c);
    if h :| h in rows[..i] && HelperAllowed(policy, h) && c in h.capabilities {
      assert h in rows && h == Metadata(helpers[h.id]);
      ListedBefore(helpers, rows, i, h.id);
    }
    if x :| x in helpers && x != rows[i].id && StringLe(x, rows[i].id)
            && HelperAllowed(policy, Metadata(helpers[x])) && c in helpers[x].capabilities {
      ListedBefore(helpers, rows, i, x);
    }
  }

  /** The plan of a session uses exactly the useful helpers. */
  lemma PlannedExactly(helpers: map<string, Approved>, rows: seq<Helper>, policy: Policy, missing: set<Capability>,
      selected: seq<Helper>, id: string)
    requires Listing(helpers, rows) && KeyedById(helpers) && TakenInOrder(policy, missing, rows, selected)
    ensures (exists h :: h in selected && h.id == id) <==> Useful(helpers, policy, missing, id)
  {
    forall i | 0 <= i < |rows| ensures Adds(policy, missing, rows, i) <==>
      Useful(helpers, policy, missing, rows[i].id) {
      assert rows[i] in rows;
      forall c ensures c in Coverage(policy, rows[..i]) <==> SomeoneBefore(helpers, policy, rows[i].id, c) {
        CoveredBefore(helpers, rows, policy, i, c);
      }
    }
    if h :| h in selected && h.id == id {
      TakenExactly(policy, missing, rows, selected, h);
    }
    if Useful(helpers, policy, missing, id) {
      var h := Metadata(helpers[id]);
      var i :| 0 <= i < |rows| && rows[i] == h;
      TakenExactly(policy, missing, rows, selected, h);
    }
  }

  /** A helper that a plan uses is on the allowlist and registered, and is still the helper that
      the plan described, however many registrations happened in between. */
  lemma PlannedHelperIsApproved(policy: Policy, planned: map<string, Approved>, rows: seq<Helper>,
      missing: set<Capability>, selected: seq<Helper>, now: map<string, Approved>, id: string)
    requires Listing(planned, rows) && KeyedById(planned) && TakenInOrder(policy, missing, rows, selected)
    requires Grows(planned, now) && exists h :: h in selected && h.id == id
    ensures id in policy.allowed && id in now && Metadata(now[id]) in selected
    ensures HelperAllowed(policy, Metadata(now[id]))
  {
    PlannedExactly(planned, rows, policy, missing, selected, id);
    var h :| h in selected && h.id == id;
    TakenExactly(policy, missing, rows, selected, h);
  }

  datatype Refusal = NotPlanned | NotRegistered | EgressRefused | InvalidTimeout

  const DefaultTimeout := 60.0

  /** Admits an execution only of a helper that the plan selected; everything after admission is
      the race above. A diagnostic session goes on where others refuse. */
  method ExecutePlanned(registry: Registry, session: SessionPolicy, plan: Plan, id: string, timeout: Option<real>)
    returns (r: Result<Approved, Refusal>)
    ensures r.Success? <==>
      && plan.UseHelpers? && (exists h :: h in plan.helpers && h.id == id)
      && id in registry.helpers && !Authorize(session, registry.helpers[id].family, registry.helpers[id].local).Refused?
      && (timeout.Some? ==> timeout.value > 0.0)
    ensures r.Success? ==> r.value == registry.helpers[id]
    ensures r.Failure? ==>
      var planned := plan.UseHelpers? && exists h :: h in plan.helpers && h.id == id;
      match r.error
      case NotPlanned => !planned
      case NotRegistered => planned && id !in registry.helpers
      case EgressRefused =>
        && planned && id in registry.helpers
        && Authorize(session, registry.helpers[id].family, registry.helpers[id].local).Refused?
      case InvalidTimeout =>
        && planned && id in registry.helpers && timeout.Some? && timeout.value <= 0.0
        && !Authorize(session, registry.helpers[id].family, registry.helpers[id].local).Refused?
  {
    if !plan.UseHelpers? || !(exists h :: h in plan.helpers && h.id == id) {
      return Failure(NotPlanned);
    }
    if id !in registry.helpers {
      return Failure(NotRegistered);
    }
    var helper := registry.helpers[id];
    if Authorize(session, helper.family, helper.local).Refused? {
      return Failure(EgressRefused);
    }
    var seconds := if timeout.Some? then timeout.value else DefaultTimeout;
    if seconds <= 0.0 {
      return Failure(InvalidTimeout);
    }
    return Success(helper);
  }

  datatype Demand = Demand(required: set<Capability>, supported: set<Capability>, known: set<Capability>)

  datatype Stopped = NoSession(why: PolicyError) | NoPlan(lacking: PlanError) | NotAdmitted(refusal: Refusal)

  /** What stops a session or an execution: the launch, capabilities that no allowed helper has,
      or a helper that is not useful, not open to the session, or given no time. */
  ghost predicate StoppedBy(e: Stopped, helpers: map<string, Approved>, q: Request, missing: set<Capability>,
      id: string, timeout: Option<real>) {
    var policy := Policy(q.routing, AllowedIds(q.helpers), false);
    match e
    case NoSession(why) => !Admissible(helpers, q) && ErrorIs(why, helpers, q)
    case NoPlan(lacking) =>
      && Admissible(helpers, q) && lacking.Unavailable? && lacking.capabilities != {}
      && forall c :: c in lacking.capabilities <==> c in missing && !SomeoneHas(helpers, policy, c)
    case NotAdmitted(why) =>
      && Admissible(helpers, q) && (forall c | c in missing :: SomeoneHas(helpers, policy, c))
      && match why
         case NotPlanned => !Useful(helpers, policy, missing, id)
         case NotRegistered => false
         case EgressRefused => Useful(helpers, policy, missing, id) && !Open(helpers, q, id)
         case InvalidTimeout =>
           Useful(helpers, policy, missing, id) && Open(helpers, q, id) && timeout.Some? && timeout.value <= 0.0
  }

  /** The guard lets the session use the helper. */
  ghost predicate Open(helpers: map<string, Approved>, q: Request, id: string)
    requires Admissible(helpers, q)
  {
    id in helpers && (q.mode.Diagnostic? || GrantedFor(helpers, q, helpers[id]))
  }

  lemma OpenExactly(helpers: map<string, Approved>, q: Request, s: SessionPolicy, id: string)
    requires Admissible(helpers, q) && IsSessionFor(s, helpers, q) && id in AllowedIds(q.helpers)
    ensures Open(helpers, q, id) <==> !Authorize(s, helpers[id].family, helpers[id].local).Refused?
  {
    AllowedHelperIsGrantedExactly(helpers, q, s, id);
    forall provider, model | NamesPrimary(q.controller, provider, model) ensures provider == s.provider {
      SplitExactly(q.controller, provider, model);
      SplitExactly(q.controller, s.provider, s.model);
    }
  }

  /** What admits a planned execution, in terms of the helpers the plan was made over. */
  lemma AdmittedExactly(helpers: map<string, Approved>, now: map<string, Approved>, rows: seq<Helper>, q: Request,
      s: SessionPolicy, missing: set<Capability>, plan: Plan, id: string)
    requires Admissible(helpers, q) && IsSessionFor(s, helpers, q)
    requires KeyedById(helpers) && Listing(helpers, rows) && Grows(helpers, now)
    requires plan.Primary? <==> missing == {}
    requires plan.UseHelpers? ==> TakenInOrder(s.routing, missing, rows, plan.helpers)
    ensures plan.UseHelpers? && (exists h :: h in plan.helpers && h.id == id) <==>
      Useful(helpers, s.routing, missing, id)
    ensures Useful(helpers, s.routing, missing, id) ==>
      && id in AllowedIds(q.helpers) && id in now && now[id] == helpers[id]
      && (Open(helpers, q, id) <==> !Authorize(s, now[id].family, now[id].local).Refused?)
  {
    if plan.UseHelpers? {
      PlannedExactly(helpers, rows, s.routing, missing, plan.helpers, id);
    }
    if Useful(helpers, s.routing, missing, id) {
      OpenExactly(helpers, q, s, id);
    }
  }

  lemma UncoveredExactly(helpers: map<string, Approved>, rows: seq<Helper>, policy: Policy, missing: set<Capability>)
    requires Listing(helpers, rows) && KeyedById(helpers)
    ensures missing <= Coverage(policy, rows) <==> forall c | c in missing :: SomeoneHas(helpers, policy, c)
    ensures forall c :: c in missing - Coverage(policy, rows) <==> c in missing && !SomeoneHas(helpers, policy, c)
  {
    forall c ensures c in Coverage(policy, rows) <==> SomeoneHas(helpers, policy, c) {
      CoveredBySomeone(helpers, rows, policy, c);
    }
  }

  /** The policy of a session and its plan over the helpers registered now. */
  method PlanSession(registry: Registry, q: Request, demand: Demand)
    returns (r: Result<(SessionPolicy, Plan), Stopped>, ghost rows: seq<Helper>)
    requires KeyedById(registry.helpers)
    ensures var missing := Missing(demand.required, demand.supported, demand.known);
      && (r.Failure? ==> forall id, timeout :: StoppedBy(r.error, registry.helpers, q, missing, id, timeout))
      && (r.Failure? ==> !r.error.NotAdmitted?)
      && (r.Success? ==> var (s, plan) := r.value;
            && Admissible(registry.helpers, q) && IsSessionFor(s, registry.helpers, q)
            && Listing(registry.helpers, rows) && (plan.Primary? <==> missing == {})
            && (forall c | c in missing :: SomeoneHas(registry.helpers, s.routing, c))
            && (plan.UseHelpers? ==> TakenInOrder(s.routing, missing, rows, plan.helpers)))
  {
    rows := [];
    var session := BuildSessionPolicy(registry.helpers, q);
    if session.Failure? {
      r := Failure(NoSession(session.error));
      return;
    }
    var listed := registry.RouterHelpers();
    rows := listed;
    var plan := MakePlan(session.value.routing, demand.required, demand.supported, demand.known, listed);
    UncoveredExactly(registry.helpers, rows, session.value.routing,
                     Missing(demand.required, demand.supported, demand.known));
    if plan.Failure? {
      r := Failure(NoPlan(plan.error));
      return;
    }
    r := Success((session.value, plan.value));
  }

  /** A helper runs: the session is admissible, allowed helpers have all that is missing, this one
      is useful and open to the session, and it is given time. */
  ghost predicate Executes(helpers: map<string, Approved>, q: Request, missing: set<Capability>, id: string,
      timeout: Option<real>) {
    var policy := Policy(q.routing, AllowedIds(q.helpers), false);
    && Admissible(helpers, q) && (forall c | c in missing :: SomeoneHas(helpers, policy, c))
    && Useful(helpers, policy, missing, id) && Open(helpers, q, id) && (timeout.Some? ==> timeout.value > 0.0)
  }

  lemma StoppedDoesNotExecute(e: Stopped, helpers: map<string, Approved>, q: Request, missing: set<Capability>,
      id: string, timeout: Option<real>)
    requires StoppedBy(e, helpers, q, missing, id, timeout)
    ensures !Executes(helpers, q, missing, id, timeout)
  {
    if e.NoPlan? {
      var c :| c in e.lacking.capabilities;
      assert c in missing;
    }
  }

  /** One session from its policy through planning to execution: whatever is registered in
      between, the outcome is decided by the helpers registered when the plan was made, and the
      helper executed is the one that was registered then. */
  method PlanThenExecute(registry: Registry, q: Request, demand: Demand, later: seq<Approved>, id: string,
      timeout: Option<real>)
    returns (r: Result<Approved, Stopped>)
    requires KeyedById(registry.helpers)
    modifies registry`helpers
    ensures KeyedById(registry.helpers) && Grows(old(registry.helpers), registry.helpers)
    ensures var helpers, missing := old(registry.helpers), Missing(demand.required, demand.supported, demand.known);
      && (r.Success? <==> Executes(helpers, q, missing, id, timeout))
      && (r.Success? ==> id in AllowedIds(q.helpers) && r.value == helpers[id])
      && (r.Failure? ==> StoppedBy(r.error, helpers, q, missing, id, timeout))
  {
    ghost var planned := registry.helpers;
    var session, rows := PlanSession(registry, q, demand);
    for i := 0 to |later|
      invariant KeyedById(registry.helpers) && Grows(planned, registry.helpers)
    {
      var _ := registry.Register(later[i]);
    }
    ghost var missing := Missing(demand.required, demand.supported, demand.known);
    if session.Failure? {
      StoppedDoesNotExecute(session.error, planned, q, missing, id, timeout);
      return Failure(session.error);
    }
    var (policy, plan) := session.value;
    AdmittedExactly(planned, registry.helpers, rows, q, policy, missing, plan, id);
    var admitted := ExecutePlanned(registry, policy, plan, id, timeout);
    if admitted.Failure? {
      return Failure(NotAdmitted(admitted.error));
    }
    return Success(admitted.value);
  }

  /** The family of the helper is the controller's own, or is not forbidden, or was bought. */
  ghost predicate GrantedFor(helpers: map<string, Approved>, q: Request, h: Approved)
    requires AllowedIds(q.helpers) <= helpers.Keys
  {
    || Family(h) !in DefaultForbidden
    || (exists provider, model :: NamesPrimary(q.controller, provider, model) && Family(h) == Lower(provider))
    || (q.paid && exists x :: x in AllowedIds(q.helpers) && !helpers[x].local && Family(helpers[x]) == Family(h))
  }
}
