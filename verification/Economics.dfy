/** Token accounting of benchmark receipts: nothing is lost or counted twice when rows are
    grouped by phase, and what a passed economics receipt says row by row. */
module Economics {
  import opened Common
  import opened Compaction

  /** One request's row; durations are in milliseconds. */
  datatype Usage = Usage(
    model: string, uncached: nat, cacheRead: nat, cacheWrite: nat, output: nat, attempts: int,
    protocol: Option<string>, phase: Option<string>, boundary: Option<string>, prefix: Option<string>,
    shape: Option<string>, request: Option<string>, ttft: Option<real>, duration: Option<real>, memories: seq<string>)

  /** Dollars per million tokens of each kind. */
  datatype Price = Price(input: real, output: real, cacheRead: real, cacheWrite: real)

  datatype Problem = EmptyReceipt | NoPhases | NoPrice

  datatype Totals = Totals(requests: int, attempts: int, uncached: int, cacheRead: int, cacheWrite: int, output: int,
      cost: real)

  datatype Summary = Summary(
    totals: Totals, amplification: real, cacheShare: real, protocols: set<string>, phases: set<string>,
    boundaries: nat, prefixes: nat, distinctPrefixes: nat)

  const NoTotals := Totals(0, 0, 0, 0, 0, 0, 0.0)

  function Plus(a: Totals, b: Totals): Totals {
    Totals(a.requests + b.requests, a.attempts + b.attempts, a.uncached + b.uncached, a.cacheRead + b.cacheRead,
           a.cacheWrite + b.cacheWrite, a.output + b.output, a.cost + b.cost)
  }

  function Cost(u: Usage, p: Price): real {
    (u.uncached as real * p.input + u.cacheRead as real * p.cacheRead
     + u.cacheWrite as real * p.cacheWrite + u.output as real * p.output) / 1000000.0
  }

  function RowTotals(u: Usage, p: Price): Totals {
    Totals(1, u.attempts, u.uncached, u.cacheRead, u.cacheWrite, u.output, Cost(u, p))
  }

  predicate Priced(rows: seq<Usage>, pricing: Usage -> Option<Price>) {
    forall u | u in rows :: pricing(u).Some?
  }

  function Total(rows: seq<Usage>, pricing: Usage -> Option<Price>): Totals
    requires Priced(rows, pricing)
  {
    if rows == [] then NoTotals
    else Plus(Total(rows[..|rows| - 1], pricing), RowTotals(rows[|rows| - 1], pricing(rows[|rows| - 1]).value))
  }

  lemma {:induction false} TotalCountsRows(rows: seq<Usage>, pricing: Usage -> Option<Price>)
    requires Priced(rows, pricing)
    ensures Total(rows, pricing).requests == |rows|
  {
    if rows != [] {
      TotalCountsRows(rows[..|rows| - 1], pricing);
    }
  }

  /** Fails for an empty receipt and for a row without a price. */
  function Summarize(rows: seq<Usage>, pricing: Usage -> Option<Price>): Result<Summary, Problem> {
    if rows == [] then Failure(EmptyReceipt)
    else if !Priced(rows, pricing) then Failure(NoPrice)
    else
      var t := Total(rows, pricing);
      TotalCountsRows(rows, pricing);
      var share :=
        if t.uncached + t.cacheRead == 0 then 0.0 else t.cacheRead as real / (t.uncached + t.cacheRead) as real;
      Success(Summary(
        t, t.attempts as real / t.requests as real, share,
        set u | u in rows && u.protocol.Some? :: u.protocol.value, PhaseSet(rows),
        |Elements(FilledCells(rows, Boundary))|, |FilledCells(rows, Prefix)|, |Elements(FilledCells(rows, Prefix))|))
  }

  /** The values of a column that are present and not empty. */
  function FilledCells(rows: seq<Usage>, k: Key): seq<string> {
    if rows == [] then []
    else
      var c := Cell(rows[|rows| - 1], k);
      FilledCells(rows[..|rows| - 1], k) + if Filled(c) then [c.value] else []
  }

  // ---------------------------------------------------------------- what a summary says

  ghost function Sum(rows: seq<Usage>, f: Usage -> int): int {
    if rows == [] then 0 else f(rows[0]) + Sum(rows[1..], f)
  }

  ghost function SumOfCosts(rows: seq<Usage>, pricing: Usage -> Option<Price>): real
    requires Priced(rows, pricing)
  {
    if rows == [] then 0.0 else Cost(rows[0], pricing(rows[0]).value) + SumOfCosts(rows[1..], pricing)
  }

  lemma {:induction false} SumSnoc(rows: seq<Usage>, u: Usage, f: Usage -> int)
    ensures Sum(rows + [u], f) == Sum(rows, f) + f(u)
  {
    if rows == [] {
      assert [u][1..] == [] && [] + [u] == [u];
    } else {
      assert (rows + [u])[1..] == rows[1..] + [u];
      SumSnoc(rows[1..], u, f);
    }
  }

  lemma {:induction false} CostSnoc(rows: seq<Usage>, u: Usage, pricing: Usage -> Option<Price>)
    requires Priced(rows + [u], pricing)
    ensures Priced(rows, pricing) && pricing(u).Some?
    ensures SumOfCosts(rows + [u], pricing) == SumOfCosts(rows, pricing) + Cost(u, pricing(u).value)
  {
    assert u in rows + [u] && forall x | x in rows :: x in rows + [u];
    if rows == [] {
      assert [u][1..] == [] && [] + [u] == [u];
    } else {
      assert (rows + [u])[1..] == rows[1..] + [u];
      forall x | x in rows[1..] + [u] ensures pricing(x).Some? {
        assert x in rows + [u];
      }
      CostSnoc(rows[1..], u, pricing);
    }
  }

  function Uncached(): Usage -> int {
    (u: Usage) => u.uncached
  }

  function CacheRead(): Usage -> int {
    (u: Usage) => u.cacheRead
  }

  function CacheWrite(): Usage -> int {
    (u: Usage) => u.cacheWrite
  }

  function Output(): Usage -> int {
    (u: Usage) => u.output
  }

  function AttemptsOf(): Usage -> int {
    (u: Usage) => u.attempts
  }

  /** Each total is the sum of its own column. */
  ghost predicate SumsUp(t: Totals, rows: seq<Usage>, pricing: Usage -> Option<Price>)
    requires Priced(rows, pricing)
  {
    && t.requests == |rows| && t.attempts == Sum(rows, AttemptsOf())
    && t.uncached == Sum(rows, Uncached()) && t.cacheRead == Sum(rows, CacheRead())
    && t.cacheWrite == Sum(rows, CacheWrite()) && t.output == Sum(rows, Output())
    && t.cost == SumOfCosts(rows, pricing)
  }

  lemma {:induction false} TotalsSumUp(rows: seq<Usage>, pricing: Usage -> Option<Price>)
    requires Priced(rows, pricing)
    ensures SumsUp(Total(rows, pricing), rows, pricing)
  {
    if rows != [] {
      var front, last := rows[..|rows| - 1], rows[|rows| - 1];
      assert rows == front + [last];
      TotalsSumUp(front, pricing);
      SumSnoc(front, last, AttemptsOf());
      SumSnoc(front, last, Uncached());
      SumSnoc(front, last, CacheRead());
      SumSnoc(front, last, CacheWrite());
      SumSnoc(front, last, Output());
      CostSnoc(front, last, pricing);
      TotalEnd(front, last, pricing);
    }
  }

  lemma TotalEnd(front: seq<Usage>, last: Usage, pricing: Usage -> Option<Price>)
    requires Priced(front + [last], pricing)
    ensures Priced(front, pricing) && pricing(last).Some?
    ensures var t, t' := Total(front, pricing), Total(front + [last], pricing);
      && t'.requests == t.requests + 1 && t'.attempts == t.attempts + last.attempts
      && t'.uncached == t.uncached + last.uncached && t'.cacheRead == t.cacheRead + last.cacheRead
      && t'.cacheWrite == t.cacheWrite + last.cacheWrite && t'.output == t.output + last.output
      && t'.cost == t.cost + Cost(last, pricing(last).value)
  {
    assert (front + [last])[..|front|] == front;
    assert last in front + [last] && forall x | x in front :: x in front + [last];
  }

  /** One token more costs its own bucket's price, a millionth of it, and nothing costs nothing. */
  lemma OneMoreToken(u: Usage, p: Price)
    ensures Cost(u.(uncached := 0, cacheRead := 0, cacheWrite := 0, output := 0), p) == 0.0
    ensures Cost(u.(uncached := u.uncached + 1), p) == Cost(u, p) + p.input / 1000000.0
    ensures Cost(u.(cacheRead := u.cacheRead + 1), p) == Cost(u, p) + p.cacheRead / 1000000.0
    ensures Cost(u.(cacheWrite := u.cacheWrite + 1), p) == Cost(u, p) + p.cacheWrite / 1000000.0
    ensures Cost(u.(output := u.output + 1), p) == Cost(u, p) + p.output / 1000000.0
  {
    Distributes(u.uncached as real, p.input);
    Distributes(u.cacheRead as real, p.cacheRead);
    Distributes(u.cacheWrite as real, p.cacheWrite);
    Distributes(u.output as real, p.output);
  }

  lemma Distributes(n: real, price: real)
    ensures (n + 1.0) * price == n * price + price
  {
  }

  lemma {:induction false} FilledCellExactly(rows: seq<Usage>, k: Key, x: string)
    ensures x in FilledCells(rows, k) <==> x != "" && exists u :: u in rows && Cell(u, k) == Some(x)
  {
    if rows != [] {
      var front, last := rows[..|rows| - 1], rows[|rows| - 1];
      assert rows == front + [last];
      FilledCellExactly(front, k, x);
      assert last in rows;
    }
  }

  ghost predicate BoundaryNamed(rows: seq<Usage>, x: string) {
    x != "" && exists u :: u in rows && u.boundary == Some(x)
  }

  ghost predicate PrefixNamed(rows: seq<Usage>, x: string) {
    x != "" && exists u :: u in rows && u.prefix == Some(x)
  }

  /** One for a row with a prefix hash, and otherwise nought. */
  ghost function HasPrefix(): Usage -> int {
    (u: Usage) => if u.prefix.Some? && u.prefix.value != "" then 1 else 0
  }

  lemma {:induction false} PrefixesCounted(rows: seq<Usage>)
    ensures |FilledCells(rows, Prefix)| == Sum(rows, HasPrefix())
  {
    if rows != [] {
      var front, last := rows[..|rows| - 1], rows[|rows| - 1];
      assert rows == front + [last];
      PrefixesCounted(front);
      SumSnoc(front, last, HasPrefix());
    }
  }

  lemma PrefixesAre(rows: seq<Usage>)
    ensures forall x :: x in Elements(FilledCells(rows, Prefix)) <==> PrefixNamed(rows, x)
  {
    forall x ensures x in Elements(FilledCells(rows, Prefix)) <==> PrefixNamed(rows, x) {
      FilledCellExactly(rows, Prefix, x);
    }
  }

  lemma BoundariesAre(rows: seq<Usage>)
    ensures forall x :: x in Elements(FilledCells(rows, Boundary)) <==> BoundaryNamed(rows, x)
  {
    forall x ensures x in Elements(FilledCells(rows, Boundary)) <==> BoundaryNamed(rows, x) {
      FilledCellExactly(rows, Boundary, x);
    }
  }

  lemma QuotientTimes(a: real, b: real)
    requires b != 0.0
    ensures (a / b) * b == a
  {
  }

  lemma SummaryRatios(rows: seq<Usage>, pricing: Usage -> Option<Price>)
    requires rows != [] && Priced(rows, pricing)
    ensures var s := Summarize(rows, pricing).value;
      && s.amplification * |rows| as real == s.totals.attempts as real
      && s.cacheShare * (s.totals.uncached + s.totals.cacheRead) as real == s.totals.cacheRead as real
      && (s.totals.uncached + s.totals.cacheRead == 0 ==> s.cacheShare == 0.0)
  {
    var t := Total(rows, pricing);
    InputIsNatural(rows, pricing);
    TotalCountsRows(rows, pricing);
    QuotientTimes(t.attempts as real, t.requests as real);
    if t.uncached + t.cacheRead != 0 {
      QuotientTimes(t.cacheRead as real, (t.uncached + t.cacheRead) as real);
    }
  }

  lemma SummaryNames(rows: seq<Usage>, pricing: Usage -> Option<Price>)
    requires rows != [] && Priced(rows, pricing)
    ensures var s := Summarize(rows, pricing).value;
      && (forall x :: x in s.protocols <==> exists u :: u in rows && u.protocol == Some(x))
      && (forall x :: x in s.phases <==> exists u :: u in rows && u.phase == Some(x))
      && (exists seen: set<string> :: s.boundaries == |seen| && forall x :: x in seen <==> BoundaryNamed(rows, x))
      && s.prefixes == Sum(rows, HasPrefix())
      && (exists seen: set<string> :: s.distinctPrefixes == |seen| && forall x :: x in seen <==> PrefixNamed(rows, x))
  {
    BoundariesAre(rows);
    PrefixesAre(rows);
    PrefixesCounted(rows);
  }

  /** A summary, figure by figure: sums of columns, attempts per request, the share of input
      that was read from the cache, the protocols, and the compact boundaries that occur. */
  lemma SummaryExactly(rows: seq<Usage>, pricing: Usage -> Option<Price>)
    requires rows != [] && Priced(rows, pricing)
    ensures Summarize(rows, pricing).Success?
    ensures var s := Summarize(rows, pricing).value;
      && SumsUp(s.totals, rows, pricing)
      && s.amplification * |rows| as real == s.totals.attempts as real
      && s.cacheShare * (s.totals.uncached + s.totals.cacheRead) as real == s.totals.cacheRead as real
      && (s.totals.uncached + s.totals.cacheRead == 0 ==> s.cacheShare == 0.0)
      && (forall x :: x in s.protocols <==> exists u :: u in rows && u.protocol == Some(x))
      && (forall x :: x in s.phases <==> exists u :: u in rows && u.phase == Some(x))
      && (exists seen: set<string> :: s.boundaries == |seen| && forall x :: x in seen <==> BoundaryNamed(rows, x))
      && s.prefixes == Sum(rows, HasPrefix())
      && (exists seen: set<string> :: s.distinctPrefixes == |seen| && forall x :: x in seen <==> PrefixNamed(rows, x))
  {
    TotalsSumUp(rows, pricing);
    SummaryRatios(rows, pricing);
    SummaryNames(rows, pricing);
  }

  lemma {:induction false} InputIsNatural(rows: seq<Usage>, pricing: Usage -> Option<Price>)
    requires Priced(rows, pricing)
    ensures Total(rows, pricing).uncached >= 0 && Total(rows, pricing).cacheRead >= 0
  {
    if rows != [] {
      InputIsNatural(rows[..|rows| - 1], pricing);
    }
  }

  // ---------------------------------------------------------------- phases

  /** The rows whose phase is one of `phases`. */
  function Select(rows: seq<Usage>, phases: set<string>): seq<Usage> {
    if rows == [] then []
    else
      var last := rows[|rows| - 1];
      Select(rows[..|rows| - 1], phases) + if last.phase.Some? && last.phase.value in phases then [last] else []
  }

  function PhaseSet(rows: seq<Usage>): set<string> {
    set u | u in rows && u.phase.Some? :: u.phase.value
  }

  lemma {:induction false} SelectedExactly(rows: seq<Usage>, phases: set<string>, u: Usage)
    ensures u in Select(rows, phases) <==> u in rows && u.phase.Some? && u.phase.value in phases
  {
    if rows != [] {
      SelectedExactly(rows[..|rows| - 1], phases, u);
      assert rows == rows[..|rows| - 1] + [rows[|rows| - 1]];
    }
  }

  lemma SelectStep(rows: seq<Usage>, u: Usage, phases: set<string>)
    ensures Select(rows + [u], phases) ==
      if u.phase.Some? && u.phase.value in phases then Select(rows, phases) + [u] else Select(rows, phases)
  {
    assert (rows + [u])[..|rows|] == rows;
  }

  /** The rows of each phase in order, and no phase without rows. */
  ghost predicate Groups(grouped: map<string, seq<Usage>>, rows: seq<Usage>) {
    && grouped.Keys == PhaseSet(rows)
    && forall p | p in grouped :: grouped[p] == Select(rows, {p})
  }

  lemma {:induction false} NothingOfOtherPhases(rows: seq<Usage>, p: string)
    requires p !in PhaseSet(rows)
    ensures Select(rows, {p}) == []
  {
    if rows != [] {
      var m := |rows| - 1;
      assert rows[m] in rows;
      assert PhaseSet(rows[..m]) <= PhaseSet(rows);
      NothingOfOtherPhases(rows[..m], p);
    }
  }

  lemma PhaseSetStep(rows: seq<Usage>, u: Usage)
    ensures PhaseSet(rows + [u]) == PhaseSet(rows) + if u.phase.Some? then {u.phase.value} else {}
  {
  }

  /** A row joins the group of its phase, and only that. */
  lemma GroupsJoin(grouped: map<string, seq<Usage>>, rows: seq<Usage>, u: Usage)
    requires Groups(grouped, rows) && u.phase.Some?
    ensures Groups(grouped[u.phase.value := Select(rows, {u.phase.value}) + [u]], rows + [u])
  {
    var next := grouped[u.phase.value := Select(rows, {u.phase.value}) + [u]];
    PhaseSetStep(rows, u);
    forall p | p in next ensures next[p] == Select(rows + [u], {p}) {
      SelectStep(rows, u, {p});
      if p != u.phase.value {
        assert next[p] == grouped[p];
      }
    }
  }

  lemma GroupsIgnore(grouped: map<string, seq<Usage>>, rows: seq<Usage>, u: Usage)
    requires Groups(grouped, rows) && u.phase.None?
    ensures Groups(grouped, rows + [u])
  {
    PhaseSetStep(rows, u);
    forall p | p in grouped ensures grouped[p] == Select(rows + [u], {p}) {
      SelectStep(rows, u, {p});
    }
  }

  /** Collects the rows phase by phase and summarizes each group. */
  method SummarizePhases(rows: seq<Usage>, pricing: Usage -> Option<Price>)
    returns (r: Result<map<string, Summary>, Problem>)
    ensures r == Failure(NoPhases) <==> PhaseSet(rows) == {}
    ensures r.Success? ==> Summarizes(r.value, rows, pricing)
    ensures r.Success? ==>
      && Priced(Select(rows, PhaseSet(rows)), pricing)
      && TotalOfSummaries(r.value, r.value.Keys) == Total(Select(rows, PhaseSet(rows)), pricing)
    ensures r == Failure(NoPrice) <==> exists u :: u in rows && u.phase.Some? && pricing(u).None?
    ensures r.Failure? ==> r.error.NoPhases? || r.error.NoPrice?
  {
    var grouped: map<string, seq<Usage>> := map[];
    for n := 0 to |rows|
      invariant Groups(grouped, rows[..n])
    {
      var u := rows[n];
      assert rows[..n + 1] == rows[..n] + [u];
      if u.phase.None? {
        GroupsIgnore(grouped, rows[..n], u);
        continue;
      }
      GroupsJoin(grouped, rows[..n], u);
      if u.phase.value !in grouped {
        NothingOfOtherPhases(rows[..n], u.phase.value);
        grouped := grouped[u.phase.value := []];
      }
      grouped := grouped[u.phase.value := grouped[u.phase.value] + [u]];
    }
    assert rows[..|rows|] == rows;
    if grouped == map[] {
      assert PhaseSet(rows) == {};
      assert forall u | u in rows && u.phase.Some? :: u.phase.value in PhaseSet(rows);
      return Failure(NoPhases);
    }
    assert PhaseSet(rows) != {} by {
      var p :| p in grouped;
    }
    r := SummarizeGroups(grouped, rows, pricing);
    if r.Success? {
      SummariesConserve(r.value, rows, pricing);
    }
  }

  method SummarizeGroups(grouped: map<string, seq<Usage>>, ghost rows: seq<Usage>, pricing: Usage -> Option<Price>)
    returns (r: Result<map<string, Summary>, Problem>)
    requires Groups(grouped, rows)
    ensures r.Success? ==> r.value.Keys == grouped.Keys
    ensures r.Success? ==> forall p | p in grouped :: Summarize(grouped[p], pricing) == Success(r.value[p])
    ensures r.Failure? ==> r.error == NoPrice && exists u :: u in rows && u.phase.Some? && pricing(u).None?
  {
    var todo := grouped.Keys;
    var summaries: map<string, Summary> := map[];
    while todo != {}
      invariant todo <= grouped.Keys && summaries.Keys == grouped.Keys - todo
      invariant forall p | p in summaries :: Summarize(grouped[p], pricing) == Success(summaries[p])
      decreases todo
    {
      var p :| p in todo;
      var s := Summarize(grouped[p], pricing);
      if s.Failure? {
        GroupFails(rows, p, pricing);
        return Failure(s.error);
      }
      summaries := summaries[p := s.value];
      todo := todo - {p};
    }
    r := Success(summaries);
  }

  lemma GroupFails(rows: seq<Usage>, p: string, pricing: Usage -> Option<Price>)
    requires p in PhaseSet(rows) && Summarize(Select(rows, {p}), pricing).Failure?
    ensures Summarize(Select(rows, {p}), pricing).error == NoPrice
    ensures exists u :: u in rows && u.phase.Some? && pricing(u).None?
  {
    var group := Select(rows, {p});
    var v :| v in rows && v.phase.Some? && v.phase.value == p;
    SelectedExactly(rows, {p}, v);
    var u :| u in group && pricing(u).None?;
    SelectedExactly(rows, {p}, u);
  }

  // ---------------------------------------------------------------- conservation

  lemma PlusMoves(a: Totals, b: Totals, x: Totals)
    ensures Plus(Plus(a, b), x) == Plus(Plus(a, x), b) == Plus(a, Plus(b, x))
  {
  }

  lemma {:induction false} SplitConserves(rows: seq<Usage>, a: set<string>, b: set<string>,
      pricing: Usage -> Option<Price>)
    requires a !! b && Priced(Select(rows, a), pricing) && Priced(Select(rows, b), pricing)
    requires Priced(Select(rows, a + b), pricing)
    ensures Total(Select(rows, a + b), pricing) ==
      Plus(Total(Select(rows, a), pricing), Total(Select(rows, b), pricing))
  {
    if rows != [] {
      var m := |rows| - 1;
      TotalStep(rows, a, pricing);
      TotalStep(rows, b, pricing);
      TotalStep(rows, a + b, pricing);
      SplitConserves(rows[..m], a, b, pricing);
      if rows[m].phase.Some? && rows[m].phase.value in a + b {
        var x, y := Total(Select(rows[..m], a), pricing), Total(Select(rows[..m], b), pricing);
        PlusMoves(x, y, RowTotals(rows[m], pricing(rows[m]).value));
      }
    }
  }

  lemma TotalStep(rows: seq<Usage>, phases: set<string>, pricing: Usage -> Option<Price>)
    requires rows != [] && Priced(Select(rows, phases), pricing)
    ensures var m := |rows| - 1;
      && Priced(Select(rows[..m], phases), pricing)
      && (if rows[m].phase.Some? && rows[m].phase.value in phases then
            && pricing(rows[m]).Some?
            && Total(Select(rows, phases), pricing) ==
                 Plus(Total(Select(rows[..m], phases), pricing), RowTotals(rows[m], pricing(rows[m]).value))
          else Total(Select(rows, phases), pricing) == Total(Select(rows[..m], phases), pricing))
  {
    var m := |rows| - 1;
    var s := Select(rows[..m], phases);
    if rows[m].phase.Some? && rows[m].phase.value in phases {
      assert Select(rows, phases) == s + [rows[m]];
      assert (s + [rows[m]])[..|s|] == s;
      assert rows[m] in Select(rows, phases);
    } else {
      assert Select(rows, phases) == s;
    }
  }

  /** The totals of the phases put together. */
  ghost function TotalOf(rows: seq<Usage>, phases: set<string>, pricing: Usage -> Option<Price>): Totals
    requires forall p | p in phases :: Priced(Select(rows, {p}), pricing)
  {
    if phases == {} then NoTotals
    else
      var p :| p in phases;
      Plus(Total(Select(rows, {p}), pricing), TotalOf(rows, phases - {p}, pricing))
  }

  lemma {:induction false} NothingSelected(rows: seq<Usage>)
    ensures Select(rows, {}) == []
  {
    if rows != [] {
      NothingSelected(rows[..|rows| - 1]);
    }
  }

  lemma PickedFirst(rows: seq<Usage>, phases: set<string>, pricing: Usage -> Option<Price>) returns (p: string)
    requires phases != {} && forall p | p in phases :: Priced(Select(rows, {p}), pricing)
    ensures p in phases
    ensures TotalOf(rows, phases, pricing) ==
      Plus(Total(Select(rows, {p}), pricing), TotalOf(rows, phases - {p}, pricing))
  {
    p :| p in phases
      && TotalOf(rows, phases, pricing) ==
         Plus(Total(Select(rows, {p}), pricing), TotalOf(rows, phases - {p}, pricing));
  }

  lemma StillPriced(rows: seq<Usage>, some: set<string>, all: set<string>, pricing: Usage -> Option<Price>)
    requires some <= all && Priced(Select(rows, all), pricing)
    ensures Priced(Select(rows, some), pricing)
  {
    forall u | u in Select(rows, some) ensures pricing(u).Some? {
      SelectedExactly(rows, some, u);
      SelectedExactly(rows, all, u);
    }
  }

  lemma OnePhaseMore(rows: seq<Usage>, phases: set<string>, p: string, pricing: Usage -> Option<Price>)
    requires p in phases && Priced(Select(rows, phases), pricing)
    ensures Priced(Select(rows, {p}), pricing) && Priced(Select(rows, phases - {p}), pricing)
    ensures Total(Select(rows, phases), pricing) ==
      Plus(Total(Select(rows, {p}), pricing), Total(Select(rows, phases - {p}), pricing))
  {
    StillPriced(rows, {p}, phases, pricing);
    StillPriced(rows, phases - {p}, phases, pricing);
    assert {p} + (phases - {p}) == phases;
    SplitConserves(rows, {p}, phases - {p}, pricing);
  }

  /** Grouping by phase neither loses nor repeats a request, an attempt, a token or a cent: in
      whatever order the phases are added up, they give the totals of all their rows. */
  lemma {:induction false} PhasesConserve(rows: seq<Usage>, phases: set<string>, pricing: Usage -> Option<Price>)
    requires Priced(Select(rows, phases), pricing)
    requires forall p | p in phases :: Priced(Select(rows, {p}), pricing)
    ensures TotalOf(rows, phases, pricing) == Total(Select(rows, phases), pricing)
    decreases phases
  {
    if phases == {} {
      NothingSelected(rows);
    } else {
      var p := PickedFirst(rows, phases, pricing);
      OnePhaseMore(rows, phases, p, pricing);
      PhasesConserve(rows, phases - {p}, pricing);
    }
  }

  /** The totals of the summaries in a map put together. */
  ghost function TotalOfSummaries(summaries: map<string, Summary>, phases: set<string>): Totals
    requires phases <= summaries.Keys
  {
    if phases == {} then NoTotals
    else
      var p :| p in phases;
      Plus(summaries[p].totals, TotalOfSummaries(summaries, phases - {p}))
  }

  ghost predicate Summarizes(summaries: map<string, Summary>, rows: seq<Usage>, pricing: Usage -> Option<Price>) {
    && summaries.Keys == PhaseSet(rows)
    && forall p | p in summaries :: Summarize(Select(rows, {p}), pricing) == Success(summaries[p])
  }

  lemma SummarizedIsPriced(summaries: map<string, Summary>, rows: seq<Usage>, pricing: Usage -> Option<Price>,
      phases: set<string>)
    requires Summarizes(summaries, rows, pricing) && phases <= PhaseSet(rows)
    ensures Priced(Select(rows, phases), pricing)
  {
    forall u | u in Select(rows, phases) ensures pricing(u).Some? {
      SelectedExactly(rows, phases, u);
      SelectedExactly(rows, {u.phase.value}, u);
      assert u.phase.value in summaries;
      assert Priced(Select(rows, {u.phase.value}), pricing);
    }
  }

  lemma SummaryPicked(summaries: map<string, Summary>, phases: set<string>) returns (p: string)
    requires phases <= summaries.Keys && phases != {}
    ensures p in phases
    ensures TotalOfSummaries(summaries, phases) == Plus(summaries[p].totals, TotalOfSummaries(summaries, phases - {p}))
  {
    p :| p in phases
      && TotalOfSummaries(summaries, phases) == Plus(summaries[p].totals, TotalOfSummaries(summaries, phases - {p}));
  }

  lemma {:induction false} SomeSummariesConserve(
      summaries: map<string, Summary>, rows: seq<Usage>, pricing: Usage -> Option<Price>, phases: set<string>)
    requires Summarizes(summaries, rows, pricing) && phases <= PhaseSet(rows)
    ensures Priced(Select(rows, phases), pricing)
    ensures TotalOfSummaries(summaries, phases) == Total(Select(rows, phases), pricing)
    decreases phases
  {
    SummarizedIsPriced(summaries, rows, pricing, phases);
    if phases == {} {
      NothingSelected(rows);
    } else {
      var p := SummaryPicked(summaries, phases);
      OnePhaseMore(rows, phases, p, pricing);
      SomeSummariesConserve(summaries, rows, pricing, phases - {p});
      assert summaries[p].totals == Total(Select(rows, {p}), pricing);
    }
  }

  /** The summaries that grouping returns add up to the totals of all rows with a phase. */
  lemma SummariesConserve(summaries: map<string, Summary>, rows: seq<Usage>, pricing: Usage -> Option<Price>)
    requires Summarizes(summaries, rows, pricing)
    ensures var phased := Select(rows, PhaseSet(rows));
      && Priced(phased, pricing) && TotalOfSummaries(summaries, summaries.Keys) == Total(phased, pricing)
      && (forall u :: u in phased <==> u in rows && u.phase.Some?)
  {
    SomeSummariesConserve(summaries, rows, pricing, PhaseSet(rows));
    forall u ensures u in Select(rows, PhaseSet(rows)) <==> u in rows && u.phase.Some? {
      SelectedExactly(rows, PhaseSet(rows), u);
    }
  }

  // ---------------------------------------------------------------- the economics receipt

  datatype Invariant =
    | PhaseSequence | ModelStable | ProtocolStable | BucketAccounting | PrefixesPresent | ShapesPresent | ShapesUnique
    | RequestsUnique | BoundaryIdentity | PostCompactPrefix | MemoriesUnique | RetriesBounded | TimingsOrdered

  /** The phases that a receipt must go through. */
  const Opening: seq<Option<string>> := [Some("pre_compact"), Some("compact_turn"), Some("post_compact")]

  function Phases(rows: seq<Usage>): (r: seq<Option<string>>)
    ensures |r| == |rows| && forall i | 0 <= i < |r| :: r[i] == rows[i].phase
  {
    seq(|rows|, i requires 0 <= i < |rows| => rows[i].phase)
  }

  datatype Key = Protocol | Boundary | Prefix | Shape | Request

  function Cell(u: Usage, k: Key): Option<string> {
    match k
    case Protocol => u.protocol
    case Boundary => u.boundary
    case Prefix => u.prefix
    case Shape => u.shape
    case Request => u.request
  }

  function Column(rows: seq<Usage>, k: Key): (r: seq<Option<string>>)
    ensures |r| == |rows| && forall i | 0 <= i < |r| :: r[i] == Cell(rows[i], k)
  {
    seq(|rows|, i requires 0 <= i < |rows| => Cell(rows[i], k))
  }

  function Models(rows: seq<Usage>): (r: seq<string>)
    ensures |r| == |rows| && forall i | 0 <= i < |r| :: r[i] == rows[i].model
  {
    seq(|rows|, i requires 0 <= i < |rows| => rows[i].model)
  }

  predicate Filled(v: Option<string>) {
    v.Some? && v.value != ""
  }

  predicate AllFilled(values: seq<Option<string>>) {
    forall v | v in values :: Filled(v)
  }

  function Memories(rows: seq<Usage>): seq<string> {
    if rows == [] then [] else Memories(rows[..|rows| - 1]) + rows[|rows| - 1].memories
  }

  function Attempts(rows: seq<Usage>): int {
    if rows == [] then 0 else Attempts(rows[..|rows| - 1]) + rows[|rows| - 1].attempts
  }

  function InputTokens(u: Usage): nat {
    u.uncached + u.cacheRead
  }

  function EffectiveUncached(u: Usage): nat {
    u.uncached
  }

  predicate Holds(v: Invariant, rows: seq<Usage>) {
    match v
    case PhaseSequence =>
      var phases := Phases(rows);
      && |phases| >= 5 && phases[..3] == Opening && phases[3..|phases| - 1] != []
      && (forall i | 3 <= i < |phases| - 1 :: phases[i] == Some("mature_post_compact"))
      && phases[|phases| - 1] == Some("resume")
    case ModelStable => |Elements(Models(rows))| == 1
    case ProtocolStable => |Elements(Column(rows, Protocol))| == 1 && rows != [] && rows[0].protocol.Some?
    case BucketAccounting => forall u | u in rows :: InputTokens(u) == EffectiveUncached(u) + u.cacheRead
    case PrefixesPresent => AllFilled(Column(rows, Prefix))
    case ShapesPresent => AllFilled(Column(rows, Shape))
    case ShapesUnique => NoDuplicates(Column(rows, Shape)) && AllFilled(Column(rows, Shape))
    case RequestsUnique => |Elements(Column(rows, Request)) - {None}| == |rows| && AllFilled(Column(rows, Request))
    case BoundaryIdentity => |Elements(Column(rows, Boundary))| == 1 && AllFilled(Column(rows, Boundary))
    case PostCompactPrefix =>
      |rows| > 2 && |Elements(Column(rows[2..], Prefix))| == 1 && AllFilled(Column(rows[2..], Prefix))
    case MemoriesUnique => NoDuplicates(Memories(rows))
    case RetriesBounded => Attempts(rows) == |rows|
    case TimingsOrdered => forall u | u in rows :: u.ttft.None? || u.duration.None? || u.duration.value >= u.ttft.value
  }

  predicate Passed(rows: seq<Usage>) {
    && Holds(PhaseSequence, rows) && Holds(ModelStable, rows) && Holds(ProtocolStable, rows)
    && Holds(BucketAccounting, rows) && Holds(PrefixesPresent, rows) && Holds(ShapesPresent, rows)
    && Holds(ShapesUnique, rows) && Holds(RequestsUnique, rows)
    && Holds(BoundaryIdentity, rows) && Holds(PostCompactPrefix, rows) && Holds(MemoriesUnique, rows)
    && Holds(RetriesBounded, rows) && Holds(TimingsOrdered, rows)
  }

  /** Pre, compact, post, then one or more mature turns, then the resumed one. */
  function Script(mature: nat): seq<Option<string>> {
    Opening + seq(mature, i => Some("mature_post_compact")) + [Some("resume")]
  }

  lemma ScriptExactly(rows: seq<Usage>)
    ensures Holds(PhaseSequence, rows) <==> |rows| >= 5 && Phases(rows) == Script(|rows| - 4)
  {
    var phases := Phases(rows);
    if |rows| >= 5 {
      var k := |rows| - 4;
      var middle := phases[3..|phases| - 1];
      assert phases == phases[..3] + middle + [phases[|phases| - 1]];
      if Holds(PhaseSequence, rows) {
        assert middle == seq(k, i => Some("mature_post_compact"));
      }
    }
  }

  lemma SameExactly<T(!new)>(s: seq<T>)
    ensures |Elements(s)| == 1 <==> s != [] && forall x | x in s :: x == s[0]
  {
    if s != [] {
      assert s[0] in Elements(s);
      if forall x | x in s :: x == s[0] {
        assert Elements(s) == {s[0]};
      }
      if |Elements(s)| == 1 {
        assert |Elements(s) - {s[0]}| == 0;
        assert Elements(s) == {s[0]} + (Elements(s) - {s[0]}) == {s[0]};
        forall x | x in s ensures x == s[0] {
          assert x in Elements(s);
        }
      }
    } else {
      assert Elements(s) == {};
    }
  }

  lemma {:induction false} AttemptsExactly(rows: seq<Usage>)
    requires forall u | u in rows :: u.attempts >= 1
    ensures Attempts(rows) >= |rows|
    ensures Attempts(rows) == |rows| <==> forall u | u in rows :: u.attempts == 1
  {
    if rows != [] {
      var m := |rows| - 1;
      assert rows == rows[..m] + [rows[m]];
      AttemptsExactly(rows[..m]);
    }
  }

  ghost predicate Unique(rows: seq<Usage>, k: Key) {
    && (forall u | u in rows :: Filled(Cell(u, k)))
    && forall i, j | 0 <= i < j < |rows| :: Cell(rows[i], k) != Cell(rows[j], k)
  }

  ghost predicate Constant(rows: seq<Usage>, k: Key) {
    forall u | u in rows :: Filled(Cell(u, k)) && Cell(u, k) == Cell(rows[0], k)
  }

  lemma UniqueExactly(rows: seq<Usage>, k: Key)
    ensures NoDuplicates(Column(rows, k)) && AllFilled(Column(rows, k)) <==> Unique(rows, k)
  {
    var c := Column(rows, k);
    NoDuplicatesExactly(c);
    FilledExactly(rows, k);
  }

  lemma FilledExactly(rows: seq<Usage>, k: Key)
    ensures AllFilled(Column(rows, k)) <==> forall u | u in rows :: Filled(Cell(u, k))
  {
    var c := Column(rows, k);
    if AllFilled(c) {
      forall u | u in rows ensures Filled(Cell(u, k)) {
        var i :| 0 <= i < |rows| && rows[i] == u;
        assert c[i] in c;
      }
    }
  }

  lemma ConstantExactly(rows: seq<Usage>, k: Key)
    requires rows != []
    ensures |Elements(Column(rows, k))| == 1 && AllFilled(Column(rows, k)) <==> Constant(rows, k)
    ensures |Elements(Column(rows, k))| == 1 <==> forall u | u in rows :: Cell(u, k) == Cell(rows[0], k)
  {
    var c := Column(rows, k);
    SameExactly(c);
    FilledExactly(rows, k);
    if forall x | x in c :: x == c[0] {
      forall u | u in rows ensures Cell(u, k) == Cell(rows[0], k) {
        var i :| 0 <= i < |rows| && rows[i] == u;
        assert c[i] in c;
      }
    }
  }

  lemma ModelsExactly(rows: seq<Usage>)
    requires rows != []
    ensures Holds(ModelStable, rows) <==> forall u | u in rows :: u.model == rows[0].model
  {
    var c := Models(rows);
    SameExactly(c);
    if forall x | x in c :: x == c[0] {
      forall u | u in rows ensures u.model == rows[0].model {
        var i :| 0 <= i < |rows| && rows[i] == u;
        assert c[i] in c;
      }
    }
  }

  lemma RequestsExactly(rows: seq<Usage>)
    ensures Holds(RequestsUnique, rows) <==> Unique(rows, Request)
  {
    var c := Column(rows, Request);
    UniqueExactly(rows, Request);
    if AllFilled(c) {
      assert None !in Elements(c);
      assert Elements(c) - {None} == Elements(c);
    }
  }

  /** One model, one protocol and one boundary throughout, and one prefix from the third turn on. */
  ghost predicate Agree(rows: seq<Usage>) {
    && (forall u | u in rows :: u.model == rows[0].model)
    && (forall u | u in rows :: u.protocol.Some? && u.protocol == rows[0].protocol)
    && OneBoundary(rows) && OneLaterPrefix(rows)
  }

  ghost predicate OneBoundary(rows: seq<Usage>) {
    forall u | u in rows :: Filled(u.boundary) && u.boundary == rows[0].boundary
  }

  /** The prefix does not change after the compaction. */
  ghost predicate OneLaterPrefix(rows: seq<Usage>) {
    forall i | 2 <= i < |rows| :: Filled(rows[i].prefix) && rows[i].prefix == rows[2].prefix
  }

  ghost predicate ShapesDiffer(rows: seq<Usage>) {
    && (forall u | u in rows :: Filled(u.shape))
    && forall i, j | 0 <= i < j < |rows| :: rows[i].shape != rows[j].shape
  }

  ghost predicate RequestsDiffer(rows: seq<Usage>) {
    && (forall u | u in rows :: Filled(u.request))
    && forall i, j | 0 <= i < j < |rows| :: rows[i].request != rows[j].request
  }

  lemma ConstantCells(rows: seq<Usage>)
    requires |rows| > 2
    ensures Constant(rows, Boundary) <==> OneBoundary(rows)
    ensures Constant(rows[2..], Prefix) <==> OneLaterPrefix(rows)
  {
    assert forall u :: Cell(u, Boundary) == u.boundary && Cell(u, Prefix) == u.prefix;
    assert forall i | 2 <= i < |rows| :: rows[i] == rows[2..][i - 2];
  }

  /** No request or request shape twice, no memory learned twice, and every prefix recorded. */
  ghost predicate Distinct(rows: seq<Usage>) {
    && ShapesDiffer(rows) && RequestsDiffer(rows)
    && MemoriesDiffer(rows)
    && (forall u | u in rows :: Filled(u.prefix))
  }

  ghost predicate MemoriesDiffer(rows: seq<Usage>) {
    forall i, j | 0 <= i < j < |Memories(rows)| :: Memories(rows)[i] != Memories(rows)[j]
  }

  /** Not a single retry, and no duration shorter than the time to the first token. */
  ghost predicate Prompt(rows: seq<Usage>) {
    && (forall u | u in rows :: u.attempts == 1)
    && (forall u | u in rows && u.ttft.Some? && u.duration.Some? :: u.duration.value >= u.ttft.value)
  }

  lemma ProtocolExactly(rows: seq<Usage>)
    requires rows != []
    ensures Holds(ProtocolStable, rows) <==> forall u | u in rows :: u.protocol.Some? && u.protocol == rows[0].protocol
  {
    ConstantExactly(rows, Protocol);
    assert rows[0] in rows;
    if Holds(ProtocolStable, rows) {
      forall u | u in rows ensures u.protocol.Some? && u.protocol == rows[0].protocol {
        assert Cell(u, Protocol) == Cell(rows[0], Protocol);
      }
    }
  }

  lemma BoundaryExactly(rows: seq<Usage>)
    requires |rows| > 2
    ensures Holds(BoundaryIdentity, rows) <==> Constant(rows, Boundary)
    ensures Holds(PostCompactPrefix, rows) <==> Constant(rows[2..], Prefix)
  {
    ConstantExactly(rows, Boundary);
    ConstantExactly(rows[2..], Prefix);
  }

  lemma AgreeExactly(rows: seq<Usage>)
    requires |rows| > 2
    ensures Agree(rows) <==>
      && Holds(ModelStable, rows) && Holds(ProtocolStable, rows)
      && Holds(BoundaryIdentity, rows) && Holds(PostCompactPrefix, rows)
  {
    ModelsExactly(rows);
    ProtocolExactly(rows);
    BoundaryExactly(rows);
    ConstantCells(rows);
  }

  lemma PrefixesExactly(rows: seq<Usage>)
    ensures Holds(PrefixesPresent, rows) <==> forall u | u in rows :: Filled(u.prefix)
  {
    FilledExactly(rows, Prefix);
    if Holds(PrefixesPresent, rows) {
      forall u | u in rows ensures Filled(u.prefix) {
        assert Filled(Cell(u, Prefix));
      }
    }
  }

  lemma ShapesExactly(rows: seq<Usage>)
    ensures Holds(ShapesPresent, rows) && Holds(ShapesUnique, rows) <==> ShapesDiffer(rows)
  {
    UniqueExactly(rows, Shape);
    assert forall u :: Cell(u, Shape) == u.shape;
  }

  lemma RequestsDifferExactly(rows: seq<Usage>)
    ensures Holds(RequestsUnique, rows) <==> RequestsDiffer(rows)
  {
    RequestsExactly(rows);
    assert forall u :: Cell(u, Request) == u.request;
  }

  lemma MemoriesExactly(rows: seq<Usage>)
    ensures Holds(MemoriesUnique, rows) <==> MemoriesDiffer(rows)
  {
    NoDuplicatesExactly(Memories(rows));
  }

  lemma DistinctExactly(rows: seq<Usage>)
    ensures Holds(PrefixesPresent, rows) && Holds(ShapesPresent, rows) && Holds(ShapesUnique, rows)
            && Holds(RequestsUnique, rows) && Holds(MemoriesUnique, rows)
       <==> Distinct(rows)
  {
    MemoriesExactly(rows);
    ShapesExactly(rows);
    RequestsDifferExactly(rows);
    PrefixesExactly(rows);
  }

  lemma PromptExactly(rows: seq<Usage>)
    requires forall u | u in rows :: u.attempts >= 1
    ensures Holds(RetriesBounded, rows) && Holds(TimingsOrdered, rows) <==> Prompt(rows)
  {
    AttemptsExactly(rows);
  }

  lemma PassedExactly(rows: seq<Usage>)
    requires forall u | u in rows :: u.attempts >= 1
    ensures Passed(rows) <==>
      |rows| >= 5 && Phases(rows) == Script(|rows| - 4) && Agree(rows) && Distinct(rows) && Prompt(rows)
  {
    ScriptExactly(rows);
    DistinctExactly(rows);
    PromptExactly(rows);
    if |rows| >= 5 {
      AgreeExactly(rows);
    }
    assert Holds(BucketAccounting, rows);
  }

  datatype Report = Report(passed: bool, summary: Summary)

  /** The report on a receipt. Its summary is computed with it, so a row without a price leaves
      no report. */
  function Validate(rows: seq<Usage>, pricing: Usage -> Option<Price>): Result<Report, Problem> {
    if rows == [] then Failure(EmptyReceipt)
    else
      var summary :- Summarize(rows, pricing);
      Success(Report(Passed(rows), summary))
  }

  /** A report is made exactly for receipts with rows that all have a price. It passes, row by
      row: the five-act script, and rows that agree where they must, differ where they must and
      were answered at the first attempt. (That the input buckets add up is true of every row.) */
  lemma ReceiptPassesExactly(rows: seq<Usage>, pricing: Usage -> Option<Price>)
    requires forall u | u in rows :: u.attempts >= 1
    ensures Validate(rows, pricing) == Failure(EmptyReceipt) <==> rows == []
    ensures Validate(rows, pricing) == Failure(NoPrice) <==> rows != [] && !Priced(rows, pricing)
    ensures Validate(rows, pricing).Success? && Validate(rows, pricing).value.passed <==>
      && Priced(rows, pricing)
      && |rows| >= 5 && Phases(rows) == Script(|rows| - 4) && Agree(rows) && Distinct(rows) && Prompt(rows)
  {
    PassedExactly(rows);
  }
}
