/** Resolving what is claimed about one model capability from layers of evidence: the most
    authoritative layers decide, weaker disagreement is listed, and the order in which the
    layers arrive does not matter. */
module Evidence {
  import opened Common
  import opened Sorting

  datatype Status = Supported | Unsupported | Unverified | Unknown

  datatype Tier = NoTier | FamilyHint | Snapshot | Discovery | Override

  datatype Claims = Claims(
    statuses: seq<(string, Status)>, source: string,
    observedAt: Option<string>, version: Option<string>, protocol: Option<string>)

  datatype Layer = Layer(tier: Tier, evidence: Claims)

  /** A weaker layer that disagrees with the selected claim. */
  datatype Conflict = Conflict(
    selected: Status, selectedSource: string, status: Status, source: string, tier: Tier)

  datatype Resolved = Resolved(
    status: Status, tier: Tier, sources: seq<string>,
    observedAt: Option<string>, version: Option<string>, protocol: Option<string>,
    conflicts: seq<Conflict>)

  datatype Refusal = BlankCapability | EqualAuthority(details: seq<(string, Status)>)

  function Level(t: Tier): int {
    match t
    case NoTier => 0
    case FamilyHint => 10
    case Snapshot => 20
    case Discovery => 30
    case Override => 40
  }

  /** The first claim recorded for `c`. */
  function StatusIn(c: string, statuses: seq<(string, Status)>): Status {
    if statuses == [] then Unknown
    else if statuses[0].0 == c then statuses[0].1
    else StatusIn(c, statuses[1..])
  }

  function StatusOf(c: string, l: Layer): Status {
    StatusIn(c, l.evidence.statuses)
  }

  // The tests and keys that the resolution selects and sorts by.

  function IsKnown(c: string): Layer -> bool {
    (l: Layer) => StatusOf(c, l) != Unknown
  }

  function AtLevel(n: int): Layer -> bool {
    (l: Layer) => Level(l.tier) == n
  }

  function Below(n: int): Layer -> bool {
    (l: Layer) => Level(l.tier) < n
  }

  function Disagrees(c: string, s: Status): Layer -> bool {
    (l: Layer) => StatusOf(c, l) != s
  }

  function BySource(): Layer -> Rank {
    (l: Layer) => Rank(0, l.evidence.source)
  }

  function ByTier(): Layer -> Rank {
    (l: Layer) => Rank(-Level(l.tier), l.evidence.source)
  }

  function SourceOf(): Layer -> string {
    (l: Layer) => l.evidence.source
  }

  function DetailOf(c: string): Layer -> (string, Status) {
    (l: Layer) => (l.evidence.source, StatusOf(c, l))
  }

  function Record(c: string, s: Status, source: string): Layer -> Conflict {
    (l: Layer) => Conflict(s, source, StatusOf(c, l), l.evidence.source, l.tier)
  }

  // ---------------------------------------------------------------- the resolution

  function Candidates(c: string, ls: seq<Layer>): seq<Layer> {
    Filter(IsKnown(c), ls)
  }

  /** The highest tier among some layers. */
  function Highest(ls: seq<Layer>): (t: Tier)
    requires ls != []
    ensures exists l :: l in ls && l.tier == t
    ensures forall l | l in ls :: Level(l.tier) <= Level(t)
  {
    if |ls| == 1 then ls[0].tier
    else
      var rest := Highest(ls[1..]);
      if Level(rest) < Level(ls[0].tier) then ls[0].tier else rest
  }

  function Winners(c: string, ls: seq<Layer>): seq<Layer>
    requires Candidates(c, ls) != []
  {
    Filter(AtLevel(Level(Highest(Candidates(c, ls)))), Candidates(c, ls))
  }

  function Weaker(c: string, ls: seq<Layer>): seq<Layer>
    requires Candidates(c, ls) != []
  {
    Filter(Below(Level(Highest(Candidates(c, ls)))), Candidates(c, ls))
  }

  /** A layer that says something about `c` and that no such layer outranks. */
  ghost predicate IsTop(c: string, ls: seq<Layer>, l: Layer) {
    && l in ls && StatusOf(c, l) != Unknown
    && forall m | m in ls && StatusOf(c, m) != Unknown :: Level(m.tier) <= Level(l.tier)
  }

  lemma CandidateExactly(c: string, ls: seq<Layer>, l: Layer)
    ensures l in Candidates(c, ls) <==> l in ls && StatusOf(c, l) != Unknown
  {
    FilterElement(IsKnown(c), ls, l);
  }

  lemma WinnerExactly(c: string, ls: seq<Layer>, l: Layer)
    requires Candidates(c, ls) != []
    ensures l in Winners(c, ls) <==> IsTop(c, ls, l)
  {
    var known := Candidates(c, ls);
    FilterElement(AtLevel(Level(Highest(known))), known, l);
    CandidateExactly(c, ls, l);
    forall m ensures m in known <==> m in ls && StatusOf(c, m) != Unknown {
      CandidateExactly(c, ls, m);
    }
  }

  lemma WeakerExactly(c: string, ls: seq<Layer>, l: Layer)
    requires Candidates(c, ls) != []
    ensures l in Weaker(c, ls) <==> l in ls && StatusOf(c, l) != Unknown && !IsTop(c, ls, l)
  {
    var known := Candidates(c, ls);
    FilterElement(Below(Level(Highest(known))), known, l);
    CandidateExactly(c, ls, l);
    forall m ensures m in known <==> m in ls && StatusOf(c, m) != Unknown {
      CandidateExactly(c, ls, m);
    }
  }

  lemma WinnersExist(c: string, ls: seq<Layer>)
    requires Candidates(c, ls) != []
    ensures Winners(c, ls) != [] && |StableSort(BySource(), Winners(c, ls))| == |Winners(c, ls)|
  {
    var known := Candidates(c, ls);
    var top := Highest(known);
    var l :| l in known && l.tier == top;
    FilterElement(AtLevel(Level(Highest(known))), known, l);
    SortPermutes(BySource(), Winners(c, ls));
    assert |multiset(StableSort(BySource(), Winners(c, ls)))| == |multiset(Winners(c, ls))|;
  }

  /** The one value that occurs, if exactly one does. */
  function Shared(values: set<Option<string>>): (r: Option<string>)
    ensures r.Some? <==> exists v :: values - {None} == {Some(v)}
    ensures r.Some? ==> values - {None} == {r}
  {
    var present := values - {None};
    if exists x :: x in present && present == {x} then
      var x :| x in present && present == {x};
      x
    else None
  }

  function ObservedAt(): Layer -> Option<string> {
    (l: Layer) => l.evidence.observedAt
  }

  function VersionOf(): Layer -> Option<string> {
    (l: Layer) => l.evidence.version
  }

  function ProtocolOf(): Layer -> Option<string> {
    (l: Layer) => l.evidence.protocol
  }

  /** What layers say in one field. */
  function Said(f: Layer -> Option<string>, ls: seq<Layer>): set<Option<string>> {
    set l | l in ls :: f(l)
  }

  /** What the most authoritative layers say together, once they agree. */
  function Claimed(c: string, winners: seq<Layer>, tier: Tier): Resolved
    requires winners != []
  {
    var ordered := StableSort(BySource(), winners);
    Resolved(
      StatusOf(c, winners[0]), tier, Map(SourceOf(), ordered),
      Shared(Said(ObservedAt(), ordered)), Shared(Said(VersionOf(), ordered)), Shared(Said(ProtocolOf(), ordered)), [])
  }

  function Resolve(c: string, ls: seq<Layer>): Result<Resolved, Refusal> {
    if Strip(c) == "" then Failure(BlankCapability)
    else if Candidates(c, ls) == [] then Success(Resolved(Unknown, NoTier, ["unknown"], None, None, None, []))
    else
      var winners := Winners(c, ls);
      WinnersExist(c, ls);
      if exists l :: l in winners && StatusOf(c, l) != StatusOf(c, winners[0]) then
        Failure(EqualAuthority(Map(DetailOf(c), StableSort(BySource(), winners))))
      else
        var claim := Claimed(c, winners, Highest(Candidates(c, ls)));
        var weaker := Filter(Disagrees(c, claim.status), StableSort(ByTier(), Weaker(c, ls)));
        Success(claim.(conflicts := Map(Record(c, claim.status, claim.sources[0]), weaker)))
  }

  // ---------------------------------------------------------------- what it decides

  lemma TopIsHighest(c: string, ls: seq<Layer>, l: Layer)
    requires Candidates(c, ls) != [] && IsTop(c, ls, l)
    ensures l.tier == Highest(Candidates(c, ls))
  {
    WinnerExactly(c, ls, l);
    FilterElement(AtLevel(Level(Highest(Candidates(c, ls)))), Candidates(c, ls), l);
  }

  lemma WinnersSpeakForTop(c: string, ls: seq<Layer>)
    requires Candidates(c, ls) != []
    ensures Winners(c, ls) != [] && IsTop(c, ls, Winners(c, ls)[0])
    ensures forall l :: l in Winners(c, ls) <==> IsTop(c, ls, l)
    ensures forall l | IsTop(c, ls, l) :: l.tier == Highest(Candidates(c, ls))
  {
    WinnersExist(c, ls);
    forall l ensures l in Winners(c, ls) <==> IsTop(c, ls, l) {
      WinnerExactly(c, ls, l);
    }
    forall l | IsTop(c, ls, l) ensures l.tier == Highest(Candidates(c, ls)) {
      TopIsHighest(c, ls, l);
    }
    assert Winners(c, ls)[0] in Winners(c, ls);
  }

  /** The resolution refuses exactly a blank capability and a contradiction among the most
      authoritative layers; otherwise each of these layers carries the selected claim. */
  lemma VerdictExact(c: string, ls: seq<Layer>)
    ensures Resolve(c, ls) == Failure(BlankCapability) <==> Strip(c) == ""
    ensures (Resolve(c, ls).Failure? && Resolve(c, ls).error.EqualAuthority?) <==>
            (Strip(c) != "" && exists a, b :: IsTop(c, ls, a) && IsTop(c, ls, b) && StatusOf(c, a) != StatusOf(c, b))
    ensures Resolve(c, ls).Success? ==>
              (forall l | IsTop(c, ls, l) ::
                Resolve(c, ls).value.status == StatusOf(c, l) && Resolve(c, ls).value.tier == l.tier)
    ensures Resolve(c, ls).Success? && (forall l | l in ls :: StatusOf(c, l) == Unknown) ==>
              Resolve(c, ls).value.status == Unknown && Resolve(c, ls).value.tier == NoTier
  {
    if Candidates(c, ls) == [] {
      forall l ensures !IsTop(c, ls, l) {
        CandidateExactly(c, ls, l);
      }
    } else {
      WinnersSpeakForTop(c, ls);
      var l := Winners(c, ls)[0];
      assert l in ls && StatusOf(c, l) != Unknown;
    }
  }

  /** A layer that is outvoted: it claims something, but neither decides nor agrees. */
  ghost predicate Outvoted(c: string, ls: seq<Layer>, s: Status, l: Layer) {
    l in ls && StatusOf(c, l) != Unknown && !IsTop(c, ls, l) && StatusOf(c, l) != s
  }

  /** The layers that end up as conflicts, before they are sorted. */
  function Disagreeing(c: string, s: Status, ls: seq<Layer>): seq<Layer>
    requires Candidates(c, ls) != []
  {
    Filter(Disagrees(c, s), Weaker(c, ls))
  }

  lemma ConflictsAre(c: string, ls: seq<Layer>)
    requires Resolve(c, ls).Success? && Candidates(c, ls) != []
    ensures var r := Resolve(c, ls).value;
      && r.sources != []
      && r.conflicts == Map(Record(c, r.status, r.sources[0]), StableSort(ByTier(), Disagreeing(c, r.status, ls)))
  {
    WinnersExist(c, ls);
    FilterSort(ByTier(), Disagrees(c, Resolve(c, ls).value.status), Weaker(c, ls));
  }

  lemma DisagreeingExactly(c: string, s: Status, ls: seq<Layer>, l: Layer)
    requires Candidates(c, ls) != []
    ensures l in Disagreeing(c, s, ls) <==> Outvoted(c, ls, s, l)
  {
    FilterElement(Disagrees(c, s), Weaker(c, ls), l);
    WeakerExactly(c, ls, l);
  }

  /** Exactly the outvoted layers are listed. */
  lemma ConflictsExact(c: string, ls: seq<Layer>, k: Conflict)
    requires Resolve(c, ls).Success?
    ensures var r := Resolve(c, ls).value;
      k in r.conflicts <==> exists l ::
        Outvoted(c, ls, r.status, l) && r.sources != [] && k == Record(c, r.status, r.sources[0])(l)
  {
    var r := Resolve(c, ls).value;
    if Candidates(c, ls) == [] {
      forall l ensures !Outvoted(c, ls, r.status, l) {
        CandidateExactly(c, ls, l);
      }
    } else {
      ConflictsAre(c, ls);
      ListedExactly(c, ls, r.status, Record(c, r.status, r.sources[0]), k);
    }
  }

  lemma ListedExactly(c: string, ls: seq<Layer>, s: Status, record: Layer -> Conflict, k: Conflict)
    requires Candidates(c, ls) != []
    ensures k in Map(record, StableSort(ByTier(), Disagreeing(c, s, ls))) <==>
      exists l :: Outvoted(c, ls, s, l) && k == record(l)
  {
    var sorted := StableSort(ByTier(), Disagreeing(c, s, ls));
    forall l ensures l in sorted <==> Outvoted(c, ls, s, l) {
      SortKeepsElements(ByTier(), Disagreeing(c, s, ls), l);
      DisagreeingExactly(c, s, ls, l);
    }
    if k in Map(record, sorted) {
      var i :| 0 <= i < |sorted| && Map(record, sorted)[i] == k;
      assert sorted[i] in sorted;
    }
  }

  function RankOf(k: Conflict): Rank {
    Rank(-Level(k.tier), k.source)
  }

  /** They are listed each as often as given, the stronger first and by source within a tier. */
  lemma ConflictsInOrder(c: string, ls: seq<Layer>)
    requires Resolve(c, ls).Success? && Candidates(c, ls) != []
    ensures var r := Resolve(c, ls).value;
      && r.sources != []
      && multiset(r.conflicts) == multiset(Map(Record(c, r.status, r.sources[0]), Disagreeing(c, r.status, ls)))
      && forall i, j | 0 <= i < j < |r.conflicts| :: RankLe(RankOf(r.conflicts[i]), RankOf(r.conflicts[j]))
  {
    ConflictsAre(c, ls);
    var r := Resolve(c, ls).value;
    var d := Disagreeing(c, r.status, ls);
    SortSorts(ByTier(), d);
    SortPermutes(ByTier(), d);
    MapPermuted(Record(c, r.status, r.sources[0]), StableSort(ByTier(), d), d);
    forall i, j | 0 <= i < j < |r.conflicts| ensures RankLe(RankOf(r.conflicts[i]), RankOf(r.conflicts[j])) {
      assert RankLe(ByTier()(StableSort(ByTier(), d)[i]), ByTier()(StableSort(ByTier(), d)[j]));
    }
  }

  // ---------------------------------------------------------------- the order of the layers

  lemma HighestPermuted(a: seq<Layer>, b: seq<Layer>)
    requires a != [] && b != [] && multiset(a) == multiset(b)
    ensures Highest(a) == Highest(b)
  {
    var s, t := Highest(a), Highest(b);
    var l :| l in a && l.tier == s;
    var m :| m in b && m.tier == t;
    assert l in multiset(b) && m in multiset(a);
  }

  lemma PartsPermuted(c: string, ls: seq<Layer>, ms: seq<Layer>)
    requires multiset(ls) == multiset(ms)
    ensures multiset(Candidates(c, ls)) == multiset(Candidates(c, ms))
    ensures Candidates(c, ls) == [] <==> Candidates(c, ms) == []
    ensures Candidates(c, ls) != [] ==>
      && Highest(Candidates(c, ls)) == Highest(Candidates(c, ms))
      && multiset(Winners(c, ls)) == multiset(Winners(c, ms))
      && multiset(Weaker(c, ls)) == multiset(Weaker(c, ms))
  {
    var a, b := Candidates(c, ls), Candidates(c, ms);
    FilterPermuted(IsKnown(c), ls, ms);
    assert |a| == |multiset(a)| && |b| == |multiset(b)|;
    if a != [] {
      HighestPermuted(a, b);
      FilterPermuted(AtLevel(Level(Highest(a))), a, b);
      FilterPermuted(Below(Level(Highest(a))), a, b);
    }
  }

  lemma TopPermuted(c: string, ls: seq<Layer>, ms: seq<Layer>, l: Layer)
    requires multiset(ls) == multiset(ms) && IsTop(c, ls, l)
    ensures IsTop(c, ms, l)
  {
    assert l in multiset(ms);
    forall m | m in ms && StatusOf(c, m) != Unknown ensures Level(m.tier) <= Level(l.tier) {
      assert m in multiset(ls);
    }
  }

  /** The two results differ at most in the order in which conflicts are listed. */
  ghost predicate SameVerdict(a: Result<Resolved, Refusal>, b: Result<Resolved, Refusal>) {
    match (a, b)
    case (Success(r), Success(q)) =>
      r.(conflicts := []) == q.(conflicts := []) && multiset(r.conflicts) == multiset(q.conflicts)
    case (Failure(EqualAuthority(x)), Failure(EqualAuthority(y))) => multiset(x) == multiset(y)
    case (Failure(x), Failure(y)) => x == y
    case _ => false
  }

  /** The winners listed by source, and what they share, do not depend on the order. */
  lemma SourcesPermuted(a: seq<Layer>, b: seq<Layer>)
    requires multiset(a) == multiset(b)
    ensures Map(SourceOf(), StableSort(BySource(), a)) == Map(SourceOf(), StableSort(BySource(), b))
    ensures forall l :: l in StableSort(BySource(), a) <==> l in StableSort(BySource(), b)
  {
    SortedViewPermuted(BySource(), SourceOf(), a, b);
    forall l ensures l in StableSort(BySource(), a) <==> l in StableSort(BySource(), b) {
      SortKeepsElements(BySource(), a, l);
      SortKeepsElements(BySource(), b, l);
      assert l in multiset(a) <==> l in multiset(b);
    }
  }

  lemma SaidAlike(f: Layer -> Option<string>, x: seq<Layer>, y: seq<Layer>)
    requires forall l :: l in x <==> l in y
    ensures Said(f, x) == Said(f, y)
  {
  }

  lemma ClaimedPermuted(c: string, a: seq<Layer>, b: seq<Layer>, tier: Tier)
    requires multiset(a) == multiset(b) && a != [] && b != []
    requires forall l | l in a :: StatusOf(c, l) == StatusOf(c, a[0])
    ensures Claimed(c, a, tier) == Claimed(c, b, tier)
  {
    SourcesPermuted(a, b);
    var x, y := StableSort(BySource(), a), StableSort(BySource(), b);
    assert b[0] in multiset(a);
    SaidAlike(ObservedAt(), x, y);
    SaidAlike(VersionOf(), x, y);
    SaidAlike(ProtocolOf(), x, y);
  }

  lemma DisagreeingPermuted(c: string, s: Status, ls: seq<Layer>, ms: seq<Layer>)
    requires multiset(ls) == multiset(ms) && Candidates(c, ls) != [] && Candidates(c, ms) != []
    ensures multiset(Disagreeing(c, s, ls)) == multiset(Disagreeing(c, s, ms))
  {
    PartsPermuted(c, ls, ms);
    FilterPermuted(Disagrees(c, s), Weaker(c, ls), Weaker(c, ms));
  }

  lemma ConflictsPermuted(c: string, ls: seq<Layer>, ms: seq<Layer>)
    requires multiset(ls) == multiset(ms) && Candidates(c, ls) != [] && Candidates(c, ms) != []
    requires Resolve(c, ls).Success? && Resolve(c, ms).Success?
    requires Resolve(c, ls).value.status == Resolve(c, ms).value.status
    requires Resolve(c, ls).value.sources == Resolve(c, ms).value.sources
    ensures multiset(Resolve(c, ls).value.conflicts) == multiset(Resolve(c, ms).value.conflicts)
  {
    ConflictsAre(c, ls);
    ConflictsAre(c, ms);
    var s := Resolve(c, ls).value.status;
    var a, b := Disagreeing(c, s, ls), Disagreeing(c, s, ms);
    DisagreeingPermuted(c, s, ls, ms);
    SortPermutes(ByTier(), a);
    SortPermutes(ByTier(), b);
    MapPermuted(Record(c, s, Resolve(c, ls).value.sources[0]), StableSort(ByTier(), a), StableSort(ByTier(), b));
  }

  lemma DetailsPermuted(c: string, ls: seq<Layer>, ms: seq<Layer>)
    requires multiset(ls) == multiset(ms) && Candidates(c, ls) != [] && Candidates(c, ms) != []
    ensures multiset(Map(DetailOf(c), StableSort(BySource(), Winners(c, ls))))
         == multiset(Map(DetailOf(c), StableSort(BySource(), Winners(c, ms))))
  {
    PartsPermuted(c, ls, ms);
    SortPermutes(BySource(), Winners(c, ls));
    SortPermutes(BySource(), Winners(c, ms));
    MapPermuted(DetailOf(c), StableSort(BySource(), Winners(c, ls)), StableSort(BySource(), Winners(c, ms)));
  }

  lemma AgreementPermuted(c: string, ls: seq<Layer>, ms: seq<Layer>)
    requires multiset(ls) == multiset(ms) && Candidates(c, ls) != [] && Candidates(c, ms) != [] && Strip(c) != ""
    requires Resolve(c, ls).Success?
    ensures Resolve(c, ms).Success?
  {
    VerdictExact(c, ls);
    VerdictExact(c, ms);
    if Resolve(c, ms).Failure? {
      var a, b :| IsTop(c, ms, a) && IsTop(c, ms, b) && StatusOf(c, a) != StatusOf(c, b);
      TopPermuted(c, ms, ls, a);
      TopPermuted(c, ms, ls, b);
    }
  }

  lemma AgreedVerdictPermuted(c: string, ls: seq<Layer>, ms: seq<Layer>)
    requires multiset(ls) == multiset(ms) && Candidates(c, ls) != [] && Candidates(c, ms) != [] && Strip(c) != ""
    requires Resolve(c, ls).Success? && Resolve(c, ms).Success?
    ensures SameVerdict(Resolve(c, ls), Resolve(c, ms))
  {
    PartsPermuted(c, ls, ms);
    WinnersExist(c, ls);
    WinnersExist(c, ms);
    var tier := Highest(Candidates(c, ls));
    assert Resolve(c, ls).value.(conflicts := []) == Claimed(c, Winners(c, ls), tier);
    assert Resolve(c, ms).value.(conflicts := []) == Claimed(c, Winners(c, ms), tier);
    ClaimedPermuted(c, Winners(c, ls), Winners(c, ms), tier);
    ConflictsPermuted(c, ls, ms);
  }

  /** Whatever order the layers come in, the verdict is the same. */
  lemma OrderDoesNotDecide(c: string, ls: seq<Layer>, ms: seq<Layer>)
    requires multiset(ls) == multiset(ms)
    ensures SameVerdict(Resolve(c, ls), Resolve(c, ms))
  {
    PartsPermuted(c, ls, ms);
    if Strip(c) != "" && Candidates(c, ls) != [] {
      if Resolve(c, ls).Success? {
        AgreementPermuted(c, ls, ms);
        AgreedVerdictPermuted(c, ls, ms);
      } else if Resolve(c, ms).Success? {
        AgreementPermuted(c, ms, ls);
      } else {
        DetailsPermuted(c, ls, ms);
      }
    }
  }

  /** Two outvoted layers of one tier and source that claim different things. */
  ghost predicate Clash(c: string, ls: seq<Layer>, s: Status, a: Layer, b: Layer) {
    && Outvoted(c, ls, s, a) && Outvoted(c, ls, s, b)
    && ByTier()(a) == ByTier()(b) && StatusOf(c, a) != StatusOf(c, b)
  }

  lemma RankTells(a: Layer, b: Layer)
    requires ByTier()(a) == ByTier()(b)
    ensures a.tier == b.tier && a.evidence.source == b.evidence.source
  {
  }

  /** Without a clash the whole result is the same for every order of the layers. */
  lemma OrderInvisible(c: string, ls: seq<Layer>, ms: seq<Layer>)
    requires multiset(ls) == multiset(ms)
    requires Resolve(c, ls).Success? && !exists a, b :: Clash(c, ls, Resolve(c, ls).value.status, a, b)
    ensures Resolve(c, ms) == Resolve(c, ls)
  {
    OrderDoesNotDecide(c, ls, ms);
    PartsPermuted(c, ls, ms);
    if Candidates(c, ls) != [] {
      var r := Resolve(c, ls).value;
      ConflictsAre(c, ls);
      ConflictsAre(c, ms);
      assert Resolve(c, ms).value.(conflicts := []) == r.(conflicts := []);
      var a, b := Disagreeing(c, r.status, ls), Disagreeing(c, r.status, ms);
      DisagreeingPermuted(c, r.status, ls, ms);
      var record := Record(c, r.status, r.sources[0]);
      forall x, y | x in a && y in a && ByTier()(x) == ByTier()(y) ensures record(x) == record(y) {
        DisagreeingExactly(c, r.status, ls, x);
        DisagreeingExactly(c, r.status, ls, y);
        assert !Clash(c, ls, r.status, x, y);
        RankTells(x, y);
      }
      SortedViewPermuted(ByTier(), record, a, b);
    }
  }

  function HasRank(k: Rank): Layer -> bool {
    (l: Layer) => ByTier()(l) == k
  }

  function ConflictHasRank(k: Rank): Conflict -> bool {
    (x: Conflict) => Rank(-Level(x.tier), x.source) == k
  }

  /** Of the outvoted layers of one tier and source, the one given first is listed first. */
  lemma FirstGivenListedFirst(c: string, ls: seq<Layer>, x: Layer)
    requires Resolve(c, [x] + ls).Success? && Outvoted(c, [x] + ls, Resolve(c, [x] + ls).value.status, x)
    ensures var r := Resolve(c, [x] + ls).value;
      && r.sources != []
      && var listed := Filter(ConflictHasRank(ByTier()(x)), r.conflicts);
      listed != [] && listed[0] == Record(c, r.status, r.sources[0])(x)
  {
    var all, k := [x] + ls, ByTier()(x);
    CandidateExactly(c, all, x);
    ConflictsAre(c, all);
    var r := Resolve(c, all).value;
    var record := Record(c, r.status, r.sources[0]);
    FilterHead(IsKnown(c), x, ls);
    var known := Candidates(c, all);
    WeakerExactly(c, all, x);
    FilterElement(Below(Level(Highest(known))), known, x);
    FilterHead(Below(Level(Highest(known))), x, known[1..]);
    FilterHead(Disagrees(c, r.status), x, Weaker(c, all)[1..]);
    var d := Disagreeing(c, r.status, all);
    assert d == [x] + d[1..];
    FilterHead(HasRank(k), x, d[1..]);
    SortIsStable(ByTier(), d, k, HasRank(k));
    FilterMap(ConflictHasRank(k), HasRank(k), record, StableSort(ByTier(), d));
  }

  /** Two orders that list the conflicts alike begin with layers that claim alike. */
  lemma FirstTold(c: string, xs: seq<Layer>, ys: seq<Layer>, a: Layer, b: Layer)
    requires Resolve(c, [a] + xs).Success? && Resolve(c, [a] + xs) == Resolve(c, [b] + ys) && ByTier()(a) == ByTier()(b)
    requires Outvoted(c, [a] + xs, Resolve(c, [a] + xs).value.status, a)
    requires Outvoted(c, [b] + ys, Resolve(c, [b] + ys).value.status, b)
    ensures StatusOf(c, a) == StatusOf(c, b)
  {
    FirstGivenListedFirst(c, xs, a);
    FirstGivenListedFirst(c, ys, b);
  }

  /** With a clash, two orders of the same layers list the conflicts differently. */
  lemma ClashShows(c: string, ls: seq<Layer>, a: Layer, b: Layer)
    requires Resolve(c, ls).Success? && Clash(c, ls, Resolve(c, ls).value.status, a, b)
    ensures exists ms :: multiset(ms) == multiset(ls) && Resolve(c, ms) != Resolve(c, ls)
  {
    var s, t := OutvotedForward(c, ls, a, b);
    assert multiset(s) == multiset(ls) && multiset(t) == multiset(ls);
    assert Resolve(c, s) != Resolve(c, ls) || Resolve(c, t) != Resolve(c, ls);
  }

  lemma OutvotedForward(c: string, ls: seq<Layer>, a: Layer, b: Layer) returns (s: seq<Layer>, t: seq<Layer>)
    requires Resolve(c, ls).Success? && Clash(c, ls, Resolve(c, ls).value.status, a, b)
    ensures multiset(s) == multiset(ls) && multiset(t) == multiset(ls)
    ensures !(Resolve(c, s) == Resolve(c, ls) && Resolve(c, t) == Resolve(c, ls))
  {
    var rest := BringForward(ls, a, b);
    s, t := [a] + ([b] + rest), [b] + ([a] + rest);
    var r := Resolve(c, ls).value;
    OutvotedPermuted(c, ls, s, r.status, a);
    OutvotedPermuted(c, ls, t, r.status, b);
    if Resolve(c, s) == Resolve(c, ls) && Resolve(c, t) == Resolve(c, ls) {
      FirstTold(c, [b] + rest, [a] + rest, a, b);
    }
  }

  lemma OutvotedPermuted(c: string, ls: seq<Layer>, ms: seq<Layer>, s: Status, l: Layer)
    requires multiset(ls) == multiset(ms) && Outvoted(c, ls, s, l)
    ensures Outvoted(c, ms, s, l)
  {
    assert l in multiset(ms);
    if IsTop(c, ms, l) {
      TopPermuted(c, ms, ls, l);
    }
  }

  // ---------------------------------------------------------------- the details of a refusal

  function HasSource(k: Rank): Layer -> bool {
    (l: Layer) => BySource()(l) == k
  }

  function DetailHasSource(k: Rank): ((string, Status)) -> bool {
    (d: (string, Status)) => Rank(0, d.0) == k
  }

  /** Of the top layers of one source, the one given first is told first. */
  lemma FirstGivenToldFirst(c: string, ls: seq<Layer>, x: Layer)
    requires Candidates(c, [x] + ls) != [] && IsTop(c, [x] + ls, x)
    ensures var told := Map(DetailOf(c), StableSort(BySource(), Winners(c, [x] + ls)));
      var mine := Filter(DetailHasSource(BySource()(x)), told);
      mine != [] && mine[0] == DetailOf(c)(x)
  {
    var all, k := [x] + ls, BySource()(x);
    CandidateExactly(c, all, x);
    FilterHead(IsKnown(c), x, ls);
    var known := Candidates(c, all);
    TopIsHighest(c, all, x);
    FilterHead(AtLevel(Level(Highest(known))), x, known[1..]);
    var w := Winners(c, all);
    assert w == [x] + w[1..];
    FilterHead(HasSource(k), x, w[1..]);
    SortIsStable(BySource(), w, k, HasSource(k));
    FilterMap(DetailHasSource(k), HasSource(k), DetailOf(c), StableSort(BySource(), w));
  }

  ghost predicate RefusesAs(c: string, ls: seq<Layer>, r: Result<Resolved, Refusal>) {
    Resolve(c, ls) == r && r.Failure? && r.error.EqualAuthority?
  }

  lemma ToldApart(c: string, xs: seq<Layer>, ys: seq<Layer>, a: Layer, b: Layer, r: Result<Resolved, Refusal>)
    requires IsTop(c, [a] + xs, a) && IsTop(c, [b] + ys, b)
    requires BySource()(a) == BySource()(b) && StatusOf(c, a) != StatusOf(c, b)
    ensures !(RefusesAs(c, [a] + xs, r) && RefusesAs(c, [b] + ys, r))
  {
    CandidateExactly(c, [a] + xs, a);
    CandidateExactly(c, [b] + ys, b);
    FirstGivenToldFirst(c, xs, a);
    FirstGivenToldFirst(c, ys, b);
  }

  /** Two top layers of one source that claim different things are told in the order given. */
  lemma RefusalShows(c: string, ls: seq<Layer>, a: Layer, b: Layer)
    requires RefusesAs(c, ls, Resolve(c, ls)) && IsTop(c, ls, a) && IsTop(c, ls, b)
    requires BySource()(a) == BySource()(b) && StatusOf(c, a) != StatusOf(c, b)
    ensures exists ms :: multiset(ms) == multiset(ls) && Resolve(c, ms) != Resolve(c, ls)
  {
    var s, t := TopsForward(c, ls, a, b);
    assert multiset(s) == multiset(ls) && multiset(t) == multiset(ls);
    assert Resolve(c, s) != Resolve(c, ls) || Resolve(c, t) != Resolve(c, ls);
  }

  lemma TopsForward(c: string, ls: seq<Layer>, a: Layer, b: Layer) returns (s: seq<Layer>, t: seq<Layer>)
    requires IsTop(c, ls, a) && IsTop(c, ls, b) && BySource()(a) == BySource()(b) && StatusOf(c, a) != StatusOf(c, b)
    ensures multiset(s) == multiset(ls) && multiset(t) == multiset(ls)
    ensures !(RefusesAs(c, s, Resolve(c, ls)) && RefusesAs(c, t, Resolve(c, ls)))
  {
    var rest := BringForward(ls, a, b);
    s, t := [a] + ([b] + rest), [b] + ([a] + rest);
    TopPermuted(c, ls, s, a);
    TopPermuted(c, ls, t, b);
    ToldApart(c, [b] + rest, [a] + rest, a, b, Resolve(c, ls));
  }

  lemma RefusalInvisible(c: string, ls: seq<Layer>, ms: seq<Layer>)
    requires multiset(ls) == multiset(ms) && Resolve(c, ls).Failure? && Resolve(c, ls).error.EqualAuthority?
    requires forall a, b | IsTop(c, ls, a) && IsTop(c, ls, b) && BySource()(a) == BySource()(b) ::
               StatusOf(c, a) == StatusOf(c, b)
    ensures Resolve(c, ms) == Resolve(c, ls)
  {
    OrderDoesNotDecide(c, ls, ms);
    PartsPermuted(c, ls, ms);
    forall x, y | x in Winners(c, ls) && y in Winners(c, ls) && BySource()(x) == BySource()(y)
      ensures DetailOf(c)(x) == DetailOf(c)(y)
    {
      WinnerExactly(c, ls, x);
      WinnerExactly(c, ls, y);
    }
    SortedViewPermuted(BySource(), DetailOf(c), Winners(c, ls), Winners(c, ms));
  }

  // ---------------------------------------------------------------- when the order shows

  /** The most authoritative layers agree. */
  ghost predicate Agreed(c: string, ls: seq<Layer>) {
    forall a, b | IsTop(c, ls, a) && IsTop(c, ls, b) :: StatusOf(c, a) == StatusOf(c, b)
  }

  /** Two layers that contradict each other under one tier and source, and that the result
      lists: both at the top, or both outvoted by an agreed top. */
  ghost predicate Ambiguous(c: string, ls: seq<Layer>, a: Layer, b: Layer) {
    && a.tier == b.tier && a.evidence.source == b.evidence.source && StatusOf(c, a) != StatusOf(c, b)
    && ((IsTop(c, ls, a) && IsTop(c, ls, b))
        || (Agreed(c, ls) && exists t ::
              IsTop(c, ls, t) && Outvoted(c, ls, StatusOf(c, t), a) && Outvoted(c, ls, StatusOf(c, t), b)))
  }

  /** In a verdict, the top layers agree and say what it says. */
  lemma TopSpeaks(c: string, ls: seq<Layer>)
    requires Resolve(c, ls).Success?
    ensures Agreed(c, ls) && forall t | IsTop(c, ls, t) :: StatusOf(c, t) == Resolve(c, ls).value.status
  {
    VerdictExact(c, ls);
  }

  lemma ClashIsAmbiguous(c: string, ls: seq<Layer>, a: Layer, b: Layer)
    requires Resolve(c, ls).Success? && Clash(c, ls, Resolve(c, ls).value.status, a, b)
    ensures Ambiguous(c, ls, a, b)
  {
    TopSpeaks(c, ls);
    CandidateExactly(c, ls, a);
    WinnersSpeakForTop(c, ls);
    assert IsTop(c, ls, Winners(c, ls)[0]);
    RankTells(a, b);
  }

  lemma AmbiguousIsClash(c: string, ls: seq<Layer>, a: Layer, b: Layer)
    requires Resolve(c, ls).Success?
    ensures Ambiguous(c, ls, a, b) <==> Clash(c, ls, Resolve(c, ls).value.status, a, b)
  {
    TopSpeaks(c, ls);
    if Clash(c, ls, Resolve(c, ls).value.status, a, b) {
      ClashIsAmbiguous(c, ls, a, b);
    }
  }

  lemma AmbiguousAtTop(c: string, ls: seq<Layer>, a: Layer, b: Layer)
    requires Resolve(c, ls).Failure? && Resolve(c, ls).error.EqualAuthority?
    ensures Ambiguous(c, ls, a, b) <==>
      IsTop(c, ls, a) && IsTop(c, ls, b) && BySource()(a) == BySource()(b) && StatusOf(c, a) != StatusOf(c, b)
  {
    VerdictExact(c, ls);
    if IsTop(c, ls, a) && IsTop(c, ls, b) {
      CandidateExactly(c, ls, a);
      TopIsHighest(c, ls, a);
      TopIsHighest(c, ls, b);
    }
  }

  ghost predicate OrderShows(c: string, ls: seq<Layer>) {
    exists ms :: multiset(ms) == multiset(ls) && Resolve(c, ms) != Resolve(c, ls)
  }

  lemma AmbiguityShows(c: string, ls: seq<Layer>, a: Layer, b: Layer)
    requires Strip(c) != "" && Ambiguous(c, ls, a, b)
    ensures OrderShows(c, ls)
  {
    VerdictExact(c, ls);
    if Resolve(c, ls).Success? {
      AmbiguousIsClash(c, ls, a, b);
      ClashShows(c, ls, a, b);
    } else {
      AmbiguousAtTop(c, ls, a, b);
      RefusalShows(c, ls, a, b);
    }
  }

  lemma UnambiguousHides(c: string, ls: seq<Layer>, ms: seq<Layer>)
    requires multiset(ls) == multiset(ms)
    requires Strip(c) == "" || !exists a, b :: Ambiguous(c, ls, a, b)
    ensures Resolve(c, ms) == Resolve(c, ls)
  {
    VerdictExact(c, ls);
    if Strip(c) != "" && Resolve(c, ls).Success? {
      forall a, b ensures !Clash(c, ls, Resolve(c, ls).value.status, a, b) {
        AmbiguousIsClash(c, ls, a, b);
      }
      OrderInvisible(c, ls, ms);
    } else if Strip(c) != "" {
      forall a, b | IsTop(c, ls, a) && IsTop(c, ls, b) && BySource()(a) == BySource()(b)
        ensures StatusOf(c, a) == StatusOf(c, b)
      {
        AmbiguousAtTop(c, ls, a, b);
      }
      RefusalInvisible(c, ls, ms);
    }
  }

  /** The order of the layers shows in the result, or in the refusal, exactly when the
      capability has a name and two layers of one tier and source that the result lists claim
      different things. */
  lemma OrderInvisibleExactly(c: string, ls: seq<Layer>)
    ensures OrderShows(c, ls) <==> Strip(c) != "" && exists a, b :: Ambiguous(c, ls, a, b)
  {
    if Strip(c) != "" && exists a, b :: Ambiguous(c, ls, a, b) {
      var a, b :| Ambiguous(c, ls, a, b);
      AmbiguityShows(c, ls, a, b);
    } else {
      forall ms | multiset(ms) == multiset(ls) ensures Resolve(c, ms) == Resolve(c, ls) {
        UnambiguousHides(c, ls, ms);
      }
    }
  }

  // ---------------------------------------------------------------- precedence

  /** The tiers from the weakest to the strongest. */
  const Precedence: seq<Tier> := [NoTier, FamilyHint, Snapshot, Discovery, Override]

  /** `a` stands below `b` in the order of precedence. */
  ghost predicate StandsBelow(a: Tier, b: Tier) {
    exists i, j :: 0 <= i < j < |Precedence| && Precedence[i] == a && Precedence[j] == b
  }

  lemma LevelsFollowPrecedence(a: Tier, b: Tier)
    ensures Level(a) < Level(b) <==> StandsBelow(a, b)
  {
    var i, j := Rung(a), Rung(b);
    if Level(a) < Level(b) {
      assert Precedence[i] == a && Precedence[j] == b && i < j;
    }
  }

  function Rung(t: Tier): (i: nat)
    ensures i < |Precedence| && Precedence[i] == t
  {
    match t
    case NoTier => 0
    case FamilyHint => 1
    case Snapshot => 2
    case Discovery => 3
    case Override => 4
  }

  /** Of two claims about a capability, the one of the higher tier is the result, and the other is
      its one conflict if it says something else. */
  lemma HigherTierDecides(c: string, weak: Layer, strong: Layer)
    requires Strip(c) != "" && StatusOf(c, weak) != Unknown && StatusOf(c, strong) != Unknown
    requires StandsBelow(weak.tier, strong.tier)
    ensures Resolve(c, [weak, strong]).Success?
    ensures var r := Resolve(c, [weak, strong]).value;
      && r.status == StatusOf(c, strong) && r.tier == strong.tier
      && forall k :: k in r.conflicts <==>
           && StatusOf(c, weak) != StatusOf(c, strong) && r.sources != []
           && k == Conflict(r.status, r.sources[0], StatusOf(c, weak), weak.evidence.source, weak.tier)
  {
    var ls := [weak, strong];
    LevelsFollowPrecedence(weak.tier, strong.tier);
    assert weak in ls && strong in ls;
    assert IsTop(c, ls, strong) && !IsTop(c, ls, weak);
    VerdictExact(c, ls);
    forall k ensures k in Resolve(c, ls).value.conflicts <==>
      && StatusOf(c, weak) != StatusOf(c, strong) && Resolve(c, ls).value.sources != []
      && k == Record(c, Resolve(c, ls).value.status, Resolve(c, ls).value.sources[0])(weak)
    {
      OnlyConflict(c, weak, strong, k);
    }
  }

  lemma OnlyConflict(c: string, weak: Layer, strong: Layer, k: Conflict)
    requires Resolve(c, [weak, strong]).Success? && StatusOf(c, weak) != Unknown
    requires IsTop(c, [weak, strong], strong) && !IsTop(c, [weak, strong], weak)
    requires Resolve(c, [weak, strong]).value.status == StatusOf(c, strong)
    ensures var r := Resolve(c, [weak, strong]).value;
      k in r.conflicts <==>
        && StatusOf(c, weak) != StatusOf(c, strong) && r.sources != []
        && k == Record(c, r.status, r.sources[0])(weak)
  {
    ConflictsExact(c, [weak, strong], k);
    assert weak in [weak, strong];
  }

  /** Several claims of one evidence about a capability count as the first of them. */
  lemma {:induction false} FirstClaimCounts(c: string, before: seq<(string, Status)>, s: Status,
      after: seq<(string, Status)>)
    requires forall x | x in before :: x.0 != c
    ensures StatusIn(c, before) == Unknown
    ensures StatusIn(c, before + [(c, s)] + after) == s
  {
    var all := before + [(c, s)] + after;
    if before != [] {
      assert all[1..] == before[1..] + [(c, s)] + after;
      FirstClaimCounts(c, before[1..], s, after);
    }
  }

  /** A value is shared exactly if it occurs and no other does. */
  lemma SharedExactly(values: set<Option<string>>, x: string)
    ensures Shared(values) == Some(x) <==> Some(x) in values && forall v | v in values :: v == None || v == Some(x)
  {
    var present := values - {None};
    if Some(x) in values && forall v | v in values :: v == None || v == Some(x) {
      assert present == {Some(x)};
      assert Shared(values).Some?;
    }
    if Shared(values) == Some(x) {
      assert present == {Some(x)};
      forall v | v in values ensures v == None || v == Some(x) {
        assert v == None || v in present;
      }
      assert Some(x) in present;
    }
  }

  /** One of the top layers says `x`, and the others say the same or nothing. */
  ghost predicate AgreeOn(c: string, ls: seq<Layer>, f: Layer -> Option<string>, x: string) {
    && (exists l :: IsTop(c, ls, l) && f(l) == Some(x))
    && (forall l | IsTop(c, ls, l) :: f(l) == None || f(l) == Some(x))
  }

  /** Where the result comes from: the sources and the shared provenance are those of the top
      layers, all of them and nothing else. */
  lemma ProvenanceExactly(c: string, ls: seq<Layer>, x: string)
    requires Resolve(c, ls).Success? && Candidates(c, ls) != []
    ensures var r := Resolve(c, ls).value;
      && (x in r.sources <==> exists l :: IsTop(c, ls, l) && l.evidence.source == x)
      && (r.observedAt == Some(x) <==> AgreeOn(c, ls, ObservedAt(), x))
      && (r.version == Some(x) <==> AgreeOn(c, ls, VersionOf(), x))
      && (r.protocol == Some(x) <==> AgreeOn(c, ls, ProtocolOf(), x))
      && forall l :: ObservedAt()(l) == l.evidence.observedAt && VersionOf()(l) == l.evidence.version
           && ProtocolOf()(l) == l.evidence.protocol
  {
    var ordered := StableSort(BySource(), Winners(c, ls));
    OrderedIsTop(c, ls);
    SourcesListed(ordered);
    SharedAgree(c, ls, ordered, ObservedAt(), x);
    SharedAgree(c, ls, ordered, VersionOf(), x);
    SharedAgree(c, ls, ordered, ProtocolOf(), x);
  }

  lemma OrderedIsTop(c: string, ls: seq<Layer>)
    requires Resolve(c, ls).Success? && Candidates(c, ls) != []
    ensures forall l :: l in StableSort(BySource(), Winners(c, ls)) <==> IsTop(c, ls, l)
  {
    WinnersSpeakForTop(c, ls);
    forall l ensures l in StableSort(BySource(), Winners(c, ls)) <==> IsTop(c, ls, l) {
      SortKeepsElements(BySource(), Winners(c, ls), l);
    }
  }

  lemma SharedAgree(c: string, ls: seq<Layer>, ordered: seq<Layer>, f: Layer -> Option<string>, x: string)
    requires forall l :: l in ordered <==> IsTop(c, ls, l)
    ensures Shared(Said(f, ordered)) == Some(x) <==> AgreeOn(c, ls, f, x)
  {
    var values := Said(f, ordered);
    SharedExactly(values, x);
    if AgreeOn(c, ls, f, x) {
      var l :| IsTop(c, ls, l) && f(l) == Some(x);
      assert f(l) in values;
    }
    if Some(x) in values && forall v | v in values :: v == None || v == Some(x) {
      forall l | IsTop(c, ls, l) ensures f(l) == None || f(l) == Some(x) {
        assert f(l) in values;
      }
    }
  }

  lemma SourcesListed(ordered: seq<Layer>)
    ensures forall x :: x in Map(SourceOf(), ordered) <==> exists l :: l in ordered && l.evidence.source == x
  {
    var listed := Map(SourceOf(), ordered);
    forall x ensures x in listed <==> exists l :: l in ordered && l.evidence.source == x {
      if x in listed {
        var i :| 0 <= i < |listed| && listed[i] == x;
        assert ordered[i] in ordered;
      }
      if l :| l in ordered && l.evidence.source == x {
        var i :| 0 <= i < |ordered| && ordered[i] == l;
        assert listed[i] == x;
      }
    }
  }

  /** A layer that claims nothing about `c` leaves the result alone, wherever it stands. */
  lemma SilenceChangesNothing(c: string, before: seq<Layer>, silent: Layer, after: seq<Layer>)
    requires StatusOf(c, silent) == Unknown
    ensures Resolve(c, before + [silent] + after) == Resolve(c, before + after)
  {
    FilterConcat(IsKnown(c), before + [silent], after);
    FilterEnd(IsKnown(c), before, silent);
    FilterConcat(IsKnown(c), before, after);
  }
}
