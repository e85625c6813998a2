/** Receipts of the state on the two sides of a compaction boundary: when a boundary is
    passed, how passed boundaries compose, and what a printed receipt reads back as. */
module Compaction {
  import opened Common

  datatype State = State(
    provider: string, model: string, protocol: string, schemaHash: string, shapeHash: string,
    calls: seq<string>, results: seq<string>, batches: seq<seq<string>>, bindings: seq<(string, string)>,
    reasoningType: Option<string>, reasoningHash: Option<string>,
    mediaCount: int, mediaTypeHash: Option<string>, disposition: string,
    memories: seq<string>, skills: seq<string>, committed: seq<string>, retries: int,
    session: Option<string>, parent: Option<string>, resume: Option<string>)

  // ---------------------------------------------------------------- sets and sequences

  function Elements<T>(s: seq<T>): set<T> {
    set x | x in s
  }

  /** As many elements as positions. */
  predicate NoDuplicates<T(==)>(s: seq<T>) {
    |s| == |Elements(s)|
  }

  lemma {:induction false} FewerElements<T>(s: seq<T>)
    ensures |Elements(s)| <= |s|
  {
    if s != [] {
      var m := |s| - 1;
      FewerElements(s[..m]);
      assert s == s[..m] + [s[m]];
      assert Elements(s) == Elements(s[..m]) + {s[m]};
    }
  }

  /** That is, no element stands at two positions. */
  lemma {:induction false} NoDuplicatesExactly<T>(s: seq<T>)
    ensures NoDuplicates(s) <==> forall i, j | 0 <= i < j < |s| :: s[i] != s[j]
  {
    if s != [] {
      var m := |s| - 1;
      assert s == s[..m] + [s[m]];
      assert Elements(s) == Elements(s[..m]) + {s[m]};
      NoDuplicatesExactly(s[..m]);
      FewerElements(s[..m]);
      if s[m] in s[..m] {
        assert Elements(s) == Elements(s[..m]);
        var k :| 0 <= k < m && s[k] == s[m];
      }
    }
  }

  function Flatten(batches: seq<seq<string>>): seq<string> {
    if batches == [] then [] else Flatten(batches[..|batches| - 1]) + batches[|batches| - 1]
  }

  function Firsts(bindings: seq<(string, string)>): (r: seq<string>)
    ensures |r| == |bindings| && forall i | 0 <= i < |r| :: r[i] == bindings[i].0
  {
    seq(|bindings|, i requires 0 <= i < |bindings| => bindings[i].0)
  }

  function Seconds(bindings: seq<(string, string)>): (r: seq<string>)
    ensures |r| == |bindings| && forall i | 0 <= i < |r| :: r[i] == bindings[i].1
  {
    seq(|bindings|, i requires 0 <= i < |bindings| => bindings[i].1)
  }

  // ---------------------------------------------------------------- the shape of tool identities

  predicate ToolShape(s: State) {
    && NoDuplicates(s.calls)
    && (s.batches != [] ==> Flatten(s.batches) == s.calls && forall b | b in s.batches :: NoDuplicates(b))
    && (s.bindings != [] ==>
          && NoDuplicates(Firsts(s.bindings)) && NoDuplicates(Seconds(s.bindings))
          && Elements(Firsts(s.bindings)) == Elements(s.calls)
          && Elements(Seconds(s.bindings)) == Elements(s.results))
  }

  lemma {:induction false} BatchStands(batches: seq<seq<string>>, b: nat, k: nat) returns (at: nat)
    requires b < |batches| && k < |batches[b]|
    ensures at == |Flatten(batches[..b])| + k && at < |Flatten(batches)| && Flatten(batches)[at] == batches[b][k]
  {
    var m := |batches| - 1;
    if b == m {
      at := |Flatten(batches[..m])| + k;
    } else {
      at := BatchStands(batches[..m], b, k);
      assert batches[..m][..b] == batches[..b];
    }
  }

  lemma {:induction false} FlattenGrows(batches: seq<seq<string>>, a: nat, b: nat)
    requires a < b <= |batches|
    ensures |Flatten(batches[..a])| + |batches[a]| <= |Flatten(batches[..b])|
  {
    assert batches[..b][..b - 1] == batches[..b - 1];
    if a < b - 1 {
      FlattenGrows(batches, a, b - 1);
    }
  }

  lemma {:induction false} FlattenHolds(batches: seq<seq<string>>, c: string)
    ensures c in Flatten(batches) <==> exists b | 0 <= b < |batches| :: c in batches[b]
  {
    if batches != [] {
      FlattenHolds(batches[..|batches| - 1], c);
    }
  }

  /** The number of calls in the batches before the `b`-th. */
  function Offset(batches: seq<seq<string>>, b: nat): nat
    requires b <= |batches|
  {
    if b == 0 then 0 else Offset(batches, b - 1) + |batches[b - 1]|
  }

  /** Batch by batch and place by place, the batches list the calls in order. */
  ghost predicate ListsInOrder(batches: seq<seq<string>>, calls: seq<string>) {
    && Offset(batches, |batches|) == |calls|
    && forall b, k | 0 <= b < |batches| && 0 <= k < |batches[b]| ::
         Offset(batches, b) + k < |calls| && calls[Offset(batches, b) + k] == batches[b][k]
  }

  lemma {:induction false} OffsetOfFront(batches: seq<seq<string>>, last: seq<string>, b: nat)
    requires b <= |batches|
    ensures Offset(batches + [last], b) == Offset(batches, b)
  {
    if b > 0 {
      OffsetOfFront(batches, last, b - 1);
    }
  }

  lemma {:induction false} OffsetIsLength(batches: seq<seq<string>>, b: nat)
    requires b <= |batches|
    ensures Offset(batches, b) == |Flatten(batches[..b])|
  {
    if b > 0 {
      OffsetIsLength(batches, b - 1);
      assert batches[..b][..b - 1] == batches[..b - 1];
    }
  }

  /** Only one sequence of calls is listed by the batches, and it is their concatenation. */
  lemma {:induction false} ListedExactly(batches: seq<seq<string>>, calls: seq<string>)
    ensures ListsInOrder(batches, calls) <==> Flatten(batches) == calls
  {
    OffsetIsLength(batches, |batches|);
    assert batches[..|batches|] == batches;
    forall b, k | 0 <= b < |batches| && 0 <= k < |batches[b]|
      ensures Offset(batches, b) + k < |Flatten(batches)| && Flatten(batches)[Offset(batches, b) + k] == batches[b][k]
    {
      OffsetIsLength(batches, b);
      var at := BatchStands(batches, b, k);
    }
    if ListsInOrder(batches, calls) {
      forall i | 0 <= i < |calls| ensures Flatten(batches)[i] == calls[i] {
        var b, k := BatchAt(batches, i);
        OffsetIsLength(batches, b);
        var at := BatchStands(batches, b, k);
        assert at == i && calls[Offset(batches, b) + k] == batches[b][k];
      }
    }
  }

  /** Every place in the concatenation is a place in some batch. */
  lemma {:induction false} BatchAt(batches: seq<seq<string>>, i: nat) returns (b: nat, k: nat)
    requires i < |Flatten(batches)|
    ensures b < |batches| && k < |batches[b]| && Offset(batches, b) + k == i
  {
    var front, last := batches[..|batches| - 1], batches[|batches| - 1];
    assert batches == front + [last];
    if i < |Flatten(front)| {
      b, k := BatchAt(front, i);
      OffsetOfFront(front, last, b);
    } else {
      b, k := |front|, i - |Flatten(front)|;
      OffsetIsLength(batches, |front|);
    }
  }

  /** Valid batches partition the calls: every call stands in one batch, at one place in it,
      and nothing else stands in any, and the batches list the calls in order. The duplicate
      test per batch is therefore implied. */
  lemma BatchesPartition(s: State)
    requires ToolShape(s) && s.batches != []
    ensures ListsInOrder(s.batches, s.calls)
    ensures forall c :: c in s.calls <==> exists b | 0 <= b < |s.batches| :: c in s.batches[b]
    ensures forall a, b | 0 <= a < b < |s.batches| :: Elements(s.batches[a]) !! Elements(s.batches[b])
    ensures forall b | b in s.batches :: NoDuplicates(b)
  {
    ListedExactly(s.batches, s.calls);
    NoDuplicatesExactly(s.calls);
    forall c ensures c in s.calls <==> exists b | 0 <= b < |s.batches| :: c in s.batches[b] {
      FlattenHolds(s.batches, c);
    }
    forall a, b, j, k | 0 <= a < b < |s.batches| && 0 <= j < |s.batches[a]| && 0 <= k < |s.batches[b]|
      ensures s.batches[a][j] != s.batches[b][k]
    {
      var x := BatchStands(s.batches, a, j);
      var y := BatchStands(s.batches, b, k);
      FlattenGrows(s.batches, a, b);
    }
    forall b | 0 <= b < |s.batches| ensures NoDuplicates(s.batches[b]) {
      forall j, k | 0 <= j < k < |s.batches[b]| ensures s.batches[b][j] != s.batches[b][k] {
        var x := BatchStands(s.batches, b, j);
        var y := BatchStands(s.batches, b, k);
      }
      NoDuplicatesExactly(s.batches[b]);
    }
  }

  lemma BindingsCoverCalls(s: State, c: string)
    requires ToolShape(s) && s.bindings != [] && c in s.calls
    ensures exists i | 0 <= i < |s.bindings| :: s.bindings[i].0 == c && s.bindings[i].1 in s.results
  {
    var f, g := Firsts(s.bindings), Seconds(s.bindings);
    assert c in Elements(f);
    var i :| 0 <= i < |f| && f[i] == c;
    assert g[i] in Elements(g);
    assert s.bindings[i].0 == c && s.bindings[i].1 in s.results;
  }

  lemma BindingsCoverResults(s: State, r: string)
    requires ToolShape(s) && s.bindings != [] && r in s.results
    ensures exists i | 0 <= i < |s.bindings| :: s.bindings[i].1 == r && s.bindings[i].0 in s.calls
  {
    var f, g := Firsts(s.bindings), Seconds(s.bindings);
    assert r in Elements(g);
    var i :| 0 <= i < |g| && g[i] == r;
    assert f[i] in Elements(f);
    assert s.bindings[i].1 == r && s.bindings[i].0 in s.calls;
  }

  lemma BindingsDiffer(s: State, i: nat, j: nat)
    requires ToolShape(s) && i < j < |s.bindings|
    ensures s.bindings[i].0 != s.bindings[j].0 && s.bindings[i].1 != s.bindings[j].1
  {
    NoDuplicatesExactly(Firsts(s.bindings));
    NoDuplicatesExactly(Seconds(s.bindings));
    assert Firsts(s.bindings)[i] != Firsts(s.bindings)[j];
    assert Seconds(s.bindings)[i] != Seconds(s.bindings)[j];
  }

  lemma BindingsCount(s: State)
    requires ToolShape(s) && s.bindings != []
    ensures |s.bindings| == |s.calls| == |Elements(s.results)|
  {
    assert |Firsts(s.bindings)| == |Elements(s.calls)|;
    assert |Seconds(s.bindings)| == |Elements(s.results)|;
  }

  ghost predicate Bound(s: State, c: string, r: string) {
    (c, r) in s.bindings
  }

  /** Valid bindings pair the calls with the results one to one: every call has exactly one
      result, every result belongs to exactly one call, and nothing else is paired. */
  lemma BindingsAreOneToOne(s: State)
    requires ToolShape(s) && s.bindings != []
    ensures forall c :: c in s.calls <==> exists r :: Bound(s, c, r)
    ensures forall r :: r in s.results <==> exists c :: Bound(s, c, r)
    ensures forall c, r, c', r' | Bound(s, c, r) && Bound(s, c', r') :: c == c' <==> r == r'
    ensures |s.bindings| == |s.calls| == |Elements(s.results)|
  {
    BindingsCount(s);
    forall c ensures c in s.calls <==> exists r :: Bound(s, c, r) {
      CallIsBoundExactly(s, c);
    }
    forall r ensures r in s.results <==> exists c :: Bound(s, c, r) {
      ResultIsBoundExactly(s, r);
    }
    forall c, r, c', r' | Bound(s, c, r) && Bound(s, c', r') ensures c == c' <==> r == r' {
      BoundOnce(s, c, r, c', r');
    }
  }

  lemma CallIsBoundExactly(s: State, c: string)
    requires ToolShape(s) && s.bindings != []
    ensures c in s.calls <==> exists r :: Bound(s, c, r)
  {
    if c in s.calls {
      BindingsCoverCalls(s, c);
      var i :| 0 <= i < |s.bindings| && s.bindings[i].0 == c;
      assert Bound(s, c, s.bindings[i].1);
    }
    if r :| Bound(s, c, r) {
      var i :| 0 <= i < |s.bindings| && s.bindings[i] == (c, r);
      assert Firsts(s.bindings)[i] in Elements(Firsts(s.bindings));
      assert c in Elements(s.calls);
    }
  }

  lemma ResultIsBoundExactly(s: State, r: string)
    requires ToolShape(s) && s.bindings != []
    ensures r in s.results <==> exists c :: Bound(s, c, r)
  {
    if r in s.results {
      BindingsCoverResults(s, r);
      var i :| 0 <= i < |s.bindings| && s.bindings[i].1 == r;
      assert Bound(s, s.bindings[i].0, r);
    }
    if c :| Bound(s, c, r) {
      var i :| 0 <= i < |s.bindings| && s.bindings[i] == (c, r);
      assert Seconds(s.bindings)[i] in Elements(Seconds(s.bindings));
      assert r in Elements(s.results);
    }
  }

  lemma BoundOnce(s: State, c: string, r: string, c': string, r': string)
    requires ToolShape(s) && Bound(s, c, r) && Bound(s, c', r')
    ensures c == c' <==> r == r'
  {
    var i :| 0 <= i < |s.bindings| && s.bindings[i] == (c, r);
    var j :| 0 <= j < |s.bindings| && s.bindings[j] == (c', r');
    if i < j {
      BindingsDiffer(s, i, j);
    } else if j < i {
      BindingsDiffer(s, j, i);
    }
  }

  /** The shape by positions: no call twice, batches that list the calls in order, and bindings
      that pair each call with one result and each result with one call. */
  ghost predicate WellShaped(s: State) {
    && (forall i, j | 0 <= i < j < |s.calls| :: s.calls[i] != s.calls[j])
    && (s.batches != [] ==> ListsInOrder(s.batches, s.calls))
    && (s.bindings != [] ==> PairsUp(s))
  }

  ghost predicate PairsUp(s: State) {
    && (forall c :: c in s.calls <==> exists r :: Bound(s, c, r))
    && (forall r :: r in s.results <==> exists c :: Bound(s, c, r))
    && (forall i, j | 0 <= i < j < |s.bindings| ::
          s.bindings[i].0 != s.bindings[j].0 && s.bindings[i].1 != s.bindings[j].1)
  }

  lemma PairsUpIsValid(s: State)
    requires PairsUp(s)
    ensures NoDuplicates(Firsts(s.bindings)) && NoDuplicates(Seconds(s.bindings))
    ensures Elements(Firsts(s.bindings)) == Elements(s.calls)
    ensures Elements(Seconds(s.bindings)) == Elements(s.results)
  {
    NoDuplicatesExactly(Firsts(s.bindings));
    NoDuplicatesExactly(Seconds(s.bindings));
    forall c ensures c in Elements(Firsts(s.bindings)) <==> c in s.calls {
      FirstIsBound(s, c);
    }
    forall r ensures r in Elements(Seconds(s.bindings)) <==> r in s.results {
      SecondIsBound(s, r);
    }
  }

  lemma FirstIsBound(s: State, c: string)
    ensures c in Firsts(s.bindings) <==> exists r :: Bound(s, c, r)
  {
    var f := Firsts(s.bindings);
    if c in f {
      var i :| 0 <= i < |f| && f[i] == c;
      assert s.bindings[i] == (c, s.bindings[i].1);
      assert Bound(s, c, s.bindings[i].1);
    }
    if r :| Bound(s, c, r) {
      var i :| 0 <= i < |s.bindings| && s.bindings[i] == (c, r);
      assert f[i] == c;
    }
  }

  lemma SecondIsBound(s: State, r: string)
    ensures r in Seconds(s.bindings) <==> exists c :: Bound(s, c, r)
  {
    var g := Seconds(s.bindings);
    if r in g {
      var i :| 0 <= i < |g| && g[i] == r;
      assert s.bindings[i] == (s.bindings[i].0, r);
      assert Bound(s, s.bindings[i].0, r);
    }
    if c :| Bound(s, c, r) {
      var i :| 0 <= i < |s.bindings| && s.bindings[i] == (c, r);
      assert g[i] == r;
    }
  }

  /** The tests on tool identities mean exactly this shape. */
  lemma ToolShapeExactly(s: State)
    ensures ToolShape(s) <==> WellShaped(s)
  {
    NoDuplicatesExactly(s.calls);
    ListedExactly(s.batches, s.calls);
    if ToolShape(s) && s.bindings != [] {
      BindingsAreOneToOne(s);
      forall i, j | 0 <= i < j < |s.bindings|
        ensures s.bindings[i].0 != s.bindings[j].0 && s.bindings[i].1 != s.bindings[j].1
      {
        BindingsDiffer(s, i, j);
      }
    }
    if WellShaped(s) {
      if s.bindings != [] {
        PairsUpIsValid(s);
      }
      if s.batches != [] {
        BatchesHaveNoDuplicates(s);
      }
    }
  }

  lemma BatchesHaveNoDuplicates(s: State)
    requires NoDuplicates(s.calls) && Flatten(s.batches) == s.calls
    ensures forall b | b in s.batches :: NoDuplicates(b)
  {
    NoDuplicatesExactly(s.calls);
    forall b | 0 <= b < |s.batches| ensures NoDuplicates(s.batches[b]) {
      forall j, k | 0 <= j < k < |s.batches[b]| ensures s.batches[b][j] != s.batches[b][k] {
        var x := BatchStands(s.batches, b, j);
        var y := BatchStands(s.batches, b, k);
      }
      NoDuplicatesExactly(s.batches[b]);
    }
  }

  // ---------------------------------------------------------------- boundaries

  datatype Invariant =
    | Routing | Sessions | Schema | MessageShape | CallIds | ResultIds | Batches | Bindings | ToolIdentity
    | CommittedTools | Reasoning | Media | Resume | Memories | Skills | Retries

  predicate Holds(v: Invariant, before: State, after: State) {
    match v
    case Routing => (before.provider, before.model, before.protocol) == (after.provider, after.model, after.protocol)
    case Sessions => (before.session, before.parent) == (after.session, after.parent)
    case Schema => before.schemaHash == after.schemaHash
    case MessageShape => before.shapeHash == after.shapeHash
    case CallIds => before.calls == after.calls
    case ResultIds => before.results == after.results
    case Batches => before.batches == after.batches
    case Bindings => before.bindings == after.bindings
    case ToolIdentity => ToolShape(before) && ToolShape(after)
    case CommittedTools =>
      && before.committed == after.committed && NoDuplicates(before.committed)
      && NoDuplicates(after.calls) && NoDuplicates(after.committed)
      && Elements(after.committed) <= Elements(after.calls)
    case Reasoning => (before.reasoningType, before.reasoningHash) == (after.reasoningType, after.reasoningHash)
    case Media =>
      (before.mediaCount, before.mediaTypeHash, before.disposition) ==
      (after.mediaCount, after.mediaTypeHash, after.disposition)
    case Resume => before.resume == after.resume
    case Memories => NoDuplicates(after.memories) && Elements(before.memories) <= Elements(after.memories)
    case Skills => NoDuplicates(after.skills) && Elements(before.skills) <= Elements(after.skills)
    case Retries => after.retries <= before.retries + 1
  }

  /** The invariants that ask for equal values on both sides. */
  predicate Kept(before: State, after: State) {
    && Holds(Routing, before, after) && Holds(Sessions, before, after) && Holds(Schema, before, after)
    && Holds(MessageShape, before, after) && Holds(CallIds, before, after) && Holds(ResultIds, before, after)
    && Holds(Batches, before, after) && Holds(Bindings, before, after) && Holds(Reasoning, before, after)
    && Holds(Media, before, after) && Holds(Resume, before, after)
  }

  /** The gate of a boundary: all sixteen invariants. */
  predicate Passed(before: State, after: State) {
    && Kept(before, after) && Holds(ToolIdentity, before, after) && Holds(CommittedTools, before, after)
    && Holds(Memories, before, after) && Holds(Skills, before, after) && Holds(Retries, before, after)
  }

  predicate Untouched(before: State, after: State) {
    Kept(before, after) && before.committed == after.committed
  }

  lemma UntouchedExactly(before: State, after: State)
    ensures Untouched(before, after) <==>
      after == before.(memories := after.memories, skills := after.skills, retries := after.retries)
  {
  }

  lemma ShapeUntouched(before: State, after: State)
    requires Untouched(before, after)
    ensures ToolShape(before) <==> ToolShape(after)
  {
  }

  /** What a passed boundary allows to change, and how. */
  ghost predicate Admissible(before: State, after: State) {
    && WellShaped(before)
    && NothingTwice(before.committed) && (forall c | c in before.committed :: c in before.calls)
    && NothingTwice(after.memories) && (forall m | m in before.memories :: m in after.memories)
    && NothingTwice(after.skills) && (forall k | k in before.skills :: k in after.skills)
    && after.retries <= before.retries + 1
  }

  ghost predicate NothingTwice(s: seq<string>) {
    forall i, j | 0 <= i < j < |s| :: s[i] != s[j]
  }

  lemma SubsetExactly(a: seq<string>, b: seq<string>)
    ensures Elements(a) <= Elements(b) <==> forall x | x in a :: x in b
  {
    if Elements(a) <= Elements(b) {
      forall x | x in a ensures x in b {
        assert x in Elements(a);
      }
    }
  }

  lemma AdmissibleExactly(before: State, after: State)
    ensures Admissible(before, after) <==>
      && ToolShape(before) && NoDuplicates(before.committed) && Elements(before.committed) <= Elements(before.calls)
      && NoDuplicates(after.memories) && Elements(before.memories) <= Elements(after.memories)
      && NoDuplicates(after.skills) && Elements(before.skills) <= Elements(after.skills)
      && after.retries <= before.retries + 1
  {
    ToolShapeExactly(before);
    NoDuplicatesExactly(before.committed);
    NoDuplicatesExactly(after.memories);
    NoDuplicatesExactly(after.skills);
    SubsetExactly(before.committed, before.calls);
    SubsetExactly(before.memories, after.memories);
    SubsetExactly(before.skills, after.skills);
  }

  lemma CommittedUntouched(before: State, after: State)
    requires before.committed == after.committed && before.calls == after.calls && ToolShape(before)
    ensures Holds(CommittedTools, before, after) <==>
      NoDuplicates(before.committed) && Elements(before.committed) <= Elements(before.calls)
  {
  }

  lemma GateExactly(before: State, after: State)
    requires Kept(before, after)
    requires Holds(ToolIdentity, before, after) <==> ToolShape(before)
    requires ToolShape(before) ==>
      (Holds(CommittedTools, before, after) <==>
         NoDuplicates(before.committed) && Elements(before.committed) <= Elements(before.calls))
    ensures Passed(before, after) <==> Admissible(before, after)
  {
    AdmissibleExactly(before, after);
  }

  lemma UntouchedPassesExactly(before: State, after: State)
    requires Untouched(before, after)
    ensures Passed(before, after) <==> Admissible(before, after)
  {
    ShapeUntouched(before, after);
    if ToolShape(before) {
      CommittedUntouched(before, after);
    }
    GateExactly(before, after);
  }

  lemma PassedIsUntouched(before: State, after: State)
    ensures Passed(before, after) ==> Untouched(before, after)
  {
  }

  /** A passed boundary leaves everything alone but the memories and skills, which may grow or
      be reordered, and the retries; the sides are well shaped, and that is all it means. */
  lemma PassedExactly(before: State, after: State)
    ensures Passed(before, after) <==>
      && after == before.(memories := after.memories, skills := after.skills, retries := after.retries)
      && Admissible(before, after)
  {
    UntouchedExactly(before, after);
    PassedIsUntouched(before, after);
    if Untouched(before, after) {
      UntouchedPassesExactly(before, after);
    }
  }

  ghost predicate Chain(states: seq<State>) {
    forall i | 0 <= i < |states| - 1 :: Passed(states[i], states[i + 1])
  }

  /** Along any chain of passed boundaries the ends satisfy every invariant but the one on
      retries, and these grow by at most one a boundary. */
  lemma {:induction false} BoundariesCompose(states: seq<State>, v: Invariant)
    requires |states| >= 2 && Chain(states)
    ensures v != Retries ==> Holds(v, states[0], states[|states| - 1])
    ensures states[|states| - 1].retries <= states[0].retries + |states| - 1
  {
    var m := |states| - 1;
    assert Passed(states[m - 1], states[m]);
    if m > 1 {
      BoundariesCompose(states[..m], v);
    }
  }

  /** The ends of a chain of passed boundaries pass the gate themselves if and only if the
      retries between them grew by at most one. */
  lemma GateComposesExactly(states: seq<State>)
    requires |states| >= 2 && Chain(states)
    ensures var first, last := states[0], states[|states| - 1];
      Passed(first, last) <==> last.retries <= first.retries + 1
  {
    var first, last := states[0], states[|states| - 1];
    forall v: Invariant | v != Retries ensures Holds(v, first, last) {
      BoundariesCompose(states, v);
    }
  }

  function Retried(s: State, n: nat): (r: seq<State>)
    ensures |r| == n + 1 && forall i | 0 <= i <= n :: r[i] == s.(retries := s.retries + i)
  {
    seq(n + 1, i requires 0 <= i <= n => s.(retries := s.retries + i))
  }

  /** The bound on retries cannot be sharpened: from any state that passes against itself
      there is a chain of each length that reaches it, and from two boundaries on the ends
      then fail the gate that every boundary passed. */
  lemma RetriesAddUp(s: State, n: nat)
    requires Passed(s, s)
    ensures var c := Retried(s, n);
      Chain(c) && c[0] == s && c[n].retries == s.retries + n && (n >= 2 ==> !Passed(c[0], c[n]))
  {
    var c := Retried(s, n);
    forall i | 0 <= i < n ensures Passed(c[i], c[i + 1]) {
      RetriedPasses(s, n, i);
    }
    assert c[0] == s;
    if n >= 2 {
      RetriesRefused(s, n);
    }
  }

  lemma RetriedPasses(s: State, n: nat, i: nat)
    requires Passed(s, s) && i < n
    ensures Passed(Retried(s, n)[i], Retried(s, n)[i + 1])
  {
    RetryPasses(s, s.retries + i);
  }

  lemma RetriesRefused(s: State, n: nat)
    requires n >= 2
    ensures !Passed(s, s.(retries := s.retries + n))
  {
    PassedExactly(s, s.(retries := s.retries + n));
  }

  lemma RetryPasses(s: State, r: int)
    requires Passed(s, s)
    ensures Passed(s.(retries := r), s.(retries := r + 1))
  {
    PassedExactly(s, s);
    PassedExactly(s.(retries := r), s.(retries := r + 1));
  }
}
