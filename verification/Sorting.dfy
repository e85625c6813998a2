/** Python's `sorted` with a key: the one sequence that is ascending by key and keeps the
    order of elements with equal keys. */
module Sorting {
  /** The keys sorted by: a level first, then a text by code points. */
  datatype Rank = Rank(level: int, name: string)

  predicate StringLe(a: string, b: string) {
    a == [] || (b != [] && (a[0] < b[0] || (a[0] == b[0] && StringLe(a[1..], b[1..]))))
  }

  predicate RankLe(a: Rank, b: Rank) {
    a.level < b.level || (a.level == b.level && StringLe(a.name, b.name))
  }

  lemma {:induction false} StringLeTotal(a: string, b: string)
    ensures StringLe(a, b) || StringLe(b, a)
    ensures StringLe(a, b) && StringLe(b, a) ==> a == b
  {
    if a != [] && b != [] && a[0] == b[0] {
      StringLeTotal(a[1..], b[1..]);
      assert a == [a[0]] + a[1..] && b == [b[0]] + b[1..];
    }
  }

  lemma {:induction false} StringLeTransitive(a: string, b: string, c: string)
    requires StringLe(a, b) && StringLe(b, c)
    ensures StringLe(a, c)
  {
    if a != [] && a[0] == b[0] && b[0] == c[0] {
      StringLeTransitive(a[1..], b[1..], c[1..]);
    }
  }

  lemma RankLeTotal(a: Rank, b: Rank)
    ensures RankLe(a, b) || RankLe(b, a)
    ensures RankLe(a, b) && RankLe(b, a) ==> a == b
  {
    StringLeTotal(a.name, b.name);
  }

  lemma RankLeTransitive(a: Rank, b: Rank, c: Rank)
    requires RankLe(a, b) && RankLe(b, c)
    ensures RankLe(a, c)
  {
    if a.level == b.level && b.level == c.level {
      StringLeTransitive(a.name, b.name, c.name);
    }
  }

  // ---------------------------------------------------------------- selecting and mapping

  function Filter<T(!new)>(p: T -> bool, s: seq<T>): seq<T> {
    if s == [] then []
    else Filter(p, s[..|s| - 1]) + if p(s[|s| - 1]) then [s[|s| - 1]] else []
  }

  function Map<T(!new), U(!new)>(f: T -> U, s: seq<T>): (r: seq<U>)
    ensures |r| == |s| && forall i | 0 <= i < |s| :: r[i] == f(s[i])
  {
    seq(|s|, i requires 0 <= i < |s| => f(s[i]))
  }

  lemma {:induction false} FilterElement<T(!new)>(p: T -> bool, s: seq<T>, x: T)
    ensures x in Filter(p, s) <==> x in s && p(x)
  {
    if s != [] {
      FilterElement(p, s[..|s| - 1], x);
      assert s == s[..|s| - 1] + [s[|s| - 1]];
    }
  }

  lemma FilterEnd<T(!new)>(p: T -> bool, s: seq<T>, x: T)
    ensures p(x) ==> Filter(p, s + [x]) == Filter(p, s) + [x]
    ensures !p(x) ==> Filter(p, s + [x]) == Filter(p, s)
  {
    assert (s + [x])[..|s|] == s;
  }

  lemma {:induction false} FilterConcat<T(!new)>(p: T -> bool, s: seq<T>, t: seq<T>)
    ensures Filter(p, s + t) == Filter(p, s) + Filter(p, t)
  {
    if t == [] {
      assert s + t == s;
    } else {
      var m := |t| - 1;
      FilterConcat(p, s, t[..m]);
      assert s + t == (s + t[..m]) + [t[m]] && t == t[..m] + [t[m]];
      FilterEnd(p, s + t[..m], t[m]);
      FilterEnd(p, t[..m], t[m]);
    }
  }

  lemma FilterHead<T(!new)>(p: T -> bool, x: T, s: seq<T>)
    requires p(x)
    ensures Filter(p, [x] + s) == [x] + Filter(p, s)
  {
    FilterConcat(p, [x], s);
    assert [x] == [] + [x];
    FilterEnd(p, [], x);
  }

  lemma {:induction false} FilterMap<T(!new), U(!new)>(q: U -> bool, p: T -> bool, f: T -> U, s: seq<T>)
    requires forall x | x in s :: p(x) == q(f(x))
    ensures Filter(q, Map(f, s)) == Map(f, Filter(p, s))
  {
    if s != [] {
      var m := |s| - 1;
      FilterMap(q, p, f, s[..m]);
      assert Map(f, s)[..m] == Map(f, s[..m]);
      assert s == s[..m] + [s[m]];
      FilterEnd(p, s[..m], s[m]);
      assert Filter(q, Map(f, s)) == Filter(q, Map(f, s)[..m]) + if q(f(s[m])) then [f(s[m])] else [];
    }
  }

  lemma {:induction false} FilterCounts<T(!new)>(p: T -> bool, s: seq<T>, x: T)
    ensures multiset(Filter(p, s))[x] == if p(x) then multiset(s)[x] else 0
  {
    if s != [] {
      FilterCounts(p, s[..|s| - 1], x);
      assert s == s[..|s| - 1] + [s[|s| - 1]];
    }
  }

  lemma FilterPermuted<T(!new)>(p: T -> bool, s: seq<T>, t: seq<T>)
    requires multiset(s) == multiset(t)
    ensures multiset(Filter(p, s)) == multiset(Filter(p, t))
  {
    forall x ensures multiset(Filter(p, s))[x] == multiset(Filter(p, t))[x] {
      FilterCounts(p, s, x);
      FilterCounts(p, t, x);
    }
  }

  /** Takes the element at `i` out. */
  function Without<T>(s: seq<T>, i: nat): (r: seq<T>)
    requires i < |s|
    ensures |r| == |s| - 1
  {
    s[..i] + s[i + 1..]
  }

  lemma RemoveAt<T>(s: seq<T>, i: nat)
    requires i < |s|
    ensures multiset(s) == multiset(Without(s, i)) + multiset{s[i]}
    ensures multiset(Without(s, i)) == multiset(s) - multiset{s[i]}
  {
    assert s == s[..i] + [s[i]] + s[i + 1..];
  }

  lemma TwoInFront<T(!new)>(a: T, b: T, rest: seq<T>)
    ensures multiset([a] + ([b] + rest)) == multiset(rest) + multiset{b} + multiset{a}
  {
    assert multiset([b] + rest) == multiset{b} + multiset(rest);
  }

  lemma TakeTwo<T(!new)>(s: seq<T>, a: T, b: T) returns (rest: seq<T>)
    requires a in s && b in s && a != b
    ensures multiset(s) == multiset(rest) + multiset{b} + multiset{a}
  {
    var i :| 0 <= i < |s| && s[i] == a;
    RemoveAt(s, i);
    var one := Without(s, i);
    assert b in multiset(s) && b in multiset(one);
    var j :| 0 <= j < |one| && one[j] == b;
    RemoveAt(one, j);
    rest := Without(one, j);
  }

  /** The sequence can be reordered to begin with `a` and `b`, in either order. */
  lemma BringForward<T(!new)>(s: seq<T>, a: T, b: T) returns (rest: seq<T>)
    requires a in s && b in s && a != b
    ensures multiset([a] + ([b] + rest)) == multiset(s)
    ensures multiset([b] + ([a] + rest)) == multiset(s)
  {
    rest := TakeTwo(s, a, b);
    TwoInFront(a, b, rest);
    TwoInFront(b, a, rest);
  }

  lemma MapRemoved<T(!new), U(!new)>(f: T -> U, s: seq<T>, i: nat)
    requires i < |s|
    ensures multiset(Map(f, s)) == multiset(Map(f, Without(s, i))) + multiset{f(s[i])}
  {
    RemoveAt(Map(f, s), i);
    assert Without(Map(f, s), i) == Map(f, Without(s, i));
  }

  lemma {:induction false} MapPermuted<T(!new), U(!new)>(f: T -> U, s: seq<T>, t: seq<T>)
    requires multiset(s) == multiset(t)
    ensures multiset(Map(f, s)) == multiset(Map(f, t))
    decreases |s|
  {
    if s == [] {
      assert |multiset(t)| == 0 && t == [];
    } else {
      assert s[0] in multiset(t);
      var j :| 0 <= j < |t| && t[j] == s[0];
      RemoveAt(s, 0);
      RemoveAt(t, j);
      MapPermuted(f, Without(s, 0), Without(t, j));
      MapRemoved(f, s, 0);
      MapRemoved(f, t, j);
    }
  }

  // ---------------------------------------------------------------- the sort

  predicate Sorted(ranks: seq<Rank>) {
    forall i, j | 0 <= i < j < |ranks| :: RankLe(ranks[i], ranks[j])
  }

  predicate SortedBy<T(!new)>(key: T -> Rank, s: seq<T>) {
    forall i, j | 0 <= i < j < |s| :: RankLe(key(s[i]), key(s[j]))
  }

  /** Places `x` behind everything with a key up to its own. */
  function Insert<T(!new)>(key: T -> Rank, x: T, s: seq<T>): seq<T> {
    if s == [] || RankLe(key(s[|s| - 1]), key(x)) then s + [x]
    else Insert(key, x, s[..|s| - 1]) + [s[|s| - 1]]
  }

  function StableSort<T(!new)>(key: T -> Rank, s: seq<T>): seq<T> {
    if s == [] then []
    else Insert(key, s[|s| - 1], StableSort(key, s[..|s| - 1]))
  }

  lemma MultisetEnd<T(!new)>(s: seq<T>)
    requires s != []
    ensures multiset(s) == multiset(s[..|s| - 1]) + multiset{s[|s| - 1]}
    ensures multiset(s[..|s| - 1]) == multiset(s) - multiset{s[|s| - 1]}
  {
    assert s == s[..|s| - 1] + [s[|s| - 1]];
  }

  lemma {:induction false} InsertPermutes<T(!new)>(key: T -> Rank, x: T, s: seq<T>)
    ensures multiset(Insert(key, x, s)) == multiset(s) + multiset{x}
  {
    if s != [] && !RankLe(key(s[|s| - 1]), key(x)) {
      InsertPermutes(key, x, s[..|s| - 1]);
      MultisetEnd(s);
    }
  }

  lemma {:induction false} SortPermutes<T(!new)>(key: T -> Rank, s: seq<T>)
    ensures multiset(StableSort(key, s)) == multiset(s)
  {
    if s != [] {
      SortPermutes(key, s[..|s| - 1]);
      InsertPermutes(key, s[|s| - 1], StableSort(key, s[..|s| - 1]));
      MultisetEnd(s);
    }
  }

  lemma SortKeepsElements<T(!new)>(key: T -> Rank, s: seq<T>, x: T)
    ensures x in StableSort(key, s) <==> x in s
  {
    SortPermutes(key, s);
    assert x in multiset(StableSort(key, s)) <==> x in multiset(s);
  }

  lemma {:induction false} InsertSorted<T(!new)>(key: T -> Rank, x: T, s: seq<T>)
    requires SortedBy(key, s)
    ensures SortedBy(key, Insert(key, x, s))
  {
    var m := |s| - 1;
    if s == [] {
    } else if RankLe(key(s[m]), key(x)) {
      forall i | 0 <= i < |s| ensures RankLe(key(s[i]), key(x)) {
        if i < m {
          RankLeTransitive(key(s[i]), key(s[m]), key(x));
        }
      }
    } else {
      RankLeTotal(key(s[m]), key(x));
      var before := Insert(key, x, s[..m]);
      InsertSorted(key, x, s[..m]);
      forall i | 0 <= i < |before| ensures RankLe(key(before[i]), key(s[m])) {
        InsertPermutes(key, x, s[..m]);
        assert before[i] in multiset(before);
        assert before[i] == x || before[i] in multiset(s[..m]);
      }
    }
  }

  lemma {:induction false} SortSorts<T(!new)>(key: T -> Rank, s: seq<T>)
    ensures SortedBy(key, StableSort(key, s))
  {
    if s != [] {
      SortSorts(key, s[..|s| - 1]);
      InsertSorted(key, s[|s| - 1], StableSort(key, s[..|s| - 1]));
    }
  }

  lemma InsertEnd<T(!new)>(key: T -> Rank, x: T, s: seq<T>, y: T)
    ensures Insert(key, x, s + [y]) == if RankLe(key(y), key(x)) then s + [y, x] else Insert(key, x, s) + [y]
  {
    assert (s + [y])[..|s|] == s;
    assert s + [y] + [x] == s + [y, x];
  }

  lemma SortEnd<T(!new)>(key: T -> Rank, s: seq<T>, y: T)
    ensures StableSort(key, s + [y]) == Insert(key, y, StableSort(key, s))
  {
    assert (s + [y])[..|s|] == s;
  }

  lemma AllBelow<T(!new)>(key: T -> Rank, y: T, x: T, s: seq<T>)
    requires SortedBy(key, s) && y in s && RankLe(key(s[|s| - 1]), key(x))
    ensures RankLe(key(y), key(x))
  {
    var i :| 0 <= i < |s| && s[i] == y;
    if i < |s| - 1 {
      RankLeTransitive(key(y), key(s[|s| - 1]), key(x));
    }
  }

  lemma InsertLast<T(!new)>(key: T -> Rank, x: T, s: seq<T>)
    requires s == [] || RankLe(key(s[|s| - 1]), key(x))
    ensures Insert(key, x, s) == s + [x]
  {
  }

  /** Nothing in a sorted sequence that ends at or below `x` is above it. */
  lemma InsertLargest<T(!new)>(key: T -> Rank, p: T -> bool, x: T, s: seq<T>)
    requires SortedBy(key, s) && (s == [] || RankLe(key(s[|s| - 1]), key(x)))
    ensures Insert(key, x, Filter(p, s)) == Filter(p, s) + [x]
  {
    var kept := Filter(p, s);
    if kept != [] {
      FilterElement(p, s, kept[|kept| - 1]);
      AllBelow(key, kept[|kept| - 1], x, s);
    }
    InsertLast(key, x, kept);
  }

  lemma {:induction false} FilterInsert<T(!new)>(key: T -> Rank, p: T -> bool, x: T, s: seq<T>)
    requires SortedBy(key, s)
    ensures Filter(p, Insert(key, x, s)) == if p(x) then Insert(key, x, Filter(p, s)) else Filter(p, s)
  {
    var m := |s| - 1;
    if s == [] || RankLe(key(s[m]), key(x)) {
      FilterEnd(p, s, x);
      InsertLargest(key, p, x, s);
    } else {
      FilterInsert(key, p, x, s[..m]);
      assert s == s[..m] + [s[m]] && Insert(key, x, s) == Insert(key, x, s[..m]) + [s[m]];
      FilterEnd(p, s[..m], s[m]);
      FilterEnd(p, Insert(key, x, s[..m]), s[m]);
      InsertEnd(key, x, Filter(p, s[..m]), s[m]);
    }
  }

  /** Selecting from a sorted sequence or sorting a selection is the same. */
  lemma {:induction false} FilterSort<T(!new)>(key: T -> Rank, p: T -> bool, s: seq<T>)
    ensures Filter(p, StableSort(key, s)) == StableSort(key, Filter(p, s))
  {
    if s != [] {
      var m := |s| - 1;
      var before := StableSort(key, s[..m]);
      FilterSort(key, p, s[..m]);
      SortSorts(key, s[..m]);
      FilterInsert(key, p, s[m], before);
      assert s == s[..m] + [s[m]];
      FilterEnd(p, s[..m], s[m]);
      SortEnd(key, Filter(p, s[..m]), s[m]);
    }
  }

  lemma {:induction false} SortOfEqualKeys<T(!new)>(key: T -> Rank, s: seq<T>, k: Rank)
    requires forall x | x in s :: key(x) == k
    ensures StableSort(key, s) == s
  {
    if s != [] {
      var m := |s| - 1;
      assert s == s[..m] + [s[m]];
      SortOfEqualKeys(key, s[..m], k);
      RankLeTotal(k, k);
    }
  }

  /** Elements of one key keep their order. */
  lemma SortIsStable<T(!new)>(key: T -> Rank, s: seq<T>, k: Rank, same: T -> bool)
    requires forall x | same(x) :: key(x) == k
    ensures Filter(same, StableSort(key, s)) == Filter(same, s)
  {
    FilterSort(key, same, s);
    forall x | x in Filter(same, s) ensures key(x) == k {
      FilterElement(same, s, x);
    }
    SortOfEqualKeys(key, Filter(same, s), k);
  }

  ghost predicate Distinct<T(!new)>(s: seq<T>) {
    forall i, j | 0 <= i < j < |s| :: s[i] != s[j]
  }

  lemma {:induction false} DistinctCounts<T(!new)>(s: seq<T>, x: T)
    requires Distinct(s)
    ensures multiset(s)[x] <= 1
  {
    if s != [] {
      DistinctCounts(s[1..], x);
      assert s == [s[0]] + s[1..] && s[0] !in s[1..];
    }
  }

  lemma TwiceCounted<T(!new)>(s: seq<T>, i: nat, j: nat)
    requires i < j < |s| && s[i] == s[j]
    ensures multiset(s)[s[i]] >= 2
  {
    assert s == s[..j] + s[j..];
    assert s[i] in s[..j] && s[j] in s[j..];
  }

  lemma SortKeepsDistinct<T(!new)>(key: T -> Rank, s: seq<T>)
    requires Distinct(s)
    ensures Distinct(StableSort(key, s)) && |StableSort(key, s)| == |s|
  {
    var r := StableSort(key, s);
    SortPermutes(key, s);
    assert |r| == |multiset(r)| == |multiset(s)| == |s|;
    forall i, j | 0 <= i < j < |r| ensures r[i] != r[j] {
      if r[i] == r[j] {
        DistinctCounts(s, r[i]);
        TwiceCounted(r, i, j);
      }
    }
  }

  lemma LastIsLargest(a: seq<Rank>, r: Rank)
    requires Sorted(a) && r in multiset(a)
    ensures RankLe(r, a[|a| - 1])
  {
    var i :| 0 <= i < |a| && a[i] == r;
    RankLeTotal(r, r);
  }

  lemma SameLast(a: seq<Rank>, b: seq<Rank>)
    requires Sorted(a) && Sorted(b) && multiset(a) == multiset(b) && a != [] && b != []
    ensures a[|a| - 1] == b[|b| - 1]
  {
    assert a[|a| - 1] in multiset(a) && b[|b| - 1] in multiset(b);
    LastIsLargest(a, b[|b| - 1]);
    LastIsLargest(b, a[|a| - 1]);
    RankLeTotal(a[|a| - 1], b[|b| - 1]);
  }

  lemma {:induction false} SortedUnique(a: seq<Rank>, b: seq<Rank>)
    requires Sorted(a) && Sorted(b) && multiset(a) == multiset(b)
    ensures a == b
  {
    assert |a| == |multiset(a)| == |multiset(b)| == |b|;
    if a != [] {
      var m := |a| - 1;
      SameLast(a, b);
      MultisetEnd(a);
      MultisetEnd(b);
      SortedUnique(a[..m], b[..m]);
    }
  }

  /** Whatever order the elements come in, the sorted keys are the same. */
  lemma SortedKeysPermuted<T(!new)>(key: T -> Rank, s: seq<T>, t: seq<T>)
    requires multiset(s) == multiset(t)
    ensures Map(key, StableSort(key, s)) == Map(key, StableSort(key, t))
  {
    SortSorts(key, s);
    SortSorts(key, t);
    SortPermutes(key, s);
    SortPermutes(key, t);
    MapPermuted(key, StableSort(key, s), StableSort(key, t));
    SortedUnique(Map(key, StableSort(key, s)), Map(key, StableSort(key, t)));
  }

  /** And so is anything that the key determines. */
  lemma SortedViewPermuted<T(!new), U(!new)>(key: T -> Rank, f: T -> U, s: seq<T>, t: seq<T>)
    requires multiset(s) == multiset(t)
    requires forall x, y | x in s && y in s && key(x) == key(y) :: f(x) == f(y)
    ensures Map(f, StableSort(key, s)) == Map(f, StableSort(key, t))
  {
    var a, b := StableSort(key, s), StableSort(key, t);
    SortedKeysPermuted(key, s, t);
    assert |a| == |Map(key, a)| == |Map(key, b)| == |b|;
    forall i | 0 <= i < |a| ensures f(a[i]) == f(b[i]) {
      assert key(a[i]) == Map(key, a)[i] == Map(key, b)[i] == key(b[i]);
      SortKeepsElements(key, s, a[i]);
      SortKeepsElements(key, t, b[i]);
      assert b[i] in multiset(t) && b[i] in multiset(s);
    }
  }
}
