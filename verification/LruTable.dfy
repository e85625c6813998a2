/** An ordered table of bounded size: the keys stand in order of last touch, and storing one
    key too many drops the one touched longest ago. */
module LruTable {
  import opened Common

  type Key = string

  datatype Ordered<V> = Ordered(order: seq<Key>, table: map<Key, V>)

  ghost predicate NoDuplicates(s: seq<Key>) {
    forall i, j | 0 <= i < j < |s| :: s[i] != s[j]
  }

  function Elements(s: seq<Key>): set<Key> {
    set k | k in s
  }

  ghost predicate Valid<V>(o: Ordered<V>) {
    NoDuplicates(o.order) && Elements(o.order) == o.table.Keys
  }

  function Without(s: seq<Key>, k: Key): seq<Key> {
    if s == [] then []
    else if s[0] == k then Without(s[1..], k)
    else [s[0]] + Without(s[1..], k)
  }

  lemma {:induction false} WithoutElements(s: seq<Key>, k: Key)
    ensures Elements(Without(s, k)) == Elements(s) - {k}
    ensures k !in s ==> Without(s, k) == s
  {
    if s != [] {
      WithoutElements(s[1..], k);
      assert Elements(s) == {s[0]} + Elements(s[1..]);
      if s[0] != k {
        assert Elements(Without(s, k)) == {s[0]} + Elements(Without(s[1..], k));
      }
    }
  }

  /** `s` is ordered by the ranks its keys have. */
  ghost predicate Ascending(s: seq<Key>, rank: Key -> int) {
    forall i, j | 0 <= i < j < |s| :: rank(s[i]) < rank(s[j])
  }

  /** Removing a key leaves the order of the others alone. */
  lemma {:induction false} WithoutKeepsOrder(s: seq<Key>, k: Key, rank: Key -> int)
    requires Ascending(s, rank)
    ensures Ascending(Without(s, k), rank)
  {
    if s != [] {
      WithoutKeepsOrder(s[1..], k, rank);
      WithoutElements(s[1..], k);
      var rest := Without(s[1..], k);
      forall j | 0 <= j < |rest| ensures rank(s[0]) < rank(rest[j]) {
        assert rest[j] in Elements(rest);
      }
    }
  }

  lemma {:induction false} WithoutNoDuplicates(s: seq<Key>, k: Key)
    requires NoDuplicates(s)
    ensures NoDuplicates(Without(s, k))
    ensures k in s ==> |Without(s, k)| == |s| - 1
  {
    if s != [] {
      assert s[0] !in s[1..];
      WithoutNoDuplicates(s[1..], k);
      WithoutElements(s[1..], k);
      assert s[0] !in Elements(Without(s[1..], k));
    }
  }

  lemma {:induction false} SizeOfElements(s: seq<Key>)
    requires NoDuplicates(s)
    ensures |Elements(s)| == |s|
  {
    if s != [] {
      SizeOfElements(s[1..]);
      assert Elements(s) == {s[0]} + Elements(s[1..]);
    }
  }

  lemma SubsetSize(a: set<Key>, b: set<Key>)
    requires a <= b
    ensures |a| <= |b|
  {
    assert b == a + (b - a);
  }

  // ---------------------------------------------------------------- operations

  datatype Op<V> = Keep | Touch(key: Key) | Store(key: Key, value: V) | Drop(key: Key) | Wipe

  /** The order in which `k` is the key touched last. */
  function Moved(s: seq<Key>, k: Key): seq<Key> {
    Without(s, k) + [k]
  }

  lemma MovedProperties(s: seq<Key>, k: Key)
    requires NoDuplicates(s)
    ensures NoDuplicates(Moved(s, k)) && Elements(Moved(s, k)) == Elements(s) + {k}
    ensures |Moved(s, k)| == if k in s then |s| else |s| + 1
    ensures k !in s ==> Moved(s, k) == s + [k]
  {
    WithoutElements(s, k);
    WithoutNoDuplicates(s, k);
    assert k !in Elements(Without(s, k));
    assert Elements(Moved(s, k)) == Elements(Without(s, k)) + {k};
  }

  function Put<V>(o: Ordered<V>, k: Key, v: V): Ordered<V> {
    Ordered(Moved(o.order, k), o.table[k := v])
  }

  function DropFirst<V>(o: Ordered<V>): Ordered<V>
    requires o.order != []
  {
    Ordered(o.order[1..], o.table - {o.order[0]})
  }

  function Apply<V>(o: Ordered<V>, op: Op<V>, max: nat): Ordered<V> {
    match op
    case Keep => o
    case Touch(k) => if k in o.table then o.(order := Moved(o.order, k)) else o
    case Store(k, v) => var p := Put(o, k, v); if |p.order| > max then DropFirst(p) else p
    case Drop(k) => Ordered(Without(o.order, k), o.table - {k})
    case Wipe => Ordered([], map[])
  }

  lemma PutKeepsValid<V>(o: Ordered<V>, k: Key, v: V)
    requires Valid(o)
    ensures Valid(Put(o, k, v)) && |Put(o, k, v).order| <= |o.order| + 1
    ensures Put(o, k, v).order[|Put(o, k, v).order| - 1] == k
  {
    MovedProperties(o.order, k);
  }

  lemma DropFirstKeepsValid<V>(o: Ordered<V>)
    requires Valid(o) && o.order != []
    ensures Valid(DropFirst(o))
  {
    var rest := o.order[1..];
    assert Elements(o.order) == {o.order[0]} + Elements(rest);
    assert o.order[0] !in rest;
  }

  /** Every operation keeps the table well formed and within its bound, and what was just
      stored is in it. */
  lemma ApplyKeepsValid<V>(o: Ordered<V>, op: Op<V>, max: nat)
    requires Valid(o) && |o.order| <= max && max > 0
    ensures Valid(Apply(o, op, max)) && |Apply(o, op, max).order| <= max
    ensures op.Store? ==> op.key in Apply(o, op, max).table && Apply(o, op, max).table[op.key] == op.value
  {
    match op
    case Keep =>
    case Wipe =>
    case Touch(k) => MovedProperties(o.order, k);
    case Drop(k) =>
      WithoutElements(o.order, k);
      WithoutNoDuplicates(o.order, k);
    case Store(k, v) =>
      var p := Put(o, k, v);
      PutKeepsValid(o, k, v);
      if |p.order| > max {
        DropFirstKeepsValid(p);
      }
  }

  /** A value in the table was stored by this operation or was there before. */
  lemma ApplyOrigin<V>(o: Ordered<V>, op: Op<V>, max: nat, k: Key)
    requires k in Apply(o, op, max).table
    ensures !op.Wipe? && op != Drop(k)
    ensures if op.Store? && op.key == k then Apply(o, op, max).table[k] == op.value
            else k in o.table && Apply(o, op, max).table[k] == o.table[k]
  {
  }

  // ---------------------------------------------------------------- recency

  /** The position of the last touch of `k` in the history, or -1. */
  function Last(log: seq<Key>, k: Key): int {
    if log == [] then -1
    else if log[|log| - 1] == k then |log| - 1
    else Last(log[..|log| - 1], k)
  }

  lemma {:induction false} LastProperties(log: seq<Key>, k: Key)
    ensures -1 <= Last(log, k) < |log|
    ensures Last(log, k) >= 0 ==> log[Last(log, k)] == k
    ensures forall i | Last(log, k) < i < |log| :: log[i] != k
  {
    if log != [] && log[|log| - 1] != k {
      LastProperties(log[..|log| - 1], k);
    }
  }

  lemma LastSnoc(log: seq<Key>, x: Key, k: Key)
    ensures Last(log + [x], k) == if x == k then |log| else Last(log, k)
  {
    assert (log + [x])[..|log|] == log;
  }

  function Touched<V>(op: Op<V>): seq<Key> {
    if op.Touch? || op.Store? then [op.key] else []
  }

  /** The keys stand in the order in which they were last touched. */
  ghost predicate InOrder(s: seq<Key>, log: seq<Key>) {
    (forall k | k in s :: 0 <= Last(log, k)) && Ascending(s, k => Last(log, k))
  }

  /** An operation touches only keys that are in the table. */
  predicate Sensible<V>(o: Ordered<V>, op: Op<V>) {
    op.Touch? ==> op.key in o.table
  }

  lemma MovedInOrder(s: seq<Key>, k: Key, log: seq<Key>)
    requires NoDuplicates(s) && InOrder(s, log)
    ensures InOrder(Moved(s, k), log + [k])
  {
    var rest, log' := Without(s, k), log + [k];
    WithoutElements(s, k);
    WithoutKeepsOrder(s, k, x => Last(log, x));
    LastSnoc(log, k, k);
    forall i | 0 <= i < |rest| ensures 0 <= Last(log', rest[i]) == Last(log, rest[i]) < |log| {
      assert rest[i] in Elements(rest);
      LastSnoc(log, k, rest[i]);
      LastProperties(log, rest[i]);
    }
    forall x | x in Moved(s, k) ensures 0 <= Last(log', x) {
      if x != k {
        assert x in Elements(rest);
      }
    }
  }

  lemma ApplyKeepsOrder<V>(o: Ordered<V>, op: Op<V>, max: nat, log: seq<Key>)
    requires Valid(o) && InOrder(o.order, log) && Sensible(o, op)
    ensures InOrder(Apply(o, op, max).order, log + Touched(op))
  {
    match op
    case Keep => assert log + [] == log;
    case Wipe =>
    case Drop(k) =>
      assert log + [] == log;
      WithoutElements(o.order, k);
      WithoutKeepsOrder(o.order, k, x => Last(log, x));
      forall x | x in Without(o.order, k) ensures x in o.order {
        assert x in Elements(Without(o.order, k));
      }
    case Touch(k) => MovedInOrder(o.order, k, log);
    case Store(k, v) => MovedInOrder(o.order, k, log);
  }

  /** The keys touched after the last touch of `k`. */
  function TouchedSince(log: seq<Key>, k: Key): set<Key> {
    set i | 0 <= i < |log| && Last(log, k) < i :: log[i]
  }

  /** Keys that stand behind `k` in the table were all touched after it. */
  lemma BehindWasTouched(s: seq<Key>, log: seq<Key>, k: Key)
    requires InOrder(s, log) && forall x | x in s :: Last(log, k) < Last(log, x)
    ensures Elements(s) <= TouchedSince(log, k)
  {
    forall x | x in s ensures x in TouchedSince(log, k) {
      LastProperties(log, x);
      assert log[Last(log, x)] == x;
    }
  }

  /** The one way a key leaves unasked: a new key is stored in a full table, and it is first. */
  lemma EvictedIsFirst<V>(o: Ordered<V>, op: Op<V>, max: nat, k: Key)
    requires Valid(o) && |o.order| <= max
    requires k in o.table && k !in Apply(o, op, max).table && !op.Wipe? && op != Drop(k)
    ensures op.Store? && op.key !in o.table && |o.order| == max
    ensures o.order != [] && k == o.order[0] && Moved(o.order, op.key) == o.order + [op.key]
  {
    MovedProperties(o.order, op.key);
    assert Moved(o.order, op.key)[0] == k;
  }

  lemma SinceEvicted(s: seq<Key>, x: Key, log: seq<Key>)
    requires NoDuplicates(s) && InOrder(s, log) && s != [] && x !in s
    ensures |TouchedSince(log + [x], s[0])| >= |s| && s[0] !in TouchedSince(log + [x], s[0])
  {
    var log', rest := log + [x], s[1..] + [x];
    MovedProperties(s, x);
    assert Moved(s, x)[1..] == rest;
    MovedInOrder(s, x, log);
    assert InOrder(rest, log') && NoDuplicates(rest);
    LastProperties(log', s[0]);
    BehindWasTouched(rest, log', s[0]);
    SizeOfElements(rest);
    SubsetSize(Elements(rest), TouchedSince(log', s[0]));
  }

  /** A key disappears without having been dropped or wiped only when some new key is stored;
      it is then the one touched longest ago, and at least `max` distinct other keys have been
      touched since its own last touch. */
  lemma EvictionIsLate<V>(o: Ordered<V>, op: Op<V>, max: nat, log: seq<Key>, k: Key)
    requires Valid(o) && |o.order| <= max && InOrder(o.order, log)
    requires k in o.table && k !in Apply(o, op, max).table && !op.Wipe? && op != Drop(k)
    ensures op.Store? && op.key !in o.table
    ensures forall x | x in o.table && x != k :: Last(log, k) < Last(log, x)
    ensures |TouchedSince(log + [op.key], k)| >= max && k !in TouchedSince(log + [op.key], k)
  {
    EvictedIsFirst(o, op, max, k);
    forall x | x in o.table && x != k ensures Last(log, k) < Last(log, x) {
      assert x in Elements(o.order);
    }
    assert op.key !in Elements(o.order);
    SinceEvicted(o.order, op.key, log);
  }

  // ---------------------------------------------------------------- retention

  /** The keys that stand behind `k`: those touched since `k` was. */
  function Behind(s: seq<Key>, k: Key): set<Key> {
    if s == [] then {}
    else if s[0] == k then Elements(s[1..])
    else Behind(s[1..], k)
  }

  lemma {:induction false} BehindWithout(s: seq<Key>, x: Key, k: Key)
    requires NoDuplicates(s) && x != k
    ensures Behind(Without(s, x), k) <= Behind(s, k)
  {
    if s != [] {
      BehindWithout(s[1..], x, k);
      WithoutElements(s[1..], x);
    }
  }

  lemma {:induction false} BehindSnoc(s: seq<Key>, x: Key, k: Key)
    requires k in s
    ensures Behind(s + [x], k) == Behind(s, k) + {x}
  {
    assert (s + [x])[1..] == s[1..] + [x];
    if s[0] == k {
      assert Elements(s[1..] + [x]) == Elements(s[1..]) + {x};
    } else {
      BehindSnoc(s[1..], x, k);
    }
  }

  lemma {:induction false} BehindLast(s: seq<Key>, k: Key)
    requires k !in s
    ensures Behind(s + [k], k) == {}
  {
    if s != [] {
      assert (s + [k])[1..] == s[1..] + [k];
      BehindLast(s[1..], k);
    }
  }

  lemma BehindMoved(s: seq<Key>, x: Key, k: Key)
    requires NoDuplicates(s) && k in s
    ensures Behind(Moved(s, x), k) <= if x == k then {} else Behind(s, k) + {x}
  {
    WithoutElements(s, x);
    if x == k {
      assert k !in Elements(Without(s, k));
      BehindLast(Without(s, k), k);
    } else {
      assert k in Elements(Without(s, x));
      BehindWithout(s, x, k);
      BehindSnoc(Without(s, x), x, k);
    }
  }

  /** `op` neither replaces nor drops `k`, and touches at most `k` and keys of `others`. */
  ghost predicate Spares<V>(op: Op<V>, k: Key, others: set<Key>) {
    && !op.Wipe? && op != Drop(k) && !(op.Store? && op.key == k)
    && (op.Touch? || op.Store? ==> op.key == k || op.key in others)
  }

  /** A key stays, with its value, while fewer than `max` other keys are used. */
  lemma ApplyRetains<V>(o: Ordered<V>, op: Op<V>, max: nat, k: Key, others: set<Key>)
    requires Valid(o) && |o.order| <= max && k in o.table && k !in others && |others| < max
    requires Behind(o.order, k) <= others && Spares(op, k, others)
    ensures k in Apply(o, op, max).table && Apply(o, op, max).table[k] == o.table[k]
    ensures Behind(Apply(o, op, max).order, k) <= others
  {
    assert k in Elements(o.order);
    if op.Drop? {
      BehindWithout(o.order, op.key, k);
    } else if op.Touch? || op.Store? {
      var moved := Moved(o.order, op.key);
      BehindMoved(o.order, op.key, k);
      MovedProperties(o.order, op.key);
      if op.Store? && |moved| > max {
        if moved[0] == k {
          SizeOfElements(moved[1..]);
          SubsetSize(Elements(moved[1..]), others);
          assert false;
        }
        assert Behind(moved[1..], k) == Behind(moved, k);
      }
    }
  }
}
