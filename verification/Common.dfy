/** Result types and small facts about text shared by the other modules. */
module Common {

  datatype Option<+T> = None | Some(value: T)

  datatype Result<+T, +E> = Success(value: T) | Failure(error: E) {
    predicate IsFailure() {
      Failure?
    }

    function PropagateFailure<U>(): Result<U, E>
      requires Failure?
    {
      Failure(error)
    }

    function Extract(): T
      requires Success?
    {
      value
    }
  }

  /** Decimal rendering of a natural number, as `str(n)` prints it. */
  function Decimal(n: nat): (s: string)
    ensures |s| > 0 && forall c :: c in s ==> '0' <= c <= '9'
  {
    var last := ['0' + (n % 10) as char];
    if n < 10 then last else Decimal(n / 10) + last
  }

  /** The value a string of decimal digits denotes. */
  function DecimalValue(s: string): int {
    if s == [] then 0 else 10 * DecimalValue(s[..|s| - 1]) + (s[|s| - 1] as int - '0' as int)
  }

  lemma {:induction false} DecimalRoundTrip(n: nat)
    ensures DecimalValue(Decimal(n)) == n
  {
    var s := Decimal(n);
    if n >= 10 {
      DecimalRoundTrip(n / 10);
      assert s[..|s| - 1] == Decimal(n / 10);
    }
  }

  lemma DecimalInjective(a: nat, b: nat)
    requires Decimal(a) == Decimal(b)
    ensures a == b
  {
    DecimalRoundTrip(a);
    DecimalRoundTrip(b);
  }

  predicate IsSpace(c: char) {
    c == ' ' || '\t' <= c <= '\r'
  }

  /** The text without the white space around it. */
  function Strip(s: string): (r: string)
    ensures r != "" ==> !IsSpace(r[0]) && !IsSpace(r[|r| - 1])
    ensures |r| <= |s|
  {
    if s != "" && IsSpace(s[0]) then Strip(s[1..])
    else if s != "" && IsSpace(s[|s| - 1]) then Strip(s[..|s| - 1])
    else s
  }

  lemma StripIdempotent(s: string)
    ensures Strip(Strip(s)) == Strip(s)
  {
  }

  predicate AllSpace(s: string) {
    forall i | 0 <= i < |s| :: IsSpace(s[i])
  }

  /** `core` is `s` without white space at its ends. */
  ghost predicate Strips(s: string, core: string) {
    && (exists left, right :: s == left + core + right && AllSpace(left) && AllSpace(right))
    && (core != "" ==> !IsSpace(core[0]) && !IsSpace(core[|core| - 1]))
  }

  lemma {:induction false} StripLeaves(s: string) returns (i: nat, j: nat)
    ensures i <= j <= |s| && Strip(s) == s[i..j]
    ensures forall k | 0 <= k < |s| && !(i <= k < j) :: IsSpace(s[k])
    decreases |s|
  {
    if s != "" && IsSpace(s[0]) {
      i, j := StripLeaves(s[1..]);
      assert s[1..][i..j] == s[i + 1..j + 1];
      assert forall k | 0 < k < |s| :: s[k] == s[1..][k - 1];
      i, j := i + 1, j + 1;
    } else if s != "" && IsSpace(s[|s| - 1]) {
      i, j := StripLeaves(s[..|s| - 1]);
    } else {
      i, j := 0, |s|;
      assert s[0..|s|] == s;
    }
  }

  lemma {:induction false} StripOf(left: string, core: string, right: string)
    requires AllSpace(left) && AllSpace(right)
    requires core != "" && !IsSpace(core[0]) && !IsSpace(core[|core| - 1])
    ensures Strip(left + core + right) == core
    decreases |left| + |right|
  {
    var s := left + core + right;
    if left != "" {
      assert s[0] == left[0] && s[1..] == left[1..] + core + right;
      StripOf(left[1..], core, right);
    } else if right != "" {
      var less := right[..|right| - 1];
      assert s[0] == core[0] && s[|s| - 1] == right[|right| - 1] && s[..|s| - 1] == left + core + less;
      StripOf(left, core, less);
    } else {
      assert s == core;
    }
  }

  /** The stripped text is the only one with no white space at its ends that the text holds
      between white space. */
  lemma StripExactly(s: string, core: string)
    requires core != ""
    ensures Strip(s) == core <==> Strips(s, core)
  {
    var i, j := StripLeaves(s);
    assert s == s[..i] + s[i..j] + s[j..] && AllSpace(s[..i]) && AllSpace(s[j..]);
    if Strips(s, core) {
      var left, right :| s == left + core + right && AllSpace(left) && AllSpace(right);
      StripOf(left, core, right);
    }
  }

  function Lower(s: string): string {
    seq(|s|, i requires 0 <= i < |s| => if 'A' <= s[i] <= 'Z' then (s[i] as int + 32) as char else s[i])
  }

  /** Provider and model: what stands before the first slash and what follows it. */
  function SplitRef(ref: string): (r: Option<(string, string)>)
    ensures r.Some? <==> '/' in ref
    ensures r.Some? ==> r.value.0 + "/" + r.value.1 == ref && '/' !in r.value.0
  {
    if ref == "" then None
    else if ref[0] == '/' then Some(("", ref[1..]))
    else
      var rest := SplitRef(ref[1..]);
      if rest.None? then None else Some(([ref[0]] + rest.value.0, rest.value.1))
  }

  lemma {:induction false} SplitExactly(ref: string, provider: string, model: string)
    requires '/' !in provider && ref == provider + "/" + model
    ensures SplitRef(ref) == Some((provider, model))
  {
    if provider != "" {
      assert ref[1..] == provider[1..] + "/" + model && ref[0] == provider[0] && ref[0] != '/';
      assert [ref[0]] + provider[1..] == provider;
      SplitExactly(ref[1..], provider[1..], model);
    } else {
      assert ref[0] == '/' && ref[1..] == model;
    }
  }
}
