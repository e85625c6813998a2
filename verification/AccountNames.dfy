/** Profile names of the account store: validity, the stem derived from an e-mail
    address, and the search for a name that no profile uses yet. */
module AccountNames {
  import opened Common

  predicate IsAlnum(c: char) {
    'A' <= c <= 'Z' || 'a' <= c <= 'z' || '0' <= c <= '9'
  }

  predicate IsProfileChar(c: char) {
    IsAlnum(c) || IsPadding(c)
  }

  /** The characters a derived stem is stripped of at both ends. */
  predicate IsPadding(c: char) {
    c == '.' || c == '_' || c == '-'
  }

  predicate ValidName(name: string) {
    name != "" && forall c :: c in name ==> IsProfileChar(c)
  }

  /** Eight random hexadecimal digits, used when an account id has no letter or digit. */
  type Token = t: string | |t| == 8 && (forall c :: c in t ==> IsAlnum(c)) witness "00000000"

  function BeforeAt(s: string): string {
    if s == "" || s[0] == '@' then "" else [s[0]] + BeforeAt(s[1..])
  }

  /** Replaces every maximal run of foreign characters by one hyphen. */
  function Hyphenate(s: string, inRun: bool): (r: string)
    ensures forall c :: c in r ==> IsProfileChar(c)
  {
    if s == "" then ""
    else if IsProfileChar(s[0]) then [s[0]] + Hyphenate(s[1..], false)
    else if inRun then Hyphenate(s[1..], true)
    else "-" + Hyphenate(s[1..], true)
  }

  function StripLeft(s: string): (r: string)
    ensures forall c :: c in r ==> c in s
  {
    if s != "" && IsPadding(s[0]) then StripLeft(s[1..]) else s
  }

  function StripRight(s: string): (r: string)
    ensures forall c :: c in r ==> c in s
  {
    if s != "" && IsPadding(s[|s| - 1]) then StripRight(s[..|s| - 1]) else s
  }

  /** The profile name proposed for an account: the local part of its address, made valid. */
  function Stem(email: Option<string>): (r: string)
    ensures ValidName(r)
  {
    var raw := if email.Some? then BeforeAt(email.value) else "account";
    var cleaned := StripRight(StripLeft(Hyphenate(raw, false)));
    if cleaned == "" then "account" else cleaned
  }

  // ---------------------------------------------------------------- what a stem is

  /** The ends of the three ranges, the three signs, and the characters next to them. */
  lemma ClassEnds()
    ensures ValidName("AZaz09") && ValidName("._-") && forall c | c in "AZaz09" :: !IsPadding(c)
    ensures !ValidName("")
    ensures IsPadding('.') && IsPadding('_') && IsPadding('-')
    ensures forall c | c in "@[`{/: ," :: !IsProfileChar(c)
  {
  }

  /** `local` is what stands before the first at sign of `email`, or all of it without one. */
  ghost predicate LocalPart(email: string, local: string) {
    '@' !in local && (email == local || exists domain :: email == local + "@" + domain)
  }

  lemma {:induction false} BeforeAtExactly(email: string)
    ensures LocalPart(email, BeforeAt(email))
  {
    if email != "" && email[0] != '@' {
      BeforeAtExactly(email[1..]);
      var local := BeforeAt(email[1..]);
      assert email == [email[0]] + email[1..];
      if domain :| email[1..] == local + "@" + domain {
        assert email == ([email[0]] + local) + "@" + domain;
      }
    } else if email != "" {
      assert email == "" + "@" + email[1..];
    }
  }

  ghost predicate AllGood(s: string) {
    forall c | c in s :: IsProfileChar(c)
  }

  ghost predicate AllForeign(s: string) {
    forall c | c in s :: !IsProfileChar(c)
  }

  lemma {:induction false} GoodStays(good: string, rest: string)
    requires AllGood(good)
    ensures Hyphenate(good + rest, false) == good + Hyphenate(rest, false)
  {
    if good == "" {
      assert good + rest == rest;
    } else {
      assert (good + rest)[1..] == good[1..] + rest;
      GoodStays(good[1..], rest);
      assert good == [good[0]] + good[1..];
    }
  }

  lemma {:induction false} RunIsSwallowed(run: string, rest: string)
    requires AllForeign(run) && (rest == "" || IsProfileChar(rest[0]))
    ensures Hyphenate(run + rest, true) == Hyphenate(rest, false)
  {
    if run == "" {
      assert run + rest == rest;
    } else {
      assert (run + rest)[1..] == run[1..] + rest;
      RunIsSwallowed(run[1..], rest);
    }
  }

  lemma GoodStaysAlone(good: string)
    requires AllGood(good)
    ensures Hyphenate(good, false) == good
  {
    GoodStays(good, "");
    assert good + "" == good;
  }

  lemma RunBecomesHyphen(run: string, rest: string)
    requires AllForeign(run) && run != "" && (rest == "" || IsProfileChar(rest[0]))
    ensures Hyphenate(run + rest, false) == "-" + Hyphenate(rest, false)
  {
    assert (run + rest)[1..] == run[1..] + rest;
    RunIsSwallowed(run[1..], rest);
  }

  /** Text of profile characters stays as it is, and each longest run of others becomes one
      hyphen; this determines the whole. */
  lemma RunsBecomeHyphens(good: string, run: string, rest: string)
    requires AllGood(good) && AllForeign(run) && run != "" && (rest == "" || IsProfileChar(rest[0]))
    ensures Hyphenate(good, false) == good
    ensures Hyphenate(good + run + rest, false) == good + "-" + Hyphenate(rest, false)
  {
    GoodStaysAlone(good);
    GoodStays(good, run + rest);
    RunBecomesHyphen(run, rest);
    assert good + run + rest == good + (run + rest);
    assert good + ("-" + Hyphenate(rest, false)) == good + "-" + Hyphenate(rest, false);
  }

  /** `core` is `s` without the padding at its ends. */
  ghost predicate Trims(s: string, core: string) {
    && (exists left, right :: s == left + core + right && (forall c | c in left + right :: IsPadding(c)))
    && (core != "" ==> !IsPadding(core[0]) && !IsPadding(core[|core| - 1]))
  }

  lemma {:induction false} StripLeftExactly(s: string) returns (left: string)
    ensures s == left + StripLeft(s) && (forall c | c in left :: IsPadding(c))
    ensures StripLeft(s) != "" ==> !IsPadding(StripLeft(s)[0])
  {
    if s != "" && IsPadding(s[0]) {
      left := StripLeftExactly(s[1..]);
      assert s == [s[0]] + s[1..];
      left := [s[0]] + left;
    } else {
      left := "";
    }
  }

  lemma {:induction false} StripRightExactly(s: string) returns (right: string)
    ensures s == StripRight(s) + right && (forall c | c in right :: IsPadding(c))
    ensures StripRight(s) != "" ==> !IsPadding(StripRight(s)[|StripRight(s)| - 1]) && StripRight(s)[0] == s[0]
  {
    if s != "" && IsPadding(s[|s| - 1]) {
      right := StripRightExactly(s[..|s| - 1]);
      assert s == s[..|s| - 1] + [s[|s| - 1]];
      right := right + [s[|s| - 1]];
    } else {
      right := "";
    }
  }

  lemma StripTrims(s: string)
    ensures Trims(s, StripRight(StripLeft(s)))
  {
    var left := StripLeftExactly(s);
    var right := StripRightExactly(StripLeft(s));
    assert s == left + StripRight(StripLeft(s)) + right;
  }

  /** The stem is the local part of the address with its runs of other characters replaced and
      its padding trimmed, or `account` if nothing is left or there is no address. */
  lemma StemIs(email: Option<string>)
    ensures email.None? ==> Stem(email) == "account"
    ensures email.Some? ==> exists local, core ::
      && LocalPart(email.value, local) && Trims(Hyphenate(local, false), core)
      && Stem(email) == if core == "" then "account" else core
  {
    if email.Some? {
      BeforeAtExactly(email.value);
      StripTrims(Hyphenate(BeforeAt(email.value), false));
    } else {
      GoodStays("account", "");
      assert "account" + "" == "account";
      assert StripRight(StripLeft("account")) == "account";
    }
  }

  // ---------------------------------------------------------------- suffixes and candidates

  function Alnum(s: string): (r: string)
    ensures forall c :: c in r ==> IsAlnum(c)
  {
    if s == "" then ""
    else if IsAlnum(s[0]) then [s[0]] + Alnum(s[1..])
    else Alnum(s[1..])
  }

  function Suffix(accountId: string, token: Token): (r: string)
    ensures r != "" && forall c :: c in r ==> IsAlnum(c)
  {
    var kept := Alnum(accountId);
    if kept == "" then token else if |kept| <= 8 then kept else kept[|kept| - 8..]
  }

  lemma {:induction false} AlnumSplits(front: string, rest: string)
    ensures Alnum(front + rest) == Alnum(front) + Alnum(rest)
  {
    if front == "" {
      assert front + rest == rest;
    } else {
      assert (front + rest)[1..] == front[1..] + rest;
      AlnumSplits(front[1..], rest);
    }
  }

  lemma {:induction false} AlnumExactly(s: string)
    ensures Alnum(s) == "" <==> forall c | c in s :: !IsAlnum(c)
    ensures (forall c | c in s :: IsAlnum(c)) ==> Alnum(s) == s
  {
    if s != "" {
      AlnumExactly(s[1..]);
      assert s == [s[0]] + s[1..];
    }
  }

  lemma {:induction false} AlnumCut(s: string, n: nat) returns (front: string, end: string)
    requires n <= |Alnum(s)|
    ensures s == front + end && |Alnum(end)| == n
  {
    if n == |Alnum(s)| {
      front, end := "", s;
    } else {
      front, end := AlnumCut(s[1..], n);
      front := [s[0]] + front;
    }
  }

  /** `end` is as much of the end of the id as has at most eight letters or digits. */
  ghost predicate EndsIn(accountId: string, front: string, end: string) {
    && accountId == front + end && |Alnum(end)| <= 8
    && (|Alnum(end)| < 8 ==> forall c | c in front :: !IsAlnum(c))
  }

  /** The suffix is the end of the account id, of at most eight letters or digits and with any
      other characters among them left out; an id without letters and digits gives the token. */
  lemma SuffixExactly(accountId: string, token: Token)
    ensures (forall c | c in accountId :: !IsAlnum(c)) ==> Suffix(accountId, token) == token
    ensures (exists c | c in accountId :: IsAlnum(c)) ==>
      exists front, end :: EndsIn(accountId, front, end) && Suffix(accountId, token) == Alnum(end)
  {
    var kept := Alnum(accountId);
    AlnumExactly(accountId);
    if kept != "" {
      var n := if |kept| <= 8 then |kept| else 8;
      var front, end := AlnumCut(accountId, n);
      assert kept == Alnum(front) + Alnum(end) by {
        AlnumSplits(front, end);
      }
      assert kept[|kept| - n..] == Alnum(end);
      AlnumExactly(front);
      assert EndsIn(accountId, front, end);
    }
  }

  /** The names tried in order once the requested one is taken: "n-s", "n-s-2", "n-s-3", ... */
  function Candidate(requested: string, suffix: string, k: nat): string {
    if k == 0 then requested + "-" + suffix else requested + "-" + suffix + "-" + Decimal(k + 1)
  }

  lemma CandidateInjective(requested: string, suffix: string, a: nat, b: nat)
    requires Candidate(requested, suffix, a) == Candidate(requested, suffix, b)
    ensures a == b
  {
    var head := requested + "-" + suffix;
    if a > 0 && b > 0 {
      assert Candidate(requested, suffix, a)[|head| + 1..] == Decimal(a + 1);
      assert Candidate(requested, suffix, b)[|head| + 1..] == Decimal(b + 1);
      DecimalInjective(a + 1, b + 1);
    }
  }

  lemma CandidateValid(requested: string, suffix: string, k: nat)
    requires ValidName(requested) && forall c :: c in suffix ==> IsAlnum(c)
    ensures ValidName(Candidate(requested, suffix, k))
  {
  }

  /** `name` is the requested name if free, and otherwise the first free candidate. */
  ghost predicate FirstFree(taken: set<string>, requested: string, suffix: string, name: string) {
    if requested !in taken then name == requested
    else exists k: nat ::
        && name == Candidate(requested, suffix, k) && name !in taken
        && forall j: nat :: j < k ==> Candidate(requested, suffix, j) in taken
  }

  /** The first `n` candidates. */
  function Tried(requested: string, suffix: string, n: nat): set<string> {
    set j: nat | j < n :: Candidate(requested, suffix, j)
  }

  lemma TriedGrows(requested: string, suffix: string, n: nat)
    ensures Candidate(requested, suffix, n) !in Tried(requested, suffix, n)
    ensures Tried(requested, suffix, n + 1) == Tried(requested, suffix, n) + {Candidate(requested, suffix, n)}
  {
    if Candidate(requested, suffix, n) in Tried(requested, suffix, n) {
      var j: nat :| j < n && Candidate(requested, suffix, j) == Candidate(requested, suffix, n);
      CandidateInjective(requested, suffix, j, n);
    }
  }

  /** The search ends because its candidates are pairwise different and `taken` is finite. */
  method AvailableName(taken: set<string>, requested: string, accountId: string, token: Token) returns (name: string)
    ensures name !in taken
    ensures FirstFree(taken, requested, Suffix(accountId, token), name)
    ensures ValidName(requested) ==> ValidName(name)
  {
    if requested !in taken {
      return requested;
    }
    var suffix := Suffix(accountId, token);
    name := requested + "-" + suffix;
    var counter := 2;
    while name in taken
      invariant counter >= 2 && name == Candidate(requested, suffix, counter - 2)
      invariant Tried(requested, suffix, counter - 2) <= taken
      decreases |taken - Tried(requested, suffix, counter - 2)|
    {
      ghost var tried, more := Tried(requested, suffix, counter - 2), Tried(requested, suffix, counter - 1);
      TriedGrows(requested, suffix, counter - 2);
      SubsetSmaller(taken - more, taken - tried);
      name := requested + "-" + suffix + "-" + Decimal(counter);
      counter := counter + 1;
    }
    assert forall j: nat :: j < counter - 2 ==>
      Candidate(requested, suffix, j) in Tried(requested, suffix, counter - 2);
    if ValidName(requested) {
      CandidateValid(requested, suffix, counter - 2);
    }
  }

  lemma SubsetSmaller(a: set<string>, b: set<string>)
    requires a < b
    ensures |a| < |b|
  {
    assert b == a + (b - a);
  }
}
