/** The multi-account credential store: one live credential file, saved profiles, a
    marker naming the current profile, and the stashes of additions in progress. */
module CodexAccounts {
  import opened Common
  import opened AccountNames
  import opened Sorting

  /** What reading a credential file yields. `secret` stands for everything else in it. */
  datatype AuthFile =
    | Unusable(secret: string)
    | Subscription(accountId: string, email: Option<string>, secret: string)

  /** An entry of the profiles directory. */
  datatype Entry = PlainFile | Directory(auth: Option<AuthFile>)

  datatype Store = Store(
    live: Option<AuthFile>,
    entries: map<string, Entry>,
    marker: Option<string>,
    stashes: map<string, AuthFile>)

  predicate HasIdentity(f: AuthFile) {
    f.Subscription? && f.accountId != ""
  }

  /** A live file from which an account can be read. */
  predicate LiveReadable(s: Store) {
    s.live.Some? && HasIdentity(s.live.value)
  }

  /** `p` is a profile whose saved credential names an account. */
  predicate Holds(s: Store, p: string) {
    p in s.entries && ValidName(p) && Readable(s.entries[p])
  }

  predicate Readable(e: Entry) {
    e.Directory? && e.auth.Some? && HasIdentity(e.auth.value)
  }

  function FileOf(s: Store, p: string): AuthFile
    requires Holds(s, p)
  {
    s.entries[p].auth.value
  }

  predicate Owns(s: Store, p: string, accountId: string) {
    Holds(s, p) && FileOf(s, p).accountId == accountId
  }

  function ReadMarker(s: Store): Option<string> {
    if s.marker.Some? && ValidName(s.marker.value) then s.marker else None
  }

  // ---------------------------------------------------------------- transitions

  function SaveTo(s: Store, p: string, f: AuthFile): Store {
    s.(entries := s.entries[p := Directory(Some(f))], marker := Some(p))
  }

  /** The profile that a credential is written to: its owner, or a name not in use. */
  ghost predicate SyncTarget(s: Store, f: AuthFile, p: string)
    requires HasIdentity(f)
  {
    if exists q :: Owns(s, q, f.accountId) then Owns(s, p, f.accountId)
    else if ReadMarker(s).Some? && ReadMarker(s).value !in s.entries then p == ReadMarker(s).value
    else exists t: Token :: FirstFree(s.entries.Keys, Stem(f.email), Suffix(f.accountId, t), p)
  }

  ghost predicate SyncStep(s: Store, s': Store, ok: bool) {
    if s.live.None? then ok && s' == s
    else if !LiveReadable(s) then !ok && s' == s
    else ok && exists p :: ValidName(p) && SyncTarget(s, s.live.value, p) && s' == SaveTo(s, p, s.live.value)
  }

  /** Puts a stashed credential back, whatever another process wrote meanwhile. */
  function Restored(s: Store, stash: string, previous: Option<string>): Store {
    s.(live := if stash in s.stashes then Some(s.stashes[stash]) else None,
       stashes := s.stashes - {stash},
       marker := previous)
  }

  function AfterSelect(s: Store, p: string): Store {
    if Holds(s, p) then s.(live := Some(FileOf(s, p)), marker := Some(p)) else s
  }

  predicate Forgettable(s: Store, p: string) {
    Holds(s, p) && !(LiveReadable(s) && s.live.value.accountId == FileOf(s, p).accountId)
  }

  function AfterForget(s: Store, p: string): Store {
    if Forgettable(s, p)
    then s.(entries := s.entries - {p}, marker := if ReadMarker(s) == Some(p) then None else s.marker)
    else s
  }

  function AfterAddBegin(s: Store, p: string, stash: string): Store {
    if p in s.entries || s.live.None? then s
    else s.(live := None, stashes := s.stashes[stash := s.live.value])
  }

  ghost predicate AddTarget(s: Store, p: string, target: string)
    requires LiveReadable(s)
  {
    var id := s.live.value.accountId;
    if exists q :: Owns(s, q, id) then Owns(s, target, id)
    else exists t: Token :: FirstFree(s.entries.Keys, p, Suffix(id, t), target)
  }

  /** The locked sections of the store, the reading of the marker that an addition does before
      its first one, and every write another program makes to the live file. */
  datatype Action =
    | List
    | Select(profile: string)
    | Forget(profile: string)
    | AddRead(profile: string)
    | AddBegin(profile: string, stash: string)
    | AddAbort(stash: string, previous: Option<string>)
    | AddComplete(profile: string, stash: string, previous: Option<string>)
    | External(live: Option<AuthFile>)

  /** One atomic step; `ok` says whether the operation returned normally. */
  ghost predicate Step(s: Store, a: Action, s': Store, ok: bool) {
    match a
    case List => SyncStep(s, s', ok)
    case Select(p) =>
      if !ValidName(p) then !ok && s' == s
      else exists m, synced ::
          && SyncStep(s, m, synced)
          && s' == (if synced then AfterSelect(m, p) else m)
          && ok == (synced && Holds(m, p))
    case Forget(p) =>
      if !ValidName(p) then !ok && s' == s
      else exists m, synced ::
          && SyncStep(s, m, synced)
          && s' == (if synced then AfterForget(m, p) else m)
          && ok == (synced && Forgettable(m, p))
    case AddRead(p) => ok == ValidName(p) && s' == s
    case AddBegin(p, stash) =>
      if !ValidName(p) then !ok && s' == s
      else exists m, synced ::
          && SyncStep(s, m, synced)
          && s' == (if synced then AfterAddBegin(m, p, stash) else m)
          && ok == (synced && p !in m.entries)
    case AddAbort(stash, previous) => ok && s' == Restored(s, stash, previous)
    case AddComplete(p, stash, previous) =>
      if !ValidName(p) then !ok && s' == s
      else if !LiveReadable(s) then !ok && s' == Restored(s, stash, previous)
      else ok && exists target ::
          && ValidName(target) && AddTarget(s, p, target)
          && s' == SaveTo(s, target, s.live.value).(stashes := s.stashes - {stash})
    case External(f) => ok && s' == s.(live := f)
  }

  // ---------------------------------------------------------------- the ledger

  /** What the store owes its user: the bytes last imported for each account not forgotten. */
  type Ledger = map<string, AuthFile>

  function Import(l: Ledger, s: Store): Ledger {
    if LiveReadable(s) then l[s.live.value.accountId := s.live.value] else l
  }

  /** The ledger moves by imports and by successful `forget`s, and by nothing else. */
  function NextLedger(l: Ledger, s: Store, a: Action, ok: bool): Ledger {
    match a
    case List => Import(l, s)
    case Select(p) => if ValidName(p) then Import(l, s) else l
    case AddBegin(p, _) => if ValidName(p) then Import(l, s) else l
    case Forget(p) =>
      if !ValidName(p) then l
      else if ok && Holds(s, p) then Import(l, s) - {FileOf(s, p).accountId}
      else Import(l, s)
    case AddComplete(_, _, _) => if ok then Import(l, s) else l
    case AddRead(_) => l
    case AddAbort(_, _) => l
    case External(_) => l
  }

  /** The profiles hold exactly the ledger, and no account twice. */
  ghost predicate Represents(s: Store, l: Ledger) {
    && (forall p, q | Holds(s, p) && Holds(s, q) && FileOf(s, p).accountId == FileOf(s, q).accountId :: p == q)
    && (forall p | Holds(s, p) :: FileOf(s, p).accountId in l && l[FileOf(s, p).accountId] == FileOf(s, p))
    && (forall id | id in l :: exists p :: Owns(s, p, id))
  }

  function AccountIds(s: Store): set<string> {
    set p | p in s.entries && Holds(s, p) :: FileOf(s, p).accountId
  }

  ghost function OwnerOf(s: Store, id: string): (p: string)
    requires id in AccountIds(s)
    ensures Owns(s, p, id)
  {
    var p :| p in s.entries && Owns(s, p, id);
    p
  }

  /** Any store without a doubly held account has exactly one ledger, so runs may start from any
      of them. */
  lemma LedgerExists(s: Store) returns (l: Ledger)
    requires forall p, q | Holds(s, p) && Holds(s, q) && FileOf(s, p).accountId == FileOf(s, q).accountId :: p == q
    ensures Represents(s, l) && forall l' | Represents(s, l') :: l' == l
  {
    l := map id | id in AccountIds(s) :: FileOf(s, OwnerOf(s, id));
    forall id | id in l ensures exists p :: Owns(s, p, id) {
      assert Owns(s, OwnerOf(s, id), id);
    }
    forall l' | Represents(s, l') ensures l' == l {
      LedgerUnique(s, l, l');
    }
  }

  lemma LedgerUnique(s: Store, l: Ledger, l': Ledger)
    requires Represents(s, l) && Represents(s, l')
    ensures l == l'
  {
    forall id ensures (id in l <==> id in l') && (id in l ==> l[id] == l'[id]) {
      if id in l {
        var p :| Owns(s, p, id);
      }
      if id in l' {
        var p :| Owns(s, p, id);
      }
    }
  }

  /** Saving to the owner, or to an unused name when there is no owner, updates one ledger line. */
  lemma SaveRepresents(s: Store, l: Ledger, p: string, f: AuthFile)
    requires Represents(s, l) && HasIdentity(f) && ValidName(p)
    requires if exists q :: Owns(s, q, f.accountId) then Owns(s, p, f.accountId) else p !in s.entries
    ensures Represents(SaveTo(s, p, f), l[f.accountId := f])
  {
    var s', l' := SaveTo(s, p, f), l[f.accountId := f];
    assert Owns(s', p, f.accountId);
    forall q | Holds(s', q) && q != p
      ensures Owns(s, q, FileOf(s', q).accountId) && FileOf(s', q).accountId != f.accountId
    {
    }
    forall id | id in l' && id != f.accountId ensures exists q :: Owns(s', q, id) {
      var q :| Owns(s, q, id);
      assert Owns(s', q, id);
    }
  }

  lemma SyncRepresents(s: Store, l: Ledger, s': Store, ok: bool)
    requires Represents(s, l) && SyncStep(s, s', ok)
    ensures Represents(s', Import(l, s)) && s'.live == s.live
    ensures ok && LiveReadable(s) ==> exists p :: Owns(s', p, s.live.value.accountId)
  {
    if LiveReadable(s) {
      var f := s.live.value;
      var p :| ValidName(p) && SyncTarget(s, f, p) && s' == SaveTo(s, p, f);
      SaveRepresents(s, l, p, f);
      assert Owns(s', p, f.accountId);
    }
  }

  lemma ForgetRepresents(s: Store, l: Ledger, p: string)
    requires Represents(s, l) && Forgettable(s, p)
    ensures Represents(AfterForget(s, p), l - {FileOf(s, p).accountId})
  {
    var s', gone := AfterForget(s, p), FileOf(s, p).accountId;
    forall id | id in l - {gone} ensures exists q :: Owns(s', q, id) {
      var q :| Owns(s, q, id);
      assert Owns(s', q, id);
    }
    forall q | Holds(s', q) ensures Holds(s, q) && FileOf(s, q).accountId != gone {
    }
  }

  /** The store looks the same to the ledger when no profile entry changes. */
  lemma SameEntries(s: Store, s': Store, l: Ledger)
    requires Represents(s, l) && s'.entries == s.entries
    ensures Represents(s', l)
  {
    forall id | id in l ensures exists q :: Owns(s', q, id) {
      var q :| Owns(s, q, id);
      assert Owns(s', q, id);
    }
    forall p | Holds(s', p) ensures Holds(s, p) && FileOf(s', p) == FileOf(s, p) {
    }
  }

  /** Whether a `forget` succeeds, and what it removes, does not depend on the sync before it. */
  lemma ForgetUnaffectedBySync(s: Store, m: Store, p: string)
    requires SyncStep(s, m, true)
    ensures Forgettable(s, p) <==> Forgettable(m, p)
    ensures Forgettable(m, p) ==> FileOf(s, p) == FileOf(m, p)
  {
    if LiveReadable(s) {
      var q :| ValidName(q) && SyncTarget(s, s.live.value, q) && m == SaveTo(s, q, s.live.value);
    }
  }

  lemma ForgetStepRepresents(s: Store, l: Ledger, p: string, s': Store, ok: bool)
    requires Represents(s, l) && ValidName(p) && Step(s, Forget(p), s', ok)
    ensures Represents(s', NextLedger(l, s, Forget(p), ok))
  {
    var m, synced :| SyncStep(s, m, synced) && s' == (if synced then AfterForget(m, p) else m)
      && ok == (synced && Forgettable(m, p));
    SyncRepresents(s, l, m, synced);
    if ok {
      ForgetUnaffectedBySync(s, m, p);
      ForgetRepresents(m, Import(l, s), p);
    }
  }

  lemma SelectStepRepresents(s: Store, l: Ledger, p: string, s': Store, ok: bool)
    requires Represents(s, l) && ValidName(p) && Step(s, Select(p), s', ok)
    ensures Represents(s', Import(l, s))
  {
    var m, synced :| SyncStep(s, m, synced) && s' == (if synced then AfterSelect(m, p) else m);
    SyncRepresents(s, l, m, synced);
    SameEntries(m, s', Import(l, s));
  }

  lemma CompleteRepresents(s: Store, l: Ledger, a: Action, s': Store)
    requires Represents(s, l) && a.AddComplete? && Step(s, a, s', true)
    ensures Represents(s', Import(l, s))
  {
    var f := s.live.value;
    var target :| ValidName(target) && AddTarget(s, a.profile, target)
      && s' == SaveTo(s, target, f).(stashes := s.stashes - {a.stash});
    SaveRepresents(s, l, target, f);
    SameEntries(SaveTo(s, target, f), s', Import(l, s));
  }

  lemma StepRepresents(s: Store, l: Ledger, a: Action, s': Store, ok: bool)
    requires Represents(s, l) && Step(s, a, s', ok)
    ensures Represents(s', NextLedger(l, s, a, ok))
  {
    match a
    case List => SyncRepresents(s, l, s', ok);
    case Select(p) =>
      if ValidName(p) {
        SelectStepRepresents(s, l, p, s', ok);
      }
    case Forget(p) =>
      if ValidName(p) {
        ForgetStepRepresents(s, l, p, s', ok);
      }
    case AddBegin(p, stash) =>
      if ValidName(p) {
        var m, synced :| SyncStep(s, m, synced) && s' == (if synced then AfterAddBegin(m, p, stash) else m);
        SyncRepresents(s, l, m, synced);
        SameEntries(m, s', Import(l, s));
      }
    case AddComplete(p, stash, previous) =>
      if ok {
        CompleteRepresents(s, l, a, s');
      } else {
        SameEntries(s, s', l);
      }
    case AddRead(_) =>
    case AddAbort(_, _) => SameEntries(s, s', l);
    case External(_) => SameEntries(s, s', l);
  }

  // ---------------------------------------------------------------- runs

  /** One step of some process: the store it found, what it did, whether it succeeded. */
  datatype Event = Event(before: Store, action: Action, ok: bool)

  /** `trace` is an interleaving of atomic steps that ends in `last`. */
  ghost predicate Run(trace: seq<Event>, last: Store) {
    trace == [] ||
    var e := trace[|trace| - 1];
    Step(e.before, e.action, last, e.ok) && Run(trace[..|trace| - 1], e.before)
  }

  function Start(trace: seq<Event>, last: Store): Store {
    if trace == [] then last else trace[0].before
  }

  function RunLedger(l: Ledger, trace: seq<Event>): Ledger {
    if trace == [] then l
    else
      var e := trace[|trace| - 1];
      NextLedger(RunLedger(l, trace[..|trace| - 1]), e.before, e.action, e.ok)
  }

  /** Every interleaving of any number of processes keeps the store equal to its ledger. */
  lemma {:induction false} RunRepresents(l: Ledger, trace: seq<Event>, last: Store)
    requires Run(trace, last) && Represents(Start(trace, last), l)
    ensures Represents(last, RunLedger(l, trace))
  {
    if trace != [] {
      var e := trace[|trace| - 1];
      RunRepresents(l, trace[..|trace| - 1], e.before);
      StepRepresents(e.before, RunLedger(l, trace[..|trace| - 1]), e.action, last, e.ok);
    }
  }

  /** The step read the account `id` from the live file under the lock. */
  predicate Imports(e: Event, id: string) {
    && LiveReadable(e.before) && e.before.live.value.accountId == id
    && match e.action
       case List => true
       case Select(p) => ValidName(p)
       case Forget(p) => ValidName(p)
       case AddBegin(p, _) => ValidName(p)
       case AddComplete(_, _, _) => e.ok
       case _ => false
  }

  /** The step removed the profile of the account `id` at the user's request. */
  predicate Forgets(e: Event, id: string) {
    e.action.Forget? && e.ok && Owns(e.before, e.action.profile, id)
  }

  lemma {:induction false} LedgerLine(l: Ledger, trace: seq<Event>, i: nat, id: string)
    requires i < |trace| && Imports(trace[i], id) && !Forgets(trace[i], id)
    requires forall j | i < j < |trace| :: !Imports(trace[j], id) && !Forgets(trace[j], id)
    ensures id in RunLedger(l, trace) && RunLedger(l, trace)[id] == trace[i].before.live.value
  {
    if i < |trace| - 1 {
      LedgerLine(l, trace[..|trace| - 1], i, id);
    }
  }

  /** A forgotten account is never the live one, so no step both imports and forgets it. */
  lemma ForgetSparesLive(s: Store, a: Action, s': Store, ok: bool, id: string)
    requires Step(s, a, s', ok) && Imports(Event(s, a, ok), id)
    ensures !Forgets(Event(s, a, ok), id)
  {
    if Forgets(Event(s, a, ok), id) {
      var m, synced :| SyncStep(s, m, synced) && s' == (if synced then AfterForget(m, a.profile) else m)
        && ok == (synced && Forgettable(m, a.profile));
      ForgetUnaffectedBySync(s, m, a.profile);
      assert false;
    }
  }

  lemma {:induction false} RunStep(trace: seq<Event>, last: Store, i: nat)
    requires Run(trace, last) && i < |trace|
    ensures Step(trace[i].before, trace[i].action, if i + 1 < |trace| then trace[i + 1].before else last, trace[i].ok)
  {
    if i + 1 < |trace| {
      RunStep(trace[..|trace| - 1], trace[|trace| - 1].before, i);
    }
  }

  /** The bytes of the last import of an account survive every later step but a `forget` of it. */
  lemma LastImportKept(l: Ledger, trace: seq<Event>, last: Store, i: nat, id: string)
    requires Run(trace, last) && Represents(Start(trace, last), l)
    requires i < |trace| && Imports(trace[i], id)
    requires forall j | i < j < |trace| :: !Imports(trace[j], id) && !Forgets(trace[j], id)
    ensures exists p :: Owns(last, p, id) && FileOf(last, p) == trace[i].before.live.value
  {
    RunStep(trace, last, i);
    ForgetSparesLive(trace[i].before, trace[i].action,
                     if i + 1 < |trace| then trace[i + 1].before else last, trace[i].ok, id);
    RunRepresents(l, trace, last);
    LedgerLine(l, trace, i, id);
    var p :| Owns(last, p, id);
  }

  /** No account that was ever live at a sync is lost unless it is forgotten afterwards. */
  lemma {:induction false} NeverLost(l: Ledger, trace: seq<Event>, last: Store, i: nat, id: string)
    requires Run(trace, last) && Represents(Start(trace, last), l)
    requires i < |trace| && Imports(trace[i], id)
    requires forall j | i < j < |trace| :: !Forgets(trace[j], id)
    ensures exists p :: Owns(last, p, id)
    decreases |trace| - i
  {
    if k :| i < k < |trace| && Imports(trace[k], id) {
      NeverLost(l, trace, last, k, id);
    } else {
      LastImportKept(l, trace, last, i, id);
    }
  }

  /** Nothing appears in the profiles that was neither there before nor imported. */
  lemma {:induction false} NothingInvented(l: Ledger, trace: seq<Event>, last: Store, p: string, id: string)
    requires Run(trace, last) && Represents(Start(trace, last), l) && Owns(last, p, id)
    ensures id in l || exists i :: 0 <= i < |trace| && Imports(trace[i], id)
  {
    RunRepresents(l, trace, last);
    InventedNowhere(l, trace, id);
  }

  lemma {:induction false} InventedNowhere(l: Ledger, trace: seq<Event>, id: string)
    requires id in RunLedger(l, trace)
    ensures id in l || exists i :: 0 <= i < |trace| && Imports(trace[i], id)
  {
    if trace != [] {
      var before := trace[..|trace| - 1];
      if id in RunLedger(l, before) {
        InventedNowhere(l, before, id);
        if i :| 0 <= i < |before| && Imports(before[i], id) {
          assert Imports(trace[i], id);
        }
      } else {
        assert Imports(trace[|trace| - 1], id);
      }
    }
  }

  // ---------------------------------------------------------------- switching and failed additions

  /** `select` installs the bytes that the ledger holds for the chosen profile. */
  lemma SelectInstallsLedger(l: Ledger, s: Store, p: string, s': Store)
    requires Represents(s, l) && Step(s, Select(p), s', true)
    ensures Holds(s', p) && s'.live == Some(FileOf(s', p))
    ensures FileOf(s', p).accountId in Import(l, s) && s'.live.value == Import(l, s)[FileOf(s', p).accountId]
  {
    var m, synced :| SyncStep(s, m, synced) && s' == (if synced then AfterSelect(m, p) else m)
      && true == (synced && Holds(m, p));
    SyncRepresents(s, l, m, synced);
  }

  /** Switching profiles never moves an account from one profile to another. */
  lemma SelectKeepsOwner(l: Ledger, s: Store, p: string, s': Store, q: string, id: string)
    requires Represents(s, l) && Step(s, Select(p), s', true) && Owns(s, q, id)
    ensures Owns(s', q, id)
  {
    var m, synced :| SyncStep(s, m, synced) && s' == (if synced then AfterSelect(m, p) else m)
      && true == (synced && Holds(m, p));
    if LiveReadable(s) {
      var f := s.live.value;
      var t :| ValidName(t) && SyncTarget(s, f, t) && m == SaveTo(s, t, f);
      if t == q && f.accountId != id {
        assert exists r :: Owns(s, r, f.accountId);
        assert false;
      }
    }
  }

  /** Selecting the profile of an account makes the ledger's bytes for it live. */
  lemma SelectOwner(l: Ledger, s: Store, p: string, s': Store, id: string)
    requires Represents(s, l) && Step(s, Select(p), s', true) && Owns(s, p, id)
    ensures id in Import(l, s) && s'.live == Some(Import(l, s)[id])
    ensures Owns(s', p, id) && Represents(s', Import(l, s))
  {
    SelectInstallsLedger(l, s, p, s');
    SelectKeepsOwner(l, s, p, s', p, id);
    StepRepresents(s, l, Select(p), s', true);
  }

  /** Switching away from a refreshed live file files the refreshed bytes under its account. */
  lemma SwitchAwayFilesRefresh(l: Ledger, s: Store, a: string, id: string, b: string, s': Store)
    requires Represents(s, l) && Owns(s, a, id) && LiveReadable(s) && s.live.value.accountId == id
    requires Step(s, Select(b), s', true)
    ensures Owns(s', a, id) && Represents(s', l[id := s.live.value])
    ensures Import(l[id := s.live.value], s') == l[id := s.live.value]
  {
    SelectKeepsOwner(l, s, b, s', a, id);
    SelectInstallsLedger(l, s, b, s');
    StepRepresents(s, l, Select(b), s', true);
  }

  lemma SelectFiles(l: Ledger, s: Store, a: string, s': Store)
    requires Represents(s, l) && Step(s, Select(a), s', true)
    ensures s'.live.Some? && HasIdentity(s'.live.value) && Owns(s', a, s'.live.value.accountId)
    ensures Represents(s', Import(l, s))
  {
    SelectInstallsLedger(l, s, a, s');
    StepRepresents(s, l, Select(a), s', true);
  }

  /** Leaving a profile and returning to it brings back what its tokens were refreshed to. */
  lemma SwitchBackRestoresRefresh(l: Ledger, s0: Store, a: string, s1: Store, refreshed: AuthFile,
                                  b: string, s2: Store, s3: Store)
    requires Represents(s0, l) && Step(s0, Select(a), s1, true)
    requires HasIdentity(refreshed) && refreshed.accountId == s1.live.value.accountId
    requires Step(s1.(live := Some(refreshed)), Select(b), s2, true)
    requires Step(s2, Select(a), s3, true)
    ensures s3.live == Some(refreshed)
  {
    var id, l1, written := refreshed.accountId, Import(l, s0), s1.(live := Some(refreshed));
    SelectFiles(l, s0, a, s1);
    SameEntries(s1, written, l1);
    SwitchAwayFilesRefresh(l1, written, a, id, b, s2);
    SelectOwner(l1[id := refreshed], s2, a, s3, id);
  }

  /** The action belongs to another addition, or to none. */
  predicate SparesStash(a: Action, stash: string) {
    match a
    case AddBegin(_, x) => x != stash
    case AddAbort(x, _) => x != stash
    case AddComplete(_, x, _) => x != stash
    case _ => true
  }

  lemma StepKeepsStash(s: Store, a: Action, s': Store, ok: bool, stash: string)
    requires Step(s, a, s', ok) && SparesStash(a, stash)
    ensures stash in s'.stashes <==> stash in s.stashes
    ensures stash in s.stashes ==> s'.stashes[stash] == s.stashes[stash]
  {
  }

  lemma {:induction false} RunKeepsStash(trace: seq<Event>, last: Store, stash: string)
    requires Run(trace, last) && forall e | e in trace :: SparesStash(e.action, stash)
    ensures stash in last.stashes <==> stash in Start(trace, last).stashes
    ensures stash in last.stashes ==> last.stashes[stash] == Start(trace, last).stashes[stash]
  {
    if trace != [] {
      var e := trace[|trace| - 1];
      RunKeepsStash(trace[..|trace| - 1], e.before, stash);
      StepKeepsStash(e.before, e.action, last, e.ok, stash);
    }
  }

  /** One addition seen from its first locked section to the one that undoes it. */
  lemma LoginUndone(s: Store, p: string, stash: string, previous: Option<string>, begun: Store, trace: seq<Event>,
                    ended: Store, failure: Action, restored: Store, ok: bool)
    requires Step(s, AddBegin(p, stash), begun, true) && stash !in s.stashes
    requires Run(trace, ended) && Start(trace, ended) == begun && forall e | e in trace :: SparesStash(e.action, stash)
    requires Step(ended, failure, restored, ok)
    requires failure == AddAbort(stash, previous) || (failure == AddComplete(p, stash, previous) && !ok)
    ensures restored == ended.(live := s.live, stashes := ended.stashes - {stash}, marker := previous)
  {
    RunKeepsStash(trace, ended, stash);
    var m, synced :| SyncStep(s, m, synced) && begun == (if synced then AfterAddBegin(m, p, stash) else m)
      && true == (synced && p !in m.entries);
    assert ValidName(p);
    assert restored == Restored(ended, stash, previous);
  }

  lemma {:induction false} RunPrefix(trace: seq<Event>, last: Store, k: nat)
    requires Run(trace, last) && k <= |trace|
    ensures Run(trace[..k], if k < |trace| then trace[k].before else last)
  {
    if k < |trace| {
      var m := |trace| - 1;
      RunPrefix(trace[..m], trace[m].before, k);
      assert trace[..m][..k] == trace[..k];
    } else {
      assert trace[..k] == trace;
    }
  }

  lemma {:induction false} RunSuffix(trace: seq<Event>, last: Store, i: nat)
    requires Run(trace, last) && i <= |trace|
    ensures Run(trace[i..], last)
    ensures Start(trace[i..], last) == if i < |trace| then trace[i].before else last
  {
    if i < |trace| {
      var m := |trace| - 1;
      RunSuffix(trace[..m], trace[m].before, i);
      assert trace[i..][..m - i] == trace[..m][i..];
    }
  }

  /** An addition that fails at the last step of the run: it read the marker at step `r`,
      entered its first locked section at `b`, and ended by undoing it. */
  ghost predicate FailedAddition(trace: seq<Event>, r: nat, b: nat, stash: string) {
    && r < b < |trace| - 1
    && trace[r].action.AddRead? && trace[b].action == AddBegin(trace[r].action.profile, stash) && trace[b].ok
    && stash !in trace[b].before.stashes
    && (forall j | b < j < |trace| - 1 :: SparesStash(trace[j].action, stash))
    && var last, previous := trace[|trace| - 1], ReadMarker(trace[r].before);
       || last.action == AddAbort(stash, previous)
       || (last.action == AddComplete(trace[r].action.profile, stash, previous) && !last.ok)
  }

  lemma RunBetween(trace: seq<Event>, last: Store, b: nat)
    requires Run(trace, last) && b + 1 < |trace|
    ensures var m := |trace| - 1; var between := trace[..m][b + 1..];
      Run(between, trace[m].before) && Start(between, trace[m].before) == trace[b + 1].before
  {
    var m := |trace| - 1;
    RunPrefix(trace, last, m);
    RunSuffix(trace[..m], trace[m].before, b + 1);
  }

  lemma BetweenSpares(trace: seq<Event>, b: nat, stash: string)
    requires b + 1 < |trace| && forall j | b < j < |trace| - 1 :: SparesStash(trace[j].action, stash)
    ensures forall e | e in trace[..|trace| - 1][b + 1..] :: SparesStash(e.action, stash)
  {
    var between := trace[..|trace| - 1][b + 1..];
    forall e | e in between ensures SparesStash(e.action, stash) {
      var j :| 0 <= j < |between| && between[j] == e;
      assert e == trace[b + 1 + j];
    }
  }

  /** A failed login restores the live file that its first locked section found, whatever
      other processes and the login itself did in between, and leaves the profiles alone. The
      marker it puts back is the one it read before that section. */
  lemma FailedLoginRestores(trace: seq<Event>, last: Store, r: nat, b: nat, stash: string)
    requires Run(trace, last) && FailedAddition(trace, r, b, stash)
    ensures last.live == trace[b].before.live && last.marker == ReadMarker(trace[r].before)
    ensures last.entries == trace[|trace| - 1].before.entries && stash !in last.stashes
  {
    var m := |trace| - 1;
    var failure, between := trace[m], trace[..m][b + 1..];
    RunStep(trace, last, b);
    RunStep(trace, last, m);
    RunBetween(trace, last, b);
    BetweenSpares(trace, b, stash);
    LoginUndone(trace[b].before, trace[r].action.profile, stash, ReadMarker(trace[r].before),
                trace[b + 1].before, between,
                failure.before, failure.action, last, failure.ok);
  }

  /** The marker names the profile that the live account belongs to. */
  ghost predicate Fits(s: Store) {
    LiveReadable(s) && ReadMarker(s).Some? && Owns(s, ReadMarker(s).value, s.live.value.accountId)
  }

  /** Every import of a readable live file leaves a marker that fits, so a marker that does not
      fit lasts until the next operation at most. */
  lemma SyncMakesFit(s: Store, s': Store)
    requires SyncStep(s, s', true) && LiveReadable(s)
    ensures Fits(s')
  {
  }

  /** After a failed login the marker fits the live file if and only if what it had read names
      a profile that still holds the account its first locked section found. */
  lemma FailedLoginFitsExactly(trace: seq<Event>, last: Store, r: nat, b: nat, stash: string)
    requires Run(trace, last) && FailedAddition(trace, r, b, stash) && LiveReadable(trace[b].before)
    ensures var previous := ReadMarker(trace[r].before);
      Fits(last) <==>
        previous.Some? && Owns(trace[|trace| - 1].before, previous.value, trace[b].before.live.value.accountId)
  {
    FailedLoginRestores(trace, last, r, b, stash);
  }

  // ---------------------------------------------------------------- owners stay

  lemma SaveKeepsOwner(s: Store, l: Ledger, p: string, f: AuthFile, q: string, id: string)
    requires Represents(s, l) && HasIdentity(f) && ValidName(p) && Owns(s, q, id)
    requires if exists x :: Owns(s, x, f.accountId) then Owns(s, p, f.accountId) else p !in s.entries
    ensures Owns(SaveTo(s, p, f), q, id)
  {
    if p == q {
      assert Owns(s, p, f.accountId);
    }
  }

  lemma SyncKeepsOwner(s: Store, l: Ledger, s': Store, ok: bool, q: string, id: string)
    requires Represents(s, l) && SyncStep(s, s', ok) && Owns(s, q, id)
    ensures Owns(s', q, id)
  {
    if LiveReadable(s) {
      var f := s.live.value;
      var p :| ValidName(p) && SyncTarget(s, f, p) && s' == SaveTo(s, p, f);
      SaveKeepsOwner(s, l, p, f, q, id);
    }
  }

  lemma ForgetKeepsOthers(s: Store, l: Ledger, p: string, s': Store, ok: bool, q: string, id: string)
    requires Represents(s, l) && Step(s, Forget(p), s', ok) && Owns(s, q, id) && !Forgets(Event(s, Forget(p), ok), id)
    ensures Owns(s', q, id)
  {
    if ValidName(p) {
      var m, synced :| SyncStep(s, m, synced) && s' == (if synced then AfterForget(m, p) else m)
        && ok == (synced && Forgettable(m, p));
      SyncKeepsOwner(s, l, m, synced, q, id);
      if ok {
        ForgetUnaffectedBySync(s, m, p);
      }
    }
  }

  /** No step but a forget of it takes an account from the profile that holds it. */
  lemma StepKeepsOwner(s: Store, l: Ledger, a: Action, s': Store, ok: bool, q: string, id: string)
    requires Represents(s, l) && Step(s, a, s', ok) && Owns(s, q, id) && !Forgets(Event(s, a, ok), id)
    ensures Owns(s', q, id)
  {
    match a
    case List => SyncKeepsOwner(s, l, s', ok, q, id);
    case Select(p) =>
      if ValidName(p) {
        var m, synced :| SyncStep(s, m, synced) && s' == (if synced then AfterSelect(m, p) else m);
        SyncKeepsOwner(s, l, m, synced, q, id);
      }
    case Forget(p) => ForgetKeepsOthers(s, l, p, s', ok, q, id);
    case AddBegin(p, stash) =>
      if ValidName(p) {
        var m, synced :| SyncStep(s, m, synced) && s' == (if synced then AfterAddBegin(m, p, stash) else m);
        SyncKeepsOwner(s, l, m, synced, q, id);
      }
    case AddComplete(p, stash, _) =>
      if ok {
        var f := s.live.value;
        var target :| ValidName(target) && AddTarget(s, p, target)
          && s' == SaveTo(s, target, f).(stashes := s.stashes - {stash});
        SaveKeepsOwner(s, l, target, f, q, id);
      }
    case _ =>
  }

  lemma {:induction false} RunKeepsOwner(l: Ledger, trace: seq<Event>, last: Store, i: nat, k: nat, q: string,
      id: string)
    requires Run(trace, last) && Represents(Start(trace, last), l) && i <= k < |trace| && Owns(trace[i].before, q, id)
    requires forall j | i <= j < k :: !Forgets(trace[j], id)
    ensures Owns(trace[k].before, q, id)
  {
    if i < k {
      RunKeepsOwner(l, trace, last, i, k - 1, q, id);
      RunStep(trace, last, k - 1);
      RunPrefix(trace, last, k - 1);
      RunRepresents(l, trace[..k - 1], trace[k - 1].before);
      StepKeepsOwner(trace[k - 1].before, RunLedger(l, trace[..k - 1]), trace[k - 1].action, trace[k].before,
        trace[k - 1].ok, q, id);
    }
  }

  /** While nobody forgets the account meanwhile, the marker put back fits if and only if it is
      the one that the first locked section itself left: the marker had named the owner of the
      live account when it was read. */
  lemma FailedLoginFitsAsRead(l: Ledger, trace: seq<Event>, last: Store, r: nat, b: nat, stash: string)
    requires Run(trace, last) && FailedAddition(trace, r, b, stash) && LiveReadable(trace[b].before)
    requires Represents(Start(trace, last), l)
    requires forall j | b < j < |trace| :: !Forgets(trace[j], trace[b].before.live.value.accountId)
    ensures Fits(last) <==> ReadMarker(trace[r].before) == ReadMarker(trace[b + 1].before)
  {
    var owner := OwnerAtEnd(l, trace, last, b);
    FailedLoginFitsExactly(trace, last, r, b, stash);
  }

  ghost predicate SoleOwner(s: Store, p: string, id: string) {
    Owns(s, p, id) && forall q | Owns(s, q, id) :: q == p
  }

  /** The owner that the first locked section marks is the one owner at the last step. */
  lemma OwnerAtEnd(l: Ledger, trace: seq<Event>, last: Store, b: nat) returns (owner: string)
    requires Run(trace, last) && Represents(Start(trace, last), l) && b < |trace| - 1
    requires trace[b].action.AddBegin? && trace[b].ok && LiveReadable(trace[b].before)
    requires forall j | b < j < |trace| :: !Forgets(trace[j], trace[b].before.live.value.accountId)
    ensures ReadMarker(trace[b + 1].before) == Some(owner)
    ensures SoleOwner(trace[|trace| - 1].before, owner, trace[b].before.live.value.accountId)
  {
    var m, id := |trace| - 1, trace[b].before.live.value.accountId;
    RunStep(trace, last, b);
    owner := BeginMarksOwner(trace[b].before, trace[b].action, trace[b + 1].before);
    RunKeepsOwner(l, trace, last, b + 1, m, owner, id);
    RunPrefix(trace, last, m);
    RunRepresents(l, trace[..m], trace[m].before);
  }

  lemma BeginMarksOwner(s: Store, a: Action, begun: Store) returns (owner: string)
    requires a.AddBegin? && Step(s, a, begun, true) && LiveReadable(s)
    ensures Owns(begun, owner, s.live.value.accountId) && ReadMarker(begun) == Some(owner)
  {
    var m, synced :| SyncStep(s, m, synced) && begun == (if synced then AfterAddBegin(m, a.profile, a.stash) else m)
      && true == (synced && a.profile !in m.entries);
    var p :| ValidName(p) && SyncTarget(s, s.live.value, p) && m == SaveTo(s, p, s.live.value);
    owner := p;
  }

  lemma RunSnoc(trace: seq<Event>, before: Store, a: Action, last: Store, ok: bool)
    requires Run(trace, before) && Step(before, a, last, ok)
    ensures Run(trace + [Event(before, a, ok)], last)
  {
    assert (trace + [Event(before, a, ok)])[..|trace|] == trace;
  }

  lemma SelectsAnother(s: Store, b: string) returns (s': Store)
    requires Fits(s) && Holds(s, b) && b != ReadMarker(s).value
    ensures Step(s, Select(b), s', true) && s'.stashes == s.stashes && s'.entries.Keys == s.entries.Keys
    ensures Fits(s') && ReadMarker(s') == Some(b) && s'.live == Some(FileOf(s, b))
    ensures Owns(s', ReadMarker(s).value, s.live.value.accountId)
  {
    var m := SaveTo(s, ReadMarker(s).value, s.live.value);
    assert SyncStep(s, m, true);
    s' := AfterSelect(m, b);
  }

  lemma BeginsAddition(s: Store, p: string, stash: string) returns (s': Store)
    requires Fits(s) && ValidName(p) && p !in s.entries
    ensures Step(s, AddBegin(p, stash), s', true)
    ensures s'.stashes == s.stashes[stash := s.live.value] && s'.marker == ReadMarker(s)
    ensures s'.entries == s.entries[ReadMarker(s).value := Directory(s.live)]
  {
    var m := SaveTo(s, ReadMarker(s).value, s.live.value);
    assert SyncStep(s, m, true);
    s' := AfterAddBegin(m, p, stash);
  }

  /** The inputs on which it fails: from any store whose marker fits and which holds another
      account, the marker is read, another process selects that account, and only then the
      addition takes the lock. When its login fails, the other account is live under the marker
      that was read, although the marker fitted both when it was read and at the lock. */
  lemma StaleMarkerIsPutBack(s: Store, b: string, p: string, stash: string) returns (trace: seq<Event>, last: Store)
    requires Fits(s) && Holds(s, b) && FileOf(s, b).accountId != s.live.value.accountId
    requires ValidName(p) && p !in s.entries && stash !in s.stashes
    ensures Run(trace, last) && Start(trace, last) == s && FailedAddition(trace, 0, 2, stash)
    ensures Fits(trace[0].before) && Fits(trace[2].before) && !Fits(last)
    ensures last.live == Some(FileOf(s, b)) && last.marker == ReadMarker(s)
  {
    var switched := SelectsAnother(s, b);
    var begun := BeginsAddition(switched, p, stash);
    last := Restored(begun, stash, ReadMarker(s));
    trace := FourSteps(s, b, p, stash, switched, begun);
    StaleAtTheEnd(s, b, p, stash, switched, begun);
  }

  lemma FourSteps(s: Store, b: string, p: string, stash: string, switched: Store, begun: Store)
    returns (trace: seq<Event>)
    requires ValidName(p) && Step(s, Select(b), switched, true) && Step(switched, AddBegin(p, stash), begun, true)
    ensures Run(trace, Restored(begun, stash, ReadMarker(s)))
    ensures trace == [
      Event(s, AddRead(p), true), Event(s, Select(b), true), Event(switched, AddBegin(p, stash), true),
      Event(begun, AddAbort(stash, ReadMarker(s)), true)]
  {
    RunSnoc([], s, AddRead(p), s, true);
    RunSnoc([Event(s, AddRead(p), true)], s, Select(b), switched, true);
    RunSnoc([Event(s, AddRead(p), true), Event(s, Select(b), true)], switched, AddBegin(p, stash), begun, true);
    trace := [Event(s, AddRead(p), true), Event(s, Select(b), true), Event(switched, AddBegin(p, stash), true)];
    var abort := AddAbort(stash, ReadMarker(s));
    RunSnoc(trace, begun, abort, Restored(begun, stash, ReadMarker(s)), true);
    trace := trace + [Event(begun, abort, true)];
  }

  lemma StaleAtTheEnd(s: Store, b: string, p: string, stash: string, switched: Store, begun: Store)
    requires Fits(s) && Holds(s, b) && FileOf(s, b).accountId != s.live.value.accountId && b != ReadMarker(s).value
    requires Fits(switched) && ReadMarker(switched) == Some(b) && switched.live == Some(FileOf(s, b))
    requires Owns(switched, ReadMarker(s).value, s.live.value.accountId)
    requires begun.stashes == switched.stashes[stash := switched.live.value]
    requires begun.entries == switched.entries[b := Directory(switched.live)]
    ensures var last := Restored(begun, stash, ReadMarker(s));
      !Fits(last) && last.live == Some(FileOf(s, b)) && last.marker == ReadMarker(s)
  {
    assert Owns(begun, ReadMarker(s).value, s.live.value.accountId);
  }

  const First := Subscription("1", None, "x")
  const Second := Subscription("2", None, "y")

  /** Such a store: two profiles, of which the first is live and marked. */
  const Two := Store(Some(First), map["a" := Directory(Some(First)), "b" := Directory(Some(Second))], Some("a"), map[])

  lemma TwoIsSuchAStore()
    ensures Fits(Two) && Holds(Two, "b") && FileOf(Two, "b").accountId != Two.live.value.accountId
  {
    assert ValidName("a") && ValidName("b");
  }

  // ---------------------------------------------------------------- what operations leave behind

  /** An import writes one profile and marks it: the owner of the account if there is one, and
      otherwise a new one, named by the marker if that names a profile that is gone, or else by
      the address of the account if that name is free. */
  lemma ImportLeaves(s: Store, s': Store)
    requires Step(s, List, s', true) && LiveReadable(s)
    ensures s'.live == s.live && s'.stashes == s.stashes
    ensures exists p ::
      && ValidName(p) && s'.entries == s.entries[p := Directory(s.live)] && s'.marker == Some(p)
      && ((exists q :: Owns(s, q, s.live.value.accountId)) ==> Owns(s, p, s.live.value.accountId))
      && ((forall q :: !Owns(s, q, s.live.value.accountId)) ==>
            && p !in s.entries
            && (if ReadMarker(s).Some? && ReadMarker(s).value !in s.entries then s.marker == Some(p)
                else Stem(s.live.value.email) !in s.entries ==> p == Stem(s.live.value.email)))
  {
    var p :| ValidName(p) && SyncTarget(s, s.live.value, p) && s' == SaveTo(s, p, s.live.value);
    assert s'.entries == s.entries[p := Directory(s.live)];
  }

  /** A successful selection makes the saved file of the chosen profile live, and marks it. */
  lemma SelectLeaves(l: Ledger, s: Store, p: string, s': Store)
    requires Represents(s, l) && Step(s, Select(p), s', true)
    ensures Fits(s') && ReadMarker(s') == Some(p) && Holds(s', p) && s'.live == Some(FileOf(s', p))
    ensures s'.stashes == s.stashes
  {
    var m, synced :| SyncStep(s, m, synced) && s' == (if synced then AfterSelect(m, p) else m)
      && true == (synced && Holds(m, p));
  }

  /** A successful forget takes the profile away and nothing else: not the live file, not its
      owner, and the marker only if it named that profile. */
  lemma ForgetLeaves(l: Ledger, s: Store, p: string, s': Store)
    requires Represents(s, l) && Step(s, Forget(p), s', true)
    ensures p !in s'.entries && s'.live == s.live && s'.stashes == s.stashes
    ensures forall q, id | Owns(s, q, id) && q != p :: Owns(s', q, id)
    ensures ReadMarker(s') != Some(p)
    ensures LiveReadable(s) ==> Fits(s')
    ensures !LiveReadable(s) ==> s'.marker == if ReadMarker(s) == Some(p) then None else s.marker
  {
    var m, synced :| SyncStep(s, m, synced) && s' == (if synced then AfterForget(m, p) else m)
      && true == (synced && Forgettable(m, p));
    if LiveReadable(s) {
      SyncMakesFit(s, m);
      var owner := ReadMarker(m).value;
      assert Owns(m, owner, s.live.value.accountId) && owner != p;
      assert Owns(s', owner, s.live.value.accountId);
    }
    forall q, id | Owns(s, q, id) && q != p ensures Owns(s', q, id) {
      SyncKeepsOwner(s, l, m, synced, q, id);
    }
  }

  /** The first section of an addition sets the live file aside after importing it. */
  lemma BeginLeaves(s: Store, p: string, stash: string, s': Store)
    requires Step(s, AddBegin(p, stash), s', true)
    ensures s'.live.None? && p !in s'.entries
    ensures s'.stashes == if s.live.Some? then s.stashes[stash := s.live.value] else s.stashes
    ensures LiveReadable(s) ==> exists q :: Owns(s', q, s.live.value.accountId) && s'.marker == Some(q)
  {
    var m, synced :| SyncStep(s, m, synced) && s' == (if synced then AfterAddBegin(m, p, stash) else m)
      && true == (synced && p !in m.entries);
    if LiveReadable(s) {
      var q :| ValidName(q) && SyncTarget(s, s.live.value, q) && m == SaveTo(s, q, s.live.value);
      assert Owns(s', q, s.live.value.accountId);
    }
  }

  /** A completed addition leaves the new login live and marked under its owner. */
  lemma CompleteLeaves(s: Store, p: string, stash: string, previous: Option<string>, s': Store)
    requires Step(s, AddComplete(p, stash, previous), s', true)
    ensures Fits(s') && s'.live == s.live && FileOf(s', ReadMarker(s').value) == s.live.value
    ensures s'.stashes == s.stashes - {stash}
  {
  }

  /** An operation that is refused changes at most what an import changes; only a login that
      cannot be read is undone. */
  lemma RefusalLeaves(s: Store, a: Action, s': Store)
    requires Step(s, a, s', false) && !a.AddComplete?
    ensures s'.live == s.live && s'.stashes == s.stashes
    ensures s' == s || (LiveReadable(s) && Fits(s'))
  {
    match a
    case Select(p) =>
      if ValidName(p) {
        var m, synced :| SyncStep(s, m, synced) && s' == (if synced then AfterSelect(m, p) else m)
          && false == (synced && Holds(m, p));
      }
    case Forget(p) =>
      if ValidName(p) {
        var m, synced :| SyncStep(s, m, synced) && s' == (if synced then AfterForget(m, p) else m)
          && false == (synced && Forgettable(m, p));
      }
    case AddBegin(p, stash) =>
      if ValidName(p) {
        var m, synced :| SyncStep(s, m, synced) && s' == (if synced then AfterAddBegin(m, p, stash) else m)
          && false == (synced && p !in m.entries);
      }
    case _ =>
  }

  /** Exactly when each operation is refused. */
  lemma RefusedExactly(s: Store, a: Action, s': Store, ok: bool)
    requires Step(s, a, s', ok)
    ensures a.List? ==> (ok <==> s.live.None? || LiveReadable(s))
    ensures a.Select? ==> (ok <==> ValidName(a.profile) && (s.live.None? || LiveReadable(s)) && Holds(s', a.profile))
    ensures a.AddBegin? ==>
      (ok <==> ValidName(a.profile) && (s.live.None? || LiveReadable(s)) && a.profile !in s'.entries)
    ensures a.Forget? ==>
      (ok <==> ValidName(a.profile) && (s.live.None? || LiveReadable(s)) && Holds(s, a.profile)
               && !(LiveReadable(s) && s.live.value.accountId == FileOf(s, a.profile).accountId))
    ensures a.AddComplete? ==> (ok <==> ValidName(a.profile) && LiveReadable(s))
  {
    match a
    case Forget(p) =>
      if ValidName(p) {
        var m, synced :| SyncStep(s, m, synced) && s' == (if synced then AfterForget(m, p) else m)
          && ok == (synced && Forgettable(m, p));
        if synced {
          ForgetUnaffectedBySync(s, m, p);
        }
      }
    case _ =>
  }

  // ---------------------------------------------------------------- the store itself

  /** A line of the listing. */
  datatype Account = Account(profile: string, accountId: string, email: Option<string>, active: bool)

  function AccountOf(s: Store, p: string): Account
    requires Holds(s, p)
  {
    var f := FileOf(s, p);
    Account(p, f.accountId, f.email, LiveReadable(s) && s.live.value.accountId == f.accountId)
  }

  predicate IsAccount(s: Store, a: Account) {
    Holds(s, a.profile) && a == AccountOf(s, a.profile)
  }

  /** The active accounts first, and each kind by name without regard to case. */
  ghost predicate InListingOrder(accounts: seq<Account>) {
    forall i, j | 0 <= i < j < |accounts| ::
      if accounts[i].active == accounts[j].active
      then StringLe(Lower(accounts[i].profile), Lower(accounts[j].profile))
      else accounts[i].active
  }

  lemma ListingIsSorted(accounts: seq<Account>)
    requires SortedBy(ByListing(), accounts)
    ensures InListingOrder(accounts)
  {
    forall i, j | 0 <= i < j < |accounts|
      ensures if accounts[i].active == accounts[j].active
        then StringLe(Lower(accounts[i].profile), Lower(accounts[j].profile))
        else accounts[i].active
    {
      assert RankLe(ByListing()(accounts[i]), ByListing()(accounts[j]));
    }
  }

  function ByListing(): Account -> Rank {
    (a: Account) => Rank(if a.active then 0 else 1, Lower(a.profile))
  }

  /** How the official login ended, and what it left in the live file. */
  datatype Login = Login(started: bool, status: int, written: Option<AuthFile>)

  datatype Addition = Refused | LoginFailed | Added(profile: string)

  class AccountStore {
    var live: Option<AuthFile>
    var entries: map<string, Entry>
    var marker: Option<string>
    var stashes: map<string, AuthFile>

    constructor (s: Store)
      ensures State() == s
    {
      live, entries, marker, stashes := s.live, s.entries, s.marker, s.stashes;
    }

    function State(): Store
      reads this
    {
      Store(live, entries, marker, stashes)
    }

    /** Visits the directory in the arbitrary order in which the system lists it. */
    method ProfileForAccount(accountId: string) returns (r: Option<string>)
      ensures r.Some? ==> Owns(State(), r.value, accountId)
      ensures r.None? ==> forall q :: !Owns(State(), q, accountId)
    {
      var rest := entries.Keys;
      while rest != {}
        invariant rest <= entries.Keys
        invariant forall q | Owns(State(), q, accountId) :: q in rest
        decreases rest
      {
        var item :| item in rest;
        if ValidName(item) && Readable(entries[item]) && entries[item].auth.value.accountId == accountId {
          return Some(item);
        }
        rest := rest - {item};
      }
      return None;
    }

    method SaveProfile(p: string, f: AuthFile)
      modifies this
      ensures State() == SaveTo(old(State()), p, f)
    {
      entries := entries[p := Directory(Some(f))];
      marker := Some(p);
    }

    method SyncLive(token: Token) returns (ok: bool)
      modifies this
      ensures SyncStep(old(State()), State(), ok)
    {
      if live.None? {
        return true;
      }
      if !HasIdentity(live.value) {
        return false;
      }
      var f := live.value;
      var profile: string;
      var owner := ProfileForAccount(f.accountId);
      if owner.Some? {
        profile := owner.value;
      } else if marker.Some? && ValidName(marker.value) && marker.value !in entries {
        profile := marker.value;
      } else {
        profile := AvailableName(entries.Keys, Stem(f.email), f.accountId, token);
      }
      assert SyncTarget(State(), f, profile);
      SaveProfile(profile, f);
      return true;
    }

    /** Imports the live file, then lists every profile that names an account: the active
        ones first, and by name without regard to case. */
    method ListAccounts(token: Token) returns (ok: bool, accounts: seq<Account>)
      modifies this
      ensures Step(old(State()), List, State(), ok)
      ensures ok ==> (forall p :: (exists a :: a in accounts && a.profile == p) <==> Holds(State(), p))
      ensures ok ==> forall a | a in accounts ::
        && Owns(State(), a.profile, a.accountId) && a.email == FileOf(State(), a.profile).email
        && (a.active <==> LiveReadable(State()) && live.value.accountId == a.accountId)
      ensures ok ==> InListingOrder(accounts) && Distinct(accounts)
    {
      ok := SyncLive(token);
      accounts := [];
      if !ok {
        return;
      }
      var listed: seq<Account> := [];
      var rest := entries.Keys;
      while rest != {}
        invariant rest <= entries.Keys && Distinct(listed)
        invariant forall a | a in listed :: IsAccount(State(), a) && a.profile !in rest
        invariant forall p | Holds(State(), p) && p !in rest :: AccountOf(State(), p) in listed
        decreases rest
      {
        var p :| p in rest;
        if ValidName(p) && Readable(entries[p]) {
          var file := entries[p].auth.value;
          var active := live.Some? && HasIdentity(live.value) && live.value.accountId == file.accountId;
          listed := listed + [Account(p, file.accountId, file.email, active)];
        }
        rest := rest - {p};
      }
      accounts := StableSort(ByListing(), listed);
      SortSorts(ByListing(), listed);
      SortKeepsDistinct(ByListing(), listed);
      ListingIsSorted(accounts);
      forall a ensures a in accounts <==> a in listed {
        SortKeepsElements(ByListing(), listed, a);
      }
      forall p | Holds(State(), p) ensures exists a :: a in accounts && a.profile == p {
        assert AccountOf(State(), p) in accounts;
      }
    }

    method SelectAccount(profile: string, token: Token) returns (ok: bool)
      modifies this
      ensures Step(old(State()), Select(profile), State(), ok)
    {
      if !ValidName(profile) {
        return false;
      }
      ok := SyncLive(token);
      if !ok {
        return;
      }
      ghost var synced := State();
      if profile !in entries || !Readable(entries[profile]) {
        return false;
      }
      live := entries[profile].auth;
      marker := Some(profile);
      assert State() == AfterSelect(synced, profile);
    }

    method ForgetAccount(profile: string, token: Token) returns (ok: bool)
      modifies this
      ensures Step(old(State()), Forget(profile), State(), ok)
    {
      if !ValidName(profile) {
        return false;
      }
      ok := SyncLive(token);
      if !ok {
        return;
      }
      ghost var synced := State();
      if profile !in entries || !Readable(entries[profile]) {
        return false;
      }
      if live.Some? && HasIdentity(live.value) && live.value.accountId == entries[profile].auth.value.accountId {
        return false;
      }
      entries := entries - {profile};
      if marker == Some(profile) {
        marker := None;
      }
      assert State() == AfterForget(synced, profile);
    }

    /** The first locked section of an addition: import, then set the live file aside. */
    method BeginAdd(profile: string, stash: string, token: Token) returns (ok: bool)
      modifies this
      ensures Step(old(State()), AddBegin(profile, stash), State(), ok)
    {
      if !ValidName(profile) {
        return false;
      }
      ok := SyncLive(token);
      if !ok {
        return;
      }
      ghost var synced := State();
      if profile in entries {
        return false;
      }
      if live.Some? {
        stashes := stashes[stash := live.value];
        live := None;
      }
      assert State() == AfterAddBegin(synced, profile, stash);
    }

    method RestoreStash(stash: string, previous: Option<string>)
      modifies this
      ensures State() == Restored(old(State()), stash, previous)
    {
      live := None;
      if stash in stashes {
        live := Some(stashes[stash]);
        stashes := stashes - {stash};
      }
      marker := previous;
    }

    /** The second locked section: adopt the new login, or undo the first section. */
    method CompleteAdd(profile: string, stash: string, previous: Option<string>, token: Token) returns (ok: bool)
      modifies this
      ensures Step(old(State()), AddComplete(profile, stash, previous), State(), ok)
      ensures ok ==> live == old(live)
    {
      if !ValidName(profile) {
        return false;
      }
      if live.None? || !HasIdentity(live.value) {
        RestoreStash(stash, previous);
        return false;
      }
      var f := live.value;
      var target: string;
      var owner := ProfileForAccount(f.accountId);
      if owner.Some? {
        target := owner.value;
      } else {
        target := AvailableName(entries.Keys, profile, f.accountId, token);
      }
      assert AddTarget(State(), profile, target);
      SaveProfile(target, f);
      stashes := stashes - {stash};
      return true;
    }

    /** A whole addition with nothing else running: it adopts the login, or leaves the live
        file and the current profile as they were. */
    method AddAccount(profile: string, stash: string, token: Token, login: Login) returns (outcome: Addition)
      requires stash !in stashes
      modifies this
      ensures outcome.Refused? ==> Step(old(State()), AddBegin(profile, stash), State(), false) && live == old(live)
      ensures outcome.Added? <==>
        && !outcome.Refused? && login.started && login.status == 0
        && login.written.Some? && HasIdentity(login.written.value)
      ensures outcome.Added? ==> live == login.written && Owns(State(), outcome.profile, live.value.accountId)
      ensures outcome.LoginFailed? ==> live == old(live) && ReadMarker(State()) == ReadMarker(old(State()))
      ensures stash !in stashes
    {
      var previous := if marker.Some? && ValidName(marker.value) then marker else None;
      ghost var entry := State();
      var ok := BeginAdd(profile, stash, token);
      if !ok {
        return Refused;
      }
      ghost var begun := State();
      live := login.written;
      ghost var written := State();
      ghost var trace := [Event(begun, External(login.written), true)];
      assert trace[..0] == [];
      assert Run(trace, written);
      if !login.started || login.status != 0 {
        RestoreStash(stash, previous);
        LoginUndone(entry, profile, stash, previous, begun, trace, written, AddAbort(stash, previous), State(), true);
        return LoginFailed;
      }
      ok := CompleteAdd(profile, stash, previous, token);
      if !ok {
        LoginUndone(entry, profile, stash, previous, begun, trace, written, AddComplete(profile, stash, previous),
          State(), false);
        return LoginFailed;
      }
      return Added(marker.value);
    }
  }
}
