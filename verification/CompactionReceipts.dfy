/** Printing a compaction state as a receipt and reading receipts back. */
module CompactionReceipts {
  import opened Common
  import opened Compaction

  /** A value of a receipt, as JSON gives it. */
  datatype Value =
    | Null | Bool(b: bool) | Int(i: int) | Real(text: string) | Str(s: string) | List(items: seq<Value>)
    | Object(keys: set<string>)

  datatype Field =
    | Provider | Model | Protocol | SchemaHash | ShapeHash | CallsField | ResultsField | BatchesField | BindingsField
    | ReasoningType | ReasoningHash | MediaCount | MediaTypeHash | Disposition | MemoriesField | SkillsField
    | CommittedField | RetriesField | Session | Parent | ResumeHash

  /** A mapping: the fields of a state, and whatever other keys it has. */
  datatype Mapping = Mapping(fields: map<Field, Value>, others: set<string>)

  datatype Rejection =
    | ContentBearing(keys: set<string>)
    | Unsupported(keys: set<string>)
    | BadField(field: Field)
    | BadItem(field: Field, index: nat)

  const ForbiddenKeys: set<string> := {
    "prompt", "messages", "content", "text", "arguments", "tool_result", "image", "image_data", "response",
    "thinking", "reasoning", "reasoning_content", "signature", "encrypted_content", "data"
  }

  function Get(m: Mapping, f: Field): Option<Value> {
    if f in m.fields then Some(m.fields[f]) else None
  }

  // ---------------------------------------------------------------- reading one field

  function RequiredString(v: Option<Value>, f: Field): Result<string, Rejection> {
    if v.Some? && v.value.Str? && Strip(v.value.s) != "" then Success(Strip(v.value.s)) else Failure(BadField(f))
  }

  function OptionalString(v: Option<Value>, f: Field): Result<Option<string>, Rejection> {
    if v.None? || v.value.Null? then Success(None)
    else if v.value.Str? then Success(Some(v.value.s))
    else Failure(BadField(f))
  }

  function StringOrDefault(v: Option<Value>, f: Field, default: string): Result<string, Rejection> {
    if v.None? then RequiredString(Some(Str(default)), f) else RequiredString(v, f)
  }

  predicate AllStrings(items: seq<Value>) {
    forall v | v in items :: v.Str? && v.s != ""
  }

  function Texts(items: seq<Value>): (r: seq<string>)
    requires AllStrings(items)
    ensures |r| == |items| && forall i | 0 <= i < |r| :: r[i] == items[i].s
  {
    seq(|items|, i requires 0 <= i < |items| => items[i].s)
  }

  function StringTuple(v: Option<Value>, f: Field): Result<seq<string>, Rejection> {
    if v.None? || v.value.Null? then Success([])
    else if v.value.List? && AllStrings(v.value.items) then Success(Texts(v.value.items))
    else Failure(BadField(f))
  }

  /** A batch is a non-empty list of non-empty strings. */
  predicate IsBatch(v: Value) {
    v.List? && v.items != [] && AllStrings(v.items)
  }

  predicate IsBinding(v: Value) {
    v.List? && |v.items| == 2 && AllStrings(v.items)
  }

  /** The first item from `from` on that is no batch, or else the end. */
  function FirstBadBatch(items: seq<Value>, from: nat): (r: nat)
    requires from <= |items|
    ensures from <= r <= |items| && (forall k | from <= k < r :: IsBatch(items[k]))
    ensures r < |items| ==> !IsBatch(items[r])
    decreases |items| - from
  {
    if from == |items| || !IsBatch(items[from]) then from else FirstBadBatch(items, from + 1)
  }

  function FirstBadBinding(items: seq<Value>, from: nat): (r: nat)
    requires from <= |items|
    ensures from <= r <= |items| && (forall k | from <= k < r :: IsBinding(items[k]))
    ensures r < |items| ==> !IsBinding(items[r])
    decreases |items| - from
  {
    if from == |items| || !IsBinding(items[from]) then from else FirstBadBinding(items, from + 1)
  }

  function Batches(items: seq<Value>): (r: seq<seq<string>>)
    requires FirstBadBatch(items, 0) == |items|
    ensures |r| == |items| && forall i | 0 <= i < |r| :: r[i] == Texts(items[i].items)
  {
    seq(|items|, i requires 0 <= i < |items| => Texts(items[i].items))
  }

  function Bindings(items: seq<Value>): (r: seq<(string, string)>)
    requires FirstBadBinding(items, 0) == |items|
    ensures |r| == |items| && forall i | 0 <= i < |r| :: r[i] == (items[i].items[0].s, items[i].items[1].s)
  {
    seq(|items|, i requires 0 <= i < |items| => (items[i].items[0].s, items[i].items[1].s))
  }

  function Groups(v: Option<Value>, f: Field): Result<seq<seq<string>>, Rejection> {
    if v.None? || v.value.Null? then Success([])
    else if !v.value.List? then Failure(BadField(f))
    else
      var bad := FirstBadBatch(v.value.items, 0);
      if bad < |v.value.items| then Failure(BadItem(f, bad)) else Success(Batches(v.value.items))
  }

  function Pairs(v: Option<Value>, f: Field): Result<seq<(string, string)>, Rejection> {
    if v.None? || v.value.Null? then Success([])
    else if !v.value.List? then Failure(BadField(f))
    else
      var bad := FirstBadBinding(v.value.items, 0);
      if bad < |v.value.items| then Failure(BadItem(f, bad)) else Success(Bindings(v.value.items))
  }

  /** Reads the call batches group by group. */
  method StringTupleGroups(v: Option<Value>, f: Field) returns (r: Result<seq<seq<string>>, Rejection>)
    ensures r == Groups(v, f)
  {
    if v.None? || v.value.Null? {
      return Success([]);
    }
    if !v.value.List? {
      return Failure(BadField(f));
    }
    var items := v.value.items;
    var groups: seq<seq<string>> := [];
    for index := 0 to |items|
      invariant FirstBadBatch(items, 0) >= index && |groups| == index
      invariant forall k | 0 <= k < index :: IsBatch(items[k]) && groups[k] == Texts(items[k].items)
    {
      var parsed := StringTuple(Some(items[index]), f);
      if parsed.Failure? || parsed.value == [] {
        return Failure(BadItem(f, index));
      }
      groups := groups + [parsed.value];
    }
    assert groups == Batches(items);
    r := Success(groups);
  }

  /** Reads the bindings pair by pair. */
  method BindingTuple(v: Option<Value>, f: Field) returns (r: Result<seq<(string, string)>, Rejection>)
    ensures r == Pairs(v, f)
  {
    if v.None? || v.value.Null? {
      return Success([]);
    }
    if !v.value.List? {
      return Failure(BadField(f));
    }
    var items := v.value.items;
    var bindings: seq<(string, string)> := [];
    for index := 0 to |items|
      invariant FirstBadBinding(items, 0) >= index && |bindings| == index
      invariant forall k | 0 <= k < index ::
        IsBinding(items[k]) && bindings[k] == (items[k].items[0].s, items[k].items[1].s)
    {
      var binding := items[index];
      if !binding.List? || |binding.items| != 2 || !AllStrings(binding.items) {
        return Failure(BadItem(f, index));
      }
      bindings := bindings + [(binding.items[0].s, binding.items[1].s)];
    }
    assert bindings == Bindings(items);
    r := Success(bindings);
  }

  function Natural(v: Option<Value>, f: Field, default: nat): Result<int, Rejection> {
    if v.None? then Success(default)
    else if v.value.Int? && v.value.i >= 0 then Success(v.value.i)
    else Failure(BadField(f))
  }

  function Positive(v: Option<Value>, f: Field, default: nat): Result<int, Rejection> {
    var n :- Natural(v, f, default);
    if n == 0 then Failure(BadField(f)) else Success(n)
  }

  // ---------------------------------------------------------------- reading a state

  /** What the constructor of a state insists on. */
  function Checked(s: State): Result<State, Rejection> {
    if Strip(s.provider) == "" then Failure(BadField(Provider))
    else if Strip(s.model) == "" then Failure(BadField(Model))
    else if Strip(s.protocol) == "" then Failure(BadField(Protocol))
    else if Strip(s.schemaHash) == "" then Failure(BadField(SchemaHash))
    else if Strip(s.shapeHash) == "" then Failure(BadField(ShapeHash))
    else if s.mediaCount < 0 then Failure(BadField(MediaCount))
    else if s.disposition !in {"preserved", "summarized"} then Failure(BadField(Disposition))
    else if s.retries <= 0 then Failure(BadField(RetriesField))
    else Success(s)
  }

  // A state is read in four groups of fields, one after the other.

  function ParseNames(m: Mapping): Result<(string, string, string, string, string), Rejection> {
    var provider :- RequiredString(Get(m, Provider), Provider);
    var model :- RequiredString(Get(m, Model), Model);
    var protocol :- RequiredString(Get(m, Protocol), Protocol);
    var schemaHash :- RequiredString(Get(m, SchemaHash), SchemaHash);
    var shapeHash :- RequiredString(Get(m, ShapeHash), ShapeHash);
    Success((provider, model, protocol, schemaHash, shapeHash))
  }

  /** Session, parent, resume state, calls, results, batches and bindings. */
  type Tools =
    (Option<string>, Option<string>, Option<string>, seq<string>, seq<string>, seq<seq<string>>, seq<(string, string)>)

  function ParseTools(m: Mapping): Result<Tools, Rejection> {
    var session :- OptionalString(Get(m, Session), Session);
    var parent :- OptionalString(Get(m, Parent), Parent);
    var resume :- OptionalString(Get(m, ResumeHash), ResumeHash);
    var calls :- StringTuple(Get(m, CallsField), CallsField);
    var results :- StringTuple(Get(m, ResultsField), ResultsField);
    var batches :- Groups(Get(m, BatchesField), BatchesField);
    var bindings :- Pairs(Get(m, BindingsField), BindingsField);
    Success((session, parent, resume, calls, results, batches, bindings))
  }

  function ParseMedia(m: Mapping): Result<(Option<string>, Option<string>, int, Option<string>, string), Rejection> {
    var reasoningType :- OptionalString(Get(m, ReasoningType), ReasoningType);
    var reasoningHash :- OptionalString(Get(m, ReasoningHash), ReasoningHash);
    var mediaCount :- Natural(Get(m, MediaCount), MediaCount, 0);
    var mediaTypeHash :- OptionalString(Get(m, MediaTypeHash), MediaTypeHash);
    var disposition :- StringOrDefault(Get(m, Disposition), Disposition, "preserved");
    Success((reasoningType, reasoningHash, mediaCount, mediaTypeHash, disposition))
  }

  function ParseMemory(m: Mapping): Result<(seq<string>, seq<string>, seq<string>, int), Rejection> {
    var memories :- StringTuple(Get(m, MemoriesField), MemoriesField);
    var skills :- StringTuple(Get(m, SkillsField), SkillsField);
    var committed :- StringTuple(Get(m, CommittedField), CommittedField);
    var retries :- Positive(Get(m, RetriesField), RetriesField, 1);
    Success((memories, skills, committed, retries))
  }

  function Parse(m: Mapping): Result<State, Rejection> {
    if m.others * ForbiddenKeys != {} then Failure(ContentBearing(m.others * ForbiddenKeys))
    else if m.others != {} then Failure(Unsupported(m.others))
    else
      var n :- ParseNames(m);
      var t :- ParseTools(m);
      var d :- ParseMedia(m);
      var k :- ParseMemory(m);
      Checked(State(
        n.0, n.1, n.2, n.3, n.4, t.3, t.4, t.5, t.6, d.0, d.1, d.2, d.3, d.4,
        k.0, k.1, k.2, k.3, t.0, t.1, t.2))
  }

  // ---------------------------------------------------------------- printing a state

  function ShowStrings(s: seq<string>): (r: seq<Value>)
    ensures |r| == |s| && forall i | 0 <= i < |s| :: r[i] == Str(s[i])
  {
    seq(|s|, i requires 0 <= i < |s| => Str(s[i]))
  }

  function ShowOptional(s: Option<string>): Value {
    if s.Some? then Str(s.value) else Null
  }

  function ShowBatches(b: seq<seq<string>>): (r: seq<Value>)
    ensures |r| == |b| && forall i | 0 <= i < |b| :: r[i] == List(ShowStrings(b[i]))
  {
    seq(|b|, i requires 0 <= i < |b| => List(ShowStrings(b[i])))
  }

  function ShowBindings(b: seq<(string, string)>): (r: seq<Value>)
    ensures |r| == |b| && forall i | 0 <= i < |b| :: r[i] == List([Str(b[i].0), Str(b[i].1)])
  {
    seq(|b|, i requires 0 <= i < |b| => List([Str(b[i].0), Str(b[i].1)]))
  }

  function Show(s: State, f: Field): Value {
    match f
    case Provider => Str(s.provider)
    case Model => Str(s.model)
    case Protocol => Str(s.protocol)
    case SchemaHash => Str(s.schemaHash)
    case ShapeHash => Str(s.shapeHash)
    case CallsField => List(ShowStrings(s.calls))
    case ResultsField => List(ShowStrings(s.results))
    case BatchesField => List(ShowBatches(s.batches))
    case BindingsField => List(ShowBindings(s.bindings))
    case ReasoningType => ShowOptional(s.reasoningType)
    case ReasoningHash => ShowOptional(s.reasoningHash)
    case MediaCount => Int(s.mediaCount)
    case MediaTypeHash => ShowOptional(s.mediaTypeHash)
    case Disposition => Str(s.disposition)
    case MemoriesField => List(ShowStrings(s.memories))
    case SkillsField => List(ShowStrings(s.skills))
    case CommittedField => List(ShowStrings(s.committed))
    case RetriesField => Int(s.retries)
    case Session => ShowOptional(s.session)
    case Parent => ShowOptional(s.parent)
    case ResumeHash => ShowOptional(s.resume)
  }

  function Receipt(s: State): (m: Mapping)
    ensures forall f :: Get(m, f) == Some(Show(s, f))
  {
    Mapping(map f: Field | true :: Show(s, f), {})
  }

  // ---------------------------------------------------------------- round trips

  predicate Trimmed(s: string) {
    s != "" && Strip(s) == s
  }

  ghost predicate CanonicalNames(s: State) {
    Trimmed(s.provider) && Trimmed(s.model) && Trimmed(s.protocol) && Trimmed(s.schemaHash) && Trimmed(s.shapeHash)
  }

  ghost predicate CanonicalTools(s: State) {
    && "" !in s.calls && "" !in s.results
    && (forall b | b in s.batches :: CanonicalBatch(b))
    && (forall b | b in s.bindings :: b.0 != "" && b.1 != "")
  }

  ghost predicate CanonicalMemory(s: State) {
    "" !in s.memories && "" !in s.skills && "" !in s.committed && s.retries > 0
  }

  /** The states that a receipt can give: trimmed names, no empty identifier, no empty batch,
      and counts in range. */
  ghost predicate Canonical(s: State) {
    && CanonicalNames(s) && CanonicalTools(s) && CanonicalMemory(s)
    && s.mediaCount >= 0 && s.disposition in {"preserved", "summarized"}
  }

  lemma StringsReadBack(s: seq<string>, f: Field)
    ensures StringTuple(Some(List(ShowStrings(s))), f) == Success(s) <==> "" !in s
  {
    var items := ShowStrings(s);
    if "" in s {
      var i :| 0 <= i < |s| && s[i] == "";
      assert items[i] in items;
    } else {
      assert Texts(items) == s;
    }
  }

  lemma BatchReadsBack(b: seq<string>)
    ensures IsBatch(List(ShowStrings(b))) <==> b != [] && "" !in b
  {
    if "" in b {
      var k :| 0 <= k < |b| && b[k] == "";
      assert ShowStrings(b)[k] in ShowStrings(b);
    }
  }

  ghost predicate CanonicalBatch(b: seq<string>) {
    b != [] && "" !in b
  }

  lemma GoodBatchesReadBack(b: seq<seq<string>>, f: Field)
    requires forall i | 0 <= i < |b| :: CanonicalBatch(b[i])
    ensures Groups(Some(List(ShowBatches(b))), f) == Success(b)
  {
    var items := ShowBatches(b);
    forall i | 0 <= i < |b| ensures IsBatch(items[i]) && Texts(items[i].items) == b[i] {
      assert CanonicalBatch(b[i]);
      BatchReadsBack(b[i]);
    }
    var bad := FirstBadBatch(items, 0);
    assert bad == |items|;
    var read := Batches(items);
    assert |read| == |b|;
    forall i | 0 <= i < |b| ensures read[i] == b[i] {
    }
    assert read == b;
  }

  lemma BadBatchIsNoticed(b: seq<seq<string>>, f: Field, i: nat)
    requires i < |b| && !CanonicalBatch(b[i])
    ensures Groups(Some(List(ShowBatches(b))), f).Failure?
  {
    var items := ShowBatches(b);
    BatchReadsBack(b[i]);
    assert !IsBatch(items[i]);
    assert FirstBadBatch(items, 0) <= i;
  }

  lemma BatchesReadBack(b: seq<seq<string>>, f: Field)
    ensures Groups(Some(List(ShowBatches(b))), f) == Success(b) <==> forall x | x in b :: CanonicalBatch(x)
  {
    if i :| 0 <= i < |b| && !CanonicalBatch(b[i]) {
      BadBatchIsNoticed(b, f, i);
      assert b[i] in b;
    } else {
      GoodBatchesReadBack(b, f);
      assert forall x | x in b :: CanonicalBatch(x);
    }
  }

  lemma BindingsReadBack(b: seq<(string, string)>, f: Field)
    ensures Pairs(Some(List(ShowBindings(b))), f) == Success(b) <==> forall x | x in b :: x.0 != "" && x.1 != ""
  {
    var items := ShowBindings(b);
    if forall x | x in b :: x.0 != "" && x.1 != "" {
      assert FirstBadBinding(items, 0) == |items|;
      assert Bindings(items) == b;
    } else {
      var i :| 0 <= i < |b| && !(b[i].0 != "" && b[i].1 != "");
      assert Str("") in items[i].items;
      assert !IsBinding(items[i]);
    }
  }

  lemma NamesReadBack(s: State)
    ensures ParseNames(Receipt(s)) == Success((s.provider, s.model, s.protocol, s.schemaHash, s.shapeHash)) <==>
      CanonicalNames(s)
  {
  }

  lemma ParseToolsExactly(m: Mapping, t: Tools)
    ensures ParseTools(m) == Success(t) <==>
      && OptionalString(Get(m, Session), Session) == Success(t.0)
      && OptionalString(Get(m, Parent), Parent) == Success(t.1)
      && OptionalString(Get(m, ResumeHash), ResumeHash) == Success(t.2)
      && StringTuple(Get(m, CallsField), CallsField) == Success(t.3)
      && StringTuple(Get(m, ResultsField), ResultsField) == Success(t.4)
      && Groups(Get(m, BatchesField), BatchesField) == Success(t.5)
      && Pairs(Get(m, BindingsField), BindingsField) == Success(t.6)
  {
  }

  lemma IdentifiersShown(s: State)
    ensures Get(Receipt(s), CallsField) == Some(List(ShowStrings(s.calls)))
    ensures Get(Receipt(s), ResultsField) == Some(List(ShowStrings(s.results)))
    ensures Get(Receipt(s), BatchesField) == Some(List(ShowBatches(s.batches)))
    ensures Get(Receipt(s), BindingsField) == Some(List(ShowBindings(s.bindings)))
  {
  }

  lemma IdentifiersReadBack(s: State)
    ensures CanonicalTools(s) <==>
      && StringTuple(Get(Receipt(s), CallsField), CallsField) == Success(s.calls)
      && StringTuple(Get(Receipt(s), ResultsField), ResultsField) == Success(s.results)
      && Groups(Get(Receipt(s), BatchesField), BatchesField) == Success(s.batches)
      && Pairs(Get(Receipt(s), BindingsField), BindingsField) == Success(s.bindings)
  {
    IdentifiersShown(s);
    StringsReadBack(s.calls, CallsField);
    StringsReadBack(s.results, ResultsField);
    BatchesReadBack(s.batches, BatchesField);
    BindingsReadBack(s.bindings, BindingsField);
  }

  lemma LineageReadsBack(s: State)
    ensures OptionalString(Get(Receipt(s), Session), Session) == Success(s.session)
    ensures OptionalString(Get(Receipt(s), Parent), Parent) == Success(s.parent)
    ensures OptionalString(Get(Receipt(s), ResumeHash), ResumeHash) == Success(s.resume)
  {
  }

  lemma ToolsReadBack(s: State)
    ensures var shown: Tools := (s.session, s.parent, s.resume, s.calls, s.results, s.batches, s.bindings);
      ParseTools(Receipt(s)) == Success(shown) <==> CanonicalTools(s)
  {
    ParseToolsExactly(Receipt(s), (s.session, s.parent, s.resume, s.calls, s.results, s.batches, s.bindings));
    IdentifiersReadBack(s);
    LineageReadsBack(s);
  }

  lemma MediaReadBack(s: State)
    ensures var shown := (s.reasoningType, s.reasoningHash, s.mediaCount, s.mediaTypeHash, s.disposition);
      ParseMedia(Receipt(s)) == Success(shown) <==>
              s.mediaCount >= 0 && Trimmed(s.disposition)
  {
  }

  lemma MemoryReadsBack(s: State)
    ensures ParseMemory(Receipt(s)) == Success((s.memories, s.skills, s.committed, s.retries)) <==> CanonicalMemory(s)
  {
    StringsReadBack(s.memories, MemoriesField);
    StringsReadBack(s.skills, SkillsField);
    StringsReadBack(s.committed, CommittedField);
  }

  /** A printed receipt reads back as the state it was printed from exactly if that state is
      canonical. */
  lemma ReceiptReadsBackExactly(s: State)
    ensures Parse(Receipt(s)) == Success(s) <==> Canonical(s)
  {
    NamesReadBack(s);
    ToolsReadBack(s);
    MediaReadBack(s);
    MemoryReadsBack(s);
    assert Trimmed("preserved") && Trimmed("summarized");
  }

  lemma StringsRead(v: Option<Value>, f: Field)
    requires StringTuple(v, f).Success?
    ensures "" !in StringTuple(v, f).value
  {
  }

  lemma RequiredRead(v: Option<Value>, f: Field)
    requires RequiredString(v, f).Success?
    ensures Trimmed(RequiredString(v, f).value)
  {
    StripIdempotent(v.value.s);
  }

  lemma GroupsRead(v: Option<Value>, f: Field)
    requires Groups(v, f).Success?
    ensures forall b | b in Groups(v, f).value :: CanonicalBatch(b)
  {
    if v.Some? && v.value.List? {
      var items := v.value.items;
      forall b | b in Batches(items) ensures CanonicalBatch(b) {
        var i :| 0 <= i < |items| && Batches(items)[i] == b;
        assert IsBatch(items[i]);
      }
    }
  }

  lemma PairsRead(v: Option<Value>, f: Field)
    requires Pairs(v, f).Success?
    ensures forall b | b in Pairs(v, f).value :: b.0 != "" && b.1 != ""
  {
    if v.Some? && v.value.List? {
      var items := v.value.items;
      forall b | b in Bindings(items) ensures b.0 != "" && b.1 != "" {
        var i :| 0 <= i < |items| && Bindings(items)[i] == b;
        assert IsBinding(items[i]);
      }
    }
  }

  lemma ParsedNames(m: Mapping)
    requires ParseNames(m).Success?
    ensures var n := ParseNames(m).value; Trimmed(n.0) && Trimmed(n.1) && Trimmed(n.2) && Trimmed(n.3) && Trimmed(n.4)
  {
    RequiredRead(Get(m, Provider), Provider);
    RequiredRead(Get(m, Model), Model);
    RequiredRead(Get(m, Protocol), Protocol);
    RequiredRead(Get(m, SchemaHash), SchemaHash);
    RequiredRead(Get(m, ShapeHash), ShapeHash);
  }

  lemma ParsedTools(m: Mapping)
    requires ParseTools(m).Success?
    ensures var t := ParseTools(m).value;
      && "" !in t.3 && "" !in t.4
      && (forall b | b in t.5 :: CanonicalBatch(b))
      && (forall b | b in t.6 :: b.0 != "" && b.1 != "")
  {
    StringsRead(Get(m, CallsField), CallsField);
    StringsRead(Get(m, ResultsField), ResultsField);
    GroupsRead(Get(m, BatchesField), BatchesField);
    PairsRead(Get(m, BindingsField), BindingsField);
  }

  lemma ParsedMemory(m: Mapping)
    requires ParseMemory(m).Success?
    ensures var k := ParseMemory(m).value; "" !in k.0 && "" !in k.1 && "" !in k.2 && k.3 > 0
  {
    StringsRead(Get(m, MemoriesField), MemoriesField);
    StringsRead(Get(m, SkillsField), SkillsField);
    StringsRead(Get(m, CommittedField), CommittedField);
  }

  /** Every state that was read from a receipt survives printing and reading again. */
  lemma ParsedStatesAreCanonical(m: Mapping)
    requires Parse(m).Success?
    ensures Canonical(Parse(m).value) && Parse(Receipt(Parse(m).value)) == Parse(m)
  {
    var s := Parse(m).value;
    ParsedTools(m);
    ParsedNames(m);
    ParsedMemory(m);
    ReceiptReadsBackExactly(s);
  }

  // ---------------------------------------------------------------- what a mapping says

  /** A required name: text that is not blank, without the white space around it. */
  ghost predicate SaysName(v: Option<Value>, x: string) {
    v.Some? && v.value.Str? && x == Strip(v.value.s) && x != ""
  }

  ghost predicate Missing(v: Option<Value>) {
    v == None || v == Some(Null)
  }

  ghost predicate SaysOption(v: Option<Value>, x: Option<string>) {
    (x.None? && Missing(v)) || (x.Some? && v == Some(Str(x.value)))
  }

  ghost predicate SaysTexts(items: seq<Value>, x: seq<string>) {
    |items| == |x| && forall i | 0 <= i < |x| :: items[i] == Str(x[i]) && x[i] != ""
  }

  ghost predicate SaysTuple(v: Option<Value>, x: seq<string>) {
    (Missing(v) && x == []) || (v.Some? && v.value.List? && SaysTexts(v.value.items, x))
  }

  ghost predicate SaysBatches(v: Option<Value>, x: seq<seq<string>>) {
    || (Missing(v) && x == [])
    || (v.Some? && v.value.List? && |v.value.items| == |x|
        && forall i | 0 <= i < |x| ::
             v.value.items[i].List? && x[i] != [] && SaysTexts(v.value.items[i].items, x[i]))
  }

  ghost predicate SaysBindings(v: Option<Value>, x: seq<(string, string)>) {
    || (Missing(v) && x == [])
    || (v.Some? && v.value.List? && |v.value.items| == |x|
        && forall i | 0 <= i < |x| ::
             v.value.items[i].List? && SaysTexts(v.value.items[i].items, [x[i].0, x[i].1]))
  }

  ghost predicate SaysCount(v: Option<Value>, x: int, default: int, least: int) {
    x >= least && (v == Some(Int(x)) || (v == None && x == default))
  }

  ghost predicate SaysDisposition(v: Option<Value>, x: string) {
    (v == None && x == "preserved") || SaysName(v, x)
  }

  lemma NameExactly(v: Option<Value>, f: Field, x: string)
    ensures RequiredString(v, f) == Success(x) <==> SaysName(v, x)
  {
  }

  lemma OptionExactly(v: Option<Value>, f: Field, x: Option<string>)
    ensures OptionalString(v, f) == Success(x) <==> SaysOption(v, x)
  {
  }

  lemma TextsExactly(items: seq<Value>, x: seq<string>)
    ensures SaysTexts(items, x) <==> AllStrings(items) && Texts(items) == x
  {
    if SaysTexts(items, x) {
      forall v | v in items ensures v.Str? && v.s != "" {
        var i :| 0 <= i < |items| && items[i] == v;
      }
    }
  }

  lemma TupleExactly(v: Option<Value>, f: Field, x: seq<string>)
    ensures StringTuple(v, f) == Success(x) <==> SaysTuple(v, x)
  {
    if v.Some? && v.value.List? {
      TextsExactly(v.value.items, x);
    }
  }

  lemma BatchesExactly(v: Option<Value>, f: Field, x: seq<seq<string>>)
    ensures Groups(v, f) == Success(x) <==> SaysBatches(v, x)
  {
    if v.Some? && v.value.List? {
      var items := v.value.items;
      if |items| == |x| {
        forall i | 0 <= i < |x|
          ensures (items[i].List? && x[i] != [] && SaysTexts(items[i].items, x[i])) <==>
            (IsBatch(items[i]) && Texts(items[i].items) == x[i])
        {
          if items[i].List? {
            TextsExactly(items[i].items, x[i]);
          }
        }
        if SaysBatches(v, x) {
          assert FirstBadBatch(items, 0) == |items|;
          assert Batches(items) == x;
        }
      }
    }
  }

  lemma BindingsExactly(v: Option<Value>, f: Field, x: seq<(string, string)>)
    ensures Pairs(v, f) == Success(x) <==> SaysBindings(v, x)
  {
    if v.Some? && v.value.List? {
      var items := v.value.items;
      if |items| == |x| {
        forall i | 0 <= i < |x|
          ensures (items[i].List? && SaysTexts(items[i].items, [x[i].0, x[i].1])) <==>
            (IsBinding(items[i]) && (items[i].items[0].s, items[i].items[1].s) == x[i])
        {
          if items[i].List? {
            TextsExactly(items[i].items, [x[i].0, x[i].1]);
          }
        }
        if SaysBindings(v, x) {
          assert FirstBadBinding(items, 0) == |items|;
          assert Bindings(items) == x;
        }
      }
    }
  }

  lemma CountExactly(v: Option<Value>, f: Field, default: nat, x: int)
    ensures Natural(v, f, default) == Success(x) <==> SaysCount(v, x, default, 0)
    ensures default > 0 ==> (Positive(v, f, default) == Success(x) <==> SaysCount(v, x, default, 1))
  {
  }

  ghost predicate SaysNames(m: Mapping, s: State) {
    && SaysName(Get(m, Provider), s.provider) && SaysName(Get(m, Model), s.model)
    && SaysName(Get(m, Protocol), s.protocol) && SaysName(Get(m, SchemaHash), s.schemaHash)
    && SaysName(Get(m, ShapeHash), s.shapeHash)
  }

  ghost predicate SaysTools(m: Mapping, s: State) {
    && SaysOption(Get(m, Session), s.session) && SaysOption(Get(m, Parent), s.parent)
    && SaysOption(Get(m, ResumeHash), s.resume)
    && SaysTuple(Get(m, CallsField), s.calls) && SaysTuple(Get(m, ResultsField), s.results)
    && SaysBatches(Get(m, BatchesField), s.batches) && SaysBindings(Get(m, BindingsField), s.bindings)
  }

  ghost predicate SaysMedia(m: Mapping, s: State) {
    && SaysOption(Get(m, ReasoningType), s.reasoningType) && SaysOption(Get(m, ReasoningHash), s.reasoningHash)
    && SaysCount(Get(m, MediaCount), s.mediaCount, 0, 0) && SaysOption(Get(m, MediaTypeHash), s.mediaTypeHash)
    && SaysDisposition(Get(m, Disposition), s.disposition)
  }

  ghost predicate SaysMemory(m: Mapping, s: State) {
    && SaysTuple(Get(m, MemoriesField), s.memories) && SaysTuple(Get(m, SkillsField), s.skills)
    && SaysTuple(Get(m, CommittedField), s.committed) && SaysCount(Get(m, RetriesField), s.retries, 1, 1)
  }

  lemma NamesParsed(m: Mapping, s: State)
    ensures ParseNames(m) == Success((s.provider, s.model, s.protocol, s.schemaHash, s.shapeHash)) <==> SaysNames(m, s)
  {
  }

  lemma ToolsParsed(m: Mapping, s: State)
    ensures var t: Tools := (s.session, s.parent, s.resume, s.calls, s.results, s.batches, s.bindings);
      ParseTools(m) == Success(t) <==> SaysTools(m, s)
  {
    ParseToolsExactly(m, (s.session, s.parent, s.resume, s.calls, s.results, s.batches, s.bindings));
    TupleExactly(Get(m, CallsField), CallsField, s.calls);
    TupleExactly(Get(m, ResultsField), ResultsField, s.results);
    BatchesExactly(Get(m, BatchesField), BatchesField, s.batches);
    BindingsExactly(Get(m, BindingsField), BindingsField, s.bindings);
    LineageExactly(m, s);
  }

  lemma LineageExactly(m: Mapping, s: State)
    ensures OptionalString(Get(m, Session), Session) == Success(s.session) <==> SaysOption(Get(m, Session), s.session)
    ensures OptionalString(Get(m, Parent), Parent) == Success(s.parent) <==> SaysOption(Get(m, Parent), s.parent)
    ensures OptionalString(Get(m, ResumeHash), ResumeHash) == Success(s.resume) <==>
      SaysOption(Get(m, ResumeHash), s.resume)
  {
  }

  lemma MediaParsed(m: Mapping, s: State)
    ensures var t := (s.reasoningType, s.reasoningHash, s.mediaCount, s.mediaTypeHash, s.disposition);
      ParseMedia(m) == Success(t) <==> SaysMedia(m, s)
  {
    CountExactly(Get(m, MediaCount), MediaCount, 0, s.mediaCount);
    assert Strip("preserved") == "preserved";
  }

  lemma MemoryParsed(m: Mapping, s: State)
    ensures ParseMemory(m) == Success((s.memories, s.skills, s.committed, s.retries)) <==> SaysMemory(m, s)
  {
    TupleExactly(Get(m, MemoriesField), MemoriesField, s.memories);
    TupleExactly(Get(m, SkillsField), SkillsField, s.skills);
    TupleExactly(Get(m, CommittedField), CommittedField, s.committed);
    CountExactly(Get(m, RetriesField), RetriesField, 1, s.retries);
  }

  /** A mapping is read as a state exactly if it has no other keys and says the state field by
      field: names trimmed and not blank, absent or null lists empty, absent or null hashes none,
      an absent media count nought, an absent disposition `preserved`, absent retries one, and
      everything that is present of its kind. */
  lemma ParseExactly(m: Mapping, s: State)
    ensures Parse(m) == Success(s) <==>
      && m.others == {} && SaysNames(m, s) && SaysTools(m, s) && SaysMedia(m, s) && SaysMemory(m, s)
      && s.disposition in {"preserved", "summarized"}
  {
    NamesParsed(m, s);
    ToolsParsed(m, s);
    MediaParsed(m, s);
    MemoryParsed(m, s);
    StripKept(s);
  }

  lemma StripKept(s: State)
    ensures forall v: Option<Value>, x | SaysName(v, x) :: Strip(x) == x && x != ""
  {
    forall v: Option<Value>, x | SaysName(v, x) ensures Strip(x) == x {
      StripIdempotent(v.value.s);
    }
  }

  /** Keys that carry content are refused before anything else, and other unknown keys next. */
  lemma KeysExactly(m: Mapping)
    ensures (exists key :: key in m.others && key in ForbiddenKeys) <==>
      Parse(m).Failure? && Parse(m).error.ContentBearing?
    ensures (m.others != {} && forall key | key in m.others :: key !in ForbiddenKeys) <==>
      Parse(m) == Failure(Unsupported(m.others))
    ensures Parse(m).Failure? && Parse(m).error.ContentBearing? ==>
      forall key :: key in Parse(m).error.keys <==> key in m.others && key in ForbiddenKeys
  {
    if key :| key in m.others && key in ForbiddenKeys {
      assert key in m.others * ForbiddenKeys;
    } else if m.others != {} {
      assert m.others * ForbiddenKeys == {};
    } else {
      OwnFieldsFail(m);
    }
  }

  /** The fields of a state are never reported as keys. */
  lemma OwnFieldsFail(m: Mapping)
    requires m.others == {}
    ensures Parse(m).Failure? ==> !OnKeys(Parse(m).error)
  {
    NamesFail(m);
    ToolsFail(m);
  }

  predicate OnKeys(r: Rejection) {
    r.ContentBearing? || r.Unsupported?
  }

  lemma NamesFail(m: Mapping)
    ensures ParseNames(m).Failure? ==> !OnKeys(ParseNames(m).error)
  {
  }

  lemma ToolsFail(m: Mapping)
    ensures ParseTools(m).Failure? ==> !OnKeys(ParseTools(m).error)
  {
  }

  /** Which keys these are. */
  lemma ContentKeysAre(key: string)
    ensures key in ForbiddenKeys <==> CarriesContent(key)
  {
  }

  predicate CarriesContent(key: string) {
    || key == "prompt" || key == "messages" || key == "content" || key == "text" || key == "arguments"
    || key == "tool_result" || key == "image" || key == "image_data" || key == "response" || key == "thinking"
    || key == "reasoning" || key == "reasoning_content" || key == "signature" || key == "encrypted_content"
    || key == "data"
  }
}
