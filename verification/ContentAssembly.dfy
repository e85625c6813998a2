/** Putting the content blocks of a message together from its stream of events, and the
    builders that produce such streams. */
module ContentAssembly {
  import opened Common

  datatype Json =
    | Null | Bool(b: bool) | Number(text: string) | Text(s: string) | List(items: seq<Json>)
    | Object(fields: map<string, Json>)

  datatype Kind = TextKind | ThinkingKind | ToolUse | OtherKind(name: string)

  /** A content block: the fields that the assembly touches, in the form `str` gives them, and
      all others together. `partial` is the accumulated JSON text of a tool's input. */
  datatype Block = Block(
    kind: Kind, text: Option<string>, thinking: Option<string>, partial: Option<string>,
    input: Option<Json>, others: map<string, Json>)

  datatype DeltaBody =
    | TextDelta(text: string) | ThinkingDelta(thinking: string) | InputJsonDelta(json: string)
    | SignatureDelta(signature: string) | UnknownDelta(name: string)

  /** Deltas that the assembly ignores. */
  predicate Silent(d: DeltaBody) {
    d.SignatureDelta? || d.UnknownDelta?
  }

  /** Events of other kinds. */
  datatype Notice = MessageStart | BlockStop | MessageDelta | MessageStop | OtherNotice(name: string)

  /** An index that is not an integer, and a block or delta that is not an object, are None. */
  datatype Event =
    | Start(index: Option<int>, block: Option<Block>)
    | Delta(index: Option<int>, body: Option<DeltaBody>)
    | Other(notice: Notice)

  datatype BadIndex = BadIndex

  predicate Indexed(e: Event) {
    e.Other? || e.index.Some?
  }

  predicate IsAt(e: Event, i: int) {
    !e.Other? && e.index == Some(i)
  }

  predicate Starts(e: Event) {
    e.Start? && e.index.Some? && e.block.Some?
  }

  function OrEmpty(s: Option<string>): string {
    if s.Some? then s.value else ""
  }

  function Append(s: Option<string>, more: string): Option<string> {
    Some(OrEmpty(s) + more)
  }

  function Absorb(b: Block, d: DeltaBody): Block {
    match d
    case TextDelta(t) => b.(text := Append(b.text, t))
    case ThinkingDelta(t) => b.(thinking := Append(b.thinking, t))
    case InputJsonDelta(t) => b.(partial := Append(b.partial, t))
    case SignatureDelta(_) => b
    case UnknownDelta(_) => b
  }

  /** A tool's input is parsed once the block is complete; text that is no JSON counts as {}. */
  function Finish(b: Block, parse: string -> Option<Json>): Block {
    if b.kind != ToolUse then b
    else
      var done := b.(partial := None);
      if OrEmpty(b.partial) == "" then done
      else match parse(b.partial.value)
        case Some(j) => done.(input := Some(j))
        case None => done.(input := Some(Object(map[])))
  }

  // ---------------------------------------------------------------- what a stream means

  /** The blocks in the order in which they were started. */
  function Order(es: seq<Event>): seq<int> {
    if es == [] then []
    else
      var last := es[|es| - 1];
      Order(es[..|es| - 1]) + if Starts(last) then [last.index.value] else []
  }

  /** The block at index `i` as far as the events tell it. */
  function Latest(es: seq<Event>, i: int): Option<Block> {
    if es == [] then None
    else
      var last, before := es[|es| - 1], Latest(es[..|es| - 1], i);
      if !IsAt(last, i) then before
      else if last.Start? then if last.block.Some? then last.block else before
      else if before.Some? && last.body.Some? then Some(Absorb(before.value, last.body.value))
      else before
  }

  lemma {:induction false} StartedIsKnown(es: seq<Event>, i: int)
    ensures i in Order(es) <==> Latest(es, i).Some?
  {
    if es != [] {
      StartedIsKnown(es[..|es| - 1], i);
    }
  }

  function Contents(es: seq<Event>, parse: string -> Option<Json>): seq<Block> {
    var order := Order(es);
    seq(|order|, k requires 0 <= k < |order| =>
      StartedIsKnown(es, order[k]); Finish(Latest(es, order[k]).value, parse))
  }

  lemma StepOrder(es: seq<Event>, e: Event)
    ensures Order(es + [e]) == if Starts(e) then Order(es) + [e.index.value] else Order(es)
  {
    assert (es + [e])[..|es|] == es;
  }

  lemma StepLatest(es: seq<Event>, e: Event, i: int)
    ensures Latest(es + [e], i) ==
      if !IsAt(e, i) then Latest(es, i)
      else if e.Start? then if e.block.Some? then e.block else Latest(es, i)
      else if Latest(es, i).Some? && e.body.Some? then Some(Absorb(Latest(es, i).value, e.body.value))
      else Latest(es, i)
  {
    assert (es + [e])[..|es|] == es;
  }

  /** The state of the assembly after some events. */
  ghost predicate Reflects(blocks: map<int, Block>, order: seq<int>, es: seq<Event>) {
    && order == Order(es)
    && (forall i :: i in blocks <==> Latest(es, i).Some?)
    && (forall i | i in blocks :: Latest(es, i) == Some(blocks[i]))
  }

  lemma ReflectsStep(blocks: map<int, Block>, order: seq<int>, es: seq<Event>, e: Event, blocks': map<int, Block>)
    requires Reflects(blocks, order, es) && Indexed(e)
    requires
      if e.Other? then blocks' == blocks
      else if e.Start? then blocks' == if e.block.Some? then blocks[e.index.value := e.block.value] else blocks
      else if e.body.Some? && e.index.value in blocks then
        blocks' == blocks[e.index.value := Absorb(blocks[e.index.value], e.body.value)]
      else blocks' == blocks
    ensures Reflects(blocks', if Starts(e) then order + [e.index.value] else order, es + [e])
  {
    StepOrder(es, e);
    forall i
      ensures (i in blocks' <==> Latest(es + [e], i).Some?)
      ensures (i in blocks' ==> Latest(es + [e], i) == Some(blocks'[i]))
    {
      StepLatest(es, e, i);
    }
  }

  /** Collects blocks and their order event by event, then finishes each block. A block that
      was started twice under one index is one object: finishing it again finds the collected
      JSON gone and leaves it as it is. */
  method AssembleContent(es: seq<Event>, parse: string -> Option<Json>) returns (r: Result<seq<Block>, BadIndex>)
    ensures r.Failure? <==> exists e :: e in es && !Indexed(e)
    ensures r.Success? ==> r.value == Contents(es, parse)
  {
    var blocks: map<int, Block> := map[];
    var order: seq<int> := [];
    for n := 0 to |es|
      invariant forall e | e in es[..n] :: Indexed(e)
      invariant Reflects(blocks, order, es[..n])
    {
      var e := es[n];
      ghost var before := blocks;
      assert es[..n + 1] == es[..n] + [e];
      assert e in es;
      if e.Start? {
        if e.index.None? {
          return Failure(BadIndex);
        }
        if e.block.Some? {
          blocks := blocks[e.index.value := e.block.value];
          order := order + [e.index.value];
        }
      } else if e.Delta? {
        if e.index.None? {
          return Failure(BadIndex);
        }
        if e.index.value in blocks && e.body.Some? {
          var block := blocks[e.index.value];
          match e.body.value {
            case TextDelta(t) => block := block.(text := Some(OrEmpty(block.text) + t));
            case ThinkingDelta(t) => block := block.(thinking := Some(OrEmpty(block.thinking) + t));
            case InputJsonDelta(t) => block := block.(partial := Some(OrEmpty(block.partial) + t));
            case SignatureDelta(_) =>
            case UnknownDelta(_) =>
          }
          blocks := blocks[e.index.value := block];
        }
      }
      ReflectsStep(before, Order(es[..n]), es[..n], e, blocks);
    }
    assert es[..|es|] == es;
    var collected := FinishAll(blocks, order, es, parse);
    r := Success(collected);
  }

  lemma FinishedTwice(b: Block, parse: string -> Option<Json>)
    ensures Finish(Finish(b, parse), parse) == Finish(b, parse)
  {
  }

  method FinishOne(b: Block, parse: string -> Option<Json>) returns (block: Block)
    ensures block == Finish(b, parse)
  {
    block := b;
    if block.kind == ToolUse {
      var partial := OrEmpty(block.partial);
      block := block.(partial := None);
      if partial != "" {
        var parsed := parse(partial);
        block := block.(input := Some(if parsed.Some? then parsed.value else Object(map[])));
      }
    }
  }

  /** The blocks of `done` are finished, the others are as collected. */
  ghost predicate FinishedUpTo(
      blocks: map<int, Block>, collected: map<int, Block>, done: seq<int>, parse: string -> Option<Json>) {
    && blocks.Keys == collected.Keys
    && forall i | i in blocks :: blocks[i] == if i in done then Finish(collected[i], parse) else collected[i]
  }

  lemma FinishOneMore(
      blocks: map<int, Block>, collected: map<int, Block>, done: seq<int>, i: int, parse: string -> Option<Json>)
    requires FinishedUpTo(blocks, collected, done, parse) && i in blocks
    ensures Finish(blocks[i], parse) == Finish(collected[i], parse)
    ensures FinishedUpTo(blocks[i := Finish(blocks[i], parse)], collected, done + [i], parse)
  {
    FinishedTwice(collected[i], parse);
  }

  method FinishAll(collected: map<int, Block>, order: seq<int>, ghost es: seq<Event>, parse: string -> Option<Json>)
    returns (content: seq<Block>)
    requires Reflects(collected, order, es)
    ensures content == Contents(es, parse)
  {
    var blocks := collected;
    content := [];
    forall i | i in order ensures i in blocks {
      StartedIsKnown(es, i);
    }
    for k := 0 to |order|
      invariant |content| == k && FinishedUpTo(blocks, collected, order[..k], parse)
      invariant forall j | 0 <= j < k :: content[j] == Finish(collected[order[j]], parse)
    {
      var i := order[k];
      FinishOneMore(blocks, collected, order[..k], i, parse);
      assert order[..k + 1] == order[..k] + [i];
      var block := FinishOne(blocks[i], parse);
      blocks := blocks[i := block];
      content := content + [block];
    }
  }

  // ---------------------------------------------------------------- interleavings

  /** The events of one block, in order. */
  function Project(es: seq<Event>, i: int): seq<Event> {
    if es == [] then []
    else Project(es[..|es| - 1], i) + if IsAt(es[|es| - 1], i) then [es[|es| - 1]] else []
  }

  lemma {:induction false} BlockFromItsEvents(es: seq<Event>, i: int)
    ensures Latest(es, i) == Latest(Project(es, i), i)
  {
    if es != [] {
      var m := |es| - 1;
      BlockFromItsEvents(es[..m], i);
      if IsAt(es[m], i) {
        StepLatest(Project(es[..m], i), es[m], i);
        assert Project(es, i) == Project(es[..m], i) + [es[m]];
      } else {
        assert Project(es, i) == Project(es[..m], i);
      }
    }
  }

  /** How the events of different blocks are interleaved does not matter, nor do any other
      events: streams that start the same blocks in the same order and tell the same about
      each have the same contents. */
  lemma InterleavingIsIrrelevant(es: seq<Event>, fs: seq<Event>, parse: string -> Option<Json>)
    requires Order(es) == Order(fs)
    requires forall i | i in Order(es) :: Project(es, i) == Project(fs, i)
    ensures Contents(es, parse) == Contents(fs, parse)
  {
    var order := Order(es);
    assert |Contents(es, parse)| == |order| == |Contents(fs, parse)|;
    forall k | 0 <= k < |order| ensures Contents(es, parse)[k] == Contents(fs, parse)[k] {
      BlockFromItsEvents(es, order[k]);
      BlockFromItsEvents(fs, order[k]);
      StartedIsKnown(es, order[k]);
    }
  }

  lemma {:induction false} ProjectConcat(es: seq<Event>, fs: seq<Event>, i: int)
    ensures Project(es + fs, i) == Project(es, i) + Project(fs, i)
  {
    if fs == [] {
      assert es + fs == es;
    } else {
      var m := |fs| - 1;
      ProjectConcat(es, fs[..m], i);
      assert (es + fs)[..|es| + m] == es + fs[..m];
    }
  }

  lemma {:induction false} OrderConcat(es: seq<Event>, fs: seq<Event>)
    ensures Order(es + fs) == Order(es) + Order(fs)
  {
    if fs == [] {
      assert es + fs == es;
    } else {
      var m := |fs| - 1;
      OrderConcat(es, fs[..m]);
      assert (es + fs)[..|es| + m] == es + fs[..m];
    }
  }

  lemma MiddleReplaced(before: seq<Event>, x: seq<Event>, y: seq<Event>, after: seq<Event>,
      parse: string -> Option<Json>)
    requires Order(x) == Order(y)
    requires forall i :: Project(x, i) == Project(y, i)
    ensures Contents(before + x + after, parse) == Contents(before + y + after, parse)
  {
    OrderConcat(before + x, after);
    OrderConcat(before, x);
    OrderConcat(before + y, after);
    OrderConcat(before, y);
    forall i ensures Project(before + x + after, i) == Project(before + y + after, i) {
      ProjectConcat(before + x, after, i);
      ProjectConcat(before, x, i);
      ProjectConcat(before + y, after, i);
      ProjectConcat(before, y, i);
    }
    InterleavingIsIrrelevant(before + x + after, before + y + after, parse);
  }

  lemma Single(e: Event, i: int)
    ensures Project([e], i) == if IsAt(e, i) then [e] else []
    ensures Order([e]) == if Starts(e) then [e.index.value] else []
  {
    assert [e][..0] == [];
    assert Project([e], i) == Project([e][..0], i) + (if IsAt(e, i) then [e] else []);
    assert Order([e]) == Order([e][..0]) + (if Starts(e) then [e.index.value] else []);
  }

  lemma PairProjects(e: Event, f: Event, i: int)
    ensures Project([e, f], i) == (if IsAt(e, i) then [e] else []) + if IsAt(f, i) then [f] else []
    ensures Order([e, f]) == (if Starts(e) then [e.index.value] else []) + if Starts(f) then [f.index.value] else []
  {
    assert [e, f] == [e] + [f];
    OrderConcat([e], [f]);
    ProjectConcat([e], [f], i);
    Single(e, i);
    Single(f, i);
  }

  /** Neighbouring events of different blocks may change places, unless both start one. */
  lemma SwapIsIrrelevant(before: seq<Event>, e: Event, f: Event, after: seq<Event>, parse: string -> Option<Json>)
    requires e.Other? || f.Other? || e.index != f.index
    requires !Starts(e) || !Starts(f)
    ensures Contents(before + [e, f] + after, parse) == Contents(before + [f, e] + after, parse)
  {
    forall i ensures Project([e, f], i) == Project([f, e], i) && Order([e, f]) == Order([f, e]) {
      PairProjects(e, f, i);
      PairProjects(f, e, i);
    }
    MiddleReplaced(before, [e, f], [f, e], after, parse);
  }

  // ---------------------------------------------------------------- concatenation

  datatype Channel = TextChannel | ThinkingChannel | JsonChannel

  function Carry(c: Channel, t: string): DeltaBody {
    match c
    case TextChannel => TextDelta(t)
    case ThinkingChannel => ThinkingDelta(t)
    case JsonChannel => InputJsonDelta(t)
  }

  function Field(b: Block, c: Channel): Option<string> {
    match c
    case TextChannel => b.text
    case ThinkingChannel => b.thinking
    case JsonChannel => b.partial
  }

  /** The text that an event adds to one channel of the block at `i`. */
  function Piece(e: Event, i: int, c: Channel): seq<string> {
    if e.Delta? && IsAt(e, i) && e.body.Some? then
      match (c, e.body.value)
      case (TextChannel, TextDelta(t)) => [t]
      case (ThinkingChannel, ThinkingDelta(t)) => [t]
      case (JsonChannel, InputJsonDelta(t)) => [t]
      case _ => []
    else []
  }

  function Pieces(es: seq<Event>, i: int, c: Channel): seq<string> {
    if es == [] then [] else Pieces(es[..|es| - 1], i, c) + Piece(es[|es| - 1], i, c)
  }

  function Joined(parts: seq<string>): string {
    if parts == [] then "" else Joined(parts[..|parts| - 1]) + parts[|parts| - 1]
  }

  /** A field grows by all pieces of its channel, and stays absent without any. */
  function Grown(s: Option<string>, pieces: seq<string>): Option<string> {
    if pieces == [] then s else Some(OrEmpty(s) + Joined(pieces))
  }

  lemma GrownStep(s: Option<string>, pieces: seq<string>, t: string)
    ensures Grown(s, pieces + [t]) == Append(Grown(s, pieces), t)
  {
    assert (pieces + [t])[..|pieces|] == pieces;
    assert OrEmpty(s) + (Joined(pieces) + t) == (OrEmpty(s) + Joined(pieces)) + t;
    if pieces == [] {
      assert Joined(pieces) == "" && OrEmpty(s) + "" == OrEmpty(s);
    }
  }

  lemma GrownBy(b: Block, es: seq<Event>, e: Event, i: int, c: Channel)
    ensures Grown(Field(b, c), Pieces(es + [e], i, c)) ==
              (if Piece(e, i, c) == [] then Grown(Field(b, c), Pieces(es, i, c))
               else Append(Grown(Field(b, c), Pieces(es, i, c)), Piece(e, i, c)[0]))
  {
    assert (es + [e])[..|es|] == es;
    if Piece(e, i, c) != [] {
      GrownStep(Field(b, c), Pieces(es, i, c), Piece(e, i, c)[0]);
    } else {
      assert Pieces(es + [e], i, c) == Pieces(es, i, c);
    }
  }

  /** What a block started as `b` holds, with the deltas of `es` put behind one another
      channel by channel. */
  function Built(b: Block, es: seq<Event>, i: int): Block {
    b.(text := Grown(b.text, Pieces(es, i, TextChannel)),
       thinking := Grown(b.thinking, Pieces(es, i, ThinkingChannel)),
       partial := Grown(b.partial, Pieces(es, i, JsonChannel)))
  }

  lemma BuiltStep(b: Block, es: seq<Event>, e: Event, i: int)
    ensures Built(b, es + [e], i) ==
              if IsAt(e, i) && e.Delta? && e.body.Some? then Absorb(Built(b, es, i), e.body.value) else Built(b, es, i)
  {
    GrownBy(b, es, e, i, TextChannel);
    GrownBy(b, es, e, i, ThinkingChannel);
    GrownBy(b, es, e, i, JsonChannel);
  }

  lemma BuiltGrows(es: seq<Event>, b: Block, after: seq<Event>, e: Event, i: int)
    requires Latest(es, i) == Some(Built(b, after, i)) && !(IsAt(e, i) && Starts(e))
    ensures Latest(es + [e], i) == Some(Built(b, after + [e], i))
  {
    StepLatest(es, e, i);
    BuiltStep(b, after, e, i);
  }

  /** A block holds what it was last started with, followed by the concatenation of its deltas
      since, channel by channel. */
  lemma {:induction false} BlockIsConcatenation(before: seq<Event>, i: int, b: Block, after: seq<Event>)
    requires forall e | e in after :: IsAt(e, i) ==> !Starts(e)
    ensures Latest(before + [Start(Some(i), Some(b))] + after, i) == Some(Built(b, after, i))
  {
    var head := before + [Start(Some(i), Some(b))];
    if after == [] {
      assert head + after == head;
      StepLatest(before, Start(Some(i), Some(b)), i);
    } else {
      var m := |after| - 1;
      var e := after[m];
      BlockIsConcatenation(before, i, b, after[..m]);
      assert after == after[..m] + [e] && head + after == (head + after[..m]) + [e];
      BuiltGrows(head + after[..m], b, after[..m], e, i);
    }
  }

  // ---------------------------------------------------------------- splitting deltas

  function Deltas(i: int, c: Channel, parts: seq<string>): (r: seq<Event>)
    ensures |r| == |parts|
    ensures forall k | 0 <= k < |r| :: r[k] == Delta(Some(i), Some(Carry(c, parts[k])))
  {
    seq(|parts|, k requires 0 <= k < |parts| => Delta(Some(i), Some(Carry(c, parts[k]))))
  }

  function AbsorbAll(b: Block, c: Channel, parts: seq<string>): Block {
    if parts == [] then b else Absorb(AbsorbAll(b, c, parts[..|parts| - 1]), Carry(c, parts[|parts| - 1]))
  }

  lemma {:induction false} SplitAbsorbs(b: Block, c: Channel, parts: seq<string>)
    requires parts != []
    ensures AbsorbAll(b, c, parts) == Absorb(b, Carry(c, Joined(parts)))
  {
    var m := |parts| - 1;
    if m == 0 {
      assert parts[..0] == [] && Joined(parts) == "" + parts[0] == parts[0];
    } else {
      SplitAbsorbs(b, c, parts[..m]);
      assert OrEmpty(Field(b, c)) + (Joined(parts[..m]) + parts[m]) ==
        OrEmpty(Field(b, c)) + Joined(parts[..m]) + parts[m];
    }
  }

  lemma {:induction false} LatestAfterDeltas(es: seq<Event>, i: int, c: Channel, parts: seq<string>, j: int)
    ensures Latest(es + Deltas(i, c, parts), j) ==
              (if i == j && Latest(es, j).Some? then Some(AbsorbAll(Latest(es, j).value, c, parts)) else Latest(es, j))
  {
    if parts == [] {
      assert es + Deltas(i, c, parts) == es;
    } else {
      var m := |parts| - 1;
      LatestAfterDeltas(es, i, c, parts[..m], j);
      assert es + Deltas(i, c, parts) == (es + Deltas(i, c, parts[..m])) + [Delta(Some(i), Some(Carry(c, parts[m])))];
      StepLatest(es + Deltas(i, c, parts[..m]), Delta(Some(i), Some(Carry(c, parts[m]))), j);
    }
  }

  /** Beginnings that tell the same go on telling the same. */
  lemma {:induction false} SameLatestAfter(es: seq<Event>, fs: seq<Event>, after: seq<Event>, j: int)
    requires Latest(es, j) == Latest(fs, j)
    ensures Latest(es + after, j) == Latest(fs + after, j)
  {
    if after == [] {
      assert es + after == es && fs + after == fs;
    } else {
      var m := |after| - 1;
      SameLatestAfter(es, fs, after[..m], j);
      assert es + after == es + after[..m] + [after[m]] && fs + after == fs + after[..m] + [after[m]];
      StepLatest(es + after[..m], after[m], j);
      StepLatest(fs + after[..m], after[m], j);
    }
  }

  lemma {:induction false} DeltasStartNothing(i: int, c: Channel, parts: seq<string>)
    ensures Order(Deltas(i, c, parts)) == []
  {
    if parts != [] {
      var m := |parts| - 1;
      DeltasStartNothing(i, c, parts[..m]);
      assert Deltas(i, c, parts)[..m] == Deltas(i, c, parts[..m]);
    }
  }

  /** A delta may be split into any pieces, empty ones included. */
  lemma SplitIsIrrelevant(before: seq<Event>, i: int, c: Channel, parts: seq<string>, after: seq<Event>,
      parse: string -> Option<Json>)
    requires parts != []
    ensures Contents(before + Deltas(i, c, [Joined(parts)]) + after, parse) ==
      Contents(before + Deltas(i, c, parts) + after, parse)
  {
    var whole := [Joined(parts)];
    var es, fs := before + Deltas(i, c, whole) + after, before + Deltas(i, c, parts) + after;
    OrderConcat(before + Deltas(i, c, whole), after);
    OrderConcat(before, Deltas(i, c, whole));
    OrderConcat(before + Deltas(i, c, parts), after);
    OrderConcat(before, Deltas(i, c, parts));
    DeltasStartNothing(i, c, whole);
    DeltasStartNothing(i, c, parts);
    assert Order(es) == Order(fs);
    forall j ensures Latest(es, j) == Latest(fs, j) {
      LatestAfterDeltas(before, i, c, whole, j);
      LatestAfterDeltas(before, i, c, parts, j);
      if i == j && Latest(before, j).Some? {
        SplitAbsorbs(Latest(before, j).value, c, parts);
        assert whole[..0] == [];
        assert AbsorbAll(Latest(before, j).value, c, whole[..0]) == Latest(before, j).value;
      }
      SameLatestAfter(before + Deltas(i, c, whole), before + Deltas(i, c, parts), after, j);
    }
    forall k | 0 <= k < |Order(es)| ensures Contents(es, parse)[k] == Contents(fs, parse)[k] {
    }
  }

  // ---------------------------------------------------------------- the builders

  /** What a builder is asked for. */
  datatype Spec =
    | Thinking(thinking: string, emitDelta: bool, signature: Option<string>, unknownDelta: bool)
    | Plain(text: string)
    | Tool

  const ToolInput := "{\"file_path\":\"synthetic-fixture.txt\"}"

  const EmptyBlock := Block(TextKind, None, None, None, None, map[])

  /** The events of a block: how it starts, and the deltas that follow. */
  datatype Plan = Plan(first: Block, bodies: seq<DeltaBody>)

  function PlanOf(s: Spec): Plan {
    match s
    case Thinking(t, emit, signature, unknown) =>
      Plan(EmptyBlock.(kind := ThinkingKind, thinking := Some("")),
        (if emit then [ThinkingDelta(t)] else []) + Extras(signature, unknown))
    case Plain(t) => Plan(EmptyBlock.(text := Some("")), [TextDelta(t)])
    case Tool => Plan(ToolBlock, [InputJsonDelta(ToolInput)])
  }

  const ToolBlock := EmptyBlock.(
    kind := ToolUse, input := Some(Object(map[])),
    others := map["id" := Text("toolu_synthetic_read"), "name" := Text("Read")])

  /** Deltas that clients need not know. */
  function Extras(signature: Option<string>, unknown: bool): (r: seq<DeltaBody>)
    ensures forall d | d in r :: Silent(d)
    ensures forall d | d in r :: d.UnknownDelta? ==> unknown
    ensures unknown ==> UnknownDelta("synthetic_additive_delta") in r
    ensures forall text :: SignatureDelta(text) in r <==> signature == Some(text)
  {
    var ignored := if unknown then [UnknownDelta("synthetic_additive_delta")] else [];
    (if signature.Some? then [SignatureDelta(signature.value)] else []) + ignored
  }

  function At(i: int, bodies: seq<DeltaBody>): (r: seq<Event>)
    ensures |r| == |bodies| && forall e | e in r :: e.Delta? && e.index == Some(i)
  {
    if bodies == [] then [] else At(i, bodies[..|bodies| - 1]) + [Delta(Some(i), Some(bodies[|bodies| - 1]))]
  }

  /** The events at index `i` that a builder produces. */
  function Core(i: int, p: Plan): seq<Event> {
    [Start(Some(i), Some(p.first))] + At(i, p.bodies)
  }

  function BlockEvents(i: int, p: Plan): seq<Event> {
    Core(i, p) + [Other(BlockStop)]
  }

  /** The blocks of a message under consecutive indexes. */
  function Blocks(plans: seq<Plan>): (r: seq<seq<Event>>)
    ensures |r| == |plans| && forall k | 0 <= k < |r| :: r[k] == BlockEvents(k, plans[k])
  {
    seq(|plans|, k requires 0 <= k < |plans| => BlockEvents(k, plans[k]))
  }

  function Flat(parts: seq<seq<Event>>): seq<Event> {
    if parts == [] then [] else Flat(parts[..|parts| - 1]) + parts[|parts| - 1]
  }

  function Plans(specs: seq<Spec>): (r: seq<Plan>)
    ensures |r| == |specs| && forall k | 0 <= k < |r| :: r[k] == PlanOf(specs[k])
  {
    seq(|specs|, k requires 0 <= k < |specs| => PlanOf(specs[k]))
  }

  function Framed(body: seq<Event>): seq<Event> {
    [Other(MessageStart)] + body + [Other(MessageDelta), Other(MessageStop)]
  }

  function Message(specs: seq<Spec>): seq<Event> {
    Framed(Flat(Blocks(Plans(specs))))
  }

  /** The block a builder stands for: signatures and unknown deltas leave no trace in it. */
  function Intended(s: Spec, parse: string -> Option<Json>): Block {
    match s
    case Thinking(t, emit, _, _) => EmptyBlock.(kind := ThinkingKind, thinking := Some(if emit then t else ""))
    case Plain(t) => EmptyBlock.(text := Some(t))
    case Tool => ToolBlock.(input := Some(match parse(ToolInput) case Some(j) => j case None => Object(map[])))
  }

  lemma {:induction false} AtProjects(i: int, bodies: seq<DeltaBody>, j: int)
    ensures Project(At(i, bodies), j) == if i == j then At(i, bodies) else []
    ensures Order(At(i, bodies)) == []
  {
    if bodies != [] {
      var m := |bodies| - 1;
      AtProjects(i, bodies[..m], j);
      assert At(i, bodies)[..m] == At(i, bodies[..m]);
    }
  }

  lemma ThreeParts(x: seq<Event>, y: seq<Event>, z: seq<Event>, j: int)
    ensures Project(x + y + z, j) == Project(x, j) + Project(y, j) + Project(z, j)
    ensures Order(x + y + z) == Order(x) + Order(y) + Order(z)
  {
    ProjectConcat(x + y, z, j);
    ProjectConcat(x, y, j);
    OrderConcat(x + y, z);
    OrderConcat(x, y);
  }

  lemma CoreProjects(i: int, p: Plan, j: int)
    ensures Project(Core(i, p), j) == if i == j then Core(i, p) else []
    ensures Order(Core(i, p)) == [i]
  {
    var first := Start(Some(i), Some(p.first));
    ProjectConcat([first], At(i, p.bodies), j);
    OrderConcat([first], At(i, p.bodies));
    Single(first, j);
    AtProjects(i, p.bodies, j);
  }

  lemma BlockProjects(i: int, p: Plan, j: int)
    ensures Project(BlockEvents(i, p), j) == if i == j then Core(i, p) else []
    ensures Order(BlockEvents(i, p)) == [i]
  {
    CoreProjects(i, p, j);
    var core, stop := Core(i, p), Other(BlockStop);
    ProjectConcat(core, [stop], j);
    OrderConcat(core, [stop]);
    Single(stop, j);
  }

  lemma {:induction false} NoneSpeaks(parts: seq<seq<Event>>, j: int)
    requires forall k | 0 <= k < |parts| :: Project(parts[k], j) == []
    ensures Project(Flat(parts), j) == []
  {
    if parts != [] {
      var m := |parts| - 1;
      NoneSpeaks(parts[..m], j);
      ProjectConcat(Flat(parts[..m]), parts[m], j);
    }
  }

  /** When one part alone has events at `j`, the whole has just these. */
  lemma {:induction false} OneSpeaks(parts: seq<seq<Event>>, only: nat, j: int, own: seq<Event>)
    requires only < |parts| && Project(parts[only], j) == own
    requires forall k | 0 <= k < |parts| && k != only :: Project(parts[k], j) == []
    ensures Project(Flat(parts), j) == own
  {
    var m := |parts| - 1;
    ProjectConcat(Flat(parts[..m]), parts[m], j);
    Neutral(own);
    if only == m {
      NoneSpeaks(parts[..m], j);
    } else {
      OneSpeaks(parts[..m], only, j, own);
    }
  }

  lemma {:induction false} OrderOfParts(parts: seq<seq<Event>>)
    requires forall k | 0 <= k < |parts| :: Order(parts[k]) == [k]
    ensures |Order(Flat(parts))| == |parts| && forall k | 0 <= k < |parts| :: Order(Flat(parts))[k] == k
  {
    if parts != [] {
      var m := |parts| - 1;
      OrderOfParts(parts[..m]);
      OrderConcat(Flat(parts[..m]), parts[m]);
    }
  }

  lemma Neutral(es: seq<Event>)
    ensures es + [] == es && [] + es == es
  {
  }

  lemma FramedProjects(body: seq<Event>, j: int)
    ensures Project(Framed(body), j) == Project(body, j)
    ensures Order(Framed(body)) == Order(body)
  {
    var start, delta, stop := Other(MessageStart), Other(MessageDelta), Other(MessageStop);
    ThreeParts([start], body, [delta, stop], j);
    Single(start, j);
    PairProjects(delta, stop, j);
  }

  function AbsorbBodies(b: Block, bodies: seq<DeltaBody>): Block {
    if bodies == [] then b else Absorb(AbsorbBodies(b, bodies[..|bodies| - 1]), bodies[|bodies| - 1])
  }

  lemma {:induction false} AtAbsorbs(i: int, b: Block, bodies: seq<DeltaBody>)
    ensures Latest([Start(Some(i), Some(b))] + At(i, bodies), i) == Some(AbsorbBodies(b, bodies))
  {
    var first := [Start(Some(i), Some(b))];
    if bodies == [] {
      assert first + At(i, bodies) == [] + first;
      StepLatest([], first[0], i);
    } else {
      var m := |bodies| - 1;
      AtAbsorbs(i, b, bodies[..m]);
      assert first + At(i, bodies) == (first + At(i, bodies[..m])) + [Delta(Some(i), Some(bodies[m]))];
      StepLatest(first + At(i, bodies[..m]), Delta(Some(i), Some(bodies[m])), i);
    }
  }

  /** Deltas of unknown kinds leave the block alone. */
  lemma {:induction false} OthersIgnored(b: Block, bodies: seq<DeltaBody>, others: seq<DeltaBody>)
    requires forall d | d in others :: Silent(d)
    ensures AbsorbBodies(b, bodies + others) == AbsorbBodies(b, bodies)
  {
    if others == [] {
      assert bodies + others == bodies;
    } else {
      var m := |others| - 1;
      OthersIgnored(b, bodies, others[..m]);
      var all := bodies + others;
      assert all[..|all| - 1] == bodies + others[..m] && all[|all| - 1] == others[m];
      assert others[m] in others;
      assert AbsorbBodies(b, all) == Absorb(AbsorbBodies(b, all[..|all| - 1]), others[m]);
    }
  }

  lemma OneAbsorbed(b: Block, d: DeltaBody)
    ensures AbsorbBodies(b, [d]) == Absorb(b, d)
  {
    assert [d][..0] == [];
    assert AbsorbBodies(b, [d][..0]) == b;
  }

  lemma ThinkingAssembles(b: Block, t: string, emit: bool, extras: seq<DeltaBody>)
    requires b.thinking == Some("") && forall d | d in extras :: Silent(d)
    ensures AbsorbBodies(b, (if emit then [ThinkingDelta(t)] else []) + extras) ==
      b.(thinking := Some(if emit then t else ""))
  {
    OthersIgnored(b, if emit then [ThinkingDelta(t)] else [], extras);
    OneAbsorbed(b, ThinkingDelta(t));
    assert "" + t == t;
  }

  lemma BuilderAssembles(i: int, s: Spec, parse: string -> Option<Json>)
    ensures var built := Latest(Core(i, PlanOf(s)), i);
      built.Some? && Finish(built.value, parse) == Intended(s, parse)
  {
    var p := PlanOf(s);
    AtAbsorbs(i, p.first, p.bodies);
    match s
    case Thinking(t, emit, signature, unknown) => ThinkingAssembles(p.first, t, emit, Extras(signature, unknown));
    case Plain(t) =>
      OneAbsorbed(p.first, TextDelta(t));
      assert "" + t == t;
    case Tool =>
      OneAbsorbed(p.first, InputJsonDelta(ToolInput));
      assert "" + ToolInput == ToolInput;
  }

  lemma MessageShows(specs: seq<Spec>, k: nat)
    requires k < |specs|
    ensures Project(Message(specs), k) == Core(k, PlanOf(specs[k]))
  {
    var plans := Plans(specs);
    var blocks := Blocks(plans);
    forall i | 0 <= i < |blocks| ensures Project(blocks[i], k) == if i == k then Core(k, plans[k]) else [] {
      BlockProjects(i, plans[i], k);
    }
    OneSpeaks(blocks, k, k, Core(k, plans[k]));
    FramedProjects(Flat(blocks), k);
  }

  lemma MessageOrder(specs: seq<Spec>)
    ensures var order := Order(Message(specs));
      |order| == |specs| && forall k | 0 <= k < |specs| :: order[k] == k
  {
    var blocks := Blocks(Plans(specs));
    forall i | 0 <= i < |blocks| ensures Order(blocks[i]) == [i] {
      BlockProjects(i, Plans(specs)[i], i);
    }
    OrderOfParts(blocks);
    FramedProjects(Flat(blocks), 0);
  }

  lemma CoreBuilds(es: seq<Event>, k: int, s: Spec, parse: string -> Option<Json>)
    requires Project(es, k) == Core(k, PlanOf(s))
    ensures Latest(es, k).Some? && Finish(Latest(es, k).value, parse) == Intended(s, parse)
  {
    BlockFromItsEvents(es, k);
    BuilderAssembles(k, s, parse);
  }

  /** A message made by the builders reassembles to the blocks it was built from, in order,
      however the events of its blocks are interleaved afterwards. */
  lemma BuiltMessageReassembles(specs: seq<Spec>, es: seq<Event>, parse: string -> Option<Json>)
    requires Order(es) == Order(Message(specs))
    requires forall i | 0 <= i < |specs| :: Project(es, i) == Project(Message(specs), i)
    ensures |Contents(es, parse)| == |specs|
    ensures forall k | 0 <= k < |specs| :: Contents(es, parse)[k] == Intended(specs[k], parse)
  {
    MessageOrder(specs);
    forall i | i in Order(es) ensures Project(es, i) == Project(Message(specs), i) {
      var k :| 0 <= k < |Order(es)| && Order(es)[k] == i;
    }
    InterleavingIsIrrelevant(es, Message(specs), parse);
    forall k | 0 <= k < |specs| ensures Contents(es, parse)[k] == Intended(specs[k], parse) {
      MessageShows(specs, k);
      CoreBuilds(Message(specs), k, specs[k], parse);
    }
  }
}
