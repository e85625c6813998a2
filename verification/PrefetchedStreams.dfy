/** A public stream that waits for its first chunk before answering, replays it, and turns a
    later failure into one terminal frame. */
module PrefetchedStreams {
  import opened Common

  /** An ordinary exception: a canonical execution failure, any other one, or a group. */
  datatype Error = Execution(kind: string) | Plain(message: string) | Group(members: seq<Error>)

  /** How a body ends after its chunks. `Cancels` is a cancellation, which no handler turns
      into output. */
  datatype Ending = Stops | Fails(error: Error) | Cancels

  datatype Event = Chunk(text: string) | End | Raised(error: Error) | Cancelled

  const EmptyStream := Plain("Stream ended before emitting a response.")

  // ---------------------------------------------------------------- nested failures

  /** The first execution failure in the order in which a group lists its members. */
  function FirstFailure(e: Error): Option<Error> {
    match e
    case Execution(_) => Some(e)
    case Plain(_) => None
    case Group(members) => FirstFailureAmong(members)
  }

  function FirstFailureAmong(es: seq<Error>): Option<Error> {
    if es == [] then None
    else if FirstFailure(es[0]).Some? then FirstFailure(es[0])
    else FirstFailureAmong(es[1..])
  }

  /** The error reached by going down a path of member positions. */
  function At(e: Error, path: seq<nat>): Option<Error>
    decreases |path|
  {
    if path == [] then Some(e)
    else if e.Group? && path[0] < |e.members| then At(e.members[path[0]], path[1..])
    else None
  }

  predicate FailsAt(e: Error, path: seq<nat>) {
    At(e, path).Some? && At(e, path).value.Execution?
  }

  /** The order in which a listing comes to two paths. */
  predicate Before(p: seq<nat>, q: seq<nat>) {
    q != [] && (p == [] || p[0] < q[0] || (p[0] == q[0] && Before(p[1..], q[1..])))
  }

  /** The search finds the failure with the first path in listing order, or none if there is
      none anywhere. */
  lemma {:induction false} FirstFailureExactly(e: Error)
    ensures FirstFailure(e).None? <==> forall p :: !FailsAt(e, p)
    ensures FirstFailure(e).Some? ==> exists p ::
      FailsAt(e, p) && At(e, p) == FirstFailure(e) && forall q | Before(q, p) :: !FailsAt(e, q)
    decreases e, 1
  {
    match e
    case Execution(_) => assert FailsAt(e, []) && At(e, []) == Some(e);
    case Plain(_) =>
      forall p ensures !FailsAt(e, p) {
        assert p == [] || At(e, p).None?;
      }
    case Group(members) => FirstOfMembers(e, 0);
  }

  ghost predicate FirstFrom(e: Error, k: nat, p: seq<nat>) {
    p != [] && p[0] >= k && FailsAt(e, p) && forall q | Before(q, p) && q != [] && q[0] >= k :: !FailsAt(e, q)
  }

  lemma {:induction false} FirstOfMembers(e: Error, k: nat)
    requires e.Group? && k <= |e.members|
    ensures FirstFailureAmong(e.members[k..]).None? <==> forall p | p != [] && p[0] >= k :: !FailsAt(e, p)
    ensures FirstFailureAmong(e.members[k..]).Some? ==> exists p ::
      FirstFrom(e, k, p) && At(e, p) == FirstFailureAmong(e.members[k..])
    ensures !FailsAt(e, [])
    decreases e, 0, |e.members| - k
  {
    if k < |e.members| {
      var m := e.members[k];
      assert m in e.members;
      FirstFailureExactly(m);
      FirstOfMembers(e, k + 1);
      assert e.members[k..][0] == m && e.members[k..][1..] == e.members[k + 1..];
      if FirstFailure(m).None? {
        forall q: seq<nat> | q != [] && q[0] == k ensures !FailsAt(e, q) {
          assert !FailsAt(m, q[1..]);
        }
      }
      if FirstFailure(m).Some? {
        var p :| FailsAt(m, p) && At(m, p) == FirstFailure(m) && forall q | Before(q, p) :: !FailsAt(m, q);
        assert ([k] + p)[1..] == p;
        assert FirstFrom(e, k, [k] + p);
      } else if p :| FirstFrom(e, k + 1, p) && At(e, p) == FirstFailureAmong(e.members[k + 1..]) {
        assert FirstFrom(e, k, p);
      }
    }
  }

  function Size(e: Error): nat {
    match e
    case Group(members) => 1 + SizeOf(members)
    case _ => 1
  }

  function SizeOf(es: seq<Error>): nat {
    if es == [] then 0 else Size(es[0]) + SizeOf(es[1..])
  }

  function Reverse(es: seq<Error>): seq<Error> {
    if es == [] then [] else Reverse(es[1..]) + [es[0]]
  }

  lemma {:induction false} SizeOfConcat(a: seq<Error>, b: seq<Error>)
    ensures SizeOf(a + b) == SizeOf(a) + SizeOf(b)
  {
    if a == [] {
      assert a + b == b;
    } else {
      assert (a + b)[1..] == a[1..] + b;
      SizeOfConcat(a[1..], b);
    }
  }

  lemma {:induction false} SizeOfReverse(es: seq<Error>)
    ensures SizeOf(Reverse(es)) == SizeOf(es)
  {
    if es != [] {
      SizeOfReverse(es[1..]);
      SizeOfConcat(Reverse(es[1..]), [es[0]]);
      assert [es[0]][1..] == [];
    }
  }

  /** The first failure of a stack, whose last element is visited first. */
  function OnStack(stack: seq<Error>): Option<Error> {
    if stack == [] then None
    else
      var top := FirstFailure(stack[|stack| - 1]);
      if top.Some? then top else OnStack(stack[..|stack| - 1])
  }

  lemma {:induction false} StackedGroup(stack: seq<Error>, members: seq<Error>)
    ensures OnStack(stack + Reverse(members)) ==
      if FirstFailureAmong(members).Some? then FirstFailureAmong(members) else OnStack(stack)
  {
    if members == [] {
      assert stack + [] == stack;
    } else {
      var all := stack + Reverse(members);
      assert all[|all| - 1] == members[0];
      assert all[..|all| - 1] == stack + Reverse(members[1..]);
      StackedGroup(stack, members[1..]);
    }
  }

  /** The search with an explicit stack finds the first failure in listing order. */
  method FindExecutionFailure(e: Error) returns (r: Option<Error>)
    ensures r == FirstFailure(e)
  {
    var pending := [e];
    assert pending[..0] == [] && pending[1..] == [];
    while pending != []
      invariant OnStack(pending) == FirstFailure(e)
      decreases SizeOf(pending)
    {
      var rest, current := pending[..|pending| - 1], pending[|pending| - 1];
      assert pending == rest + [current] && [current][1..] == [];
      SizeOfConcat(rest, [current]);
      if current.Execution? {
        return Some(current);
      }
      pending := rest;
      if current.Group? {
        StackedGroup(rest, current.members);
        SizeOfConcat(rest, Reverse(current.members));
        SizeOfReverse(current.members);
        pending := pending + Reverse(current.members);
      }
    }
    return None;
  }

  /** What the terminal handler receives for an exception of the body. */
  function Unwrapped(e: Error): Error {
    if e.Group? && FirstFailure(e).Some? then FirstFailure(e).value else e
  }

  /** A group with an execution failure in it is replaced by the first of these; every other
      exception stays what it is. */
  lemma UnwrappedExactly(e: Error)
    ensures (forall p :: !FailsAt(e, p)) || !e.Group? ==> Unwrapped(e) == e
    ensures e.Group? && !(forall p :: !FailsAt(e, p)) ==> exists p ::
      FailsAt(e, p) && At(e, p) == Some(Unwrapped(e)) && forall q | Before(q, p) :: !FailsAt(e, q)
  {
    FirstFailureExactly(e);
  }

  // ---------------------------------------------------------------- what a client should see

  /** The outcome of the i-th read of a body delivered through the wrapper; a missing frame
      emitter lets the failure through. */
  function Expected(items: seq<string>, ending: Ending, frame: Option<Error -> string>, i: nat): Event {
    if i < |items| then Chunk(items[i])
    else if i > |items| then End
    else
      match ending
      case Stops => End
      case Cancels => Cancelled
      case Fails(e) => if frame.Some? then Chunk(frame.value(Unwrapped(e))) else Raised(Unwrapped(e))
  }

  // ---------------------------------------------------------------- the iterators

  /** The upstream iterator. After its ending it only stops. */
  class Body {
    var items: seq<string>
    var ending: Ending

    constructor (items: seq<string>, ending: Ending)
      ensures this.items == items && this.ending == ending
    {
      this.items, this.ending := items, ending;
    }

    method Next() returns (e: Event)
      modifies this
      ensures old(items) != [] ==> e == Chunk(old(items)[0]) && items == old(items)[1..] && ending == old(ending)
      ensures old(items) == [] ==> items == [] && ending == Stops
      ensures old(items) == [] ==>
        e == match old(ending) case Stops => End case Fails(x) => Raised(x) case Cancels => Cancelled
    {
      if items != [] {
        e := Chunk(items[0]);
        items := items[1..];
      } else {
        e := match ending case Stops => End case Fails(x) => Raised(x) case Cancels => Cancelled;
        ending := Stops;
      }
    }

    method Close()
      modifies this
      ensures items == [] && ending == Stops
    {
      items, ending := [], Stops;
    }
  }

  class PrefetchedStream {
    const body: Body
    const frame: Option<Error -> string>
    var firstChunk: Option<string>
    var done: bool
    var closed: bool
    ghost const allItems: seq<string>
    ghost const bodyEnding: Ending
    ghost var position: nat

    constructor (firstChunk: string, body: Body, frame: Option<Error -> string>)
      ensures this.body == body && this.frame == frame && Valid() && !closed && position == 0
      ensures allItems == [firstChunk] + body.items && bodyEnding == body.ending
    {
      this.body, this.frame, this.firstChunk := body, frame, Some(firstChunk);
      done, closed, position := false, false, 0;
      allItems, bodyEnding := [firstChunk] + body.items, body.ending;
    }

    /** The fields agree with the number of reads already answered. */
    ghost predicate Valid()
      reads this, body
    {
      && allItems != []
      && (closed ==> done)
      && (!closed ==>
            && (firstChunk.Some? <==> position == 0)
            && (firstChunk.Some? ==> firstChunk.value == allItems[0])
            && (if position <= |allItems| then
                  && body.items == allItems[if position == 0 then 1 else position..]
                  && body.ending == bodyEnding && !done
                else body.items == [] && (done || body.ending == Stops)))
    }

    /** The i-th read of an open stream has the i-th expected outcome; a closed stream has ended. */
    method Next() returns (e: Event)
      requires Valid()
      modifies this, body
      ensures Valid() && closed == old(closed) && position == old(position) + 1
      ensures e == if closed then End else Expected(allItems, bodyEnding, frame, old(position))
    {
      position := position + 1;
      if closed || done {
        return End;
      }
      if firstChunk.Some? {
        e := Chunk(firstChunk.value);
        firstChunk := None;
        return;
      }
      e := body.Next();
      match e {
        case End => done := true;
        case Raised(x) =>
          var failure := x;
          if x.Group? {
            var found := FindExecutionFailure(x);
            if found.Some? {
              failure := found.value;
            }
          }
          if frame.None? {
            e := Raised(failure);
          } else {
            done := true;
            e := Chunk(frame.value(failure));
          }
        case _ =>
      }
    }

    /** The first close closes the body, and raises what that raised; later ones do nothing. */
    method Aclose(closing: Option<Error>) returns (raised: Option<Error>)
      requires Valid()
      modifies this, body
      ensures Valid() && closed && position == old(position)
      ensures old(closed) ==> raised == None && body.items == old(body.items) && body.ending == old(body.ending)
      ensures !old(closed) ==> raised == closing && body.items == [] && body.ending == Stops
    {
      if closed {
        return None;
      }
      closed := true;
      done := true;
      body.Close();
      return closing;
    }

    /** Reads to the end: the client gets the chunks of the body, then one terminal frame if the
        body failed and an emitter is given, and nothing after that. */
    method Drain() returns (seen: seq<string>, last: Event)
      requires Valid() && !closed && position == 0
      modifies this, body
      ensures bodyEnding.Stops? ==> seen == allItems && last == End
      ensures bodyEnding.Fails? && frame.Some? ==>
        seen == allItems + [frame.value(Unwrapped(bodyEnding.error))] && last == End
      ensures bodyEnding.Fails? && frame.None? ==> seen == allItems && last == Raised(Unwrapped(bodyEnding.error))
      ensures bodyEnding.Cancels? ==> seen == allItems && last == Cancelled
    {
      seen := [];
      last := Next();
      while last.Chunk?
        invariant Valid() && !closed && 1 <= position
        invariant last == Expected(allItems, bodyEnding, frame, position - 1)
        invariant |seen| == position - 1 && position <= |allItems| + 2
        invariant forall i | 0 <= i < |seen| :: Expected(allItems, bodyEnding, frame, i) == Chunk(seen[i])
        decreases |allItems| + 2 - position
      {
        seen := seen + [last.text];
        last := Next();
      }
      assert |seen| >= |allItems|;
      if |seen| > |allItems| {
        assert Expected(allItems, bodyEnding, frame, |allItems|) == Chunk(seen[|allItems|]);
      }
      assert forall i | 0 <= i < |allItems| :: seen[i] == allItems[i];
    }
  }

  /** What the endpoint answers before anything is streamed. */
  datatype Started = Streaming(stream: PrefetchedStream) | ErrorResponse(error: Error) | Propagated

  /** Awaits the first chunk. Without one the body is closed and the answer is no stream. */
  method FirstChunkResponse(body: Body, frame: Option<Error -> string>) returns (r: Started)
    modifies body
    ensures old(body.items) != [] ==> r.Streaming? && fresh(r.stream) && r.stream.Valid() && r.stream.body == body
    ensures old(body.items) != [] ==> !r.stream.closed && r.stream.position == 0 && r.stream.frame == frame
    ensures old(body.items) != [] ==> r.stream.allItems == old(body.items) && r.stream.bodyEnding == old(body.ending)
    ensures old(body.items) == [] ==> body.items == [] && body.ending == Stops
    ensures old(body.items) == [] ==>
      r == match old(body.ending)
           case Stops => ErrorResponse(EmptyStream)
           case Fails(e) => ErrorResponse(e)
           case Cancels => Propagated
  {
    var e := body.Next();
    match e {
      case Chunk(first) =>
        var stream := new PrefetchedStream(first, body, frame);
        r := Streaming(stream);
      case End => body.Close(); r := ErrorResponse(EmptyStream);
      case Raised(x) => body.Close(); r := ErrorResponse(x);
      case Cancelled => body.Close(); r := Propagated;
    }
  }

  /** The whole delivery of a body to an Anthropic client. */
  method Deliver(items: seq<string>, ending: Ending, frame: Error -> string)
    returns (error: Option<Error>, seen: seq<string>, last: Event)
    ensures items == [] ==> seen == []
    ensures items == [] && ending.Stops? ==> error == Some(EmptyStream)
    ensures items == [] && ending.Fails? ==> error == Some(ending.error)
    ensures items != [] ==> error.None?
    ensures items != [] && ending.Stops? ==> seen == items && last == End
    ensures items != [] && ending.Fails? ==> seen == items + [frame(Unwrapped(ending.error))] && last == End
    ensures items != [] && ending.Cancels? ==> seen == items && last == Cancelled
  {
    var body := new Body(items, ending);
    var started := FirstChunkResponse(body, Some(frame));
    match started {
      case Streaming(stream) =>
        error := None;
        seen, last := stream.Drain();
      case ErrorResponse(e) => error, seen, last := Some(e), [], End;
      case Propagated => error, seen, last := None, [], Cancelled;
    }
  }
}
