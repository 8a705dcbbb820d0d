/** The growing-buffer driver around a streaming coder, and the message sink built on it.

    The coder itself (DEFLATE, RFC 1951) is a parameter: a step function together with the facts
    about it that the driver relies on. How a coder cuts up its output may change the output: a
    flushing compressor repeats its flush marker whenever the buffer is full just then. */
module FlateStream {
  import opened Basics

  datatype Status = StatusOk | BufError | StreamEnd

  datatype CoderResult<+S> =
    | Coded(next: S, consumed: nat, emitted: seq<Byte>, status: Status)
    | CoderFailed(next: S)

  /** `step(s, input, room, finish)` is one call of the coder with `room` free output bytes. `debt`
      bounds what it still emits for the input, except that a call that gets no input may add up to
      `marker` bytes again. `valid` says the input is one the coder accepts. */
  datatype Algorithm<!S> = Algorithm(
    step: (S, seq<Byte>, nat, bool) -> CoderResult<S>,
    debt: (S, seq<Byte>, bool) -> nat,
    marker: nat,
    valid: (S, seq<Byte>) -> bool)

  /** One call stays within its buffers, moves if it has input and room, and pays off its debt. */
  ghost predicate LawfulStep<S>(alg: Algorithm<S>, s: S, input: seq<Byte>, room: nat, finish: bool) {
    var r := alg.step(s, input, room, finish);
    r.Coded? ==>
      && r.consumed <= |input| && |r.emitted| <= room
      && (r.status != StreamEnd && input != [] && room > 0 ==> r.consumed + |r.emitted| > 0)
      && (r.status != StreamEnd && r.consumed == 0 ==>
            |r.emitted| + alg.debt(r.next, input, finish)
            <= alg.debt(s, input, finish) + if input == [] then alg.marker else 0)
  }

  /** Room left over after a finish means the stream has ended. */
  ghost predicate FinishEnds<S(!new)>(alg: Algorithm<S>) {
    forall s, input, room :: EndsStream(alg, s, input, room)
  }

  ghost predicate EndsStream<S>(alg: Algorithm<S>, s: S, input: seq<Byte>, room: nat) {
    var r := alg.step(s, input, room, true);
    r.Coded? && r.consumed == |input| && |r.emitted| < room ==> r.status == StreamEnd
  }

  ghost predicate AcceptsValid<S>(alg: Algorithm<S>, s: S, input: seq<Byte>, room: nat) {
    var r := alg.step(s, input, room, false);
    room > 0 && alg.valid(s, input) ==>
      r.Coded? && r.status != StreamEnd && (r.consumed <= |input| ==> alg.valid(r.next, input[r.consumed..]))
  }

  ghost predicate Lawful<S(!new)>(alg: Algorithm<S>) {
    && (forall s, input, room, finish :: LawfulStep(alg, s, input, room, finish))
    && (forall s, input, room :: AcceptsValid(alg, s, input, room))
  }

  // ---- What a coder can be made to emit ----------------------------------------------------------

  datatype FlateError = UnexpectedStreamEnd | CoderError

  datatype Ending = Flushed | Broke(error: FlateError)

  /** The call takes all input and leaves room: the driver stops after it. */
  predicate Completes<S>(r: CoderResult<S>, input: seq<Byte>, room: nat) {
    r.Coded? && r.consumed == |input| && |r.emitted| < room
  }

  /** Calls with these amounts of room emit `z` for the input and end in state `s'`. */
  ghost predicate Calls<S>(
    alg: Algorithm<S>, s: S, input: seq<Byte>, finish: bool, rooms: seq<nat>, z: seq<Byte>, s': S, ending: Ending)
    decreases |rooms|
  {
    && rooms != [] && rooms[0] > 0
    && var r := alg.step(s, input, rooms[0], finish);
      if r.CoderFailed? then |rooms| == 1 && z == [] && s' == r.next && ending == Broke(CoderError)
      else if r.status == StreamEnd then |rooms| == 1 && z == r.emitted && s' == r.next && ending == Broke(UnexpectedStreamEnd)
      else if Completes(r, input, rooms[0]) then |rooms| == 1 && z == r.emitted && s' == r.next && ending == Flushed
      else
        && r.consumed <= |input| && |r.emitted| <= |z| && z[..|r.emitted|] == r.emitted
        && Calls(alg, r.next, input[r.consumed..], finish, rooms[1..], z[|r.emitted|..], s', ending)
  }

  /** Some way of cutting up the output leads there. */
  ghost predicate Reaches<S>(
    alg: Algorithm<S>, s: S, input: seq<Byte>, finish: bool, z: seq<Byte>, s': S, ending: Ending)
  {
    exists rooms :: Calls(alg, s, input, finish, rooms, z, s', ending)
  }

  /** The call is not the last one. */
  predicate Continues<S>(alg: Algorithm<S>, s: S, input: seq<Byte>, room: nat, finish: bool) {
    var r := alg.step(s, input, room, finish);
    room > 0 && r.Coded? && r.status != StreamEnd && r.consumed <= |input| && !Completes(r, input, room)
  }

  lemma ReachesThrough<S>(
    alg: Algorithm<S>, s: S, input: seq<Byte>, room: nat, finish: bool, z: seq<Byte>, s': S, ending: Ending)
    requires Continues(alg, s, input, room, finish)
    requires var r := alg.step(s, input, room, finish);
      Reaches(alg, r.next, input[r.consumed..], finish, z, s', ending)
    ensures Reaches(alg, s, input, finish, alg.step(s, input, room, finish).emitted + z, s', ending)
  {
    var r := alg.step(s, input, room, finish);
    var rooms :| Calls(alg, r.next, input[r.consumed..], finish, rooms, z, s', ending);
    var all, whole := [room] + rooms, r.emitted + z;
    assert all[1..] == rooms && whole[|r.emitted|..] == z && whole[..|r.emitted|] == r.emitted;
    assert Calls(alg, s, input, finish, all, whole, s', ending);
  }

  lemma ReachesAtOnce<S>(alg: Algorithm<S>, s: S, input: seq<Byte>, room: nat, finish: bool)
    requires room > 0
    ensures var r := alg.step(s, input, room, finish);
      && (r.CoderFailed? ==> Reaches(alg, s, input, finish, [], r.next, Broke(CoderError)))
      && (r.Coded? && r.status == StreamEnd ==>
            Reaches(alg, s, input, finish, r.emitted, r.next, Broke(UnexpectedStreamEnd)))
      && (Completes(r, input, room) && r.status != StreamEnd ==>
            Reaches(alg, s, input, finish, r.emitted, r.next, Flushed))
  {
    var r := alg.step(s, input, room, finish);
    var z := if r.Coded? then r.emitted else [];
    var ending :=
      if r.CoderFailed? then Broke(CoderError)
      else if r.status == StreamEnd then Broke(UnexpectedStreamEnd) else Flushed;
    assert !Continues(alg, s, input, room, finish) && (r.Coded? ==> r.status == StreamEnd || Completes(r, input, room)) ==>
      Calls(alg, s, input, finish, [room], z, r.next, ending);
  }

  /** With what was emitted so far, every way on from here is a way on from the start. */
  ghost predicate Extends<S(!new)>(
    alg: Algorithm<S>, s0: S, input0: seq<Byte>, finish: bool, done: seq<Byte>, s: S, input: seq<Byte>)
  {
    forall z, s', ending ::
      Reaches(alg, s, input, finish, z, s', ending) ==> Reaches(alg, s0, input0, finish, done + z, s', ending)
  }

  lemma ExtendsOn<S(!new)>(
    alg: Algorithm<S>, s0: S, input0: seq<Byte>, finish: bool, done: seq<Byte>, s: S, input: seq<Byte>, room: nat)
    requires Extends(alg, s0, input0, finish, done, s, input) && Continues(alg, s, input, room, finish)
    ensures var r := alg.step(s, input, room, finish);
      Extends(alg, s0, input0, finish, done + r.emitted, r.next, input[r.consumed..])
  {
    var r := alg.step(s, input, room, finish);
    forall z, s', ending | Reaches(alg, r.next, input[r.consumed..], finish, z, s', ending)
      ensures Reaches(alg, s0, input0, finish, (done + r.emitted) + z, s', ending)
    {
      ReachesThrough(alg, s, input, room, finish, z, s', ending);
      assert done + (r.emitted + z) == (done + r.emitted) + z;
    }
  }

  // ---- The driver --------------------------------------------------------------------------------

  function Missing(have: nat, want: nat): nat {
    if have <= want then want + 1 - have else 0
  }

  /** Without input left the doubling of the buffer soon outgrows any marker, and from then on
      each full buffer pays off debt. */
  function Growth(length: nat, offset: nat, marker: nat): nat
    requires offset <= length
  {
    Missing(length, marker) + Missing(length - offset, marker)
  }

  /** Two parts of the driver's termination measure after the remaining input. */
  function Second<S>(alg: Algorithm<S>, s: S, input: seq<Byte>, finish: bool, length: nat, offset: nat): nat
    requires offset <= length
  {
    if input == [] then Growth(length, offset, alg.marker) else alg.debt(s, input, finish)
  }

  function Third<S>(alg: Algorithm<S>, s: S, input: seq<Byte>, finish: bool): nat {
    if input == [] then alg.debt(s, input, finish) else 0
  }

  /** A call after which the driver goes on lowers the measure. */
  lemma CallsUseUpWork<S(!new)>(alg: Algorithm<S>, s: S, input: seq<Byte>, finish: bool, length: nat, offset: nat)
    requires Lawful(alg) && offset < length && Continues(alg, s, input, length - offset, finish)
    ensures var r := alg.step(s, input, length - offset, finish);
      var rest, offset' := input[r.consumed..], offset + |r.emitted|;
      && offset' <= length
      && var length' := if offset' == length then 2 * length else length;
        || |rest| < |input|
        || (rest == input && Second(alg, r.next, rest, finish, length', offset') < Second(alg, s, input, finish, length, offset))
        || (rest == input && Second(alg, r.next, rest, finish, length', offset') == Second(alg, s, input, finish, length, offset)
            && Third(alg, r.next, rest, finish) < Third(alg, s, input, finish))
  {
    var r := alg.step(s, input, length - offset, finish);
    assert LawfulStep(alg, s, input, length - offset, finish);
    if r.consumed == 0 {
      assert input[r.consumed..] == input;
    }
  }

  /** The measure went down, on the way from one point of the driver's loop to the next. */
  ghost predicate WorkDone<S>(
    alg: Algorithm<S>, finish: bool, s: S, input: seq<Byte>, length: nat, offset: nat,
    s': S, rest: seq<Byte>, length': nat, offset': nat)
    requires offset <= length && offset' <= length'
  {
    var before, after := Second(alg, s, input, finish, length, offset), Second(alg, s', rest, finish, length', offset');
    || |rest| < |input|
    || (|rest| == |input| && after < before)
    || (|rest| == |input| && after == before && Third(alg, s', rest, finish) < Third(alg, s, input, finish))
  }

  /** One turn of the driver's loop, from `at` in the input and `offset` in the buffer. */
  lemma StepAdvances<S(!new)>(
    alg: Algorithm<S>, s0: S, contents: seq<Byte>, finish: bool, done: seq<Byte>,
    s: S, at: nat, length: nat, offset: nat)
    requires Lawful(alg) && at <= |contents| && offset < length
    requires Extends(alg, s0, contents, finish, done, s, contents[at..])
    ensures var r := alg.step(s, contents[at..], length - offset, finish);
      match r
      case CoderFailed(next) => Reaches(alg, s0, contents, finish, done, next, Broke(CoderError))
      case Coded(next, consumed, emitted, status) =>
        && at + consumed <= |contents| && offset + |emitted| <= length
        && if status == StreamEnd then
             Reaches(alg, s0, contents, finish, done + emitted, next, Broke(UnexpectedStreamEnd))
           else if at + consumed < |contents| || offset + |emitted| == length then
             var length' := if offset + |emitted| == length then 2 * length else length;
             && Extends(alg, s0, contents, finish, done + emitted, next, contents[at + consumed..])
             && WorkDone(alg, finish, s, contents[at..], length, offset, next, contents[at + consumed..], length', offset + |emitted|)
           else
             Reaches(alg, s0, contents, finish, done + emitted, next, Flushed) && (finish ==> !FinishEnds(alg))
    ensures !finish && alg.valid(s, contents[at..]) ==>
      var r := alg.step(s, contents[at..], length - offset, finish);
      r.Coded? && r.status != StreamEnd && alg.valid(r.next, contents[at + r.consumed..])
  {
    var input, room := contents[at..], length - offset;
    var r := alg.step(s, input, room, finish);
    assert LawfulStep(alg, s, input, room, finish);
    assert AcceptsValid(alg, s, input, room);
    ReachesAtOnce(alg, s, input, room, finish);
    if finish && FinishEnds(alg) {
      assert EndsStream(alg, s, input, room);
    }
    if r.CoderFailed? {
      assert done + [] == done;
    } else {
      assert input[r.consumed..] == contents[at + r.consumed..];
      if Continues(alg, s, input, room, finish) {
        ExtendsOn(alg, s0, contents, finish, done, s, input, room);
        CallsUseUpWork(alg, s, input, finish, length, offset);
      }
    }
  }

  class FlateStream<S(!new)> {
    const alg: Algorithm<S>
    var flate: S
    var output: array<Byte>

    /** The program starts with a buffer of 4096 bytes; any positive size will do. */
    constructor (alg: Algorithm<S>, start: S, size: nat)
      requires size > 0
      ensures this.alg == alg && flate == start && fresh(output) && output.Length == size
    {
      this.alg := alg;
      flate := start;
      output := new Byte[size](_ => 0);
    }

    /** Doubles the buffer, keeping its contents. */
    method Grow()
      requires output.Length > 0
      modifies this`output
      ensures fresh(output) && output.Length == 2 * old(output.Length)
      ensures output[..old(output.Length)] == old(output[..])
    {
      var bigger := new Byte[2 * output.Length](_ => 0);
      forall k | 0 <= k < output.Length {
        bigger[k] := output[k];
      }
      output := bigger;
    }

    /** The coder writes its output into the buffer at `offset`. */
    method Store(offset: nat, bytes: seq<Byte>)
      requires offset + |bytes| <= output.Length
      modifies output
      ensures output[..offset + |bytes|] == old(output[..offset]) + bytes
    {
      forall k | 0 <= k < |bytes| {
        output[offset + k] := bytes[k];
      }
    }

    /** Stores what the coder wrote, and makes room for more if this filled the buffer. */
    method Take(offset: nat, bytes: seq<Byte>) returns (full: bool)
      requires output.Length > 0 && offset + |bytes| <= output.Length
      modifies this`output, output
      ensures full <==> offset + |bytes| == old(output.Length)
      ensures output.Length == if full then 2 * old(output.Length) else old(output.Length)
      ensures output == old(output) || fresh(output)
      ensures output[..offset + |bytes|] == old(output[..offset]) + bytes
    {
      Store(offset, bytes);
      full := offset + |bytes| == output.Length;
      if full {
        assert output[..offset + |bytes|] == output[..];
        Grow();
      }
    }

    /** The driver stands at `at` in the input with `done` in its buffer. */
    ghost predicate StandsAt(s0: S, contents: seq<Byte>, finish: bool, done: seq<Byte>, at: nat)
      reads this, output
    {
      && at <= |contents| && |done| < output.Length && output[..|done|] == done
      && Extends(alg, s0, contents, finish, done, flate, contents[at..])
      && (!finish && alg.valid(s0, contents) ==> alg.valid(flate, contents[at..]))
    }

    /** One call of the coder, and what the driver makes of its result: it is done, or it has moved
        on to `at'` with more in a buffer that has room again. */
    method CallCoder(contents: seq<Byte>, finish: bool, at: nat, offset: nat, ghost s0: S, ghost done: seq<Byte>)
      returns (stop: Option<Result<seq<Byte>, FlateError>>, at': nat, offset': nat, ghost done': seq<Byte>)
      requires Lawful(alg) && StandsAt(s0, contents, finish, done, at) && offset == |done|
      modifies this, output
      ensures output.Length > 0 && (output == old(output) || fresh(output))
      ensures stop.Some? && stop.value.Ok? ==>
        Reaches(alg, s0, contents, finish, stop.value.value, flate, Flushed) && (finish ==> !FinishEnds(alg))
      ensures stop.Some? && stop.value.Err? ==>
        Reaches(alg, s0, contents, finish, done', flate, Broke(stop.value.error)) && (finish || !alg.valid(s0, contents))
      ensures stop.None? ==>
        && StandsAt(s0, contents, finish, done', at') && offset' == |done'|
        && WorkDone(alg, finish, old(flate), contents[at..], old(output.Length), offset,
                    flate, contents[at'..], output.Length, offset')
    {
      StepAdvances(alg, s0, contents, finish, done, flate, at, output.Length, offset);
      var step := alg.step(flate, contents[at..], output.Length - offset, finish);
      flate := step.next;
      stop, at', offset', done' := None, at, offset, done;
      if step.CoderFailed? {
        stop := Some(Err(CoderError));
        return;
      }
      done' := done + step.emitted;
      if step.status == StreamEnd {
        stop := Some(Err(UnexpectedStreamEnd));
        return;
      }
      var full := Take(offset, step.emitted);
      at', offset' := at + step.consumed, offset + |step.emitted|;
      if at' == |contents| && !full {
        stop := Some(Ok(output[..offset']));
      }
    }

    /** Feeds all of `contents` to the coder and returns everything its calls emitted: on success the
        result is one of the outputs the coder can be made to emit for this input. Every run ends. An
        end of stream is an error, so a finish that ends the stream never succeeds. */
    method Process(contents: seq<Byte>, finish: bool) returns (r: Result<seq<Byte>, FlateError>)
      requires Lawful(alg) && output.Length > 0
      modifies this, output
      ensures output.Length > 0 && (output == old(output) || fresh(output))
      ensures r.Ok? ==> Reaches(alg, old(flate), contents, finish, r.value, flate, Flushed)
      ensures r.Err? ==> exists z :: Reaches(alg, old(flate), contents, finish, z, flate, Broke(r.error))
      ensures !finish && alg.valid(old(flate), contents) ==> r.Ok?
      ensures finish && FinishEnds(alg) ==> r.Err?
    {
      var outOffset, inOffset := 0, 0;
      ghost var done: seq<Byte> := [];
      assert contents[0..] == contents;
      assert Extends(alg, flate, contents, finish, [], flate, contents) by {
        assert forall z: seq<Byte> :: [] + z == z;
      }
      while true
        invariant output.Length > 0 && (output == old(output) || fresh(output))
        invariant StandsAt(old(flate), contents, finish, done, inOffset) && outOffset == |done|
        decreases |contents| - inOffset,
          Second(alg, flate, contents[inOffset..], finish, output.Length, outOffset),
          Third(alg, flate, contents[inOffset..], finish)
      {
        var stop;
        stop, inOffset, outOffset, done := CallCoder(contents, finish, inOffset, outOffset, old(flate), done);
        if stop.Some? {
          return stop.value;
        }
      }
    }
  }

  // ---- Streams of messages ---------------------------------------------------------------------

  /** Between messages the two coders stay related, and whichever way the encoder's output was cut
      up, the decoder accepts it and gives the message back, however its own output is cut up. */
  ghost predicate Undoes<S(!new), T(!new)>(c: Algorithm<S>, d: Algorithm<T>, rel: (S, T) -> bool) {
    && (forall s, t, m :: rel(s, t) ==> c.valid(s, m))
    && (forall s, t, m, z, s' :: rel(s, t) && Reaches(c, s, m, false, z, s', Flushed) ==>
          d.valid(t, z) && Decodes(d, t, z, m, s', rel))
  }

  ghost predicate Decodes<S, T(!new)>(
    d: Algorithm<T>, t: T, z: seq<Byte>, m: seq<Byte>, s': S, rel: (S, T) -> bool)
  {
    forall w, t' :: Reaches(d, t, z, false, w, t', Flushed) ==> w == m && rel(s', t')
  }

  /** Every message sent through the encoder and decoded in order comes back as it was, whatever
      the two initial buffer sizes. */
  method Relay<S(!new), T(!new)>(
    enc: FlateStream<S>, dec: FlateStream<T>, ghost rel: (S, T) -> bool, messages: seq<seq<Byte>>)
    returns (received: seq<seq<Byte>>)
    requires Lawful(enc.alg) && Lawful(dec.alg) && Undoes(enc.alg, dec.alg, rel)
    requires enc.output.Length > 0 && dec.output.Length > 0
    requires enc as object != dec as object && enc.output != dec.output
    requires rel(enc.flate, dec.flate)
    modifies enc, enc.output, dec, dec.output
    ensures received == messages
  {
    received := [];
    for i := 0 to |messages|
      invariant received == messages[..i]
      invariant enc.output.Length > 0 && dec.output.Length > 0 && enc.output != dec.output
      invariant enc.output == old(enc.output) || fresh(enc.output)
      invariant dec.output == old(dec.output) || fresh(dec.output)
      invariant rel(enc.flate, dec.flate)
    {
      ghost var s, t := enc.flate, dec.flate;
      var z := enc.Process(messages[i], false);
      assert z.Ok?;
      var m := dec.Process(z.value, false);
      assert Decodes(dec.alg, t, z.value, messages[i], enc.flate, rel);
      received := received + [m.value];
    }
  }

  // ---- The message sink ----------------------------------------------------------------------------

  datatype Sent = ServerMsg(i: nat, body: seq<Byte>) | ServerClose(i: nat)

  /** The channel to the client; sends fail once the receiving side is gone. */
  class Destination {
    var sent: seq<Sent>
    var open: bool

    constructor ()
      ensures sent == [] && open
    {
      sent, open := [], true;
    }

    method Send(m: Sent) returns (ok: bool)
      modifies this`sent
      ensures ok == open && sent == if open then old(sent) + [m] else old(sent)
    {
      ok := open;
      if open {
        sent := sent + [m];
      }
    }
  }

  ghost predicate BreaksOff<S>(alg: Algorithm<S>, s: S, body: seq<Byte>, finish: bool, s': S) {
    exists z, e :: Reaches(alg, s, body, finish, z, s', Broke(e))
  }

  class ServerMessageSink<S(!new)> {
    const id: nat
    var tx: Option<Destination>
    const flate: Option<FlateStream<S>>

    constructor (id: nat, tx: Destination, flate: Option<FlateStream<S>>)
      ensures this.id == id && this.tx == Some(tx) && this.flate == flate
    {
      this.id, this.tx, this.flate := id, Some(tx), flate;
    }

    ghost predicate Valid()
      reads this, if flate.Some? then {flate.value, flate.value.output} else {}
    {
      && tx.Some?
      && (flate.Some? ==> Lawful(flate.value.alg) && flate.value.output.Length > 0)
    }

    ghost function Frame(): set<object>
      reads this, if flate.Some? then {flate.value} else {}
    {
      {this} + (if flate.Some? then {flate.value, flate.value.output} else {})
    }

    /** The content is what the coder emitted for the body, or the body itself after the coder broke
        off on it; a plain sink sends the body. */
    ghost predicate Encodes(s: S, body: seq<Byte>, finish: bool, content: seq<Byte>, s': S) {
      || (flate.None? && content == body)
      || (flate.Some? && Reaches(flate.value.alg, s, body, finish, content, s', Flushed))
      || (flate.Some? && content == body && BreaksOff(flate.value.alg, s, body, finish, s'))
    }

    ghost function CoderState(): S
      requires flate.Some?
      reads if flate.Some? then {flate.value} else {}
    {
      flate.value.flate
    }

    /** The body as it goes on the wire; a coder error falls back to the plain body. */
    method GetServerMsgContent(body: seq<Byte>, finish: bool) returns (content: seq<Byte>)
      requires Valid()
      modifies if flate.Some? then {flate.value, flate.value.output} else {}
      ensures Valid() && tx == old(tx) && Frame() <= old(Frame()) + (if flate.Some? then {flate.value.output} else {})
      ensures fresh(Frame() - old(Frame()))
      ensures flate.None? || (finish && FinishEnds(flate.value.alg)) ==> content == body
      ensures flate.Some? ==> Encodes(old(CoderState()), body, finish, content, CoderState())
      ensures flate.Some? && !finish && flate.value.alg.valid(old(CoderState()), body) ==>
        Reaches(flate.value.alg, old(CoderState()), body, false, content, CoderState(), Flushed)
    {
      if flate.Some? {
        var compressed := flate.value.Process(body, finish);
        if compressed.Ok? {
          return compressed.value;
        }
      }
      content := body;
    }

    /** Sends one message, or with no body announces the close. A plain sink sends no trailing
        message before the close, and neither does a compressing one: finishing the coder ends its
        stream, which `Process` reports as an error, and the body it falls back to is empty. */
    method ServerMessageOrClosed(body: Option<seq<Byte>>) returns (ok: bool)
      requires Valid()
      modifies Frame(), tx.value
      ensures Valid() && tx == old(tx) && fresh(Frame() - old(Frame()))
      ensures ok == old(tx.value.open) && tx.value.open == old(tx.value.open)
      ensures !ok ==> tx.value.sent == old(tx.value.sent)
      ensures ok && body.None? && (flate.None? || FinishEnds(flate.value.alg)) ==>
        tx.value.sent == old(tx.value.sent) + [ServerClose(id)]
      ensures ok && body.Some? && flate.None? ==> tx.value.sent == old(tx.value.sent) + [ServerMsg(id, body.value)]
      ensures ok && body.Some? && flate.Some? ==> exists content ::
        && tx.value.sent == old(tx.value.sent) + [ServerMsg(id, content)]
        && Encodes(old(CoderState()), body.value, false, content, CoderState())
    {
      var t := tx.value;
      tx := None;
      if body.Some? {
        tx := Some(t);
        var content := GetServerMsgContent(body.value, false);
        ok := t.Send(ServerMsg(id, content));
        return;
      }
      tx := Some(t);
      var tail := GetServerMsgContent([], true);
      if tail != [] {
        var _ := t.Send(ServerMsg(id, tail));
      }
      ok := t.Send(ServerClose(id));
    }
  }
}
