/** Re-chunking a stream of body messages into reads of any size. */
module ReadBuffer {
  import opened Basics

  /** The caller's buffer: what it holds so far, and how much it can hold. */
  class ReadBuf {
    const capacity: nat
    var filled: seq<Byte>

    ghost predicate Valid()
      reads this
    {
      |filled| <= capacity
    }

    constructor (capacity: nat)
      ensures Valid() && this.capacity == capacity && filled == []
    {
      this.capacity, filled := capacity, [];
    }

    function Remaining(): nat
      requires Valid()
      reads this
    {
      capacity - |filled|
    }

    method PutSlice(bytes: seq<Byte>)
      requires Valid() && |bytes| <= Remaining()
      modifies this
      ensures Valid() && filled == old(filled) + bytes
    {
      filled := filled + bytes;
    }
  }

  datatype Poll = Ready | Failed | Pending

  datatype Stash = Stash(bytes: seq<Byte>, start: nat)

  class ReadBuffer {
    var stash: Option<Stash>

    ghost predicate Valid()
      reads this
    {
      stash.Some? ==> stash.value.start < |stash.value.bytes|
    }

    /** The bytes put aside for the next read. */
    ghost function Rest(): seq<Byte>
      requires Valid()
      reads this
    {
      if stash.Some? then stash.value.bytes[stash.value.start..] else []
    }

    constructor ()
      ensures Valid() && Rest() == []
    {
      stash := None;
    }

    method TakeData() returns (data: Option<Stash>)
      modifies this
      ensures Valid() && stash.None? && data == old(stash)
    {
      data := stash;
      stash := None;
    }

    /** Writes as much as fits and puts the rest aside; what was put aside before is overwritten. */
    method PutData(target: ReadBuf, bytes: seq<Byte>, start: nat) returns (r: Poll)
      requires target.Valid() && (bytes == [] || start < |bytes|)
      modifies this, target
      ensures Valid() && target.Valid()
      ensures bytes == [] ==> r == Pending && Rest() == [] && target.filled == old(target.filled)
      ensures bytes != [] ==>
        && r == Ready
        && target.filled + Rest() == old(target.filled) + bytes[start..]
        && (Rest() != [] ==> target.Remaining() == 0)
    {
      if bytes == [] {
        stash := None;
        return Pending;
      }
      if target.Remaining() >= |bytes| - start {
        target.PutSlice(bytes[start..]);
        stash := None;
      } else {
        var end := start + target.Remaining();
        target.PutSlice(bytes[start..end]);
        stash := Some(Stash(bytes, end));
        assert bytes[start..] == bytes[start..end] + bytes[end..];
      }
      r := Ready;
    }
  }

  datatype HttpEvent = Body(bytes: seq<Byte>) | InitResponse | End

  /** The bytes of the queued body messages up to the first other event. */
  function BodyBytes(queue: seq<HttpEvent>): seq<Byte> {
    if queue == [] || !queue[0].Body? then [] else queue[0].bytes + BodyBytes(queue[1..])
  }

  predicate EmptyFirst(queue: seq<HttpEvent>) {
    queue != [] && queue[0] == Body([])
  }

  /** The bodies before the first empty one, or before the first other event. */
  function UpToEmpty(queue: seq<HttpEvent>): seq<HttpEvent> {
    if queue == [] || !queue[0].Body? || EmptyFirst(queue) then [] else [queue[0]] + UpToEmpty(queue[1..])
  }

  /** An empty body comes before the body ends. */
  predicate EmptyAhead(queue: seq<HttpEvent>) {
    queue != [] && queue[0].Body? && (queue[0].bytes == [] || EmptyAhead(queue[1..]))
  }

  lemma {:induction false} UpToEmptyBytes(queue: seq<HttpEvent>)
    ensures |UpToEmpty(queue)| <= |queue|
    ensures BodyBytes(queue) == BodyBytes(UpToEmpty(queue)) + BodyBytes(queue[|UpToEmpty(queue)|..])
  {
    if UpToEmpty(queue) != [] {
      var rest := UpToEmpty(queue[1..]);
      UpToEmptyBytes(queue[1..]);
      assert UpToEmpty(queue)[1..] == rest && queue[1..][|rest|..] == queue[|UpToEmpty(queue)|..];
      assert BodyBytes(UpToEmpty(queue)) == queue[0].bytes + BodyBytes(rest);
    } else {
      assert queue[0..] == queue;
    }
  }

  lemma Regroup<T>(a: seq<T>, b: seq<T>, c: seq<T>, d: seq<T>, tail: seq<T>)
    requires a + b == c + d
    ensures a + (b + tail) == c + (d + tail)
  {
    assert a + (b + tail) == (a + b) + tail;
    assert c + (d + tail) == (c + d) + tail;
  }

  class DelegatedReader {
    var queue: seq<HttpEvent>
    var senderAlive: bool
    const readbuf: ReadBuffer

    constructor (queue: seq<HttpEvent>, senderAlive: bool)
      ensures readbuf.Valid() && readbuf.Rest() == [] && fresh(readbuf)
      ensures this.queue == queue && this.senderAlive == senderAlive
    {
      this.queue, this.senderAlive := queue, senderAlive;
      readbuf := new ReadBuffer();
    }

    /** What a reader has still to get: the bytes put aside, then the queued bodies. */
    ghost function Ahead(): seq<Byte>
      requires readbuf.Valid()
      reads this, readbuf
    {
      readbuf.Rest() + BodyBytes(queue)
    }

    /** Nothing is put aside and the next event ends the body. */
    ghost predicate AtEnd()
      requires readbuf.Valid()
      reads this, readbuf
    {
      readbuf.Rest() == [] && queue != [] && !queue[0].Body?
    }

    ghost function Work(): nat
      requires readbuf.Valid()
      reads this, readbuf
    {
      |Ahead()| + |queue|
    }

    /** One poll. Before the end of the body no byte is lost or repeated, and a read that finds room
        delivers something, so an empty read means the end. `woken` says whether the task is
        registered to be polled again: an empty body message yields `Pending` without registering. */
    method PollRead(buf: ReadBuf) returns (r: Poll, woken: bool)
      requires readbuf.Valid() && buf.Valid()
      modifies this, readbuf, buf
      ensures readbuf.Valid() && buf.Valid() && senderAlive == old(senderAlive)
      ensures old(AtEnd()) ==> r == Ready && buf.filled == old(buf.filled) && queue == old(queue)[1..]
      ensures old(readbuf.Rest()) != [] ==>
        queue == old(queue) && buf.filled + readbuf.Rest() == old(buf.filled) + old(readbuf.Rest())
      ensures old(readbuf.Rest()) == [] && old(queue) != [] ==> queue == old(queue)[1..]
      ensures old(readbuf.Rest()) == [] && old(queue) != [] && old(queue)[0].Body? ==>
        buf.filled + readbuf.Rest() == old(buf.filled) + old(queue)[0].bytes
      ensures !old(AtEnd()) ==> buf.filled + Ahead() == old(buf.filled) + old(Ahead())
      ensures !old(AtEnd()) && r == Ready && old(buf.Remaining()) > 0 ==>
        |buf.filled| > old(|buf.filled|) && Work() < old(Work())
      ensures r == Failed <==> old(readbuf.Rest()) == [] && old(queue) == [] && !senderAlive
      ensures r == Pending ==> old(readbuf.Rest()) == [] && buf.filled == old(buf.filled)
      ensures r == Pending && woken <==> old(readbuf.Rest()) == [] && old(queue) == [] && senderAlive
      ensures r == Pending && !woken <==> old(readbuf.Rest()) == [] && old(queue) != [] && old(queue)[0] == Body([])
      ensures r == Pending && !woken ==> queue == old(queue)[1..]
    {
      woken := false;
      var data := readbuf.TakeData();
      if data.Some? {
        r := readbuf.PutData(buf, data.value.bytes, data.value.start);
        Regroup(buf.filled, readbuf.Rest(), old(buf.filled), old(readbuf.Rest()), BodyBytes(queue));
        return;
      }
      if queue == [] {
        if senderAlive {
          return Pending, true;
        }
        return Failed, false;
      }
      var event := queue[0];
      queue := queue[1..];
      match event {
        case Body(msg) =>
          r := readbuf.PutData(buf, msg, 0);
          if msg != [] {
            assert msg[0..] == msg;
            Regroup(buf.filled, readbuf.Rest(), old(buf.filled), msg, BodyBytes(queue));
          }
        case _ => r := Ready;
      }
    }
  }

  lemma Joined(before: seq<Byte>, chunk: seq<Byte>, rest: seq<Byte>, left: seq<Byte>)
    requires chunk + rest == left
    ensures (before + chunk) + rest == before + left
  {
  }

  lemma Delivered(ahead: seq<Byte>, chunk: seq<Byte>, rest: seq<Byte>, tail: seq<Byte>)
    requires chunk + rest == ahead
    ensures chunk + (rest + tail) == ahead + tail
  {
    assert chunk + (rest + tail) == (chunk + rest) + tail;
  }

  /** What can be read before a stall or the end. */
  ghost function Deliverable(reader: DelegatedReader): seq<Byte>
    requires reader.readbuf.Valid()
    reads reader, reader.readbuf
  {
    reader.readbuf.Rest() + BodyBytes(UpToEmpty(reader.queue))
  }

  /** One read: either it delivers a part, or nothing more comes now and `stalled` says whether the
      reader is not going to be woken. */
  method ReadSome(reader: DelegatedReader, size: nat) returns (chunk: seq<Byte>, over: bool, stalled: bool)
    requires reader.readbuf.Valid() && size > 0
    modifies reader, reader.readbuf
    ensures reader.readbuf.Valid()
    ensures over ==> chunk == [] && old(Deliverable(reader)) == []
    ensures over ==> (stalled <==> EmptyFirst(old(reader.queue))) && (!stalled ==> !EmptyAhead(old(reader.queue)))
    ensures !over ==> chunk + Deliverable(reader) == old(Deliverable(reader))
    ensures !over ==> EmptyAhead(reader.queue) == EmptyAhead(old(reader.queue)) && reader.Work() < old(reader.Work())
  {
    var buf := new ReadBuf(size);
    ghost var stash, queue := reader.readbuf.Rest(), reader.queue;
    var r, woken := reader.PollRead(buf);
    over, stalled, chunk := r != Ready || buf.filled == [], r == Pending && !woken, buf.filled;
    if over {
      assert stash == [] && UpToEmpty(queue) == [];
    } else if stash != [] {
      Delivered(stash, buf.filled, reader.readbuf.Rest(), BodyBytes(UpToEmpty(queue)));
    } else {
      UpToEmptyNext(queue);
      Delivered(queue[0].bytes, buf.filled, reader.readbuf.Rest(), BodyBytes(UpToEmpty(reader.queue)));
    }
  }

  /** Reading with buffers of any positive sizes delivers exactly the bodies before the first empty
      one, so the sizes do not matter. It stalls, with no wake-up to come, exactly at an empty body
      before the end; otherwise an empty read means the end, or the reader waits to be woken. */
  method ReadToEnd(reader: DelegatedReader, sizes: seq<nat>) returns (out: seq<Byte>, stalled: bool)
    requires reader.readbuf.Valid() && reader.readbuf.Rest() == []
    requires sizes != [] && forall k :: 0 <= k < |sizes| ==> sizes[k] > 0
    modifies reader, reader.readbuf
    ensures out == BodyBytes(UpToEmpty(old(reader.queue)))
    ensures stalled <==> EmptyAhead(old(reader.queue))
  {
    out, stalled := [], false;
    var k := 0;
    while true
      invariant reader.readbuf.Valid() && 0 <= k < |sizes|
      invariant out + Deliverable(reader) == BodyBytes(UpToEmpty(old(reader.queue)))
      invariant EmptyAhead(reader.queue) == EmptyAhead(old(reader.queue))
      decreases reader.Work()
    {
      ghost var before, left := out, Deliverable(reader);
      var chunk, over;
      chunk, over, stalled := ReadSome(reader, sizes[k]);
      if over {
        return;
      }
      out := out + chunk;
      Joined(before, chunk, Deliverable(reader), left);
      k := if k + 1 == |sizes| then 0 else k + 1;
    }
  }

  lemma UpToEmptyNext(queue: seq<HttpEvent>)
    requires queue != [] && queue[0].Body? && queue[0].bytes != []
    ensures BodyBytes(UpToEmpty(queue)) == queue[0].bytes + BodyBytes(UpToEmpty(queue[1..]))
  {
    assert UpToEmpty(queue)[1..] == UpToEmpty(queue[1..]);
  }

  /** The bytes before the first empty body are all there are exactly when none come behind it. */
  lemma AllBytesIff(queue: seq<HttpEvent>)
    ensures |UpToEmpty(queue)| <= |queue|
    ensures BodyBytes(UpToEmpty(queue)) == BodyBytes(queue) <==> BodyBytes(queue[|UpToEmpty(queue)|..]) == []
    ensures !EmptyAhead(queue) ==> BodyBytes(UpToEmpty(queue)) == BodyBytes(queue)
  {
    UpToEmptyBytes(queue);
    NoEmptyAhead(queue);
  }

  lemma {:induction false} NoEmptyAhead(queue: seq<HttpEvent>)
    ensures |UpToEmpty(queue)| <= |queue|
    ensures !EmptyAhead(queue) ==> BodyBytes(queue[|UpToEmpty(queue)|..]) == []
  {
    if UpToEmpty(queue) != [] {
      NoEmptyAhead(queue[1..]);
      assert queue[1..][|UpToEmpty(queue[1..])|..] == queue[|UpToEmpty(queue)|..];
    } else {
      assert queue[0..] == queue;
    }
  }

  /** An empty body in front of a byte keeps it back. */
  lemma EmptyBodyKeepsBytesBack(b: Byte)
    ensures var queue := [Body([]), Body([b]), End];
      EmptyAhead(queue) && BodyBytes(UpToEmpty(queue)) == [] && BodyBytes(queue) == [b]
  {
    var queue := [Body([]), Body([b]), End];
    assert queue[1..] == [Body([b]), End] && queue[1..][1..] == [End];
    assert BodyBytes([Body([b]), End]) == [b] + BodyBytes([End]);
  }

  // ---- What is ever sent -----------------------------------------------------------------------------

  /** One `httpbody` call of the client. */
  datatype Segment = Segment(bytes: seq<Byte>, complete: bool)

  /** The events of one request's calls: empty segments send no body, completion ends the request. */
  function Produced(segments: seq<Segment>): seq<HttpEvent> {
    if segments == [] then []
    else
      (if segments[0].bytes == [] then [] else [Body(segments[0].bytes)])
      + if segments[0].complete then [End] else Produced(segments[1..])
  }

  /** The bytes of the segments up to the one that completes the request. */
  function SegmentBytes(segments: seq<Segment>): seq<Byte> {
    if segments == [] then []
    else segments[0].bytes + if segments[0].complete then [] else SegmentBytes(segments[1..])
  }

  function Contents(segments: seq<Segment>): (parts: seq<seq<Byte>>)
    ensures |parts| == |segments| && forall k :: 0 <= k < |parts| ==> parts[k] == segments[k].bytes
  {
    seq(|segments|, k requires 0 <= k < |segments| => segments[k].bytes)
  }

  /** With the request completed by segment `n - 1`, or never, its bytes are those of the first `n` ones. */
  lemma {:induction false} SegmentBytesAre(segments: seq<Segment>, n: nat)
    requires n <= |segments| && forall k :: 0 <= k < n - 1 ==> !segments[k].complete
    requires n == |segments| || (n > 0 && segments[n - 1].complete)
    ensures SegmentBytes(segments) == Concat(Contents(segments[..n]))
  {
    if n > 0 {
      var parts := Contents(segments[..n]);
      assert parts[1..] == Contents(segments[1..][..n - 1]);
      if n > 1 {
        SegmentBytesAre(segments[1..], n - 1);
      } else {
        assert Concat(parts[1..]) == [];
      }
    }
  }

  /** The client's calls never make a reader stall, and it gets every byte of the request. */
  lemma {:induction false} ProducedNeverStalls(segments: seq<Segment>)
    ensures !EmptyAhead(Produced(segments))
    ensures BodyBytes(UpToEmpty(Produced(segments))) == SegmentBytes(segments)
  {
    if segments != [] {
      var bytes, rest := segments[0].bytes, if segments[0].complete then [End] else Produced(segments[1..]);
      ProducedNeverStalls(segments[1..]);
      assert !EmptyAhead(rest) && BodyBytes(UpToEmpty(rest)) == SegmentBytes(segments)[|bytes|..];
      if bytes == [] {
        assert [] + rest == rest;
      } else {
        assert Produced(segments) == [Body(bytes)] + rest && ([Body(bytes)] + rest)[1..] == rest;
        UpToEmptyNext([Body(bytes)] + rest);
      }
    }
  }
}
