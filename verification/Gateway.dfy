/** One gateway session: inventory, selection, dialling, acknowledgement, then proxied frames.

    What the peers send, which sends and serialisations succeed, what the registry holds at each read
    and whether a target can be spawned or dialled are parameters. */
module Gateway {
  import opened Basics
  import opened Registry

  /** What reading a WebSocket yields; `End` is the end of the stream, `Broken` an error. */
  datatype Read = Text(text: string) | Binary(data: seq<Byte>) | Control(payload: seq<Byte>) | Close | End | Broken

  datatype Lifecycle = External | Managed

  /** What the client is told of an endpoint: everything but the connection token. */
  datatype Endpoint = Endpoint(
    serverType: ServerType, pid: nat, instanceId: string, quality: Option<string>, tunnelName: Option<string>,
    address: Address)

  /** Which failure message the client gets. */
  datatype Reason =
    | Malformed(error: string)
    | NotText
    | NothingSelected
    | NoLongerLive(instanceId: string)
    | NotStarted(error: string)
    | Unreachable(error: string)

  datatype Out =
    | Inventory(endpoints: seq<Endpoint>)
    | Failure(error: Reason)
    | Ack(serverType: ServerType, instanceId: string, lifecycle: Lifecycle)
    | Frame(read: Read)
    | Closing

  /** A selection message as it was parsed. */
  datatype Wire = Wire(instanceId: Option<string>, newDedicated: Option<bool>)

  type Parse = string -> Result<Wire, string>

  /** One wait of the proxy loop: who was read, and whether passing the frame on succeeds. */
  datatype Turn = FromClient(read: Read, sent: bool) | FromTarget(read: Read, sent: bool)

  datatype World = World(
    listed: seq<Entry>, inventorySerialized: bool, inventorySent: bool,
    incoming: seq<Read>,
    relisted: seq<Entry>, spawned: Result<Entry, string>, unreachable: Option<string>,
    failureSent: bool, ackSerialized: bool, ackSent: bool,
    turns: seq<Turn>)

  /** One side of a connection: what was put on the wire towards that peer. */
  class WebSocket {
    var sent: seq<Out>

    constructor ()
      ensures sent == []
    {
      sent := [];
    }

    method Send(m: Out, ok: bool)
      modifies this
      ensures sent == old(sent) + if ok then [m] else []
    {
      if ok {
        sent := sent + [m];
      }
    }
  }

  function Endpoints(entries: seq<Entry>): seq<Endpoint> {
    seq(|entries|, k requires 0 <= k < |entries| =>
      var e := entries[k]; Endpoint(e.serverType, e.pid, e.instanceId, e.quality, e.tunnelName, e.endpoint))
  }

  // ---- Waiting for the selection -------------------------------------------------------------------

  datatype Awaited = Chosen(wire: Wire) | Refused(error: Reason) | Left | Waiting

  /** The first message that is not a ping or pong decides; `Waiting` if none has come yet. */
  ghost predicate Decides(parse: Parse, incoming: seq<Read>, a: Awaited) {
    || (a.Waiting? && forall k :: 0 <= k < |incoming| ==> incoming[k].Control?)
    || exists i :: 0 <= i < |incoming| && !incoming[i].Control? && (forall k :: 0 <= k < i ==> incoming[k].Control?)
         && match incoming[i]
            case Text(s) => (match parse(s) case Ok(w) => a == Chosen(w) case Err(e) => a == Refused(Malformed(e)))
            case Binary(_) => a == Refused(NotText)
            case _ => a == Left
  }

  method AwaitSelection(parse: Parse, incoming: seq<Read>) returns (a: Awaited)
    ensures a.Waiting? <==> forall k :: 0 <= k < |incoming| ==> incoming[k].Control?
    ensures forall i :: 0 <= i < |incoming| && !incoming[i].Control? && (forall k :: 0 <= k < i ==> incoming[k].Control?) ==>
      && (incoming[i].Text? ==>
            a == (match parse(incoming[i].text) case Ok(wire) => Chosen(wire) case Err(e) => Refused(Malformed(e))))
      && (incoming[i].Binary? ==> a == Refused(NotText))
      && (incoming[i].Close? || incoming[i].End? || incoming[i].Broken? ==> a == Left)
    ensures Decides(parse, incoming, a)
  {
    for i := 0 to |incoming|
      invariant forall k :: 0 <= k < i ==> incoming[k].Control?
    {
      match incoming[i] {
        case Text(s) =>
          assert !incoming[i].Control?;
          match parse(s) {
            case Ok(w) => return Chosen(w);
            case Err(e) => return Refused(Malformed(e));
          }
        case Binary(_) =>
          assert !incoming[i].Control?;
          return Refused(NotText);
        case Control(_) => continue;
        case _ =>
          assert !incoming[i].Control?;
          return Left;
      }
    }
    a := Waiting;
  }

  // ---- Resolving the target ------------------------------------------------------------------------

  predicate AsksFor(w: Wire, id: string) {
    id != "" && w.instanceId == Some(id)
  }

  predicate AsksNew(w: Wire) {
    (w.instanceId.None? || w.instanceId.value == "") && w.newDedicated == Some(true)
  }

  /** The first listed entry of the instance: kinds and processes may share an instance id. */
  ghost predicate FirstOf(relisted: seq<Entry>, e: Entry) {
    exists i :: 0 <= i < |relisted| && relisted[i] == e && forall k :: 0 <= k < i ==> relisted[k].instanceId != e.instanceId
  }

  /** The entry is what the selection asks for: the first listed one of the exact instance, or the new one. */
  ghost predicate Selected(w: Wire, relisted: seq<Entry>, spawned: Result<Entry, string>, e: Entry, l: Lifecycle) {
    match l
    case External => AsksFor(w, e.instanceId) && FirstOf(relisted, e)
    case Managed => AsksNew(w) && spawned == Ok(e)
  }

  /** A selection asks for one target at most. */
  lemma TargetIsDetermined(
    w: Wire, relisted: seq<Entry>, spawned: Result<Entry, string>, e: Entry, l: Lifecycle, e': Entry, l': Lifecycle)
    requires Selected(w, relisted, spawned, e, l) && Selected(w, relisted, spawned, e', l')
    ensures e == e' && l == l'
  {
    if l.External? && l'.External? {
      var i :| 0 <= i < |relisted| && relisted[i] == e && forall k :: 0 <= k < i ==> relisted[k].instanceId != e.instanceId;
      var j :| 0 <= j < |relisted| && relisted[j] == e' && forall k :: 0 <= k < j ==> relisted[k].instanceId != e'.instanceId;
      assert i == j;
    }
  }

  method Resolve(w: Wire, relisted: seq<Entry>, spawned: Result<Entry, string>)
    returns (r: Result<(Entry, Lifecycle), Reason>)
    ensures w.instanceId.Some? && w.instanceId.value != "" ==>
      var id := w.instanceId.value;
      match r
      case Ok((e, l)) =>
        && l.External? && e.instanceId == id
        && exists i :: 0 <= i < |relisted| && relisted[i] == e && forall k :: 0 <= k < i ==> relisted[k].instanceId != id
      case Err(error) => error == NoLongerLive(id) && forall k :: 0 <= k < |relisted| ==> relisted[k].instanceId != id
    ensures !(w.instanceId.Some? && w.instanceId.value != "") && w.newDedicated == Some(true) ==>
      r == (match spawned case Ok(e) => Ok((e, Managed)) case Err(error) => Err(NotStarted(error)))
    ensures !(w.instanceId.Some? && w.instanceId.value != "") && w.newDedicated != Some(true) ==> r == Err(NothingSelected)
    ensures r.Ok? ==> Selected(w, relisted, spawned, r.value.0, r.value.1)
    ensures r.Err? ==> forall e, l :: !Selected(w, relisted, spawned, e, l)
  {
    if w.instanceId.Some? && w.instanceId.value != "" {
      var id := w.instanceId.value;
      for i := 0 to |relisted|
        invariant forall k :: 0 <= k < i ==> relisted[k].instanceId != id
      {
        if relisted[i].instanceId == id {
          assert FirstOf(relisted, relisted[i]);
          return Ok((relisted[i], External));
        }
      }
      r := Err(NoLongerLive(id));
    } else if w.newDedicated == Some(true) {
      match spawned {
        case Ok(e) => r := Ok((e, Managed));
        case Err(error) => r := Err(NotStarted(error));
      }
    } else {
      r := Err(NothingSelected);
    }
  }

  // ---- Proxying ------------------------------------------------------------------------------------

  predicate IsFrame(r: Read) {
    r.Text? || r.Binary? || r.Control?
  }

  /** The frames one side sent, in order, as passed on to the other. */
  function Frames(turns: seq<Turn>, fromClient: bool): seq<Out> {
    if turns == [] then []
    else
      var last := turns[|turns| - 1];
      Frames(turns[..|turns| - 1], fromClient) +
      if last.FromClient? == fromClient && IsFrame(last.read) then [Frame(last.read)] else []
  }

  lemma FramesNext(turns: seq<Turn>, done: nat, fromClient: bool)
    requires done < |turns|
    ensures Frames(turns[..done + 1], fromClient) == Frames(turns[..done], fromClient) +
      if turns[done].FromClient? == fromClient && IsFrame(turns[done].read) then [Frame(turns[done].read)] else []
  {
    assert turns[..done + 1][..done] == turns[..done];
  }

  /** The close passed on to the other side when one side's stream ends. */
  function CloseAfter(turns: seq<Turn>, done: nat, fromClient: bool): seq<Out>
    requires done <= |turns|
  {
    if done < |turns| && turns[done].FromClient? == fromClient && (turns[done].read.Close? || turns[done].read.End?)
    then [Closing] else []
  }

  /** What is done with one read of the other side: a frame is passed on, an end is passed on as a close,
      and after anything but a frame passed on the proxy ends. */
  method PassOn(to: WebSocket, read: Read, ok: bool) returns (on: bool)
    modifies to
    ensures on <==> (read.Text? || read.Binary? || read.Control?) && ok
    ensures read.Close? || read.End? ==> to.sent == old(to.sent) + [Closing]
    ensures on ==> to.sent == old(to.sent) + [Frame(read)]
    ensures !on && !read.Close? && !read.End? ==> to.sent == old(to.sent)
  {
    if read.Close? || read.End? {
      to.Send(Closing, true);
      return false;
    }
    if read.Broken? || !ok {
      return false;
    }
    to.Send(Frame(read), true);
    on := true;
  }

  /** Passes frames on until the first turn that is not a frame passed on: that turn ends the proxy. */
  method ProxyGatewayFrames(client: WebSocket, target: WebSocket, turns: seq<Turn>) returns (done: nat)
    requires client != target
    modifies client, target
    ensures done <= |turns|
    ensures forall k :: 0 <= k < done ==> turns[k].sent && !turns[k].read.Close? && !turns[k].read.End? && !turns[k].read.Broken?
    ensures done < |turns| ==>
      !turns[done].sent || turns[done].read.Close? || turns[done].read.End? || turns[done].read.Broken?
    ensures client.sent == old(client.sent) + Frames(turns[..done], false) + CloseAfter(turns, done, false)
    ensures target.sent == old(target.sent) + Frames(turns[..done], true) + CloseAfter(turns, done, true)
  {
    done := 0;
    assert turns[..0] == [];
    while done < |turns|
      invariant done <= |turns|
      invariant forall k :: 0 <= k < done ==>
        turns[k].sent && !turns[k].read.Close? && !turns[k].read.End? && !turns[k].read.Broken?
      invariant client.sent == old(client.sent) + Frames(turns[..done], false)
      invariant target.sent == old(target.sent) + Frames(turns[..done], true)
    {
      FramesNext(turns, done, true);
      FramesNext(turns, done, false);
      var on;
      match turns[done] {
        case FromClient(read, ok) => on := PassOn(target, read, ok);
        case FromTarget(read, ok) => on := PassOn(client, read, ok);
      }
      if !on {
        return;
      }
      done := done + 1;
    }
  }

  /** What one side receives from the proxy is an in-order prefix of what the other side sent. */
  lemma {:induction false} FramesPrefix(turns: seq<Turn>, done: nat, fromClient: bool)
    requires done <= |turns|
    ensures Prefix(Frames(turns[..done], fromClient), Frames(turns, fromClient))
    decreases |turns| - done
  {
    if done == |turns| {
      assert turns[..done] == turns;
    } else {
      FramesPrefix(turns, done + 1, fromClient);
      assert turns[..done + 1][..done] == turns[..done];
    }
  }

  // ---- The whole session ---------------------------------------------------------------------------

  /** What the session does after the inventory: stop silently, fail with a message, or go on. */
  datatype Verdict = Stop | Fail(error: Reason) | Go(entry: Entry, lifecycle: Lifecycle)

  /** The failure message fits what was asked for and found. */
  ghost predicate Explains(w: World, wire: Wire, m: Reason) {
    match m
    case NoLongerLive(id) => AsksFor(wire, id) && forall k :: 0 <= k < |w.relisted| ==> w.relisted[k].instanceId != id
    case NotStarted(error) => AsksNew(wire) && w.spawned == Err(error)
    case NothingSelected => (wire.instanceId.None? || wire.instanceId.value == "") && wire.newDedicated != Some(true)
    case Unreachable(error) => w.unreachable == Some(error) && exists e, l :: Selected(wire, w.relisted, w.spawned, e, l)
    case _ => false
  }

  /** It goes on exactly when a selection came, its exact target exists, and this can be dialled. */
  ghost predicate Concludes(w: World, a: Awaited, v: Verdict) {
    && (v.Stop? <==> a.Left? || a.Waiting?)
    && (a.Refused? ==> v == Fail(a.error))
    && (v.Go? ==> a.Chosen? && w.unreachable.None? && Selected(a.wire, w.relisted, w.spawned, v.entry, v.lifecycle))
    && (v.Fail? && a.Chosen? ==> Explains(w, a.wire, v.error))
  }

  method SelectTarget(parse: Parse, w: World) returns (a: Awaited, v: Verdict)
    ensures Decides(parse, w.incoming, a) && Concludes(w, a, v)
  {
    a := AwaitSelection(parse, w.incoming);
    match a {
      case Left => v := Stop;
      case Waiting => v := Stop;
      case Refused(m) => v := Fail(m);
      case Chosen(wire) =>
        var resolved := Resolve(wire, w.relisted, w.spawned);
        if resolved.Err? {
          v := Fail(resolved.error);
        } else if w.unreachable.Some? {
          v := Fail(Unreachable(w.unreachable.value));
        } else {
          v := Go(resolved.value.0, resolved.value.1);
        }
    }
  }

  /** The acknowledgement, then the target's frames passed on in order, then possibly the close. */
  function AckedSends(w: World, e: Entry, l: Lifecycle, done: nat): seq<Out>
    requires done <= |w.turns|
  {
    [Ack(e.serverType, e.instanceId, l)] + (Frames(w.turns[..done], false) + CloseAfter(w.turns, done, false))
  }

  ghost predicate Acknowledged(w: World, a: Awaited, replies: seq<Out>) {
    a.Chosen? && exists e: Entry, l: Lifecycle, done: nat ::
      done <= |w.turns| && Selected(a.wire, w.relisted, w.spawned, e, l) && replies == AckedSends(w, e, l, done)
  }

  /** Everything the session can ever have sent to the client after the inventory. */
  ghost predicate Replies(w: World, a: Awaited, replies: seq<Out>) {
    || replies == []
    || replies == [Closing]
    || (exists m :: replies == [Failure(m), Closing])
    || Acknowledged(w, a, replies)
  }

  /** When serialisation and sends succeed: what exactly the client gets, and when. */
  ghost predicate ServedReplies(w: World, a: Awaited, replies: seq<Out>) {
    match a
    case Waiting => replies == []
    case Left => replies == []
    case Refused(m) => replies == [Failure(m), Closing]
    case Chosen(wire) =>
      if w.unreachable.None? && exists e, l :: Selected(wire, w.relisted, w.spawned, e, l)
      then Acknowledged(w, a, replies)
      else exists m :: Explains(w, wire, m) && replies == [Failure(m), Closing]
  }

  /** What a dialled target got: the client's frames in order, and possibly the close. */
  ghost predicate Proxied(w: World, toTarget: seq<Out>) {
    toTarget == [] || exists done: nat :: done <= |w.turns| && toTarget == ClientSends(w, done)
  }

  function ClientSends(w: World, done: nat): seq<Out>
    requires done <= |w.turns|
  {
    Frames(w.turns[..done], true) + CloseAfter(w.turns, done, true)
  }

  /** Acknowledges a dialled target and passes frames on; `toTarget` is all the target ever gets. */
  method ServeTarget(w: World, client: WebSocket, entry: Entry, lifecycle: Lifecycle)
    returns (toTarget: seq<Out>, done: nat)
    modifies client
    ensures done <= |w.turns|
    ensures w.ackSerialized && w.ackSent ==> client.sent == old(client.sent) + AckedSends(w, entry, lifecycle, done)
    ensures !(w.ackSerialized && w.ackSent) ==> client.sent == old(client.sent) && toTarget == []
    ensures toTarget == [] || toTarget == ClientSends(w, done)
  {
    toTarget, done := [], 0;
    var target := new WebSocket();
    if !w.ackSerialized {
      return;
    }
    client.Send(Ack(entry.serverType, entry.instanceId, lifecycle), w.ackSent);
    if !w.ackSent {
      return;
    }
    done := ProxyGatewayFrames(client, target, w.turns);
    toTarget := target.sent;
    assert toTarget == ClientSends(w, done);
  }

  /** `toTarget` is what was sent to the target; nothing is before the acknowledgement. */
  method RunGatewaySession(parse: Parse, w: World, client: WebSocket)
    returns (a: Awaited, toTarget: seq<Out>)
    requires client.sent == []
    modifies client
    ensures !(w.inventorySerialized && w.inventorySent) ==> client.sent == [] && toTarget == []
    ensures w.inventorySerialized && w.inventorySent ==>
      && Decides(parse, w.incoming, a)
      && client.sent != [] && Replies(w, a, client.sent[1..])
      && client.sent[0].Inventory? && |client.sent[0].endpoints| == |w.listed|
      && forall k :: 0 <= k < |w.listed| ==>
        var told, e := client.sent[0].endpoints[k], w.listed[k];
        && told.serverType == e.serverType && told.pid == e.pid && told.instanceId == e.instanceId
        && told.quality == e.quality && told.tunnelName == e.tunnelName && told.address == e.endpoint
    ensures |client.sent| >= 2 && client.sent[1].Failure? ==> client.sent[2..] == [Closing]
    ensures |client.sent| >= 2 && client.sent[1].Failure? && a.Refused? ==> client.sent[1].error == a.error
    ensures |client.sent| >= 2 && client.sent[1].Failure? && !a.Refused? ==>
      && a.Chosen?
      && var existing := a.wire.instanceId.Some? && a.wire.instanceId.value != "";
      match client.sent[1].error
      case NoLongerLive(id) =>
        existing && a.wire.instanceId.value == id && forall k :: 0 <= k < |w.relisted| ==> w.relisted[k].instanceId != id
      case NotStarted(error) => !existing && a.wire.newDedicated == Some(true) && w.spawned == Err(error)
      case NothingSelected => !existing && a.wire.newDedicated != Some(true)
      case Unreachable(error) => w.unreachable == Some(error)
      case _ => false
    ensures |client.sent| >= 2 && client.sent[1].Ack? ==>
      && a.Chosen? && w.unreachable.None?
      && var existing := a.wire.instanceId.Some? && a.wire.instanceId.value != "";
      && (client.sent[1].lifecycle.External? <==> existing)
      && (existing ==>
            && client.sent[1].instanceId == a.wire.instanceId.value
            && (exists k :: 0 <= k < |w.relisted| && w.relisted[k].instanceId == a.wire.instanceId.value &&
                  w.relisted[k].serverType == client.sent[1].serverType))
      && (!existing ==>
            && a.wire.newDedicated == Some(true) && w.spawned.Ok?
            && client.sent[1].instanceId == w.spawned.value.instanceId
            && client.sent[1].serverType == w.spawned.value.serverType)
    ensures w.inventorySerialized && w.inventorySent && w.ackSerialized && w.ackSent && w.failureSent ==>
      && ServedReplies(w, a, client.sent[1..])
      && (a.Chosen? ==> |client.sent| >= 2 && (client.sent[1].Ack? || client.sent[1].Failure?))
      && (a.Refused? ==> |client.sent| >= 2 && client.sent[1].Failure?)
    ensures toTarget != [] ==> |client.sent| >= 2 && Acknowledged(w, a, client.sent[1..])
    ensures Proxied(w, toTarget)
  {
    a, toTarget := Waiting, [];
    if !w.inventorySerialized {
      return;
    }
    client.Send(Inventory(Endpoints(w.listed)), w.inventorySent);
    if !w.inventorySent {
      return;
    }
    ghost var first := client.sent;
    var v;
    a, v := SelectTarget(parse, w);
    match v {
      case Stop =>
      case Fail(m) =>
        SendGatewayError(client, m, w.failureSent);
        assert client.sent == first + client.sent[1..];
      case Go(entry, lifecycle) =>
        var done;
        toTarget, done := ServeTarget(w, client, entry, lifecycle);
        assert client.sent[1..] == if w.ackSerialized && w.ackSent then AckedSends(w, entry, lifecycle, done) else [];
    }
  }

  method SendGatewayError(client: WebSocket, message: Reason, ok: bool)
    modifies client
    ensures client.sent == old(client.sent) + (if ok then [Failure(message)] else []) + [Closing]
  {
    client.Send(Failure(message), ok);
    client.Send(Closing, true);
  }

  /** Once acknowledged, what the client gets next is an in-order prefix of the target's frames, and what
      the target gets is one of the client's, each possibly with a close behind it. */
  lemma AckedFramesInOrder(w: World, e: Entry, l: Lifecycle, done: nat)
    requires done <= |w.turns|
    ensures AckedSends(w, e, l, done)[0] == Ack(e.serverType, e.instanceId, l)
    ensures PrefixThenClose(AckedSends(w, e, l, done)[1..], Frames(w.turns, false))
    ensures PrefixThenClose(ClientSends(w, done), Frames(w.turns, true))
  {
    FramesPrefix(w.turns, done, false);
    FramesPrefix(w.turns, done, true);
    var toClient := Frames(w.turns[..done], false);
    assert AckedSends(w, e, l, done)[1..] == toClient + CloseAfter(w.turns, done, false);
    PrefixThenCloseIntro(toClient, CloseAfter(w.turns, done, false), Frames(w.turns, false));
    PrefixThenCloseIntro(Frames(w.turns[..done], true), CloseAfter(w.turns, done, true), Frames(w.turns, true));
  }

  ghost predicate PrefixThenClose(s: seq<Out>, frames: seq<Out>) {
    Prefix(s, frames) || (s != [] && s[|s| - 1].Closing? && Prefix(s[..|s| - 1], frames))
  }

  lemma PrefixThenCloseIntro(a: seq<Out>, tail: seq<Out>, frames: seq<Out>)
    requires Prefix(a, frames) && (tail == [] || tail == [Closing])
    ensures PrefixThenClose(a + tail, frames)
  {
    if tail == [] {
      assert a + tail == a;
    } else {
      assert (a + tail)[..|a + tail| - 1] == a;
    }
  }
}
