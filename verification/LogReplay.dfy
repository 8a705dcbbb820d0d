/** Log broadcasting with replay: a client gets recent lines from a ring buffer and then joins the
    live broadcast, with no lock held over both.

    A log line is identified by its position in the broadcast. A run interleaves the two halves of
    each write (broadcast, then remember) with the client's snapshot, subscription and receives. */
module LogReplay {
  import opened Basics
  import opened RingBuffer

  const RECENT := 50
  const BROADCAST := 64

  /** What the client reads: a log line, or the marker that replay is over. */
  datatype Frame = Log(at: nat) | ReplayDone

  datatype Client =
    | Outside
    | Replaying(snapshot: seq<nat>)
    | Joined(snapshot: seq<nat>, left: seq<Frame>, joinedAt: nat, next: nat, got: seq<Frame>)

  /** `sent` counts the broadcast lines; `pushed` lists the remembered ones in push order. */
  datatype State = State(sent: nat, pushed: seq<nat>, client: Client)

  datatype Action = Send | Push(at: nat) | Snapshot | Subscribe | Recv

  function Frames(lines: seq<nat>): (fs: seq<Frame>)
    ensures |fs| == |lines| && forall k :: 0 <= k < |fs| ==> fs[k] == Log(lines[k])
  {
    seq(|lines|, k requires 0 <= k < |lines| => Log(lines[k]))
  }

  /** A receiver that fell behind by more than the channel holds skips to the oldest kept line. */
  function NextLive(next: nat, sent: nat): nat {
    if sent - next > BROADCAST then sent - BROADCAST else next
  }

  predicate Enabled(s: State, a: Action) {
    match a
    case Send => true
    case Push(at) => at < s.sent && at !in s.pushed
    case Snapshot => s.client.Outside?
    case Subscribe => s.client.Replaying?
    case Recv => s.client.Joined? && (s.client.left != [] || s.client.next < s.sent)
  }

  function Step(s: State, a: Action): State {
    if !Enabled(s, a) then s else
    match a
    case Send => s.(sent := s.sent + 1)
    case Push(at) => s.(pushed := s.pushed + [at])
    case Snapshot => s.(client := Replaying(LastN(s.pushed, RECENT)))
    case Subscribe =>
      var snap := s.client.snapshot;
      s.(client := Joined(snap, Frames(snap) + [ReplayDone], s.sent, s.sent, []))
    case Recv =>
      var c := s.client;
      if c.left != [] then s.(client := c.(left := c.left[1..], got := c.got + [c.left[0]]))
      else
        var at := NextLive(c.next, s.sent);
        s.(client := c.(next := at + 1, got := c.got + [Log(at)]))
  }

  function Exec(s: State, acts: seq<Action>): State
    decreases |acts|
  {
    if acts == [] then s else Exec(Step(s, acts[0]), acts[1..])
  }

  const Initial := State(0, [], Outside)

  // ---- Any number of writers: nothing is delivered twice --------------------------------------

  ghost predicate Distinct(lines: seq<nat>, below: nat) {
    && (forall k :: 0 <= k < |lines| ==> lines[k] < below)
    && (forall k, l :: 0 <= k < l < |lines| ==> lines[k] != lines[l])
  }

  ghost predicate Rising(lines: seq<nat>, low: nat, high: nat) {
    && (forall k :: 0 <= k < |lines| ==> low <= lines[k] < high)
    && (forall k, l :: 0 <= k < l < |lines| ==> lines[k] < lines[l])
  }

  /** What a joined client has, or still holds from the replay: the snapshot, the marker, and live
      lines that rise from the moment it subscribed. */
  ghost predicate ClientOk(c: Client, live: seq<nat>) {
    c.Joined? ==>
      && c.got + c.left == Frames(c.snapshot) + [ReplayDone] + Frames(live)
      && (c.left != [] ==> live == [])
      && Rising(live, c.joinedAt, c.next)
      && c.joinedAt <= c.next
  }

  ghost predicate SnapshotOk(s: State) {
    && (s.client.Replaying? ==> Distinct(s.client.snapshot, s.sent) && |s.client.snapshot| <= RECENT)
    && (s.client.Joined? ==>
          Distinct(s.client.snapshot, s.client.joinedAt) && |s.client.snapshot| <= RECENT && s.client.next <= s.sent)
  }

  ghost predicate Inv(s: State, live: seq<nat>) {
    Distinct(s.pushed, s.sent) && SnapshotOk(s) && ClientOk(s.client, live)
  }

  /** The live lines delivered after a step. */
  ghost function LiveAfter(s: State, a: Action, live: seq<nat>): seq<nat> {
    if a.Subscribe? && Enabled(s, a) then []
    else if a.Recv? && Enabled(s, a) && s.client.left == [] then live + [NextLive(s.client.next, s.sent)]
    else live
  }

  lemma StepKeeps(s: State, a: Action, live: seq<nat>)
    requires Inv(s, live)
    ensures Inv(Step(s, a), LiveAfter(s, a, live))
  {
    var s', live' := Step(s, a), LiveAfter(s, a, live);
    if Enabled(s, a) && a.Recv? {
      var c, c' := s.client, s'.client;
      if c.left != [] {
        assert c'.got + c'.left == c.got + c.left;
      } else {
        assert Frames(live') == Frames(live) + [Log(NextLive(c.next, s.sent))];
        assert c.got == c.got + c.left;
      }
    }
  }

  lemma {:induction false} RunKeeps(s: State, acts: seq<Action>, live: seq<nat>) returns (live': seq<nat>)
    requires Inv(s, live)
    ensures Inv(Exec(s, acts), live')
    decreases |acts|
  {
    live' := live;
    if acts != [] {
      StepKeeps(s, acts[0], live);
      live' := RunKeeps(Step(s, acts[0]), acts[1..], LiveAfter(s, acts[0], live));
    }
  }

  /** However many writers there are and however the run is scheduled, a client first gets at most
      50 replayed lines and the marker, then live lines in broadcast order, and no line twice. */
  lemma NoDuplicatesInEveryRun(acts: seq<Action>) returns (live: seq<nat>)
    requires Exec(Initial, acts).client.Joined?
    ensures var c := Exec(Initial, acts).client;
      && Prefix(c.got, Frames(c.snapshot) + [ReplayDone] + Frames(live))
      && |c.snapshot| <= 50
      && Rising(live, c.joinedAt, c.next)
      && Distinct(c.snapshot + live, c.next)
  {
    live := RunKeeps(Initial, acts, []);
    var c := Exec(Initial, acts).client;
    assert c.got == (c.got + c.left)[..|c.got|];
  }

  // ---- When lines are in order --------------------------------------------------------------------

  ghost predicate RisingLines(lines: seq<nat>) {
    forall k, l :: 0 <= k < l < |lines| ==> lines[k] < lines[l]
  }

  /** Every line is remembered after all earlier ones of those remembered. */
  ghost predicate PushesRise(s: State, acts: seq<Action>)
    decreases |acts|
  {
    acts != [] ==>
      && (acts[0].Push? && Enabled(s, acts[0]) ==> forall k :: 0 <= k < |s.pushed| ==> s.pushed[k] < acts[0].at)
      && PushesRise(Step(s, acts[0]), acts[1..])
  }

  lemma {:induction false} PushedGrows(s: State, acts: seq<Action>)
    ensures Prefix(s.pushed, Exec(s, acts).pushed)
    decreases |acts|
  {
    if acts != [] {
      var s' := Step(s, acts[0]);
      PushedGrows(s', acts[1..]);
      assert Prefix(s.pushed, s'.pushed);
    }
  }

  lemma PrefixRises(a: seq<nat>, b: seq<nat>)
    requires Prefix(a, b) && RisingLines(b)
    ensures RisingLines(a)
  {
    assert forall k :: 0 <= k < |a| ==> a[k] == b[k];
  }

  lemma {:induction false} PushedRises(s: State, acts: seq<Action>)
    requires RisingLines(s.pushed)
    ensures RisingLines(Exec(s, acts).pushed) <==> PushesRise(s, acts)
    decreases |acts|
  {
    if acts != [] {
      var a, s' := acts[0], Step(s, acts[0]);
      if RisingLines(s'.pushed) {
        assert a.Push? && Enabled(s, a) ==> s'.pushed[|s.pushed|] == a.at && forall k :: 0 <= k < |s.pushed| ==> s'.pushed[k] == s.pushed[k];
        PushedRises(s', acts[1..]);
      } else {
        PushedGrows(s', acts[1..]);
        if RisingLines(Exec(s', acts[1..]).pushed) {
          PrefixRises(s'.pushed, Exec(s', acts[1..]).pushed);
        }
      }
    }
  }

  /** In every run the remembered lines are in broadcast order exactly when each was remembered after
      all earlier ones of those remembered. */
  lemma RememberedInOrderIff(acts: seq<Action>)
    ensures RisingLines(Exec(Initial, acts).pushed) <==> PushesRise(Initial, acts)
  {
    PushedRises(Initial, acts);
  }

  lemma {:induction false} SnapshotStays(s: State, acts: seq<Action>)
    requires !s.client.Outside?
    ensures !Exec(s, acts).client.Outside? && Exec(s, acts).client.snapshot == s.client.snapshot
    decreases |acts|
  {
    if acts != [] {
      SnapshotStays(Step(s, acts[0]), acts[1..]);
    }
  }

  /** In every run a client's lines, replayed and live, come in broadcast order exactly when the last
      50 lines remembered at its snapshot are in that order. */
  lemma DeliveredInOrderIff(before: seq<Action>, after: seq<Action>) returns (live: seq<nat>)
    requires Exec(Initial, before).client.Outside?
    requires Exec(Step(Exec(Initial, before), Snapshot), after).client.Joined?
    ensures var recent := LastN(Exec(Initial, before).pushed, 50);
      var c := Exec(Step(Exec(Initial, before), Snapshot), after).client;
      && Prefix(c.got, Frames(recent) + [ReplayDone] + Frames(live))
      && (RisingLines(recent + live) <==> RisingLines(recent))
  {
    var s := Exec(Initial, before);
    var s' := Step(s, Snapshot);
    var recent := LastN(s.pushed, RECENT);
    SnapshotStays(s', after);
    ExecAppend(Initial, before, [Snapshot] + after);
    ExecCons(s, Snapshot, after);
    live := NoDuplicatesInEveryRun(before + ([Snapshot] + after));
    var c := Exec(s', after).client;
    assert c.snapshot == recent && SnapshotOk(Exec(s', after)) by {
      var _ := RunKeeps(Initial, before + ([Snapshot] + after), []);
    }
    if RisingLines(recent + live) {
      PrefixRises(recent, recent + live);
    }
  }

  lemma {:induction false} ExecAppend(s: State, a: seq<Action>, b: seq<Action>)
    ensures Exec(s, a + b) == Exec(Exec(s, a), b)
    decreases |a|
  {
    if a == [] {
      assert a + b == b;
    } else {
      assert (a + b)[1..] == a[1..] + b;
      ExecAppend(Step(s, a[0]), a[1..], b);
    }
  }

  lemma ExecCons(s: State, a: Action, rest: seq<Action>)
    ensures Exec(s, [a] + rest) == Exec(Step(s, a), rest)
  {
    assert ([a] + rest)[1..] == rest;
  }

  /** Two writers can be replayed out of order: both broadcast, then remember in the other order. */
  lemma TwoWritersReplayOutOfOrder()
    ensures var acts := [Send] + ([Send] + ([Push(1)] + ([Push(0)] + ([Snapshot] + ([Subscribe] + ([Recv] + ([Recv] + [])))))));
      var c := Exec(Initial, acts).client;
      c.Joined? && c.got == [Log(1), Log(0)]
  {
    var s1 := Step(Initial, Send);
    var s2 := Step(s1, Send);
    var s3 := Step(s2, Push(1));
    var s4 := Step(s3, Push(0));
    var s5 := Step(s4, Snapshot);
    var s6 := Step(s5, Subscribe);
    ExecCons(Initial, Send, [Send] + ([Push(1)] + ([Push(0)] + ([Snapshot] + ([Subscribe] + ([Recv] + ([Recv] + [])))))));
    ExecCons(s1, Send, [Push(1)] + ([Push(0)] + ([Snapshot] + ([Subscribe] + ([Recv] + ([Recv] + []))))));
    ExecCons(s2, Push(1), [Push(0)] + ([Snapshot] + ([Subscribe] + ([Recv] + ([Recv] + [])))));
    ExecCons(s3, Push(0), [Snapshot] + ([Subscribe] + ([Recv] + ([Recv] + []))));
    ExecCons(s4, Snapshot, [Subscribe] + ([Recv] + ([Recv] + [])));
    ExecCons(s5, Subscribe, [Recv] + ([Recv] + []));
    ExecCons(s6, Recv, [Recv] + []);
    ExecCons(Step(s6, Recv), Recv, []);
    assert s4.pushed == [1, 0];
  }

  /** The lines are remembered one after the other, none left out. */
  ghost predicate PushesInSequence(s: State, acts: seq<Action>)
    decreases |acts|
  {
    acts == [] ||
    ((acts[0].Push? && Enabled(s, acts[0]) ==> acts[0].at == |s.pushed|) && PushesInSequence(Step(s, acts[0]), acts[1..]))
  }

  /** The first `k` lines, in order. */
  function UpTo(k: nat): (lines: seq<nat>)
    ensures |lines| == k && forall i :: 0 <= i < k ==> lines[i] == i
  {
    seq(k, i requires 0 <= i < k => i)
  }

  lemma UpToHas(k: nat, i: nat)
    ensures i in UpTo(k) <==> i < k
  {
    if i < k {
      assert UpTo(k)[i] == i;
    }
  }

  /** The remembered lines are the first ones, and a snapshot was the tail of those then. */
  ghost predicate InOrder(s: State) {
    && s.pushed == UpTo(|s.pushed|) && |s.pushed| <= s.sent
    && (!s.client.Outside? ==> exists k: nat :: SnapshotOf(s, k))
  }

  ghost predicate SnapshotOf(s: State, k: nat) {
    && !s.client.Outside?
    && s.client.snapshot == LastN(UpTo(k), RECENT)
    && k <= (if s.client.Joined? then s.client.joinedAt else |s.pushed|)
  }

  lemma StepInOrder(s: State, a: Action)
    requires InOrder(s) && (a.Push? && Enabled(s, a) ==> a.at == |s.pushed|)
    ensures InOrder(Step(s, a))
  {
    var s' := Step(s, a);
    if Enabled(s, a) {
      if a.Push? {
        assert s'.pushed == UpTo(|s'.pushed|);
      }
      if a.Snapshot? {
        assert SnapshotOf(s', |s.pushed|);
      } else if !s.client.Outside? {
        var k: nat :| SnapshotOf(s, k);
        assert SnapshotOf(s', k);
      }
    }
  }

  lemma {:induction false} RunInOrder(s: State, acts: seq<Action>)
    requires InOrder(s) && PushesInSequence(s, acts)
    ensures InOrder(Exec(s, acts))
    decreases |acts|
  {
    if acts != [] {
      StepInOrder(s, acts[0]);
      RunInOrder(Step(s, acts[0]), acts[1..]);
    }
  }

  /** When lines are remembered in sequence the client receives the last `min(50, k)` of the first `k`
      lines, the marker, and then lines rising from some `j` with `k <= j`: never one twice, never out
      of order. */
  lemma ReplaySeamInEveryRun(acts: seq<Action>) returns (k: nat, live: seq<nat>)
    requires PushesInSequence(Initial, acts) && Exec(Initial, acts).client.Joined?
    ensures var c := Exec(Initial, acts).client;
      && Prefix(c.got, Frames(LastN(UpTo(k), 50)) + [ReplayDone] + Frames(live))
      && k <= c.joinedAt
      && Rising(live, c.joinedAt, c.next)
      && Rising(LastN(UpTo(k), 50) + live, 0, c.next)
  {
    live := NoDuplicatesInEveryRun(acts);
    RunInOrder(Initial, acts);
    k :| SnapshotOf(Exec(Initial, acts), k);
  }

  /** A single writer broadcasts a line only after remembering the one before. */
  ghost predicate OneWriter(s: State, acts: seq<Action>)
    decreases |acts|
  {
    acts == [] ||
    ((acts[0].Send? ==> |s.pushed| == s.sent) && OneWriter(Step(s, acts[0]), acts[1..]))
  }

  /** A single writer remembers its lines in sequence. */
  lemma {:induction false} OneWriterPushesInSequence(s: State, acts: seq<Action>)
    requires InOrder(s) && s.sent <= |s.pushed| + 1 && OneWriter(s, acts)
    ensures PushesInSequence(s, acts)
    decreases |acts|
  {
    if acts != [] {
      var a := acts[0];
      if a.Push? {
        UpToHas(|s.pushed|, a.at);
      }
      StepInOrder(s, a);
      OneWriterPushesInSequence(Step(s, a), acts[1..]);
    }
  }

  /** A client that is never more than 64 lines behind when it reads gets every line from the one
      at which it subscribed. */
  ghost predicate KeepsUp(s: State, acts: seq<Action>)
    decreases |acts|
  {
    acts == [] ||
    ((s.client.Joined? ==> s.sent - s.client.next <= 64) && KeepsUp(Step(s, acts[0]), acts[1..]))
  }

  ghost predicate NoGap(c: Client) {
    c.Joined? ==>
      c.joinedAt <= c.next && (c.left != [] ==> c.next == c.joinedAt)
      && c.got + c.left == Frames(c.snapshot) + [ReplayDone] + Frames(Between(c.joinedAt, c.next))
  }

  function Between(low: nat, high: nat): (lines: seq<nat>)
    requires low <= high
    ensures |lines| == high - low && forall i :: 0 <= i < |lines| ==> lines[i] == low + i
  {
    seq(high - low, i requires 0 <= i < high - low => low + i)
  }

  lemma {:induction false} NoGapWhenKeepingUp(s: State, acts: seq<Action>)
    requires NoGap(s.client) && KeepsUp(s, acts)
    ensures NoGap(Exec(s, acts).client)
    decreases |acts|
  {
    if acts != [] {
      var a, c := acts[0], s.client;
      if Enabled(s, a) && a.Recv? {
        var c' := Step(s, a).client;
        if c.left != [] {
          assert c'.got + c'.left == c.got + c.left;
        } else {
          assert Frames(Between(c.joinedAt, c'.next)) == Frames(Between(c.joinedAt, c.next)) + [Log(c.next)];
          assert c.got == c.got + c.left;
        }
      }
      NoGapWhenKeepingUp(Step(s, a), acts[1..]);
    }
  }

  lemma FramesSnoc(lines: seq<nat>, k: nat)
    requires k < |lines|
    ensures Frames(lines[..k + 1]) == Frames(lines[..k]) + [Log(lines[k])]
  {
  }

  // ---- The sink and the receiver --------------------------------------------------------------------

  class BroadcastLogSink {
    var tx: nat
    const recent: RingBuffer<nat>

    constructor ()
      ensures Valid() && View(Outside) == Initial && fresh(recent)
    {
      tx := 0;
      recent := new RingBuffer<nat>(RECENT);
    }

    ghost predicate Valid()
      reads this, recent
    {
      recent.Valid() && recent.capacity == RECENT
    }

    ghost function View(client: Client): State
      reads this, recent
    {
      State(tx, recent.pushed, client)
    }

    /** First half of `write_log`: broadcast the line. */
    method Send(ghost client: Client) returns (at: nat)
      requires Valid()
      modifies this
      ensures Valid() && at == old(tx) && tx == at + 1 && View(client) == Step(old(View(client)), Action.Send)
    {
      at := tx;
      tx := tx + 1;
    }

    /** Second half of `write_log`: remember the line. */
    method Push(at: nat, ghost client: Client)
      requires Valid() && Enabled(View(client), Action.Push(at))
      modifies recent
      ensures Valid() && recent.pushed == old(recent.pushed) + [at]
      ensures View(client) == Step(old(View(client)), Action.Push(at))
    {
      var panicked := recent.Push(at);
    }

    /** The locked part of `replay_and_subscribe`, followed by the marker. */
    method Replay() returns (replay: seq<Frame>)
      requires Valid()
      ensures Step(View(Outside), Snapshot).client == Replaying(LastN(recent.pushed, 50))
      ensures replay == Frames(LastN(recent.pushed, 50)) + [ReplayDone]
      ensures var lines := recent.pushed[if |recent.pushed| <= 50 then 0 else |recent.pushed| - 50..];
        |replay| == |lines| + 1 && forall k :: 0 <= k < |lines| ==> replay[k] == Log(lines[k])
    {
      replay := [];
      var lines := Borrowed(recent);
      for k := 0 to |lines|
        invariant replay == Frames(lines[..k])
      {
        FramesSnoc(lines, k);
        replay := replay + [Log(lines[k])];
      }
      assert lines[..|lines|] == lines;
      replay := replay + [ReplayDone];
    }
  }

  /** Reads the replay queue to its end, then the broadcast. */
  class ConcatReceivable {
    const sink: BroadcastLogSink
    var left: Option<seq<Frame>>
    var right: nat
    ghost var snapshot: seq<nat>
    ghost var joinedAt: nat
    ghost var got: seq<Frame>

    constructor (sink: BroadcastLogSink, replay: seq<Frame>, ghost snapshot: seq<nat>)
      requires sink.Valid() && replay == Frames(snapshot) + [ReplayDone]
      ensures this.sink == sink && left == Some(replay) && right == sink.tx && got == []
      ensures sink.View(Seen()) == Step(sink.View(Replaying(snapshot)), Subscribe)
    {
      this.sink, left, right := sink, Some(replay), sink.tx;
      this.snapshot, joinedAt, got := snapshot, sink.tx, [];
    }

    ghost function Seen(): Client
      reads this
    {
      Joined(snapshot, if left.Some? then left.value else [], joinedAt, right, got)
    }

    /** `None` stands for a receive that has to wait. */
    method RecvMsg() returns (frame: Option<Frame>)
      requires sink.Valid() && right <= sink.tx
      modifies this
      ensures sink.View(Seen()) == Step(old(sink.View(Seen())), Recv)
      ensures frame.None? <==> !Enabled(old(sink.View(Seen())), Recv)
      ensures frame.Some? ==> got == old(got) + [frame.value]
      ensures old(left).Some? && old(left).value != [] ==>
        frame == Some(old(left).value[0]) && left == Some(old(left).value[1..]) && right == old(right)
      ensures old(left).None? || old(left).value == [] ==>
        var at := if sink.tx - old(right) > 64 then sink.tx - 64 else old(right);
        if old(right) == sink.tx then frame.None? && right == old(right) else frame == Some(Log(at)) && right == at + 1
      ensures right <= sink.tx
    {
      if left.Some? {
        if left.value != [] {
          frame := Some(left.value[0]);
          left := Some(left.value[1..]);
          got := got + [frame.value];
          return;
        }
        left := None;
      }
      if right == sink.tx {
        return None;
      }
      if sink.tx - right > BROADCAST {
        right := sink.tx - BROADCAST;
      }
      frame := Some(Log(right));
      right := right + 1;
      got := got + [frame.value];
    }
  }
}
