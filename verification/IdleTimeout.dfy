/** The idle-timeout loop of a standalone agent host, its connection guards, and the unbounded
    channel between them. */
module IdleTimeout {
  import opened Basics

  datatype Event = Connected | Disconnected

  /** What ends one wait of the loop: an event, the timer, or the closed channel. */
  datatype Wake = Received(event: Event, at: nat) | Elapsed(at: nat) | Closed(at: nat)

  /** Clients counted by the loop, with its saturating subtraction. */
  function Clients(wakes: seq<Wake>): nat {
    if wakes == [] then 0
    else
      var before := Clients(wakes[..|wakes| - 1]);
      match wakes[|wakes| - 1]
      case Received(Connected, _) => before + 1
      case Received(Disconnected, _) => if before == 0 then 0 else before - 1
      case _ => before
  }

  /** No client is counted at wake-up `k`, it is the timer's, and a full timeout has gone by since
      the start and since every event received so far. */
  ghost predicate Fires(timeout: nat, start: nat, wakes: seq<Wake>, k: nat)
    requires k < |wakes|
  {
    && wakes[k].Elapsed? && Clients(wakes[..k]) == 0
    && start + timeout <= wakes[k].at
    && (forall j :: 0 <= j < k && wakes[j].Received? ==> wakes[j].at + timeout <= wakes[k].at)
  }

  /** The loop stays through the timer's wake-up exactly when a client is counted or a moment lies less than
      the timeout back: the start, or the last event received before it. */
  lemma StaysThrough(timeout: nat, start: nat, wakes: seq<Wake>, k: nat)
    requires k < |wakes| && wakes[k].Elapsed?
    requires forall i, j :: 0 <= i < j < |wakes| ==> wakes[i].at <= wakes[j].at
    ensures !Fires(timeout, start, wakes, k) <==>
      || Clients(wakes[..k]) > 0 || wakes[k].at - start < timeout
      || exists j :: 0 <= j < k && wakes[j].Received? && wakes[k].at - wakes[j].at < timeout &&
           (forall i :: j < i < k ==> !wakes[i].Received?)
  {
    if j :| 0 <= j < k && wakes[j].Received? && wakes[j].at + timeout > wakes[k].at {
      var last := LastReceived(wakes, j, k);
      assert wakes[j].at <= wakes[last].at;
    }
  }

  lemma LastReceived(wakes: seq<Wake>, j: nat, k: nat) returns (last: nat)
    requires j < k <= |wakes| && wakes[j].Received?
    ensures j <= last < k && wakes[last].Received? && forall i :: last < i < k ==> !wakes[i].Received?
    decreases k
  {
    if wakes[k - 1].Received? {
      last := k - 1;
    } else {
      last := LastReceived(wakes, j, k - 1);
    }
  }

  /** Returns at the first wake-up that fires, and not at all without one. A timer that could not have
      elapsed yet does not wake the loop. */
  method WaitForIdleTimeout(timeout: nat, start: nat, wakes: seq<Wake>) returns (fired: Option<nat>, used: nat)
    requires forall i, j :: 0 <= i < j < |wakes| ==> wakes[i].at <= wakes[j].at
    requires forall i :: 0 <= i < |wakes| ==> start <= wakes[i].at
    ensures used <= |wakes|
    ensures fired.Some? ==> used > 0 && Fires(timeout, start, wakes, used - 1) && fired.value == wakes[used - 1].at
    ensures fired.None? ==> used == |wakes| || wakes[used].Closed?
    ensures forall k :: 0 <= k < used && (k < used - 1 || fired.None?) ==> !Fires(timeout, start, wakes, k)
  {
    var activeClients := 0;
    var armed := start;
    used := 0;
    while used < |wakes|
      invariant 0 <= used <= |wakes|
      invariant activeClients == Clients(wakes[..used])
      invariant forall k :: 0 <= k < used ==> !Fires(timeout, start, wakes, k)
      invariant start <= armed && forall j :: 0 <= j < used && wakes[j].Received? ==> wakes[j].at <= armed
      invariant armed == start || exists j :: 0 <= j < used && wakes[j].Received? && wakes[j].at == armed
    {
      assert wakes[..used + 1][..used] == wakes[..used];
      match wakes[used] {
        case Elapsed(at) =>
          if activeClients == 0 && armed + timeout <= at {
            return Some(at), used + 1;
          }
        case Received(Connected, at) =>
          activeClients, armed := activeClients + 1, at;
        case Received(Disconnected, at) =>
          activeClients, armed := if activeClients == 0 then 0 else activeClients - 1, at;
        case Closed(_) =>
          return None, used;
      }
      used := used + 1;
    }
    fired := None;
  }

  // ---- Guards, channel and loop together -----------------------------------------------------------

  /** `sent` is everything put into the channel, `wakes` what the loop took out of it, and `guards`
      the live guards. `busy` is the last moment at which a client was connected. */
  datatype State = State(
    now: nat, start: nat, sent: seq<Event>, wakes: seq<Wake>, guards: nat, busy: nat, fired: bool)

  datatype Action = Connect | Drop | Wait(span: nat) | Receive | Fire

  function Queued(s: State): seq<Event>
    requires |s.wakes| <= |s.sent|
  {
    s.sent[|s.wakes|..]
  }

  ghost predicate Enabled(timeout: nat, s: State, a: Action) {
    match a
    case Connect => true
    case Drop => s.guards > 0
    case Wait(_) => true
    case Receive => !s.fired && |s.wakes| < |s.sent|
    case Fire => !s.fired && Fires(timeout, s.start, s.wakes + [Elapsed(s.now)], |s.wakes|)
  }

  ghost function Step(timeout: nat, s: State, a: Action): State {
    if !Enabled(timeout, s, a) then s else
    match a
    case Connect => s.(sent := s.sent + [Connected], guards := s.guards + 1, busy := s.now)
    case Drop => s.(sent := s.sent + [Disconnected], guards := s.guards - 1, busy := s.now)
    case Wait(span) => s.(now := s.now + span, busy := if s.guards > 0 then s.now + span else s.busy)
    case Receive => s.(wakes := s.wakes + [Received(s.sent[|s.wakes|], s.now)])
    case Fire => s.(fired := true)
  }

  ghost function Exec(timeout: nat, s: State, acts: seq<Action>): State
    decreases |acts|
  {
    if acts == [] then s else Exec(timeout, Step(timeout, s, acts[0]), acts[1..])
  }

  function Initial(start: nat): State {
    State(start, start, [], [], 0, start, false)
  }

  function Balance(events: seq<Event>): int {
    if events == [] then 0
    else Balance(events[..|events| - 1]) + (if events[|events| - 1].Connected? then 1 else -1)
  }

  lemma {:induction false} BalanceAppend(a: seq<Event>, b: seq<Event>)
    ensures Balance(a + b) == Balance(a) + Balance(b)
  {
    if b == [] {
      assert a + b == a;
    } else {
      assert (a + b)[..|a + b| - 1] == a + b[..|b| - 1];
      BalanceAppend(a, b[..|b| - 1]);
    }
  }

  /** Guards report each disconnect after its connect, so the loop's count is exact: it never
      saturates. The loop holds a received event for at most as long as time has run. */
  ghost predicate Inv(s: State) {
    && |s.wakes| <= |s.sent|
    && (forall k :: 0 <= k <= |s.sent| ==> Balance(s.sent[..k]) >= 0)
    && s.guards == Balance(s.sent)
    && (forall k :: 0 <= k < |s.wakes| ==> s.wakes[k].Received? && s.wakes[k].event == s.sent[k] && s.wakes[k].at <= s.now)
    && Clients(s.wakes) == Balance(s.sent[..|s.wakes|])
    && s.start <= s.now && s.busy <= s.now
  }

  lemma SendKeeps(s: State, e: Event)
    requires Inv(s) && (e.Disconnected? ==> s.guards > 0)
    ensures Inv(s.(sent := s.sent + [e], guards := if e.Connected? then s.guards + 1 else s.guards - 1, busy := s.now))
  {
    var sent := s.sent + [e];
    assert sent[..|s.sent|] == s.sent;
    assert Balance(sent) == Balance(s.sent) + (if e.Connected? then 1 else -1);
    forall k | 0 <= k <= |sent| ensures Balance(sent[..k]) >= 0 {
      if k <= |s.sent| {
        assert sent[..k] == s.sent[..k];
      } else {
        assert sent[..k] == sent;
      }
    }
    assert sent[..|s.wakes|] == s.sent[..|s.wakes|];
  }

  lemma ReceiveKeeps(s: State)
    requires Inv(s) && |s.wakes| < |s.sent|
    ensures Inv(s.(wakes := s.wakes + [Received(s.sent[|s.wakes|], s.now)]))
  {
    var k := |s.wakes|;
    var wakes := s.wakes + [Received(s.sent[k], s.now)];
    assert wakes[..k] == s.wakes;
    assert s.sent[..k + 1][..k] == s.sent[..k];
    assert Balance(s.sent[..k + 1]) >= 0;
    assert Clients(wakes) == Balance(s.sent[..k + 1]);
  }

  lemma StepKeeps(timeout: nat, s: State, a: Action)
    requires Inv(s)
    ensures Inv(Step(timeout, s, a))
  {
    match a
    case Connect => SendKeeps(s, Connected);
    case Drop =>
      if s.guards > 0 {
        SendKeeps(s, Disconnected);
      }
    case Receive =>
      if |s.wakes| < |s.sent| {
        ReceiveKeeps(s);
      }
    case _ =>
  }

  lemma {:induction false} RunKeeps(timeout: nat, s: State, acts: seq<Action>)
    requires Inv(s)
    ensures Inv(Exec(timeout, s, acts))
    decreases |acts|
  {
    if acts != [] {
      StepKeeps(timeout, s, acts[0]);
      RunKeeps(timeout, Step(timeout, s, acts[0]), acts[1..]);
    }
  }

  lemma InitialInv(start: nat)
    ensures Inv(Initial(start))
  {
    var s := Initial(start);
    forall k | 0 <= k <= |s.sent| ensures Balance(s.sent[..k]) >= 0 {
      assert s.sent[..k] == [];
    }
  }

  /** In every run the count is that of the guards whose events were received, and the loop may return
      only when this is zero and nothing was received for the whole timeout. */
  lemma CountIsExactInEveryRun(timeout: nat, start: nat, acts: seq<Action>)
    ensures var s := Exec(timeout, Initial(start), acts);
      && |s.wakes| <= |s.sent|
      && Clients(s.wakes) == Balance(s.sent[..|s.wakes|])
      && Clients(s.wakes) + Balance(Queued(s)) == s.guards
      && (Enabled(timeout, s, Fire) ==>
            && Balance(s.sent[..|s.wakes|]) == 0 && start + timeout <= s.now
            && forall k :: 0 <= k < |s.wakes| ==> s.wakes[k].at + timeout <= s.now)
  {
    var s := Exec(timeout, Initial(start), acts);
    InitialInv(start);
    RunKeeps(timeout, Initial(start), acts);
    StartStays(timeout, Initial(start), acts);
    assert s.sent == s.sent[..|s.wakes|] + Queued(s);
    BalanceAppend(s.sent[..|s.wakes|], Queued(s));
    var wakes := s.wakes + [Elapsed(s.now)];
    assert wakes[..|s.wakes|] == s.wakes;
    if Enabled(timeout, s, Fire) {
      forall k | 0 <= k < |s.wakes| ensures s.wakes[k].at + timeout <= s.now {
        assert wakes[k] == s.wakes[k];
      }
    }
  }

  lemma {:induction false} StartStays(timeout: nat, s: State, acts: seq<Action>)
    ensures Exec(timeout, s, acts).start == s.start
    decreases |acts|
  {
    if acts != [] {
      StartStays(timeout, Step(timeout, s, acts[0]), acts[1..]);
    }
  }

  /** Whenever the loop may return, no client is connected exactly when the events still in the
      channel cancel out. */
  lemma FiresIdleIff(timeout: nat, start: nat, acts: seq<Action>)
    requires Enabled(timeout, Exec(timeout, Initial(start), acts), Fire)
    ensures var s := Exec(timeout, Initial(start), acts);
      |s.wakes| <= |s.sent| && (s.guards == 0 <==> Balance(Queued(s)) == 0)
  {
    CountIsExactInEveryRun(timeout, start, acts);
  }

  /** The loop can return with a client connected: its event is still in the channel when the timer
      is found elapsed. */
  lemma FiresWithAClient(timeout: nat, start: nat)
    ensures var s := Exec(timeout, Initial(start), [Wait(timeout), Connect]);
      s.guards == 1 && Enabled(timeout, s, Fire)
  {
    var s0 := Initial(start);
    var acts := [Wait(timeout), Connect];
    var s1 := Step(timeout, s0, Wait(timeout));
    var s2 := Step(timeout, s1, Connect);
    assert acts[1..] == [Connect] && [Connect][1..] == [];
    assert Exec(timeout, s1, [Connect]) == s2;
    assert (s2.wakes + [Elapsed(s2.now)])[..0] == [];
  }

  // ---- Trackers and guards ---------------------------------------------------------------------------

  /** The channel with its receiving loop, and the guards that are alive. `run` is the model's state that
      goes with them. */
  class Channel {
    var sent: seq<Event>
    ghost var live: set<ClientGuard>
    ghost var run: State

    /** The channel is that of a run, and the live guards are the clients of that run. */
    ghost predicate Valid()
      reads this
    {
      Inv(run) && run.sent == sent && run.guards == |live|
    }

    constructor (start: nat)
      ensures Valid() && live == {} && run == Initial(start)
    {
      sent, live, run := [], {}, Initial(start);
      new;
      InitialInv(start);
    }
  }

  class ActivityTracker {
    const tx: Channel

    constructor (tx: Channel)
      ensures this.tx == tx
    {
      this.tx := tx;
    }

    /** A new connection is a connect step of the run, and its guard joins the live ones: the clients
        counted by the loop and the events on their way stay as many as the live guards. */
    method ClientConnected(ghost timeout: nat) returns (guard: ClientGuard)
      requires tx.Valid()
      modifies tx
      ensures tx.Valid() && guard.tx == tx && fresh(guard)
      ensures tx.run == Step(timeout, old(tx.run), Connect) && tx.live == old(tx.live) + {guard}
      ensures |tx.run.wakes| <= |tx.sent| && Clients(tx.run.wakes) + Balance(Queued(tx.run)) == |tx.live|
    {
      StepKeeps(timeout, tx.run, Connect);
      tx.sent := tx.sent + [Connected];
      guard := new ClientGuard(tx);
      tx.run := Step(timeout, tx.run, Connect);
      assert guard !in tx.live;
      tx.live := tx.live + {guard};
      GuardsAreCounted(tx.run);
    }
  }

  class ClientGuard {
    const tx: Channel

    constructor (tx: Channel)
      ensures this.tx == tx
    {
      this.tx := tx;
    }

    /** The end of a live guard is a disconnect step of the run; the loop's count cannot fall below the
        other guards' clients. */
    method Drop(ghost timeout: nat)
      requires tx.Valid() && this in tx.live
      modifies tx
      ensures tx.Valid() && tx.run == Step(timeout, old(tx.run), Action.Drop) && tx.live == old(tx.live) - {this}
      ensures |tx.run.wakes| <= |tx.sent| && Clients(tx.run.wakes) + Balance(Queued(tx.run)) == |tx.live|
    {
      StepKeeps(timeout, tx.run, Action.Drop);
      tx.sent := tx.sent + [Disconnected];
      tx.run := Step(timeout, tx.run, Action.Drop);
      tx.live := tx.live - {this};
      GuardsAreCounted(tx.run);
    }
  }

  lemma GuardsAreCounted(s: State)
    requires Inv(s)
    ensures Clients(s.wakes) + Balance(Queued(s)) == s.guards
  {
    assert s.sent == s.sent[..|s.wakes|] + Queued(s);
    BalanceAppend(s.sent[..|s.wakes|], Queued(s));
  }

  // ---- A loop that keeps up ------------------------------------------------------------------------

  /** Time passes only while the channel is empty. */
  ghost predicate KeepsUp(timeout: nat, s: State, acts: seq<Action>)
    decreases |acts|
  {
    acts != [] ==>
      && (acts[0].Wait? && acts[0].span > 0 ==> |s.sent| <= |s.wakes|)
      && KeepsUp(timeout, Step(timeout, s, acts[0]), acts[1..])
  }

  /** The moment from which the loop's timer runs. */
  function Armed(s: State): nat {
    if s.wakes == [] then s.start else s.wakes[|s.wakes| - 1].at
  }

  /** With nothing queued and nobody counted, nobody has been connected since the timer was armed. */
  ghost predicate QuietSinceArmed(s: State) {
    |s.wakes| == |s.sent| && s.guards == 0 ==> s.busy <= Armed(s)
  }

  lemma StepQuiet(timeout: nat, s: State, a: Action)
    requires Inv(s) && QuietSinceArmed(s)
    requires a.Wait? && a.span > 0 ==> |s.sent| <= |s.wakes|
    ensures QuietSinceArmed(Step(timeout, s, a))
  {
  }

  lemma {:induction false} RunQuiet(timeout: nat, s: State, acts: seq<Action>)
    requires Inv(s) && QuietSinceArmed(s) && KeepsUp(timeout, s, acts)
    ensures Inv(Exec(timeout, s, acts)) && QuietSinceArmed(Exec(timeout, s, acts))
    decreases |acts|
  {
    if acts != [] {
      StepKeeps(timeout, s, acts[0]);
      StepQuiet(timeout, s, acts[0]);
      RunQuiet(timeout, Step(timeout, s, acts[0]), acts[1..]);
    }
  }

  // ---- What the actions taken say ------------------------------------------------------------------

  lemma {:induction false} ExecSnoc(timeout: nat, s: State, acts: seq<Action>, a: Action)
    ensures Exec(timeout, s, acts + [a]) == Step(timeout, Exec(timeout, s, acts), a)
    decreases |acts|
  {
    if acts == [] {
      assert [a][1..] == [];
    } else {
      assert (acts + [a])[1..] == acts[1..] + [a];
      ExecSnoc(timeout, Step(timeout, s, acts[0]), acts[1..], a);
    }
  }

  /** How many clients are connected. */
  function Connections(acts: seq<Action>): nat {
    if acts == [] then 0
    else
      var before := Connections(acts[..|acts| - 1]);
      match acts[|acts| - 1]
      case Connect => before + 1
      case Drop => if before > 0 then before - 1 else 0
      case _ => before
  }

  /** How much time has passed. */
  function Time(acts: seq<Action>): nat {
    if acts == [] then 0
    else Time(acts[..|acts| - 1]) + (if acts[|acts| - 1].Wait? then acts[|acts| - 1].span else 0)
  }

  /** What the guards sent. */
  function Events(acts: seq<Action>): seq<Event> {
    if acts == [] then []
    else
      var front, a := acts[..|acts| - 1], acts[|acts| - 1];
      if a.Connect? then Events(front) + [Connected]
      else if a.Drop? && Connections(front) > 0 then Events(front) + [Disconnected]
      else Events(front)
  }

  /** In every run: the clients, the clock and the events sent are what the actions made them, the loop can
      take an event while there is one, and it takes the oldest. */
  lemma {:induction false} EventsInEveryRun(timeout: nat, start: nat, acts: seq<Action>)
    ensures var s := Exec(timeout, Initial(start), acts);
      && s.guards == Connections(acts) && s.now == start + Time(acts) && s.sent == Events(acts)
      && (!s.fired ==> (Enabled(timeout, s, Receive) <==> |s.wakes| < |s.sent|))
      && (Enabled(timeout, s, Receive) ==>
            Step(timeout, s, Receive).wakes == s.wakes + [Received(Events(acts)[|s.wakes|], start + Time(acts))])
  {
    if acts != [] {
      var front, a := acts[..|acts| - 1], acts[|acts| - 1];
      assert acts == front + [a];
      ExecSnoc(timeout, Initial(start), front, a);
      EventsInEveryRun(timeout, start, front);
    }
  }

  lemma {:induction false} ExecAppend(timeout: nat, s: State, a: seq<Action>, b: seq<Action>)
    ensures Exec(timeout, s, a + b) == Exec(timeout, Exec(timeout, s, a), b)
    decreases |a|
  {
    if a == [] {
      assert a + b == b;
    } else {
      assert (a + b)[1..] == a[1..] + b;
      ExecAppend(timeout, Step(timeout, s, a[0]), a[1..], b);
    }
  }

  lemma BusyStep(timeout: nat, s: State, a: Action)
    requires s.busy <= s.now && (s.guards > 0 ==> s.busy == s.now)
    ensures var s' := Step(timeout, s, a);
      s.busy <= s'.busy <= s'.now && (s'.guards > 0 ==> s'.busy == s'.now)
  {
  }

  lemma {:induction false} BusyRun(timeout: nat, s: State, acts: seq<Action>)
    requires s.busy <= s.now && (s.guards > 0 ==> s.busy == s.now)
    ensures var s' := Exec(timeout, s, acts);
      s.busy <= s'.busy <= s'.now && (s'.guards > 0 ==> s'.busy == s'.now)
    decreases |acts|
  {
    if acts != [] {
      BusyStep(timeout, s, acts[0]);
      BusyRun(timeout, Step(timeout, s, acts[0]), acts[1..]);
    }
  }

  lemma ConnectedIsBusy(timeout: nat, start: nat, acts: seq<Action>, n: nat)
    requires n <= |acts| && Connections(acts[..n]) > 0
    ensures start + Time(acts[..n]) <= Exec(timeout, Initial(start), acts).busy
  {
    assert acts == acts[..n] + acts[n..];
    ExecAppend(timeout, Initial(start), acts[..n], acts[n..]);
    EventsInEveryRun(timeout, start, acts[..n]);
    BusyRun(timeout, Initial(start), acts[..n]);
    BusyRun(timeout, Exec(timeout, Initial(start), acts[..n]), acts[n..]);
  }

  /** If the loop keeps up with the channel and returns with nothing queued, then no client was
      connected at any moment of the last full timeout. */
  lemma FiresAfterFullIdlePeriod(timeout: nat, start: nat, acts: seq<Action>)
    requires KeepsUp(timeout, Initial(start), acts)
    requires var s := Exec(timeout, Initial(start), acts);
      Enabled(timeout, s, Fire) && |s.wakes| == |s.sent|
    ensures Connections(acts) == 0
    ensures forall n :: 0 <= n <= |acts| && Connections(acts[..n]) > 0 ==> Time(acts[..n]) + timeout <= Time(acts)
  {
    var s := Exec(timeout, Initial(start), acts);
    InitialInv(start);
    RunQuiet(timeout, Initial(start), acts);
    CountIsExactInEveryRun(timeout, start, acts);
    assert Queued(s) == [];
    EventsInEveryRun(timeout, start, acts);
    forall n | 0 <= n <= |acts| && Connections(acts[..n]) > 0 ensures Time(acts[..n]) + timeout <= Time(acts) {
      ConnectedIsBusy(timeout, start, acts, n);
    }
  }
}
