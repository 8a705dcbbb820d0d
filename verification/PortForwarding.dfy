/** Reference-counted port forwarding: many handles share one map, and a reconciler drives the
    tunnel from coalesced snapshots of that map. */
module PortForwarding {
  import opened Basics

  type Port = n: nat | n < 0x1_0000

  datatype PortPrivacy = Public | Private

  datatype PortProtocol = Auto | Http | Https

  datatype PortRec = PortRec(number: Port, privacy: PortPrivacy, protocol: PortProtocol)

  datatype PortCount = PortCount(public: nat, private: nat) {
    function Get(p: PortPrivacy): nat {
      if p.Public? then public else private
    }

    function Set(p: PortPrivacy, n: nat): PortCount {
      if p.Public? then this.(public := n) else this.(private := n)
    }

    predicate IsEmpty() {
      public == 0 && private == 0
    }

    function PrimaryPrivacy(): PortPrivacy {
      if public > 0 then Public else Private
    }
  }

  datatype PortMapRec = PortMapRec(count: PortCount, protocol: PortProtocol)

  type PortMap = map<Port, PortMapRec>

  // ---- Specification of `set_ports` ---------------------------------------------------------

  /** Gives back one record. `None` is the panic of a missing entry or of an unsigned underflow. */
  function Release(v: PortMap, p: PortRec): Option<PortMap> {
    if p.number !in v || v[p.number].count.Get(p.privacy) == 0 then None
    else
      var rec := v[p.number];
      var count := rec.count.Set(p.privacy, rec.count.Get(p.privacy) - 1);
      if count.IsEmpty() then Some(v - {p.number}) else Some(v[p.number := rec.(count := count)])
  }

  function Acquire(v: PortMap, p: PortRec): PortMap {
    var count := if p.number in v then v[p.number].count else PortCount(0, 0);
    v[p.number := PortMapRec(count.Set(p.privacy, count.Get(p.privacy) + 1), p.protocol)]
  }

  function ReleaseAll(v: PortMap, recs: seq<PortRec>): Option<PortMap>
    decreases |recs|
  {
    if recs == [] then Some(v)
    else
      var w := Release(v, recs[0]);
      if w.None? then None else ReleaseAll(w.value, recs[1..])
  }

  function AcquireAll(v: PortMap, recs: seq<PortRec>): PortMap
    decreases |recs|
  {
    if recs == [] then v else AcquireAll(Acquire(v, recs[0]), recs[1..])
  }

  /** The elements of `a` that do, or do not, occur in `b`. */
  function Select(a: seq<PortRec>, b: seq<PortRec>, present: bool): seq<PortRec> {
    if a == [] then []
    else (if (a[0] in b) == present then [a[0]] else []) + Select(a[1..], b, present)
  }

  /** The map after one handle replaces its list `current` by `ports`. */
  function Replaced(v: PortMap, current: seq<PortRec>, ports: seq<PortRec>): Option<PortMap> {
    var w := ReleaseAll(v, Select(current, ports, false));
    if w.None? then None else Some(AcquireAll(w.value, Select(ports, current, false)))
  }

  // ---- Counting -----------------------------------------------------------------------------

  predicate Matches(r: PortRec, n: Port, p: PortPrivacy) {
    r.number == n && r.privacy == p
  }

  /** How many records of the list ask for this port at this privacy. */
  function Tally(recs: seq<PortRec>, n: Port, p: PortPrivacy): nat {
    if recs == [] then 0 else (if Matches(recs[0], n, p) then 1 else 0) + Tally(recs[1..], n, p)
  }

  function CountOf(v: PortMap, n: Port, p: PortPrivacy): nat {
    if n in v then v[n].count.Get(p) else 0
  }

  /** A port is a key exactly when one of its counts is positive. */
  ghost predicate Canonical(v: PortMap) {
    forall n :: n in v ==> !v[n].count.IsEmpty()
  }

  lemma ReleaseCounts(v: PortMap, r: PortRec)
    requires Canonical(v)
    ensures Release(v, r).Some? <==> CountOf(v, r.number, r.privacy) > 0
    ensures Release(v, r).Some? ==> Canonical(Release(v, r).value)
    ensures Release(v, r).Some? ==> forall n, p ::
      CountOf(Release(v, r).value, n, p) == CountOf(v, n, p) - (if Matches(r, n, p) then 1 else 0)
  {
  }

  /** Giving back a list succeeds exactly when every count covers it, and lowers the counts by it. */
  lemma {:induction false} ReleaseAllCounts(v: PortMap, recs: seq<PortRec>)
    requires Canonical(v)
    ensures ReleaseAll(v, recs).Some? <==> forall n, p :: Tally(recs, n, p) <= CountOf(v, n, p)
    ensures ReleaseAll(v, recs).Some? ==> Canonical(ReleaseAll(v, recs).value)
    ensures ReleaseAll(v, recs).Some? ==>
      forall n, p :: CountOf(ReleaseAll(v, recs).value, n, p) == CountOf(v, n, p) - Tally(recs, n, p)
    decreases |recs|
  {
    if recs != [] {
      var r := recs[0];
      ReleaseCounts(v, r);
      assert Tally(recs, r.number, r.privacy) >= 1;
      if Release(v, r).Some? {
        var w := Release(v, r).value;
        ReleaseAllCounts(w, recs[1..]);
        assert forall n, p :: Tally(recs, n, p) <= CountOf(v, n, p) <==> Tally(recs[1..], n, p) <= CountOf(w, n, p);
      }
    }
  }

  lemma {:induction false} AcquireAllCounts(v: PortMap, recs: seq<PortRec>)
    requires Canonical(v)
    ensures Canonical(AcquireAll(v, recs))
    ensures forall n, p :: CountOf(AcquireAll(v, recs), n, p) == CountOf(v, n, p) + Tally(recs, n, p)
    decreases |recs|
  {
    if recs != [] {
      AcquireAllCounts(Acquire(v, recs[0]), recs[1..]);
    }
  }

  lemma {:induction false} TallySplit(a: seq<PortRec>, b: seq<PortRec>, n: Port, p: PortPrivacy)
    ensures Tally(a, n, p) == Tally(Select(a, b, true), n, p) + Tally(Select(a, b, false), n, p)
  {
    if a != [] {
      TallySplit(a[1..], b, n, p);
      var rest := Select(a[1..], b, a[0] in b);
      assert Select(a, b, a[0] in b) == [a[0]] + rest && ([a[0]] + rest)[1..] == rest;
      assert Select(a, b, a[0] !in b) == Select(a[1..], b, a[0] !in b);
    }
  }

  // ---- All handles together -----------------------------------------------------------------

  /** One entry per handle ever made; a dropped handle is `None`. */
  type Handles = seq<Option<seq<PortRec>>>

  function ListOf(h: Option<seq<PortRec>>): seq<PortRec> {
    if h.Some? then h.value else []
  }

  function Total(hs: Handles, n: Port, p: PortPrivacy): nat {
    if hs == [] then 0 else Tally(ListOf(hs[0]), n, p) + Total(hs[1..], n, p)
  }

  lemma {:induction false} TotalUpdate(hs: Handles, i: nat, h: Option<seq<PortRec>>, n: Port, p: PortPrivacy)
    requires i < |hs|
    ensures Total(hs[i := h], n, p) == Total(hs, n, p) - Tally(ListOf(hs[i]), n, p) + Tally(ListOf(h), n, p)
    ensures Tally(ListOf(hs[i]), n, p) <= Total(hs, n, p)
  {
    if i == 0 {
      assert hs[0 := h][1..] == hs[1..];
    } else {
      assert hs[i := h][1..] == hs[1..][i - 1 := h];
      TotalUpdate(hs[1..], i - 1, h, n, p);
    }
  }

  lemma {:induction false} TotalSnoc(hs: Handles, h: Option<seq<PortRec>>, n: Port, p: PortPrivacy)
    ensures Total(hs + [h], n, p) == Total(hs, n, p) + Tally(ListOf(h), n, p)
  {
    if hs == [] {
      assert [h][1..] == [];
    } else {
      assert (hs + [h])[1..] == hs[1..] + [h];
      TotalSnoc(hs[1..], h, n, p);
    }
  }

  /** The shared map holds exactly the sum of what the live handles ask for. */
  ghost predicate Consistent(v: PortMap, hs: Handles) {
    Canonical(v) && forall n, p :: CountOf(v, n, p) == Total(hs, n, p)
  }

  /** For every port and privacy, the records the two lists share are equally many in both. */
  ghost predicate Balanced(current: seq<PortRec>, ports: seq<PortRec>) {
    forall n, p :: Tally(Select(ports, current, true), n, p) == Tally(Select(current, ports, true), n, p)
  }

  /** From a consistent map `set_ports` never panics, and the map stays consistent exactly when the
      shared records are equally many in the old and in the new list. */
  lemma ReplacedConsistentIff(v: PortMap, hs: Handles, i: nat, ports: seq<PortRec>)
    requires Consistent(v, hs) && i < |hs| && hs[i].Some?
    ensures Replaced(v, hs[i].value, ports).Some?
    ensures Consistent(Replaced(v, hs[i].value, ports).value, hs[i := Some(ports)]) <==> Balanced(hs[i].value, ports)
  {
    var current := hs[i].value;
    var gone, new_ := Select(current, ports, false), Select(ports, current, false);
    forall n, p
      ensures Tally(gone, n, p) <= CountOf(v, n, p)
    {
      TotalUpdate(hs, i, Some(ports), n, p);
      TallySplit(current, ports, n, p);
    }
    ReleaseAllCounts(v, gone);
    var w := ReleaseAll(v, gone).value;
    AcquireAllCounts(w, new_);
    var w' := AcquireAll(w, new_);
    forall n, p
      ensures CountOf(w', n, p) == Total(hs[i := Some(ports)], n, p)
        <==> Tally(Select(ports, current, true), n, p) == Tally(Select(current, ports, true), n, p)
    {
      TotalUpdate(hs, i, Some(ports), n, p);
      TallySplit(current, ports, n, p);
      TallySplit(ports, current, n, p);
    }
  }

  predicate NoRepeats(recs: seq<PortRec>) {
    forall i, j :: 0 <= i < j < |recs| ==> recs[i] != recs[j]
  }

  function MatchingSet(recs: seq<PortRec>, n: Port, p: PortPrivacy): set<PortRec> {
    set r | r in recs && Matches(r, n, p)
  }

  lemma MatchingSetNext(recs: seq<PortRec>, n: Port, p: PortPrivacy)
    requires recs != [] && NoRepeats(recs)
    ensures |MatchingSet(recs, n, p)| == |MatchingSet(recs[1..], n, p)| + (if Matches(recs[0], n, p) then 1 else 0)
  {
    var rest := MatchingSet(recs[1..], n, p);
    assert recs[0] !in recs[1..];
    assert forall r :: r in recs <==> r == recs[0] || r in recs[1..];
    if Matches(recs[0], n, p) {
      assert MatchingSet(recs, n, p) == rest + {recs[0]};
    } else {
      assert MatchingSet(recs, n, p) == rest;
    }
  }

  lemma {:induction false} TallyIsCardinality(recs: seq<PortRec>, n: Port, p: PortPrivacy)
    requires NoRepeats(recs)
    ensures Tally(recs, n, p) == |MatchingSet(recs, n, p)|
  {
    if recs != [] {
      TallyIsCardinality(recs[1..], n, p);
      MatchingSetNext(recs, n, p);
    }
  }

  lemma {:induction false} SelectMembers(a: seq<PortRec>, b: seq<PortRec>, present: bool)
    ensures forall r :: r in Select(a, b, present) <==> r in a && (r in b) == present
    ensures NoRepeats(a) ==> NoRepeats(Select(a, b, present))
  {
    if a != [] {
      SelectMembers(a[1..], b, present);
      assert a == [a[0]] + a[1..];
    }
  }

  /** Lists without repeated records are always balanced. */
  lemma NoRepeatsBalanced(current: seq<PortRec>, ports: seq<PortRec>)
    requires NoRepeats(current) && NoRepeats(ports)
    ensures Balanced(current, ports)
  {
    SelectMembers(current, ports, true);
    SelectMembers(ports, current, true);
    forall n, p
      ensures Tally(Select(ports, current, true), n, p) == Tally(Select(current, ports, true), n, p)
    {
      TallyIsCardinality(Select(ports, current, true), n, p);
      TallyIsCardinality(Select(current, ports, true), n, p);
      assert MatchingSet(Select(ports, current, true), n, p) == MatchingSet(Select(current, ports, true), n, p);
    }
  }

  // ---- Runs of handle operations ------------------------------------------------------------

  datatype Action = SetPorts(handle: nat, ports: seq<PortRec>) | CloneHandle(handle: nat) | DropHandle(handle: nat)

  datatype System = Live(ports: PortMap, handles: Handles) | Panicked

  predicate IsLive(s: System, h: nat) {
    s.Live? && h < |s.handles| && s.handles[h].Some?
  }

  function SetPortsStep(s: System, h: nat, ports: seq<PortRec>, after: Option<seq<PortRec>>): System
    requires IsLive(s, h)
  {
    var w := Replaced(s.ports, s.handles[h].value, ports);
    if w.None? then Panicked else Live(w.value, s.handles[h := after])
  }

  /** Only a live handle can be used; dropping one releases all its ports. */
  function Step(s: System, a: Action): System {
    if !IsLive(s, a.handle) then s else
    match a
    case SetPorts(h, ports) => SetPortsStep(s, h, ports, Some(ports))
    case CloneHandle(_) => s.(handles := s.handles + [Some([])])
    case DropHandle(h) => SetPortsStep(s, h, [], None)
  }

  function Exec(s: System, acts: seq<Action>): System
    decreases |acts|
  {
    if acts == [] then s else Exec(Step(s, acts[0]), acts[1..])
  }

  /** One handle with no ports, and an empty map. */
  const Initial := Live(map[], [Some([])])

  ghost predicate SystemOk(s: System) {
    && s.Live? && Consistent(s.ports, s.handles)
    && (forall h :: 0 <= h < |s.handles| ==> NoRepeats(ListOf(s.handles[h])))
  }

  lemma StepOk(s: System, a: Action)
    requires SystemOk(s) && (a.SetPorts? ==> NoRepeats(a.ports))
    ensures SystemOk(Step(s, a))
  {
    if IsLive(s, a.handle) {
      var h := a.handle;
      match a
      case SetPorts(_, ports) =>
        NoRepeatsBalanced(s.handles[h].value, ports);
        ReplacedConsistentIff(s.ports, s.handles, h, ports);
      case CloneHandle(_) =>
        forall n, p ensures Total(s.handles + [Some([])], n, p) == Total(s.handles, n, p) {
          TotalSnoc(s.handles, Some([]), n, p);
        }
      case DropHandle(_) =>
        NoRepeatsBalanced(s.handles[h].value, []);
        ReplacedConsistentIff(s.ports, s.handles, h, []);
        var dropped, emptied := s.handles[h := None], s.handles[h := Some([])];
        forall n, p ensures Total(dropped, n, p) == Total(emptied, n, p) {
          TotalUpdate(s.handles, h, None, n, p);
          TotalUpdate(s.handles, h, Some([]), n, p);
        }
    }
  }

  lemma {:induction false} RunOk(s: System, acts: seq<Action>)
    requires SystemOk(s)
    requires forall k :: 0 <= k < |acts| && acts[k].SetPorts? ==> NoRepeats(acts[k].ports)
    ensures SystemOk(Exec(s, acts))
    decreases |acts|
  {
    if acts != [] {
      StepOk(s, acts[0]);
      RunOk(Step(s, acts[0]), acts[1..]);
    }
  }

  /** Any number of handles, any sequence of set, clone and drop, lists without repeats: nothing
      panics, each count is the number of matching records over all live handles, and a port is a
      key exactly when some live handle asks for it. */
  lemma CountsMatchHandlesInEveryRun(acts: seq<Action>, n: Port, p: PortPrivacy)
    requires forall k :: 0 <= k < |acts| && acts[k].SetPorts? ==> NoRepeats(acts[k].ports)
    ensures var s := Exec(Initial, acts);
      && s.Live?
      && CountOf(s.ports, n, p) == Total(s.handles, n, p)
      && (n in s.ports <==> Total(s.handles, n, Public) + Total(s.handles, n, Private) > 0)
  {
    InitialOk();
    RunOk(Initial, acts);
    var s := Exec(Initial, acts);
    assert CountOf(s.ports, n, Public) == Total(s.handles, n, Public);
    assert CountOf(s.ports, n, Private) == Total(s.handles, n, Private);
  }

  /** Without the no-repeat rule the counts drift: listing a record twice and then nothing gives
      back more than was taken, and the map lookup panics. */
  lemma RepeatedRecordPanics(r: PortRec)
    ensures Exec(Initial, [SetPorts(0, [r]), SetPorts(0, [r, r]), SetPorts(0, [])]) == Panicked
  {
    var one := Acquire(map[], r);
    assert Select([r], [], false) == [r] by {
      assert [r][1..] == [];
    }
    assert AcquireAll(map[], [r]) == one by {
      assert [r][1..] == [];
    }
    assert Replaced(map[], [], [r]) == Some(one);
    var s1 := Step(Initial, SetPorts(0, [r]));
    assert s1 == Live(one, [Some([r])]);
    assert Select([r], [r, r], false) == [] by {
      assert [r][1..] == [];
    }
    assert Select([r, r], [r], false) == [] by {
      assert [r, r][1..] == [r] && [r][1..] == [];
    }
    assert Replaced(one, [r], [r, r]) == Some(one);
    var s2 := Step(s1, SetPorts(0, [r, r]));
    assert s2 == Live(one, [Some([r, r])]);
    assert Select([r, r], [], false) == [r, r] by {
      assert [r, r][1..] == [r] && [r][1..] == [];
    }
    assert Release(one, r) == Some(map[]);
    assert ReleaseAll(one, [r, r]).None? by {
      assert [r, r][1..] == [r];
    }
    assert Replaced(one, [r, r], []).None?;
    var acts := [SetPorts(0, [r]), SetPorts(0, [r, r]), SetPorts(0, [])];
    assert acts[1..] == [SetPorts(0, [r, r]), SetPorts(0, [])];
    assert acts[1..][1..] == [SetPorts(0, [])];
    assert Exec(s2, acts[1..][1..]) == Exec(Panicked, []);
  }

  // ---- What the snapshot means ----------------------------------------------------------------

  /** What the tunnel should forward for a snapshot: each port at its primary privacy. */
  function Wanted(v: PortMap): map<Port, PortPrivacy> {
    map n | n in v :: v[n].count.PrimaryPrivacy()
  }

  ghost predicate Lists(recs: seq<PortRec>, n: Port, p: PortPrivacy) {
    exists k :: 0 <= k < |recs| && Matches(recs[k], n, p)
  }

  /** Some live handle asks for the port at this privacy. */
  ghost predicate Asked(hs: Handles, n: Port, p: PortPrivacy) {
    exists h :: 0 <= h < |hs| && Lists(ListOf(hs[h]), n, p)
  }

  lemma {:induction false} TallyPositive(recs: seq<PortRec>, n: Port, p: PortPrivacy)
    ensures Tally(recs, n, p) > 0 <==> Lists(recs, n, p)
  {
    if recs != [] {
      TallyPositive(recs[1..], n, p);
      if k :| 0 <= k < |recs[1..]| && Matches(recs[1..][k], n, p) {
        assert Matches(recs[k + 1], n, p);
      }
      if k :| 0 < k < |recs| && Matches(recs[k], n, p) {
        assert Matches(recs[1..][k - 1], n, p);
      }
    }
  }

  lemma {:induction false} TotalPositive(hs: Handles, n: Port, p: PortPrivacy)
    ensures Total(hs, n, p) > 0 <==> Asked(hs, n, p)
  {
    if hs != [] {
      var rest := hs[1..];
      TallyPositive(ListOf(hs[0]), n, p);
      TotalPositive(rest, n, p);
      if h :| 0 <= h < |rest| && Lists(ListOf(rest[h]), n, p) {
        assert Lists(ListOf(hs[h + 1]), n, p);
      }
      if h :| 0 < h < |hs| && Lists(ListOf(hs[h]), n, p) {
        assert Lists(ListOf(rest[h - 1]), n, p);
      }
    }
  }

  /** A consistent snapshot wants a port exactly when some live handle asks for it, and wants it
      public exactly when some live handle asks for it publicly. */
  lemma WantedReflectsHandles(v: PortMap, hs: Handles, n: Port)
    requires Consistent(v, hs)
    ensures n in Wanted(v) <==> Asked(hs, n, Public) || Asked(hs, n, Private)
    ensures n in Wanted(v) ==> (Wanted(v)[n] == Public <==> Asked(hs, n, Public))
  {
    TotalPositive(hs, n, Public);
    TotalPositive(hs, n, Private);
    assert CountOf(v, n, Public) == Total(hs, n, Public);
    assert CountOf(v, n, Private) == Total(hs, n, Private);
  }

  // ---- What the actions taken ask for -------------------------------------------------------------

  /** How many handles there were, live or dropped. */
  function Made(acts: seq<Action>): nat {
    if acts == [] then 1
    else
      var front, a := acts[..|acts| - 1], acts[|acts| - 1];
      if a.CloneHandle? && Asks(front, a.handle).Some? then Made(front) + 1 else Made(front)
  }

  /** What the handle was last set to: nothing at first, and `None` unless it was made and not dropped. */
  function Asks(acts: seq<Action>, h: nat): Option<seq<PortRec>> {
    if acts == [] then if h == 0 then Some([]) else None
    else
      var front, a := acts[..|acts| - 1], acts[|acts| - 1];
      if a == DropHandle(h) then None
      else if a.SetPorts? && a.handle == h && Asks(front, h).Some? then Some(a.ports)
      else if a.CloneHandle? && h == Made(front) && Asks(front, a.handle).Some? then Some([])
      else Asks(front, h)
  }

  lemma {:induction false} ExecSnoc(s: System, acts: seq<Action>, a: Action)
    ensures Exec(s, acts + [a]) == Step(Exec(s, acts), a)
    decreases |acts|
  {
    if acts == [] {
      assert [a][1..] == [];
    } else {
      assert (acts + [a])[1..] == acts[1..] + [a];
      ExecSnoc(Step(s, acts[0]), acts[1..], a);
    }
  }

  lemma InitialOk()
    ensures SystemOk(Initial)
  {
    forall m, q ensures Total([Some([])], m, q) == 0 {
      assert Total([Some([])], m, q) == Tally(ListOf(Some([])), m, q) + Total([Some([])][1..], m, q);
    }
  }

  /** In every run the handles and their lists are what the actions made them. */
  lemma {:induction false} HandlesInEveryRun(acts: seq<Action>)
    requires forall k :: 0 <= k < |acts| && acts[k].SetPorts? ==> NoRepeats(acts[k].ports)
    ensures var s := Exec(Initial, acts);
      && SystemOk(s) && |s.handles| == Made(acts)
      && forall h: nat :: Asks(acts, h) == if h < |s.handles| then s.handles[h] else None
  {
    if acts == [] {
      InitialOk();
    } else {
      var front, a := acts[..|acts| - 1], acts[|acts| - 1];
      assert acts == front + [a];
      ExecSnoc(Initial, front, a);
      HandlesInEveryRun(front);
      StepOk(Exec(Initial, front), a);
    }
  }

  /** In every run the shared map wants exactly the ports that some handle was last set to, and wants them
      public exactly when some handle was last set to have them public. */
  lemma WantedInEveryRun(acts: seq<Action>, n: Port)
    requires forall k :: 0 <= k < |acts| && acts[k].SetPorts? ==> NoRepeats(acts[k].ports)
    ensures Exec(Initial, acts).Live?
    ensures n in Exec(Initial, acts).ports <==>
      exists h: nat, k: nat :: Asks(acts, h).Some? && k < |Asks(acts, h).value| && Asks(acts, h).value[k].number == n
    ensures n in Exec(Initial, acts).ports ==> (Exec(Initial, acts).ports[n].count.public > 0 <==>
      exists h: nat, k: nat ::
        Asks(acts, h).Some? && k < |Asks(acts, h).value| && Asks(acts, h).value[k].number == n
        && Asks(acts, h).value[k].privacy == Public)
  {
    HandlesInEveryRun(acts);
    var s := Exec(Initial, acts);
    WantedReflectsHandles(s.ports, s.handles, n);
    AskedMeans(acts, s.handles, n, Public);
    AskedMeans(acts, s.handles, n, Private);
    if h: nat, k: nat :| Asks(acts, h).Some? && k < |Asks(acts, h).value| && Asks(acts, h).value[k].number == n {
      assert Asks(acts, h).value[k].privacy == Public || Asks(acts, h).value[k].privacy == Private;
    }
  }

  lemma AskedMeans(acts: seq<Action>, hs: Handles, n: Port, p: PortPrivacy)
    requires forall h: nat :: Asks(acts, h) == if h < |hs| then hs[h] else None
    ensures Asked(hs, n, p) <==>
      exists h: nat, k: nat ::
        Asks(acts, h).Some? && k < |Asks(acts, h).value| && Asks(acts, h).value[k].number == n
        && Asks(acts, h).value[k].privacy == p
  {
    if Asked(hs, n, p) {
      var h: nat :| h < |hs| && Lists(ListOf(hs[h]), n, p);
      var k: nat :| k < |ListOf(hs[h])| && Matches(ListOf(hs[h])[k], n, p);
      assert Asks(acts, h) == hs[h] && hs[h].Some?;
      assert k < |Asks(acts, h).value| && Asks(acts, h).value[k].number == n && Asks(acts, h).value[k].privacy == p;
    } else {
      forall h: nat, k: nat | Asks(acts, h).Some? && k < |Asks(acts, h).value|
        ensures !(Asks(acts, h).value[k].number == n && Asks(acts, h).value[k].privacy == p)
      {
        assert Asks(acts, h) == hs[h] && !Lists(ListOf(hs[h]), n, p);
        assert !Matches(ListOf(hs[h])[k], n, p);
      }
    }
  }

  lemma {:induction false} AcquireLast(v: PortMap, recs: seq<PortRec>, r: PortRec)
    ensures AcquireAll(v, recs + [r]) == Acquire(AcquireAll(v, recs), r)
    decreases |recs|
  {
    if recs == [] {
      assert [r][1..] == [];
    } else {
      assert (recs + [r])[1..] == recs[1..] + [r];
      AcquireLast(Acquire(v, recs[0]), recs[1..], r);
    }
  }

  /** A port has the protocol it was listed with last. */
  lemma {:induction false} LastProtocolWins(v: PortMap, recs: seq<PortRec>, k: nat)
    requires k < |recs| && forall l :: k < l < |recs| ==> recs[l].number != recs[k].number
    ensures recs[k].number in AcquireAll(v, recs)
    ensures AcquireAll(v, recs)[recs[k].number].protocol == recs[k].protocol
  {
    var front, last := recs[..|recs| - 1], recs[|recs| - 1];
    assert recs == front + [last];
    AcquireLast(v, front, last);
    if k < |front| {
      LastProtocolWins(v, front, k);
    }
  }

  /** Giving records back changes no protocol. */
  lemma {:induction false} ReleaseKeepsProtocols(v: PortMap, recs: seq<PortRec>)
    requires ReleaseAll(v, recs).Some?
    ensures var w := ReleaseAll(v, recs).value;
      forall n :: n in w ==> n in v && w[n].protocol == v[n].protocol
    decreases |recs|
  {
    if recs != [] {
      ReleaseKeepsProtocols(Release(v, recs[0]).value, recs[1..]);
    }
  }

  // ---- The sender object ------------------------------------------------------------------------

  lemma ReleaseAllNext(v: PortMap, recs: seq<PortRec>, ports: seq<PortRec>)
    requires recs != []
    ensures ReleaseAll(v, Select(recs, ports, false)) ==
      if recs[0] in ports then ReleaseAll(v, Select(recs[1..], ports, false))
      else if Release(v, recs[0]).None? then None
      else ReleaseAll(Release(v, recs[0]).value, Select(recs[1..], ports, false))
  {
    var rest := Select(recs[1..], ports, false);
    assert ([recs[0]] + rest)[1..] == rest && [] + rest == rest;
  }

  lemma AcquireAllNext(v: PortMap, recs: seq<PortRec>, current: seq<PortRec>)
    requires recs != []
    ensures AcquireAll(v, Select(recs, current, false)) ==
      AcquireAll(if recs[0] in current then v else Acquire(v, recs[0]), Select(recs[1..], current, false))
  {
    var rest := Select(recs[1..], current, false);
    assert ([recs[0]] + rest)[1..] == rest && [] + rest == rest;
  }

  /** The map shared by all senders, behind its watch channel. */
  class SharedPorts {
    var ports: PortMap

    constructor ()
      ensures ports == map[]
    {
      ports := map[];
    }
  }

  class PortForwardingSender {
    var current: seq<PortRec>
    const shared: SharedPorts

    constructor (shared: SharedPorts)
      ensures current == [] && this.shared == shared
    {
      this.current := [];
      this.shared := shared;
    }

    /** Takes back what is no longer listed, then adds what is new; the whole change is one
        modification of the shared map. On a panic the map is left part-way. */
    method SetPorts(ports: seq<PortRec>) returns (panicked: bool)
      modifies this, shared
      ensures var w := Replaced(old(shared.ports), old(current), ports);
        if panicked then w.None? && current == old(current)
        else w == Some(shared.ports) && current == ports
    {
      var v: PortMap := shared.ports;
      ghost var v0: PortMap := v;
      for i := 0 to |current|
        invariant unchanged(this) && unchanged(shared)
        invariant ReleaseAll(v0, Select(current, ports, false)) == ReleaseAll(v, Select(current[i..], ports, false))
      {
        var p := current[i];
        ReleaseAllNext(v, current[i..], ports);
        assert current[i..][1..] == current[i + 1..];
        if p !in ports {
          ghost var released := Release(v, p);
          if p.number !in v || v[p.number].count.Get(p.privacy) == 0 {
            return true;
          }
          var n := v[p.number];
          n := n.(count := n.count.Set(p.privacy, n.count.Get(p.privacy) - 1));
          if n.count.IsEmpty() {
            v := v - {p.number};
          } else {
            v := v[p.number := n];
          }
          assert released == Some(v);
        }
      }
      ghost var v1: PortMap := v;
      assert ReleaseAll(v0, Select(current, ports, false)) == Some(v1);
      for i := 0 to |ports|
        invariant unchanged(this) && unchanged(shared)
        invariant AcquireAll(v1, Select(ports, current, false)) == AcquireAll(v, Select(ports[i..], current, false))
      {
        var p := ports[i];
        AcquireAllNext(v, ports[i..], current);
        assert ports[i..][1..] == ports[i + 1..];
        if p !in current {
          ghost var acquired := Acquire(v, p);
          if p.number in v {
            var n := v[p.number];
            v := v[p.number := PortMapRec(n.count.Set(p.privacy, n.count.Get(p.privacy) + 1), p.protocol)];
          } else {
            v := v[p.number := PortMapRec(PortCount(0, 0).Set(p.privacy, 1), p.protocol)];
          }
          assert acquired == v;
        }
      }
      shared.ports := v;
      current := ports;
      panicked := false;
    }

    /** A clone shares the map and starts with no ports of its own. */
    method Clone() returns (other: PortForwardingSender)
      ensures fresh(other) && other.current == [] && other.shared == shared
    {
      other := new PortForwardingSender(shared);
    }

    /** What happens when a sender goes out of scope. */
    method Drop() returns (panicked: bool)
      modifies this, shared
      ensures var w := Replaced(old(shared.ports), old(current), []);
        if panicked then w.None? else w == Some(shared.ports) && current == []
    {
      panicked := SetPorts([]);
    }
  }

  // ---- The reconciler ------------------------------------------------------------------------------

  /** One call on the tunnel, and whether the port was forwarded when it was made. */
  datatype TunnelCall = Removed(port: Port, wasForwarded: bool) | Added(port: Port, wasForwarded: bool)

  predicate Proper(c: TunnelCall) {
    c.wasForwarded == c.Removed?
  }

  class ActiveTunnel {
    var forwarded: map<Port, PortPrivacy>
    ghost var calls: seq<TunnelCall>

    constructor ()
      ensures forwarded == map[] && calls == []
    {
      forwarded, calls := map[], [];
    }

    method RemovePort(port: Port, fails: bool)
      modifies this
      ensures forwarded == if fails then old(forwarded) else old(forwarded) - {port}
      ensures calls == old(calls) + [Removed(port, port in old(forwarded))]
    {
      calls := calls + [Removed(port, port in forwarded)];
      if !fails {
        forwarded := forwarded - {port};
      }
    }

    method AddPortTcp(port: Port, privacy: PortPrivacy, fails: bool)
      modifies this
      ensures forwarded == if fails then old(forwarded) else old(forwarded)[port := privacy]
      ensures calls == old(calls) + [Added(port, port in old(forwarded))]
    {
      calls := calls + [Added(port, port in forwarded)];
      if !fails {
        forwarded := forwarded[port := privacy];
      }
    }
  }

  /** A snapshot the reconciler observed, and the ports whose tunnel calls fail in that round. */
  datatype Round = Round(next: PortMap, failing: set<Port>)

  /** The tunnel treats this port as the snapshot wants it. */
  predicate Agrees(forwarded: map<Port, PortPrivacy>, wanted: map<Port, PortPrivacy>, port: Port) {
    if port in wanted then port in forwarded && forwarded[port] == wanted[port] else port !in forwarded
  }

  predicate SamePrivacy(v: PortMap, port: Port, privacy: PortPrivacy) {
    port in v && v[port].count.PrimaryPrivacy() == privacy
  }

  class PortForwardingReceiver {
    constructor () {
    }

    /** First half of a round: stop forwarding what the next snapshot no longer has at this privacy. */
    method RemoveStale(current: PortMap, r: Round, ghost bad: set<Port>, tunnel: ActiveTunnel)
      requires forall p :: p !in bad ==> Agrees(tunnel.forwarded, Wanted(current), p)
      requires r.failing <= bad
      requires forall k :: 0 <= k < |tunnel.calls| ==> tunnel.calls[k].port in bad || Proper(tunnel.calls[k])
      modifies tunnel
      ensures forall k :: 0 <= k < |tunnel.calls| ==> tunnel.calls[k].port in bad || Proper(tunnel.calls[k])
      ensures forall p :: p !in bad ==>
        if p in current && SamePrivacy(r.next, p, current[p].count.PrimaryPrivacy())
        then Agrees(tunnel.forwarded, Wanted(r.next), p) else p !in tunnel.forwarded
    {
      var todo := current.Keys;
      while todo != {}
        invariant todo <= current.Keys
        invariant forall k :: 0 <= k < |tunnel.calls| ==> tunnel.calls[k].port in bad || Proper(tunnel.calls[k])
        invariant forall p :: p !in bad && p in todo ==> Agrees(tunnel.forwarded, Wanted(current), p)
        invariant forall p :: p !in bad && p !in todo ==>
          if p in current && SamePrivacy(r.next, p, current[p].count.PrimaryPrivacy())
          then Agrees(tunnel.forwarded, Wanted(r.next), p) else p !in tunnel.forwarded
        decreases todo
      {
        var port :| port in todo;
        var privacy := current[port].count.PrimaryPrivacy();
        if !SamePrivacy(r.next, port, privacy) {
          tunnel.RemovePort(port, port in r.failing);
        }
        todo := todo - {port};
      }
    }

    /** Second half of a round: start forwarding what is new or changed its privacy. */
    method AddNew(current: PortMap, r: Round, ghost bad: set<Port>, tunnel: ActiveTunnel)
      requires forall p :: p !in bad ==>
        if p in current && SamePrivacy(r.next, p, current[p].count.PrimaryPrivacy())
        then Agrees(tunnel.forwarded, Wanted(r.next), p) else p !in tunnel.forwarded
      requires r.failing <= bad
      requires forall k :: 0 <= k < |tunnel.calls| ==> tunnel.calls[k].port in bad || Proper(tunnel.calls[k])
      modifies tunnel
      ensures forall k :: 0 <= k < |tunnel.calls| ==> tunnel.calls[k].port in bad || Proper(tunnel.calls[k])
      ensures forall p :: p !in bad ==> Agrees(tunnel.forwarded, Wanted(r.next), p)
    {
      var todo := r.next.Keys;
      while todo != {}
        invariant todo <= r.next.Keys
        invariant forall k :: 0 <= k < |tunnel.calls| ==> tunnel.calls[k].port in bad || Proper(tunnel.calls[k])
        invariant forall p :: p !in bad && p !in todo ==> Agrees(tunnel.forwarded, Wanted(r.next), p)
        invariant forall p :: p !in bad && p in todo ==>
          if p in current && SamePrivacy(r.next, p, current[p].count.PrimaryPrivacy())
          then Agrees(tunnel.forwarded, Wanted(r.next), p) else p !in tunnel.forwarded
        decreases todo
      {
        var port :| port in todo;
        var privacy := r.next[port].count.PrimaryPrivacy();
        if !SamePrivacy(current, port, privacy) {
          tunnel.AddPortTcp(port, privacy, port in r.failing);
        }
        todo := todo - {port};
      }
    }

    /** The reconciler over any sequence of snapshots. For every port whose own calls never failed,
        the tunnel ends up as the last snapshot wants it, and no call added a port that was already
        forwarded or removed one that was not. */
    method ApplyTo(rounds: seq<Round>, tunnel: ActiveTunnel) returns (ghost bad: set<Port>)
      requires tunnel.forwarded == map[] && tunnel.calls == []
      modifies tunnel
      ensures forall p :: p in bad <==> exists k :: 0 <= k < |rounds| && p in rounds[k].failing
      ensures forall p :: p !in bad ==>
        var last: PortMap := if rounds == [] then map[] else rounds[|rounds| - 1].next;
        && (p in tunnel.forwarded <==> p in last)
        && (p in last ==> tunnel.forwarded[p] == if last[p].count.public > 0 then Public else Private)
      ensures forall k :: 0 <= k < |tunnel.calls| ==> tunnel.calls[k].port in bad || Proper(tunnel.calls[k])
    {
      bad := {};
      var current: PortMap := map[];
      for i := 0 to |rounds|
        invariant current == if i == 0 then map[] else rounds[i - 1].next
        invariant forall p :: p in bad <==> exists k :: 0 <= k < i && p in rounds[k].failing
        invariant forall p :: p !in bad ==> Agrees(tunnel.forwarded, Wanted(current), p)
        invariant forall k :: 0 <= k < |tunnel.calls| ==> tunnel.calls[k].port in bad || Proper(tunnel.calls[k])
      {
        bad := bad + rounds[i].failing;
        RemoveStale(current, rounds[i], bad, tunnel);
        AddNew(current, rounds[i], bad, tunnel);
        current := rounds[i].next;
      }
    }
  }

  /** With no failing call the tunnel map is exactly what the last snapshot wants. */
  lemma AgreementEverywhereIsEquality(forwarded: map<Port, PortPrivacy>, wanted: map<Port, PortPrivacy>)
    requires forall p :: Agrees(forwarded, wanted, p)
    ensures forwarded == wanted
  {
    assert forall p :: p in forwarded <==> p in wanted by {
      forall p ensures p in forwarded <==> p in wanted {
        assert Agrees(forwarded, wanted, p);
      }
    }
    forall p | p in wanted ensures forwarded[p] == wanted[p] {
      assert Agrees(forwarded, wanted, p);
    }
  }
}
